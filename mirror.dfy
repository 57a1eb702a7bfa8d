/** How the client's confirm-then-apply updates track the server's table:
    starting from a client list equal to the server's table, applying what
    each handler returns keeps the two equal. */
module Mirror {
  import opened Tasks
  import opened Store
  import opened Api

  /** `fetchTasks` stores the list the server sends: when the first request
      brings back the unfiltered listing, the client holds the server's
      table and no error. */
  lemma FetchMirrored(db: seq<Task>, prior: seq<Task>, retries: int, responses: seq<Outcome<seq<Task>>>)
    requires |responses| >= MaxAttempts(retries)
    requires responses[0] == Ok(GetTasks(db, None, None))
    ensures FetchChain(prior, retries, responses) == FetchEnd(db, "", 1)
  {
    FetchStopsAtFirstSuccess(prior, retries, responses, 0);
  }

  /** `addTask` appends the row `create_task` returned, which is the row the
      server appended: the two tables stay equal, stay well keyed, and the
      new row is the one the client finds under its id. */
  lemma CreateMirrored(db: seq<Task>, body: Task)
    requires WellKeyed(db)
    ensures var created := Created(db, body);
      WellKeyed(db + [created]) &&
      FindIndex(db + [created], created.id.value) == Some(|db|)
  {
    var created := Created(db, body);
    var after := db + [created];
    CreateKeepsWellKeyed(db, body);
    assert after[|db|].id == Some(created.id.value);
  }

  /** `editTask` replaces the first match by the row `update_task` returned,
      which is where the server stored it. */
  lemma UpdateMirrored(db: seq<Task>, taskId: int, body: Task)
    ensures var server := ReplaceFirst(db, taskId, Replacement(taskId, body));
      FindIndex(db, taskId).Some? ==>
        ReplaceFirst(db, taskId, server[FindIndex(db, taskId).value]) == server
  {
  }

  /** `removeTask` drops every row with the id, `delete_task` pops the
      first: on a well-keyed table they agree. */
  lemma DeleteMirrored(db: seq<Task>, taskId: int)
    requires WellKeyed(db)
    ensures WithoutId(db, taskId) == AfterDelete(db, taskId)
  {
    match FindIndex(db, taskId)
    case None =>
      FilterKeepsAll(db, NotWithId(taskId));
    case Some(i) =>
      RemoveDropsExactlyOne(db, taskId, i);
  }

  /** `markTaskComplete`/`markTaskUncomplete` replace the first match by the
      row `complete_task`/`uncomplete_task` returned. */
  lemma SetCompletedMirrored(db: seq<Task>, taskId: int, flag: bool)
    ensures var server := AfterSetCompleted(db, taskId, flag);
      FindIndex(db, taskId).Some? ==>
        ReplaceFirst(db, taskId, server[FindIndex(db, taskId).value]) == server
  {
  }
}
