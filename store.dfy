/** The client-side task store: the canonical list of tasks shown by the UI,
    its derived views, the start-up fetch with retries and the
    confirm-then-apply mutations. Each call to the API server is replaced by
    a parameter holding what that call settled to. */
module Store {
  import opened Tasks

  /** What a rejected API call carries: the error's `message`, which may be
      missing or empty. */
  datatype ApiError = ApiError(message: Option<string>)

  /** How one API call settled: resolved with a value or rejected. */
  datatype Outcome<+T> = Ok(value: T) | Err(failure: ApiError)

  const FetchFallback := "获取任务失败，请检查后端服务"
  const AddFallback := "添加任务失败"
  const EditFallback := "更新任务失败"
  const RemoveFallback := "删除任务失败"
  const StatusFallback := "更新任务状态失败"

  /** Defaults of `fetchTasks(retries, delay)`; the delay is in milliseconds. */
  const DefaultRetries := 5
  const DefaultDelay := 1000

  /** `err.message || fallback`: the error's own message unless it is missing
      or empty, in which case the operation's generic text. */
  function ErrorText(e: ApiError, fallback: string): (r: string)
    ensures fallback != "" ==> r != ""
    ensures r == fallback || (e.message == Some(r) && r != "")
    ensures e.message.Some? && e.message.value != "" ==> r == e.message.value
  {
    match e.message
    case Some(m) => if m != "" then m else fallback
    case None => fallback
  }

  // ---------------------------------------------------------------------
  // Derived views

  predicate IsCompleted(t: Task) { t.completed }
  predicate IsPending(t: Task) { !t.completed }
  predicate IsHigh(t: Task) { t.priority == 3 }
  predicate IsMedium(t: Task) { t.priority == 2 }
  predicate IsLow(t: Task) { t.priority == 1 }
  predicate KnownPriority(t: Task) { 1 <= t.priority <= 3 }

  /** The completed tasks, in list order. */
  function CompletedTasks(ts: seq<Task>): (r: seq<Task>)
    ensures forall t :: t in r <==> t in ts && t.completed
  {
    Filter(ts, IsCompleted)
  }

  /** The tasks not yet completed, in list order. */
  function PendingTasks(ts: seq<Task>): (r: seq<Task>)
    ensures forall t :: t in r <==> t in ts && !t.completed
  {
    Filter(ts, IsPending)
  }

  datatype PriorityViews = PriorityViews(high: seq<Task>, medium: seq<Task>, low: seq<Task>)

  /** The tasks grouped by priority 3, 2 and 1; a task with any other
      priority is in no group. */
  function PriorityTasks(ts: seq<Task>): (r: PriorityViews)
    ensures forall t :: t in r.high <==> t in ts && t.priority == 3
    ensures forall t :: t in r.medium <==> t in ts && t.priority == 2
    ensures forall t :: t in r.low <==> t in ts && t.priority == 1
    ensures forall t: Task :: !KnownPriority(t) ==> t !in r.high && t !in r.medium && t !in r.low
  {
    PriorityViews(Filter(ts, IsHigh), Filter(ts, IsMedium), Filter(ts, IsLow))
  }

  /** Completed and pending tasks together hold every task exactly as often as
      the list does. */
  lemma CompletedPendingPartition(ts: seq<Task>)
    ensures multiset(CompletedTasks(ts)) + multiset(PendingTasks(ts)) == multiset(ts)
    ensures |CompletedTasks(ts)| + |PendingTasks(ts)| == |ts|
  {
    var c, p := CompletedTasks(ts), PendingTasks(ts);
    FilterCounts(ts, IsCompleted);
    FilterCounts(ts, IsPending);
    assert multiset(c) + multiset(p) == multiset(ts);
    assert |multiset(c) + multiset(p)| == |multiset(ts)|;
  }

  /** Each view is an order-preserving selection: viewing a concatenation is
      concatenating the views. */
  lemma ViewsPreserveOrder(a: seq<Task>, b: seq<Task>)
    ensures CompletedTasks(a + b) == CompletedTasks(a) + CompletedTasks(b)
    ensures PendingTasks(a + b) == PendingTasks(a) + PendingTasks(b)
    ensures PriorityTasks(a + b).high == PriorityTasks(a).high + PriorityTasks(b).high
    ensures PriorityTasks(a + b).medium == PriorityTasks(a).medium + PriorityTasks(b).medium
    ensures PriorityTasks(a + b).low == PriorityTasks(a).low + PriorityTasks(b).low
  {
    FilterAppend(a, b, IsCompleted);
    FilterAppend(a, b, IsPending);
    FilterAppend(a, b, IsHigh);
    FilterAppend(a, b, IsMedium);
    FilterAppend(a, b, IsLow);
  }

  /** The three priority groups hold every task whose priority is 1, 2 or 3
      exactly once, and nothing else. */
  lemma PriorityPartition(ts: seq<Task>)
    ensures var v := PriorityTasks(ts);
      multiset(v.high) + multiset(v.medium) + multiset(v.low)
        == multiset(Filter(ts, KnownPriority))
  {
    var v := PriorityTasks(ts);
    var known := Filter(ts, KnownPriority);
    var groups := multiset(v.high) + multiset(v.medium) + multiset(v.low);
    forall t
      ensures groups[t] == multiset(known)[t]
    {
      FilterCounts(ts, IsHigh);
      FilterCounts(ts, IsMedium);
      FilterCounts(ts, IsLow);
      FilterCounts(ts, KnownPriority);
      assert multiset(v.high)[t] == if IsHigh(t) then multiset(ts)[t] else 0;
      assert multiset(v.medium)[t] == if IsMedium(t) then multiset(ts)[t] else 0;
      assert multiset(v.low)[t] == if IsLow(t) then multiset(ts)[t] else 0;
      assert multiset(known)[t] == if KnownPriority(t) then multiset(ts)[t] else 0;
    }
    assert groups == multiset(known);
  }

  /** When every priority is 1, 2 or 3 the three groups together are as long
      as the list. */
  lemma PriorityGroupsCoverAll(ts: seq<Task>)
    requires forall j :: 0 <= j < |ts| ==> KnownPriority(ts[j])
    ensures var v := PriorityTasks(ts);
      |v.high| + |v.medium| + |v.low| == |ts|
  {
    var v := PriorityTasks(ts);
    PriorityPartition(ts);
    FilterKeepsAll(ts, KnownPriority);
    assert |multiset(v.high) + multiset(v.medium) + multiset(v.low)| == |v.high| + |v.medium| + |v.low|;
  }

  // ---------------------------------------------------------------------
  // Start-up fetch with fixed-interval retries

  /** The largest number of list requests `fetchTasks(retries)` makes: the
      first one and one more per remaining retry. */
  function MaxAttempts(retries: int): (n: nat)
    ensures n >= 1 && (retries >= 0 ==> n == retries + 1)
  {
    if retries > 0 then retries + 1 else 1
  }

  /** Where a fetch chain settles: the list, the error text and how many
      requests it made. */
  datatype FetchEnd = FetchEnd(tasks: seq<Task>, error: string, attempts: nat)

  /** The end state of `fetchTasks(retries)` started on the list `prior`,
      when its successive list requests settle as `responses` says. */
  function FetchChain(prior: seq<Task>, retries: int, responses: seq<Outcome<seq<Task>>>): (r: FetchEnd)
    requires |responses| >= MaxAttempts(retries)
    ensures 1 <= r.attempts <= MaxAttempts(retries)
    ensures responses[r.attempts - 1].Ok? ==> r.tasks == responses[r.attempts - 1].value && r.error == ""
    ensures responses[r.attempts - 1].Err? ==> r.tasks == prior && r.error != ""
    decreases retries
  {
    match responses[0]
    case Ok(list) => FetchEnd(list, "", 1)
    case Err(e) =>
      if retries > 0 then
        var rest := FetchChain(prior, retries - 1, responses[1..]);
        rest.(attempts := rest.attempts + 1)
      else
        FetchEnd(prior, ErrorText(e, FetchFallback), 1)
  }

  /** When request `k` is the first to succeed and is within the retry budget,
      the chain stops there with that response as the list and no error. */
  lemma {:induction false} FetchStopsAtFirstSuccess(
    prior: seq<Task>, retries: int, responses: seq<Outcome<seq<Task>>>, k: nat)
    requires |responses| >= MaxAttempts(retries)
    requires k < MaxAttempts(retries) && responses[k].Ok?
    requires forall i :: 0 <= i < k ==> responses[i].Err?
    ensures FetchChain(prior, retries, responses) == FetchEnd(responses[k].value, "", k + 1)
  {
    if k > 0 {
      assert responses[0].Err?;
      FetchStopsAtFirstSuccess(prior, retries - 1, responses[1..], k - 1);
    }
  }

  /** When every request within the budget fails, the list is untouched and
      the error is the last failure's text (or the generic one). */
  lemma {:induction false} FetchExhausts(
    prior: seq<Task>, retries: int, responses: seq<Outcome<seq<Task>>>)
    requires |responses| >= MaxAttempts(retries)
    requires forall i :: 0 <= i < MaxAttempts(retries) ==> responses[i].Err?
    ensures var last := responses[MaxAttempts(retries) - 1];
      FetchChain(prior, retries, responses)
        == FetchEnd(prior, ErrorText(last.failure, FetchFallback), MaxAttempts(retries))
  {
    assert responses[0].Err?;
    if retries > 0 {
      var rest := responses[1..];
      forall i | 0 <= i < MaxAttempts(retries - 1)
        ensures rest[i].Err?
      {
        assert rest[i] == responses[i + 1];
      }
      FetchExhausts(prior, retries - 1, rest);
    }
  }

  /** The value `loading` holds while each list request of a fetch chain is
      outstanding. Every attempt sets the flag on entry. An attempt started
      by `return fetchTasks(...)` inside `try`/`finally` is not awaited, so
      its caller's `finally` clears the flag at once, before the new request
      settles. `awaited` chooses between that code (false) and the same code
      with the retry awaited (true); `cleared` says whether the caller's
      `finally` has already run for this attempt. */
  function LoadingWhileRequesting(
    retries: int, responses: seq<Outcome<seq<Task>>>, awaited: bool, cleared: bool): (r: seq<bool>)
    requires |responses| >= MaxAttempts(retries)
    ensures |r| == FetchChain([], retries, responses).attempts
    decreases retries
  {
    [!cleared] +
      if responses[0].Err? && retries > 0
      then LoadingWhileRequesting(retries - 1, responses[1..], awaited, !awaited)
      else []
  }

  /** As written: once the first request fails and a retry is left, every
      later request runs with `loading` already false. */
  lemma {:induction false} UnawaitedRetryClearsLoading(retries: int, responses: seq<Outcome<seq<Task>>>, cleared: bool)
    requires |responses| >= MaxAttempts(retries)
    ensures var seen := LoadingWhileRequesting(retries, responses, false, cleared);
      seen[0] == !cleared && forall k :: 1 <= k < |seen| ==> !seen[k]
  {
    if responses[0].Err? && retries > 0 {
      var later := LoadingWhileRequesting(retries - 1, responses[1..], false, true);
      UnawaitedRetryClearsLoading(retries - 1, responses[1..], true);
      assert LoadingWhileRequesting(retries, responses, false, cleared) == [!cleared] + later;
    }
  }

  /** With the retry awaited, `loading` is true during every request of the
      chain. */
  lemma {:induction false} AwaitedRetryKeepsLoading(retries: int, responses: seq<Outcome<seq<Task>>>)
    requires |responses| >= MaxAttempts(retries)
    ensures AllSet(LoadingWhileRequesting(retries, responses, true, false))
  {
    if responses[0].Err? && retries > 0 {
      var later := LoadingWhileRequesting(retries - 1, responses[1..], true, false);
      AwaitedRetryKeepsLoading(retries - 1, responses[1..]);
      var seen := [true] + later;
      assert LoadingWhileRequesting(retries, responses, true, false) == seen;
      forall k | 0 <= k < |seen|
        ensures seen[k]
      {
        if k > 0 {
          assert seen[k] == later[k - 1];
        }
      }
    }
  }

  predicate AllSet(flags: seq<bool>) {
    forall k :: 0 <= k < |flags| ==> flags[k]
  }

  /** A concrete case: with the default five retries, a first request that
      fails leaves the second request running with `loading` false. */
  lemma LoadingDropsOnFirstRetry(responses: seq<Outcome<seq<Task>>>)
    requires |responses| >= MaxAttempts(DefaultRetries) && responses[0].Err?
    ensures |LoadingWhileRequesting(DefaultRetries, responses, false, false)| >= 2
    ensures !LoadingWhileRequesting(DefaultRetries, responses, false, false)[1]
    ensures LoadingWhileRequesting(DefaultRetries, responses, true, false)[1]
  {
    UnawaitedRetryClearsLoading(DefaultRetries, responses, false);
    AwaitedRetryKeepsLoading(DefaultRetries, responses);
  }

  // ---------------------------------------------------------------------
  // The store

  /** The test `task => task.id !== id` kept by `removeTask`. */
  function NotWithId(id: int): Task -> bool {
    (t: Task) => t.id != Some(id)
  }

  /** The tasks left after removing every task with id `id`, in order. */
  function WithoutId(ts: seq<Task>, id: int): (r: seq<Task>)
    ensures forall j :: 0 <= j < |r| ==> r[j].id != Some(id)
    ensures forall t :: t in ts && t.id != Some(id) ==> t in r
    ensures forall t :: t in r ==> t in ts
  {
    var r := Filter(ts, NotWithId(id));
    assert forall j :: 0 <= j < |r| ==> r[j] in r;
    r
  }

  /** With unique ids, removing an id carried at position `i` drops exactly
      that one entry and keeps the others in order. */
  lemma RemoveDropsExactlyOne(ts: seq<Task>, id: int, i: nat)
    requires UniqueIds(ts)
    requires i < |ts| && ts[i].id == Some(id)
    ensures WithoutId(ts, id) == ts[..i] + ts[i + 1..]
    ensures |WithoutId(ts, id)| == |ts| - 1
  {
    KeepsAllOthers(ts, id, i, ts[..i], 0);
    KeepsAllOthers(ts, id, i, ts[i + 1..], i + 1);
    SpliceOut(ts, id, i);
  }

  /** If the id occurs only at `i`, the filter is the list without entry `i`. */
  lemma SpliceOut(ts: seq<Task>, id: int, i: nat)
    requires i < |ts| && ts[i].id == Some(id)
    requires Filter(ts[..i], NotWithId(id)) == ts[..i]
    requires Filter(ts[i + 1..], NotWithId(id)) == ts[i + 1..]
    ensures Filter(ts, NotWithId(id)) == ts[..i] + ts[i + 1..]
  {
    var keep := NotWithId(id);
    var front, tail := ts[..i], ts[i + 1..];
    FilterDrops(ts[i], keep);
    assert ts == (front + [ts[i]]) + tail;
    FilterAppend(front + [ts[i]], tail, keep);
    FilterAppend(front, [ts[i]], keep);
    assert front + [] == front;
  }

  /** A stretch of a list with unique ids that avoids position `i` holds no
      other task with the id found at `i`. */
  lemma KeepsAllOthers(ts: seq<Task>, id: int, i: nat, part: seq<Task>, from: nat)
    requires UniqueIds(ts)
    requires i < |ts| && ts[i].id == Some(id)
    requires from + |part| <= |ts| && part == ts[from..from + |part|]
    requires i < from || from + |part| <= i
    ensures Filter(part, NotWithId(id)) == part
  {
    forall j | 0 <= j < |part|
      ensures NotWithId(id)(part[j])
    {
      assert part[j] == ts[from + j];
      if from + j < i {
        assert ts[from + j].id != ts[i].id;
      } else {
        assert ts[i].id != ts[from + j].id;
      }
    }
    FilterKeepsAll(part, NotWithId(id));
  }

  class MainStore {
    var loading: bool
    var tasks: seq<Task>
    var error: string
    var currentTask: Option<Task>

    constructor ()
      ensures !loading && tasks == [] && error == "" && currentTask == None
    {
      loading := false;
      tasks := [];
      error := "";
      currentTask := None;
    }

    /** `fetchTasks(retries, delay)`: request the list; on success replace
        the list, on failure wait `delay` and try again with one retry
        fewer while any are left, otherwise record the error. */
    method FetchTasks(retries: int, delay: nat, responses: seq<Outcome<seq<Task>>>)
      returns (ghost attempts: nat)
      requires |responses| >= MaxAttempts(retries)
      modifies this
      ensures var end := FetchChain(old(tasks), retries, responses);
        tasks == end.tasks && error == end.error && attempts == end.attempts
      ensures !loading
      ensures currentTask == old(currentTask)
      decreases retries
    {
      loading := true;
      error := "";
      match responses[0] {
        case Ok(response) =>
          tasks := response;
          attempts := 1;
        case Err(e) =>
          if retries > 0 {
            // the delay elapses here; it does not affect the state
            attempts := FetchTasks(retries - 1, delay, responses[1..]);
            attempts := attempts + 1;
          } else {
            error := ErrorText(e, FetchFallback);
            attempts := 1;
          }
      }
      loading := false;
    }

    /** `addTask`: on success append the created task and return it; on
        failure record the error and return null. */
    method AddTask(taskData: TaskData, response: Outcome<Task>) returns (r: Option<Task>)
      modifies this
      ensures response.Ok? ==> tasks == old(tasks) + [response.value] && error == "" && r == Some(response.value)
      ensures response.Err? ==>
        tasks == old(tasks) && error == ErrorText(response.failure, AddFallback) && r == None
      ensures !loading && currentTask == old(currentTask)
    {
      loading := true;
      error := "";
      match response {
        case Ok(newTask) =>
          tasks := tasks + [newTask];
          r := Some(newTask);
        case Err(e) =>
          error := ErrorText(e, AddFallback);
          r := None;
      }
      loading := false;
    }

    /** Replace the first task with id `taskId` by the server's copy, if any. */
    method ApplyServerCopy(taskId: int, updatedTask: Task)
      modifies this`tasks
      ensures tasks == ReplaceFirst(old(tasks), taskId, updatedTask)
    {
      var index := FindIndex(tasks, taskId);
      if index.Some? {
        tasks := tasks[index.value := updatedTask];
      }
    }

    /** `editTask`: on success replace the first task with that id by the
        server's copy (nothing if absent) and return the server's copy; on
        failure record the error and return null. */
    method EditTask(taskId: int, taskData: TaskData, response: Outcome<Task>) returns (r: Option<Task>)
      modifies this
      ensures response.Ok? ==>
        tasks == ReplaceFirst(old(tasks), taskId, response.value) && error == "" && r == Some(response.value)
      ensures response.Err? ==>
        tasks == old(tasks) && error == ErrorText(response.failure, EditFallback) && r == None
      ensures !loading && currentTask == old(currentTask)
    {
      loading := true;
      error := "";
      match response {
        case Ok(updatedTask) =>
          ApplyServerCopy(taskId, updatedTask);
          r := Some(updatedTask);
        case Err(e) =>
          error := ErrorText(e, EditFallback);
          r := None;
      }
      loading := false;
    }

    /** `removeTask`: on success drop every task with that id and return
        true; on failure record the error and return false. */
    method RemoveTask(taskId: int, response: Outcome<string>) returns (ok: bool)
      modifies this
      ensures ok == response.Ok?
      ensures response.Ok? ==> tasks == WithoutId(old(tasks), taskId) && error == ""
      ensures response.Err? ==>
        tasks == old(tasks) && error == ErrorText(response.failure, RemoveFallback)
      ensures !loading && currentTask == old(currentTask)
    {
      loading := true;
      error := "";
      match response {
        case Ok(_) =>
          tasks := WithoutId(tasks, taskId);
          ok := true;
        case Err(e) =>
          error := ErrorText(e, RemoveFallback);
          ok := false;
      }
      loading := false;
    }

    /** `markTaskComplete`: like `editTask`, with the server's copy coming
        from the completion request. */
    method MarkTaskComplete(taskId: int, response: Outcome<Task>) returns (r: Option<Task>)
      modifies this
      ensures response.Ok? ==>
        tasks == ReplaceFirst(old(tasks), taskId, response.value) && error == "" && r == Some(response.value)
      ensures response.Err? ==>
        tasks == old(tasks) && error == ErrorText(response.failure, StatusFallback) && r == None
      ensures !loading && currentTask == old(currentTask)
    {
      loading := true;
      error := "";
      match response {
        case Ok(updatedTask) =>
          ApplyServerCopy(taskId, updatedTask);
          r := Some(updatedTask);
        case Err(e) =>
          error := ErrorText(e, StatusFallback);
          r := None;
      }
      loading := false;
    }

    /** `markTaskUncomplete`: like `markTaskComplete`, for the request that
        clears the flag. */
    method MarkTaskUncomplete(taskId: int, response: Outcome<Task>) returns (r: Option<Task>)
      modifies this
      ensures response.Ok? ==>
        tasks == ReplaceFirst(old(tasks), taskId, response.value) && error == "" && r == Some(response.value)
      ensures response.Err? ==>
        tasks == old(tasks) && error == ErrorText(response.failure, StatusFallback) && r == None
      ensures !loading && currentTask == old(currentTask)
    {
      loading := true;
      error := "";
      match response {
        case Ok(updatedTask) =>
          ApplyServerCopy(taskId, updatedTask);
          r := Some(updatedTask);
        case Err(e) =>
          error := ErrorText(e, StatusFallback);
          r := None;
      }
      loading := false;
    }

    method SetCurrentTask(task: Option<Task>)
      modifies this
      ensures currentTask == task
      ensures tasks == old(tasks) && loading == old(loading) && error == old(error)
    {
      currentTask := task;
    }

    method ResetError()
      modifies this
      ensures error == ""
      ensures tasks == old(tasks) && loading == old(loading) && currentTask == old(currentTask)
    {
      error := "";
    }
  }
}
