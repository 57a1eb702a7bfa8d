/** The task record shared by the web client and the API server, and the
    list operations both sides perform on a sequence of tasks. */
module Tasks {

  datatype Option<+T> = None | Some(value: T)

  /** A task as it travels between client and server. `id` is absent until
      the server has assigned one; `priority` is 1 (low), 2 (medium) or
      3 (high) by convention only, nothing enforces it. */
  datatype Task = Task(
    id: Option<int>,
    title: string,
    description: Option<string>,
    completed: bool,
    priority: int)

  /** A task payload without its id, as the client sends it to be created or
      updated. */
  datatype TaskData = TaskData(
    title: string,
    description: Option<string>,
    completed: bool,
    priority: int)

  /** No id is carried by two tasks (tasks without an id are not compared). */
  predicate UniqueIds(ts: seq<Task>) {
    forall i, j :: 0 <= i < j < |ts| && ts[i].id.Some? ==> ts[i].id != ts[j].id
  }

  /** The position of the first task whose id is `id`, the `findIndex` of the
      client and the `next(i for i, t in enumerate(...) if t.id == id)` of the
      server. */
  function FindIndex(ts: seq<Task>, id: int): (r: Option<nat>)
    ensures r.Some? ==> r.value < |ts| && ts[r.value].id == Some(id)
    ensures r.Some? ==> forall j :: 0 <= j < r.value ==> ts[j].id != Some(id)
    ensures r.None? <==> forall j :: 0 <= j < |ts| ==> ts[j].id != Some(id)
  {
    if |ts| == 0 then None
    else if ts[0].id == Some(id) then Some(0)
    else match FindIndex(ts[1..], id)
      case None => None
      case Some(k) => Some(k + 1)
  }

  /** The search only looks at ids: two lists with the same ids position by
      position give the same answer. */
  lemma {:induction false} FindIndexSeesOnlyIds(a: seq<Task>, b: seq<Task>, id: int)
    requires |a| == |b|
    requires forall j :: 0 <= j < |a| ==> a[j].id == b[j].id
    ensures FindIndex(a, id) == FindIndex(b, id)
  {
    if |a| > 0 {
      FindIndexSeesOnlyIds(a[1..], b[1..], id);
    }
  }

  /** In a list with unique ids the first match is the only match. */
  lemma FindIndexUnique(ts: seq<Task>, id: int, j: nat)
    requires UniqueIds(ts)
    requires FindIndex(ts, id).Some?
    requires j < |ts| && ts[j].id == Some(id)
    ensures FindIndex(ts, id) == Some(j)
  {
    var i := FindIndex(ts, id).value;
    if i < j {
      assert false;
    }
  }

  /** The elements of `s` that satisfy `p`, in their original order (the
      client's `Array.filter` and the server's list comprehensions). */
  function Filter(s: seq<Task>, p: Task -> bool): (r: seq<Task>)
    ensures |r| <= |s|
    ensures forall x :: x in r <==> x in s && p(x)
  {
    if |s| == 0 then []
    else (if p(s[0]) then [s[0]] else []) + Filter(s[1..], p)
  }

  /** The filter keeps every passing element exactly as often as it occurs,
      and no other. */
  lemma {:induction false} FilterCounts(s: seq<Task>, p: Task -> bool)
    ensures forall x :: multiset(Filter(s, p))[x] == if p(x) then multiset(s)[x] else 0
  {
    if |s| > 0 {
      assert s == [s[0]] + s[1..];
      FilterCounts(s[1..], p);
    }
  }

  /** Filtering distributes over concatenation: together with the one-element
      case this pins the result down as the order-preserving selection. */
  lemma {:induction false} FilterAppend(a: seq<Task>, b: seq<Task>, p: Task -> bool)
    ensures Filter(a + b, p) == Filter(a, p) + Filter(b, p)
  {
    if |a| == 0 {
      assert a + b == b;
    } else {
      assert (a + b)[0] == a[0];
      assert (a + b)[1..] == a[1..] + b;
      FilterAppend(a[1..], b, p);
    }
  }

  /** A filter that every element passes changes nothing. */
  lemma {:induction false} FilterKeepsAll(s: seq<Task>, p: Task -> bool)
    requires forall j :: 0 <= j < |s| ==> p(s[j])
    ensures Filter(s, p) == s
  {
    if |s| > 0 {
      FilterKeepsAll(s[1..], p);
    }
  }

  /** A single failing element is dropped. */
  lemma FilterDrops(x: Task, p: Task -> bool)
    requires !p(x)
    ensures Filter([x], p) == []
  {
    assert [x][1..] == [];
  }

  /** Two filters in a row are one filter by the conjunction. */
  lemma {:induction false} FilterOfFilter(s: seq<Task>, p: Task -> bool, q: Task -> bool, pq: Task -> bool)
    requires forall x :: pq(x) == (p(x) && q(x))
    ensures Filter(Filter(s, p), q) == Filter(s, pq)
  {
    if |s| > 0 {
      var head := if p(s[0]) then [s[0]] else [];
      assert Filter(s, p) == head + Filter(s[1..], p);
      FilterAppend(head, Filter(s[1..], p), q);
      FilterOfFilter(s[1..], p, q, pq);
      if p(s[0]) {
        assert head[1..] == [];
      }
    }
  }

  /** `ts` with the first task whose id is `id` replaced by `t`; unchanged
      when no task has that id. */
  function ReplaceFirst(ts: seq<Task>, id: int, t: Task): (r: seq<Task>)
    ensures |r| == |ts|
    ensures FindIndex(ts, id).None? ==> r == ts
    ensures FindIndex(ts, id).Some? ==>
      var i := FindIndex(ts, id).value;
      r[i] == t && forall j :: 0 <= j < |ts| && j != i ==> r[j] == ts[j]
  {
    match FindIndex(ts, id)
    case None => ts
    case Some(i) => ts[i := t]
  }
}
