/** The counters of a box count its live sessions, and a box in use is never freed. */
module BrokerCounters {
  import opened BrokerSteps

  /** The three ways a running handler bears on a box. */
  datatype Role = Publishing | Subscribing | Storing

  predicate Plays(worker: Worker, role: Role, b: nat) {
    match role
    case Publishing => worker.Publishes() && worker.box == b
    case Subscribing => worker.Subscribes() && worker.box == b
    case Storing => worker.PubStored? && worker.box == b
  }

  function One(worker: Worker, role: Role, b: nat): nat {
    if Plays(worker, role, b) then 1 else 0
  }

  /** How many workers play this role for box b. */
  function Count(workers: seq<Worker>, role: Role, b: nat): nat {
    if workers == [] then 0 else One(workers[0], role, b) + Count(workers[1..], role, b)
  }

  lemma {:induction false} CountUpdate(workers: seq<Worker>, i: int, x: Worker, role: Role, b: nat)
    requires 0 <= i < |workers|
    ensures Count(workers[i := x], role, b) == Count(workers, role, b) - One(workers[i], role, b) + One(x, role, b)
    decreases |workers|
  {
    if i == 0 {
      assert workers[i := x][1..] == workers[1..];
    } else {
      assert workers[i := x][1..] == workers[1..][i - 1 := x];
      CountUpdate(workers[1..], i - 1, x, role, b);
    }
  }

  lemma {:induction false} CountAtLeast(workers: seq<Worker>, i: int, role: Role, b: nat)
    requires 0 <= i < |workers|
    ensures Count(workers, role, b) >= One(workers[i], role, b)
    decreases |workers|
  {
    if i > 0 {
      assert workers[1..][i - 1] == workers[i];
      CountAtLeast(workers[1..], i - 1, role, b);
    }
  }

  lemma {:induction false} NobodyCounts(workers: seq<Worker>, role: Role, b: nat)
    requires forall i :: 0 <= i < |workers| ==> !Plays(workers[i], role, b)
    ensures Count(workers, role, b) == 0
    decreases |workers|
  {
    if workers != [] {
      assert forall i :: 0 <= i < |workers| - 1 ==> workers[1..][i] == workers[i + 1];
      NobodyCounts(workers[1..], role, b);
    }
  }

  lemma {:induction false} StoringPublishes(workers: seq<Worker>, b: nat)
    ensures Count(workers, Storing, b) <= Count(workers, Publishing, b)
    decreases |workers|
  {
    if workers != [] {
      StoringPublishes(workers[1..], b);
    }
  }

  /** The list holds each box once, and no two boxes of one name. */
  ghost predicate ListOk(list: seq<nat>, cells: seq<Box>) {
    && (forall k :: 0 <= k < |list| ==> list[k] < |cells|)
    && (forall j, k :: 0 <= j < k < |list| ==> list[j] != list[k] && cells[list[j]].name != cells[list[k]].name)
  }

  ghost predicate CounterOk(workers: seq<Worker>, cells: seq<Box>, b: nat)
    requires b < |cells|
  {
    && cells[b].publishers == Count(workers, Publishing, b) <= 1
    && cells[b].subscribers == Count(workers, Subscribing, b)
  }

  /** A handler in a session has a box that is in the list. */
  ghost predicate InUse(workers: seq<Worker>, list: seq<nat>) {
    forall i :: 0 <= i < |workers| && !workers[i].Idle? ==> workers[i].box in list
  }

  ghost predicate CountersOk(workers: seq<Worker>, list: seq<nat>, cells: seq<Box>) {
    && ListOk(list, cells)
    && InUse(workers, list)
    && (forall b: nat :: b < |cells| ==> CounterOk(workers, cells, b))
  }

  // ---------- steps of a session ----------

  /** A worker and its box change together: the counters keep up if they change by what the worker's roles do. */
  lemma SessionStep(workers: seq<Worker>, list: seq<nat>, cells: seq<Box>, i: int, b: nat, x: Worker, box: Box)
    requires CountersOk(workers, list, cells) && 0 <= i < |workers| && b in list && b < |cells|
    requires workers[i].Idle? || workers[i].box == b
    requires x.Idle? || x.box == b
    requires box.name == cells[b].name
    requires box.publishers == cells[b].publishers - One(workers[i], Publishing, b) + One(x, Publishing, b) <= 1
    requires box.subscribers == cells[b].subscribers - One(workers[i], Subscribing, b) + One(x, Subscribing, b)
    ensures CountersOk(workers[i := x], list, cells[b := box])
  {
    var workers', cells' := workers[i := x], cells[b := box];
    forall c: nat | c < |cells'|
      ensures CounterOk(workers', cells', c)
    {
      assert CounterOk(workers, cells, c);
      CountUpdate(workers, i, x, Publishing, c);
      CountUpdate(workers, i, x, Subscribing, c);
    }
    assert InUse(workers[i := x], list);
    hide Count;
  }

  // ---------- the list ----------

  lemma AddToList(workers: seq<Worker>, list: seq<nat>, cells: seq<Box>, box: Box)
    requires CountersOk(workers, list, cells) && box.publishers == 0 && box.subscribers == 0
    requires forall k :: 0 <= k < |list| ==> cells[list[k]].name != box.name
    ensures CountersOk(workers, list + [|cells|], cells + [box])
  {
    forall i | 0 <= i < |workers| && !workers[i].Idle?
      ensures workers[i].box < |cells|
    {
      var k :| 0 <= k < |list| && list[k] == workers[i].box;
    }
    NobodyCounts(workers, Publishing, |cells|);
    NobodyCounts(workers, Subscribing, |cells|);
    forall c: nat | c < |cells|
      ensures CounterOk(workers, cells + [box], c)
    {
      assert CounterOk(workers, cells, c);
    }
    hide Count;
  }

  /** A box without publisher or subscriber is no handler's box. */
  lemma NotInUse(workers: seq<Worker>, list: seq<nat>, cells: seq<Box>, b: nat)
    requires CountersOk(workers, list, cells) && b < |cells| && cells[b].publishers == 0 && cells[b].subscribers == 0
    ensures forall i :: 0 <= i < |workers| && !workers[i].Idle? ==> workers[i].box != b
  {
    assert CounterOk(workers, cells, b);
    forall i | 0 <= i < |workers| && !workers[i].Idle?
      ensures workers[i].box != b
    {
      CountAtLeast(workers, i, Publishing, b);
      CountAtLeast(workers, i, Subscribing, b);
    }
  }

  lemma RemoveFromList(workers: seq<Worker>, list: seq<nat>, cells: seq<Box>, k: int)
    requires CountersOk(workers, list, cells) && 0 <= k < |list|
    requires cells[list[k]].publishers == 0 && cells[list[k]].subscribers == 0
    ensures CountersOk(workers, list[..k] + list[k + 1..], cells)
  {
    NotInUse(workers, list, cells, list[k]);
    var rest := list[..k] + list[k + 1..];
    forall i | 0 <= i < |workers| && !workers[i].Idle?
      ensures workers[i].box in rest
    {
      var j :| 0 <= j < |list| && list[j] == workers[i].box;
      assert rest[if j < k then j else j - 1] == list[j];
    }
    hide CounterOk;
  }

  // ---------- how many sessions there are ----------

  /** The counters of these boxes, added up. */
  function Total(list: seq<nat>, cells: seq<Box>): int
    requires forall k :: 0 <= k < |list| ==> list[k] < |cells|
  {
    if list == [] then 0
    else cells[list[0]].publishers + cells[list[0]].subscribers + Total(list[1..], cells)
  }

  /** The same through the workers. */
  function Sessions(list: seq<nat>, workers: seq<Worker>): nat {
    if list == [] then 0
    else Count(workers, Publishing, list[0]) + Count(workers, Subscribing, list[0]) + Sessions(list[1..], workers)
  }

  lemma {:induction false} TotalIsSessions(list: seq<nat>, workers: seq<Worker>, cells: seq<Box>)
    requires forall k :: 0 <= k < |list| ==> list[k] < |cells| && CounterOk(workers, cells, list[k])
    ensures Total(list, cells) == Sessions(list, workers)
    decreases |list|
  {
    if list != [] {
      assert forall k :: 0 <= k < |list| - 1 ==> list[1..][k] == list[k + 1];
      TotalIsSessions(list[1..], workers, cells);
      assert CounterOk(workers, cells, list[0]);
    }
  }

  /** One worker adds one session to a list in which its box occurs once. */
  lemma {:induction false} SessionsStep(list: seq<nat>, workers: seq<Worker>)
    requires workers != [] && forall j, k :: 0 <= j < k < |list| ==> list[j] != list[k]
    ensures Sessions(list, workers) <= Sessions(list, workers[1..]) + 1
    ensures workers[0].Idle? || workers[0].box !in list ==> Sessions(list, workers) == Sessions(list, workers[1..])
    ensures !workers[0].Idle? && workers[0].box in list ==> Sessions(list, workers) == Sessions(list, workers[1..]) + 1
    decreases |list|
  {
    if list != [] {
      assert forall k :: 0 <= k < |list| - 1 ==> list[1..][k] == list[k + 1];
      SessionsStep(list[1..], workers);
      if !workers[0].Idle? {
        assert workers[0].box in list <==> workers[0].box == list[0] || workers[0].box in list[1..];
      }
    }
  }

  function Busy(workers: seq<Worker>): (n: nat)
    ensures n <= |workers|
  {
    if workers == [] then 0 else (if workers[0].Idle? then 0 else 1) + Busy(workers[1..])
  }

  lemma {:induction false} SessionsAreBusy(list: seq<nat>, workers: seq<Worker>)
    requires InUse(workers, list) && forall j, k :: 0 <= j < k < |list| ==> list[j] != list[k]
    ensures Sessions(list, workers) == Busy(workers)
    decreases |workers|
  {
    if workers == [] {
      NoSessions(list);
    } else {
      assert forall i :: 0 <= i < |workers| - 1 ==> workers[1..][i] == workers[i + 1];
      SessionsStep(list, workers);
      SessionsAreBusy(list, workers[1..]);
    }
  }

  lemma {:induction false} NoSessions(list: seq<nat>)
    ensures Sessions(list, []) == 0
    decreases |list|
  {
    if list != [] {
      NoSessions(list[1..]);
    }
  }

  /** The counters of all boxes add up to the workers in a session. */
  lemma CountersAddUp(workers: seq<Worker>, list: seq<nat>, cells: seq<Box>)
    requires CountersOk(workers, list, cells)
    ensures Total(list, cells) == Busy(workers) <= |workers|
  {
    TotalIsSessions(list, workers, cells);
    SessionsAreBusy(list, workers);
  }
}
