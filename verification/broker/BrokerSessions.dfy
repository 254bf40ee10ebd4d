/** Where a box's log comes from, and what creates and removes are answered. */
module BrokerSessions {
  import opened Memory
  import opened BrokerSteps
  import opened BrokerCounters

  // ---------- the log is made of contributions ----------

  /** The packets of these sessions, in attach order. */
  function Contributions(sessions: seq<Session>): (log: seq<seq<Byte>>) {
    if sessions == [] then [] else sessions[0].stored + Contributions(sessions[1..])
  }

  lemma {:induction false} ContributionsTogether(a: seq<Session>, b: seq<Session>)
    ensures Contributions(a + b) == Contributions(a) + Contributions(b)
    decreases |a|
  {
    if a == [] {
      assert a + b == b;
    } else {
      assert (a + b)[1..] == a[1..] + b;
      ContributionsTogether(a[1..], b);
    }
  }

  lemma ContributionsLast(sessions: seq<Session>, s: Session)
    ensures Contributions(sessions + [s]) == Contributions(sessions) + s.stored
  {
    ContributionsTogether(sessions, [s]);
    assert [s][1..] == [] && s.stored + [] == s.stored;
  }

  /** Changing the last session. */
  lemma ContributionsChange(sessions: seq<Session>, s: Session)
    requires sessions != []
    ensures var last, front := sessions[|sessions| - 1], Contributions(sessions[..|sessions| - 1]);
            Contributions(sessions) == front + last.stored
            && Contributions(sessions[|sessions| - 1 := s]) == front + s.stored
  {
    var front := sessions[..|sessions| - 1];
    ContributionsLast(front, sessions[|sessions| - 1]);
    ContributionsLast(front, s);
    assert front + [sessions[|sessions| - 1]] == sessions;
    assert front + [s] == sessions[|sessions| - 1 := s];
  }

  predicate FromServer(p: seq<Byte>) {
    IsPacket(p) && p[0] == ID_SEND_MSG_SERVER
  }

  /** A contribution is the beginning of what was read from the session's pipe, and all of it messages for the
      server. */
  ghost predicate SessionOk(s: Session) {
    && s.taken <= |s.input| && s.stored <= s.input[..s.taken]
    && forall k :: 0 <= k < |s.stored| ==> FromServer(s.stored[k])
  }

  ghost predicate BoxOk(box: Box) {
    box.log == Contributions(box.sessions) && forall k :: 0 <= k < |box.sessions| ==> SessionOk(box.sessions[k])
  }

  /** A publisher's session is the last its box has had. While the handler is not leaving, everything read
      from the session's pipe but the packet in hand has been stored. */
  ghost predicate PublisherOk(x: Worker, cells: seq<Box>) {
    x.Publishes() ==>
      && x.box < |cells| && x.session + 1 == |cells[x.box].sessions|
      && var s := cells[x.box].sessions[x.session];
         && s.taken <= |s.input|
         && match x
            case PubReading(_, _) => s.stored == s.input[..s.taken]
            case PubStored(_, _) => s.stored == s.input[..s.taken]
            case PubHolding(_, _, p) =>
              0 < s.taken && s.stored == s.input[..s.taken - 1] && p == s.input[s.taken - 1] && FromServer(p)
            case _ => true
  }

  ghost predicate PublishersOk(workers: seq<Worker>, cells: seq<Box>) {
    && (forall i :: 0 <= i < |workers| ==> PublisherOk(workers[i], cells))
    && (forall b :: 0 <= b < |cells| ==> BoxOk(cells[b]))
  }

  /** No two handlers publish to one box. */
  lemma OnePublisher(workers: seq<Worker>, i: int, j: int, b: nat)
    requires 0 <= i < |workers| && 0 <= j < |workers| && i != j
    requires Count(workers, Publishing, b) <= 1 && Plays(workers[i], Publishing, b)
    ensures !Plays(workers[j], Publishing, b)
  {
    CountUpdate(workers, i, Idle, Publishing, b);
    CountAtLeast(workers[i := Idle], j, Publishing, b);
  }

  /** A step of the box's publisher, or of a worker that takes that place, on a box that has no other. */
  lemma PublishersStep(workers: seq<Worker>, list: seq<nat>, cells: seq<Box>, i: int, b: nat, x: Worker, box: Box)
    requires CountersOk(workers, list, cells) && PublishersOk(workers, cells) && 0 <= i < |workers| && b < |cells|
    requires Plays(workers[i], Publishing, b) || cells[b].publishers == 0
    requires BoxOk(box) && PublisherOk(x, cells[b := box])
    ensures PublishersOk(workers[i := x], cells[b := box])
  {
    var workers', cells' := workers[i := x], cells[b := box];
    assert CounterOk(workers, cells, b);
    forall j | 0 <= j < |workers'|
      ensures PublisherOk(workers'[j], cells')
    {
      assert PublisherOk(workers[j], cells);
      if j != i {
        CountAtLeast(workers, j, Publishing, b);
        if cells[b].publishers != 0 {
          OnePublisher(workers, i, j, b);
        }
      }
    }
  }

  /** A step that leaves the box's log and sessions alone. */
  lemma PublishersKept(workers: seq<Worker>, cells: seq<Box>, i: int, b: nat, x: Worker, box: Box)
    requires PublishersOk(workers, cells) && 0 <= i < |workers| && b < |cells|
    requires box.log == cells[b].log && box.sessions == cells[b].sessions
    requires PublisherOk(x, cells)
    ensures PublishersOk(workers[i := x], cells[b := box])
  {
    hide Contributions;
    hide SessionOk;
    hide FromServer;
    var workers', cells' := workers[i := x], cells[b := box];
    forall j | 0 <= j < |workers'|
      ensures PublisherOk(workers'[j], cells')
    {
      assert PublisherOk(workers[j], cells);
    }
  }

  // ---------- creates and removes ----------

  /** The operations on this name that changed the list, in the order of their critical sections. */
  function Changes(events: seq<Event>, name: CString): (ops: seq<Op>) {
    if events == [] then []
    else
      var e, front := events[|events| - 1], Changes(events[..|events| - 1], name);
      if e.name == name && e.changed then front + [e.op] else front
  }

  lemma ChangesLast(events: seq<Event>, e: Event, name: CString)
    ensures Changes(events + [e], name) == Changes(events, name) + if e.name == name && e.changed then [e.op] else []
  {
    assert (events + [e])[..|events|] == events;
  }

  /** Created, Removed, Created, and so on. */
  ghost predicate Alternates(ops: seq<Op>) {
    forall k :: 0 <= k < |ops| ==> ops[k] == if k % 2 == 0 then Created else Removed
  }

  /** The box exists. */
  ghost predicate Listed(list: seq<nat>, cells: seq<Box>, name: CString) {
    exists k :: 0 <= k < |list| && list[k] < |cells| && cells[list[k]].name == name
  }

  ghost predicate NameOk(events: seq<Event>, list: seq<nat>, cells: seq<Box>, dir: map<CString, nat>, name: CString) {
    var ops := Changes(events, name);
    && Alternates(ops)
    && (|ops| % 2 == 1 <==> Listed(list, cells, name))
    && (ops != [] && |ops| % 2 == 0 ==> name !in dir)
  }

  ghost predicate EventsOk(events: seq<Event>, list: seq<nat>, cells: seq<Box>, dir: map<CString, nat>) {
    && (forall name: CString :: NameOk(events, list, cells, dir, name))
    && (forall k :: 0 <= k < |events| ==> (events[k].changed <==> events[k].code == 0))
  }

  lemma EventsKept(events: seq<Event>, list: seq<nat>, cells: seq<Box>, dir: map<CString, nat>, b: nat, box: Box)
    requires EventsOk(events, list, cells, dir) && b < |cells| && box.name == cells[b].name
    ensures EventsOk(events, list, cells[b := box], dir)
  {
    var cells' := cells[b := box];
    forall name: CString
      ensures NameOk(events, list, cells', dir, name)
    {
      assert NameOk(events, list, cells, dir, name);
      assert Listed(list, cells', name) <==> Listed(list, cells, name);
    }
  }

  lemma EventsRefused(events: seq<Event>, list: seq<nat>, cells: seq<Box>, dir: map<CString, nat>, e: Event)
    requires EventsOk(events, list, cells, dir) && !e.changed && e.code != 0
    ensures EventsOk(events + [e], list, cells, dir)
  {
    forall name: CString
      ensures NameOk(events + [e], list, cells, dir, name)
    {
      assert NameOk(events, list, cells, dir, name);
      ChangesLast(events, e, name);
    }
  }

  lemma EventsCreated(events: seq<Event>, list: seq<nat>, cells: seq<Box>, dir: map<CString, nat>,
                      box: Box, dir': map<CString, nat>)
    requires EventsOk(events, list, cells, dir) && !Listed(list, cells, box.name)
    requires forall k :: 0 <= k < |list| ==> list[k] < |cells|
    requires forall n :: n in dir' ==> n in dir || n == box.name
    ensures EventsOk(events + [Event(Created, box.name, true, 0)], list + [|cells|], cells + [box], dir')
  {
    var e := Event(Created, box.name, true, 0);
    var list', cells' := list + [|cells|], cells + [box];
    assert cells'[list'[|list|]] == box;
    forall name: CString
      ensures NameOk(events + [e], list', cells', dir', name)
    {
      assert NameOk(events, list, cells, dir, name);
      ChangesLast(events, e, name);
      if Listed(list, cells, name) {
        var k :| 0 <= k < |list| && list[k] < |cells| && cells[list[k]].name == name;
        assert cells'[list'[k]].name == name;
      }
      assert Listed(list', cells', name) <==> Listed(list, cells, name) || name == box.name;
    }
  }

  lemma EventsRemoved(events: seq<Event>, list: seq<nat>, cells: seq<Box>, dir: map<CString, nat>,
                      k: int, name: CString)
    requires EventsOk(events, list, cells, dir) && ListOk(list, cells) && 0 <= k < |list| && cells[list[k]].name == name
    ensures EventsOk(events + [Event(Removed, name, true, 0)], list[..k] + list[k + 1..], cells, dir - {name})
  {
    var e, list' := Event(Removed, name, true, 0), list[..k] + list[k + 1..];
    forall n: CString
      ensures NameOk(events + [e], list', cells, dir - {name}, n)
    {
      assert NameOk(events, list, cells, dir, n);
      ChangesLast(events, e, n);
      ListedRemoved(list, cells, k, n);
    }
  }

  /** Taking a box out of the list takes its name out, and no other. */
  lemma ListedRemoved(list: seq<nat>, cells: seq<Box>, k: int, n: CString)
    requires ListOk(list, cells) && 0 <= k < |list|
    ensures Listed(list[..k] + list[k + 1..], cells, n) <==> Listed(list, cells, n) && n != cells[list[k]].name
    ensures Listed(list, cells, cells[list[k]].name)
  {
    var list' := list[..k] + list[k + 1..];
    forall j | 0 <= j < |list'|
      ensures list'[j] == list[if j < k then j else j + 1]
    {
    }
    if n != cells[list[k]].name && Listed(list, cells, n) {
      ListedStays(list, cells, k, n);
    }
  }

  lemma ListedStays(list: seq<nat>, cells: seq<Box>, k: int, n: CString)
    requires ListOk(list, cells) && 0 <= k < |list| && n != cells[list[k]].name && Listed(list, cells, n)
    ensures Listed(list[..k] + list[k + 1..], cells, n)
  {
    var list' := list[..k] + list[k + 1..];
    var j :| 0 <= j < |list| && list[j] < |cells| && cells[list[j]].name == n;
    assert list'[if j < k then j else j - 1] == list[j];
  }
}
