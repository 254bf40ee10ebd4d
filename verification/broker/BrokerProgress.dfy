/** What the handlers get done: the turns of a publisher's loop and the rounds of a subscriber's, from registration to
    the end of the session. */
module BrokerProgress {
  import opened Collections
  import opened Memory
  import opened BrokerSteps
  import opened BrokerCounters
  import opened BrokerData
  import opened BrokerSessions
  import opened BrokerInvariant
  import opened BrokerRuns

  // ---------- runs in pieces ----------

  lemma RunsOne(w: World, i: int, step: Step)
    requires Inv(w) && Runnable(w) && Enabled(w, i, step)
    ensures Inv(Next(w, i, step))
    ensures Runs(w, [Move(i, step)]) && After(w, [Move(i, step)]) == Next(w, i, step)
  {
    hide Inv;
    hide Runnable;
    hide Enabled;
    hide Next;
    StepKeeps(w, i, step);
    var moves := [Move(i, step)];
    assert moves[1..] == [];
  }

  lemma {:induction false} RunsTogether(w: World, a: seq<Move>, b: seq<Move>)
    requires Inv(w) && Runs(w, a) && Runs(After(w, a), b)
    ensures Runs(w, a + b) && After(w, a + b) == After(After(w, a), b)
    decreases |a|
  {
    hide Inv;
    hide Runnable;
    hide Enabled;
    hide Next;
    if a == [] {
      assert a + b == b;
    } else {
      InvRunnable(w);
      StepKeeps(w, a[0].worker, a[0].step);
      assert (a + b)[1..] == a[1..] + b && (a + b)[0] == a[0];
      RunsTogether(Next(w, a[0].worker, a[0].step), a[1..], b);
    }
  }

  /** One move more. */
  lemma RunsThen(w: World, a: seq<Move>, i: int, step: Step)
    requires Inv(w) && Runs(w, a) && Runnable(After(w, a)) && Enabled(After(w, a), i, step)
    ensures Runs(w, a + [Move(i, step)]) && After(w, a + [Move(i, step)]) == Next(After(w, a), i, step)
  {
    hide Inv;
    hide Runnable;
    hide Enabled;
    hide Next;
    hide Runs;
    hide After;
    RunsOne(After(w, a), i, step);
    RunsTogether(w, a, [Move(i, step)]);
  }

  // ---------- one turn of a publisher ----------

  /** A message for the server. */
  predicate ForServer(p: seq<Byte>) {
    |p| == 1025 && p[0] == 9
  }

  /** Worker i reads for session k of box b, whose file is open, and `rest` is still to come from its pipe. */
  ghost predicate Reads(w: World, i: int, b: nat, k: nat, rest: seq<seq<Byte>>) {
    && 0 <= i < |w.workers| && w.workers[i] == PubReading(b, k)
    && b < |w.cells| && w.cells[b].fd.Some? && k < |w.cells[b].sessions|
    && w.cells[b].sessions[k].taken <= |w.cells[b].sessions[k].input|
    && w.cells[b].sessions[k].input[w.cells[b].sessions[k].taken..] == rest
  }

  /** Nothing but box b and its file is different. */
  ghost predicate OnlyBox(w: World, w': World, b: nat) {
    && w'.list == w.list && w'.dir == w.dir && w'.deliveries == w.deliveries && w'.events == w.events
    && |w'.cells| == |w.cells| && (forall c :: 0 <= c < |w.cells| && c != b ==> w'.cells[c] == w.cells[c])
    && |w'.files| == |w.files|
    && forall f :: 0 <= f < |w.files| && (b < |w.cells| ==> w.cells[b].fd != Some(f)) ==> w'.files[f] == w.files[f]
  }

  /** Box b and its session k have these packets more, and their size is announced. */
  ghost predicate Published(w: World, w': World, b: nat, k: nat, ps: seq<seq<Byte>>) {
    && OnlyBox(w, w', b) && w'.workers == w.workers
    && b < |w.cells| && k < |w.cells[b].sessions|
    && var s := w.cells[b].sessions[k];
       w'.cells[b] == w.cells[b].(
                      size := w.cells[b].size + 1025 * |ps|,
                      writeOffset := w.cells[b].writeOffset + 1025 * |ps|,
                      log := w.cells[b].log + ps,
                      sessions := w.cells[b].sessions[k := Session(s.input, s.taken + |ps|, s.stored + ps)])
  }

  function Turn(i: int): seq<Move> {
    [Move(i, Receive), Move(i, Store(true)), Move(i, Publish)]
  }

  function Turns(i: int, n: nat): seq<Move> {
    if n == 0 then [] else Turn(i) + Turns(i, n - 1)
  }

  /** The three states of a turn. */
  ghost function Held(w: World, i: int, b: nat, k: nat, p: seq<Byte>): World
    requires 0 <= i < |w.workers| && b < |w.cells| && k < |w.cells[b].sessions|
  {
    var s := w.cells[b].sessions[k];
    w.(workers := w.workers[i := PubHolding(b, k, p)],
       cells := w.cells[b := w.cells[b].(sessions := w.cells[b].sessions[k := s.(taken := s.taken + 1)])])
  }

  lemma ReceiveIs(w: World, i: int, b: nat, k: nat, p: seq<Byte>, rest: seq<seq<Byte>>)
    requires Runnable(w) && Reads(w, i, b, k, [p] + rest) && ForServer(p)
    ensures Enabled(w, i, Receive) && Next(w, i, Receive) == Held(w, i, b, k, p)
  {
    var s := w.cells[b].sessions[k];
    assert s.input[s.taken] == s.input[s.taken..][0] == p;
    hide Runnable;
  }

  lemma StoreIs(w: World, i: int, b: nat, k: nat, p: seq<Byte>)
    requires Runnable(w) && 0 <= i < |w.workers| && w.workers[i] == PubHolding(b, k, p)
    requires b < |w.cells| && w.cells[b].fd.Some?
    ensures k < |w.cells[b].sessions| && Enabled(w, i, Store(true))
    ensures var w' := Next(w, i, Store(true));
            && OnlyBox(w, w', b) && w'.workers == w.workers[i := PubStored(b, k)]
            && var s := w.cells[b].sessions[k];
               w'.cells[b] == w.cells[b].(
                              writeOffset := w.cells[b].writeOffset + 1025, log := w.cells[b].log + [p],
                              sessions := w.cells[b].sessions[k := Session(s.input, s.taken, s.stored + [p])])
  {
    hide Overwrite;
  }

  lemma PublishIs(w: World, i: int, b: nat, k: nat)
    requires Runnable(w) && 0 <= i < |w.workers| && w.workers[i] == PubStored(b, k) && b < |w.cells|
    ensures Enabled(w, i, Publish)
    ensures var w' := Next(w, i, Publish);
            && OnlyBox(w, w', b) && w'.workers == w.workers[i := PubReading(b, k)]
            && w'.cells[b] == w.cells[b].(size := w.cells[b].size + 1025)
  {
  }

  /** A turn on an open descriptor: the packet is received, stored and announced, and the handler reads on. */
  lemma PublisherTurn(w: World, i: int, b: nat, k: nat, p: seq<Byte>, rest: seq<seq<Byte>>)
    requires Inv(w) && Reads(w, i, b, k, [p] + rest) && ForServer(p)
    ensures Runs(w, Turn(i)) && Published(w, After(w, Turn(i)), b, k, [p])
    ensures Reads(After(w, Turn(i)), i, b, k, rest)
  {
    hide Inv;
    hide Runs;
    hide After;
    hide Runnable;
    hide Enabled;
    hide Next;
    hide ForServer;
    hide OnlyBox;
    InvRunnable(w);
    ReceiveIs(w, i, b, k, p, rest);
    RunsOne(w, i, Receive);
    var w1 := Next(w, i, Receive);
    InvRunnable(w1);
    StoreIs(w1, i, b, k, p);
    RunsThen(w, [Move(i, Receive)], i, Store(true));
    var w2 := Next(w1, i, Store(true));
    InvRunnable(w2);
    OnlyCells(w1, w2, b);
    PublishIs(w2, i, b, k);
    RunsThen(w, [Move(i, Receive)] + [Move(i, Store(true))], i, Publish);
    assert [Move(i, Receive)] + [Move(i, Store(true))] + [Move(i, Publish)] == Turn(i);
    TurnTogether(w, w1, w2, After(w, Turn(i)), i, b, k, p, rest);
  }

  lemma OnlyCells(w: World, w': World, b: nat)
    requires OnlyBox(w, w', b)
    ensures |w'.cells| == |w.cells|
  {
  }

  lemma TurnTogether(w: World, w1: World, w2: World, w3: World, i: int, b: nat, k: nat, p: seq<Byte>,
                     rest: seq<seq<Byte>>)
    requires Reads(w, i, b, k, [p] + rest) && w1 == Held(w, i, b, k, p)
    requires OnlyBox(w1, w2, b) && w2.workers == w1.workers[i := PubStored(b, k)]
    requires var s := w1.cells[b].sessions[k];
             w2.cells[b] == w1.cells[b].(
                            writeOffset := w1.cells[b].writeOffset + 1025, log := w1.cells[b].log + [p],
                            sessions := w1.cells[b].sessions[k := Session(s.input, s.taken, s.stored + [p])])
    requires OnlyBox(w2, w3, b) && w3.workers == w2.workers[i := PubReading(b, k)]
    requires w3.cells[b] == w2.cells[b].(size := w2.cells[b].size + 1025)
    ensures Published(w, w3, b, k, [p]) && Reads(w3, i, b, k, rest)
  {
    var s := w.cells[b].sessions[k];
    assert s.input[s.taken + 1..] == s.input[s.taken..][1..] == rest;
    assert w3.workers == w.workers;
    assert w3.cells[b].sessions == w.cells[b].sessions[k := Session(s.input, s.taken + 1, s.stored + [p])];
  }

  lemma PublishedTogether(w: World, w1: World, w2: World, b: nat, k: nat, p: seq<Byte>, ps: seq<seq<Byte>>)
    requires Published(w, w1, b, k, [p]) && Published(w1, w2, b, k, ps)
    ensures Published(w, w2, b, k, [p] + ps)
  {
    var s, s1 := w.cells[b].sessions[k], w1.cells[b].sessions[k];
    assert s.stored + [p] + ps == s.stored + ([p] + ps);
    assert w.cells[b].log + [p] + ps == w.cells[b].log + ([p] + ps);
    assert w2.cells[b].sessions == w.cells[b].sessions[k := Session(s.input, s.taken + 1 + |ps|, s1.stored + ps)];
  }

  /** For every input: with these messages for the server in front, as many turns can be taken, and the log grows by
      exactly them. */
  lemma {:induction false} PublisherTurns(w: World, i: int, b: nat, k: nat, ps: seq<seq<Byte>>, rest: seq<seq<Byte>>)
    requires Inv(w) && Reads(w, i, b, k, ps + rest) && forall j :: 0 <= j < |ps| ==> ForServer(ps[j])
    ensures Runs(w, Turns(i, |ps|)) && Published(w, After(w, Turns(i, |ps|)), b, k, ps)
    ensures Reads(After(w, Turns(i, |ps|)), i, b, k, rest)
    decreases |ps|
  {
    hide Inv;
    if ps == [] {
      assert ps + rest == rest;
      PublishedNothing(w, b, k);
    } else {
      hide Runs;
      hide After;
      hide Published;
      hide Reads;
      hide ForServer;
      assert ps + rest == [ps[0]] + (ps[1..] + rest) && ps == [ps[0]] + ps[1..];
      PublisherTurn(w, i, b, k, ps[0], ps[1..] + rest);
      var w1 := After(w, Turn(i));
      PublisherTurns(w1, i, b, k, ps[1..], rest);
      RunsTogether(w, Turn(i), Turns(i, |ps| - 1));
      PublishedTogether(w, w1, After(w1, Turns(i, |ps| - 1)), b, k, ps[0], ps[1..]);
    }
  }

  lemma PublishedNothing(w: World, b: nat, k: nat)
    requires b < |w.cells| && k < |w.cells[b].sessions|
    ensures Published(w, w, b, k, [])
  {
    var s := w.cells[b].sessions[k];
    assert w.cells[b].log + [] == w.cells[b].log && s.stored + [] == s.stored;
    assert w.cells[b].sessions[k := s] == w.cells[b].sessions;
  }

  // ---------- how a publisher's session begins and ends ----------

  /** Nothing more to read, or not a message for the server. */
  predicate Ends(rest: seq<seq<Byte>>) {
    rest == [] || !ForServer(rest[0])
  }

  /** A session ends at its first read that is no message for the server: the handler leaves, and nothing is stored. */
  lemma PublisherEnds(w: World, i: int, b: nat, k: nat, rest: seq<seq<Byte>>)
    requires Inv(w) && Reads(w, i, b, k, rest) && Ends(rest)
    ensures var moves := [Move(i, Receive), Move(i, LeavePublisher)];
            && Runs(w, moves)
            && var s, w' := w.cells[b].sessions[k], After(w, moves);
               w' == w.(workers := w.workers[i := Idle],
                        cells := w.cells[b := w.cells[b].(
                                              publishers := w.cells[b].publishers - 1,
                                              sessions := w.cells[b].sessions[k :=
                                                Session(s.input, if rest == [] then s.taken else s.taken + 1,
                                                        s.stored)])])
  {
    hide Inv;
    hide Runs;
    hide After;
    InvRunnable(w);
    ReceiveEnds(w, i, b, k, rest);
    RunsOne(w, i, Receive);
    var w1 := Next(w, i, Receive);
    InvRunnable(w1);
    hide Runnable;
    RunsThen(w, [Move(i, Receive)], i, LeavePublisher);
    assert [Move(i, Receive)] + [Move(i, LeavePublisher)] == [Move(i, Receive), Move(i, LeavePublisher)];
  }

  lemma ReceiveEnds(w: World, i: int, b: nat, k: nat, rest: seq<seq<Byte>>)
    requires Runnable(w) && Reads(w, i, b, k, rest) && Ends(rest)
    ensures Enabled(w, i, Receive)
    ensures var s := w.cells[b].sessions[k];
            Next(w, i, Receive) ==
            w.(workers := w.workers[i := PubLeaving(b, k)],
               cells := w.cells[b := w.cells[b].(sessions := w.cells[b].sessions[k :=
                 Session(s.input, if rest == [] then s.taken else s.taken + 1, s.stored)])])
  {
    var s := w.cells[b].sessions[k];
    if rest == [] {
      assert w.cells[b].sessions[k := s] == w.cells[b].sessions;
      assert w.cells[b := w.cells[b]] == w.cells;
    } else {
      assert s.input[s.taken] == s.input[s.taken..][0];
    }
  }

  /** A packet that cannot be written, and a box whose file did not open, end the session too. */
  lemma StoreFails(w: World, i: int, b: nat, k: nat, p: seq<Byte>, ok: bool)
    requires Inv(w) && 0 <= i < |w.workers| && w.workers[i] == PubHolding(b, k, p)
    requires b < |w.cells| && (!ok || w.cells[b].fd.None?)
    ensures var moves := [Move(i, Store(ok)), Move(i, LeavePublisher)];
            && Runs(w, moves)
            && After(w, moves) == w.(workers := w.workers[i := Idle],
                                     cells := w.cells[b := w.cells[b].(publishers := w.cells[b].publishers - 1)])
  {
    hide Inv;
    hide Runs;
    hide After;
    InvRunnable(w);
    RunsOne(w, i, Store(ok));
    var w1 := Next(w, i, Store(ok));
    assert w1 == w.(workers := w.workers[i := PubLeaving(b, k)]);
    InvRunnable(w1);
    hide Runnable;
    RunsThen(w, [Move(i, Store(ok))], i, LeavePublisher);
    assert [Move(i, Store(ok))] + [Move(i, LeavePublisher)] == [Move(i, Store(ok)), Move(i, LeavePublisher)];
  }

  /** The box of this name, which is the only one, is found. */
  lemma FindsBox(w: World, name: CString, k: int)
    requires Inv(w) && Runnable(w) && RemovedAt(w, name, k)
    ensures Find(w.list, w.cells, name) == k
  {
    hide DirOk;
    hide FilesOk;
    hide SizesOk;
    hide SubscribersOk;
    hide DeliveriesOk;
    hide PublishersOk;
    hide EventsOk;
    hide CounterOk;
    hide InUse;
    hide Records;
  }

  /** Somebody publishes to this box. */
  ghost predicate HasPublisher(w: World, b: nat) {
    exists i :: 0 <= i < |w.workers| && w.workers[i].Publishes() && w.workers[i].box == b
  }

  lemma PublisherCounted(w: World, b: nat)
    requires Inv(w) && b < |w.cells|
    ensures HasPublisher(w, b) <==> w.cells[b].publishers == 1
    ensures !HasPublisher(w, b) <==> w.cells[b].publishers == 0
  {
    hide DirOk;
    hide FilesOk;
    hide SizesOk;
    hide SubscribersOk;
    hide DeliveriesOk;
    hide PublishersOk;
    hide EventsOk;
    assert CounterOk(w.workers, w.cells, b);
    if !HasPublisher(w, b) {
      assert forall i :: 0 <= i < |w.workers| ==> !Plays(w.workers[i], Publishing, b);
      NobodyCounts(w.workers, Publishing, b);
    } else {
      var i :| 0 <= i < |w.workers| && w.workers[i].Publishes() && w.workers[i].box == b;
      CountAtLeast(w.workers, i, Publishing, b);
    }
  }

  /** A publisher is turned away exactly when there is no box of the name or somebody publishes to it, and otherwise
      begins to read: a session with nothing taken and nothing stored, behind those the box has had. */
  lemma PublisherBegins(w: World, i: int, name: CString, input: seq<seq<Byte>>, k: int)
    requires Inv(w) && 0 <= i < |w.workers| && w.workers[i].Idle?
    ensures Runnable(w) && Enabled(w, i, RegisterPublisher(name, input))
    ensures var w' := Next(w, i, RegisterPublisher(name, input));
            && (!Listed(w.list, w.cells, name) ==> w' == w)
            && (RemovedAt(w, name, k) && HasPublisher(w, w.list[k]) ==> w' == w)
            && (RemovedAt(w, name, k) && !HasPublisher(w, w.list[k]) ==>
                  var b, box := w.list[k], w.cells[w.list[k]];
                  w' == w.(workers := w.workers[i := PubReading(b, |box.sessions|)],
                           cells := w.cells[b := box.(publishers := 1,
                                                      sessions := box.sessions + [Session(input, 0, [])])]))
  {
    hide Inv;
    InvRunnable(w);
    FoundIsListed(w, name);
    hide Listed;
    hide HasPublisher;
    if RemovedAt(w, name, k) {
      FindsBox(w, name, k);
      PublisherCounted(w, w.list[k]);
    }
    hide Find;
  }

  // ---------- the rounds of a subscriber ----------

  /** Worker i waits for packets of box b, read from file f, and record d holds the n it has sent. */
  ghost predicate Waits(w: World, i: int, b: nat, f: nat, d: nat, n: nat) {
    && 0 <= i < |w.workers| && w.workers[i] == SubWaiting(b, f, 1025 * n, d)
    && b < |w.cells| && d < |w.deliveries| && |w.deliveries[d].packets| == n
  }

  /** A message for the server as a subscriber gets it. */
  function AsSent(p: seq<Byte>): seq<Byte>
    requires |p| == 1025
  {
    [10] + p[1..]
  }

  lemma RelabelIsAsSent(p: seq<Byte>)
    requires IsPacket(p)
    ensures |p| == 1025 && Relabel(p) == AsSent(p)
  {
    assert Relabel(p) == [Relabel(p)[0]] + Relabel(p)[1..];
  }

  function Round(i: int): seq<Move> {
    [Move(i, Check), Move(i, Fetch), Move(i, Deliver(true))]
  }

  function Rounds(i: int, n: nat): seq<Move> {
    if n == 0 then [] else Round(i) + Rounds(i, n - 1)
  }

  /** w after record d was given p, and its worker stands behind that. */
  ghost function Given(w: World, i: int, b: nat, f: nat, d: nat, n: nat, p: seq<Byte>): World
    requires 0 <= i < |w.workers| && d < |w.deliveries|
  {
    w.(workers := w.workers[i := SubWaiting(b, f, 1025 * (n + 1), d)],
       deliveries := w.deliveries[d := Delivery(w.deliveries[d].box, w.deliveries[d].packets + [p])])
  }

  /** What the invariant says of a waiting subscriber. */
  lemma WaitingIs(w: World, i: int, b: nat, f: nat, d: nat, n: nat)
    requires Inv(w) && Waits(w, i, b, f, d, n)
    ensures w.deliveries[d].box == b && 1025 * n <= w.cells[b].size <= 1025 * |w.cells[b].log|
    ensures Packets(w.cells[b].log)
    ensures forall j :: 0 <= j < n ==> w.deliveries[d].packets[j] == Relabel(w.cells[b].log[j])
  {
    BoxOf(w, i);
    SizeBound(w.workers, w.cells, b);
    assert DeliveryOk(w.deliveries[d], w.cells);
    hide Inv;
    hide Count;
    hide BoxOk;
    hide Backed;
  }

  lemma CheckIs(w: World, i: int, b: nat, f: nat, d: nat, n: nat)
    requires Inv(w) && Runnable(w) && Waits(w, i, b, f, d, n)
    ensures Enabled(w, i, Check) <==> w.cells[b].size != 1025 * n
    ensures w.cells[b].size != 1025 * n ==>
              Next(w, i, Check) == w.(workers := w.workers[i := SubReady(b, f, 1025 * n, d)])
  {
    hide Inv;
  }

  lemma FetchedIs(w: World, i: int, b: nat, f: nat, d: nat, n: nat)
    requires Inv(w) && Runnable(w) && 0 <= i < |w.workers| && w.workers[i] == SubReady(b, f, 1025 * n, d)
    requires b < |w.cells| && d < |w.deliveries| && |w.deliveries[d].packets| == n
    ensures n < |w.cells[b].log| && |w.cells[b].log[n]| == 1025 && Enabled(w, i, Fetch)
    ensures Next(w, i, Fetch)
         == w.(workers := w.workers[i := SubHolding(b, f, 1025 * (n + 1), d, AsSent(w.cells[b].log[n]))])
  {
    hide Inv;
    FetchIs(w, i);
    RelabelIsAsSent(w.cells[b].log[n]);
    hide AsSent;
    hide Relabel;
  }

  lemma DeliveredIs(w: World, i: int, b: nat, f: nat, d: nat, n: nat, p: seq<Byte>)
    requires Runnable(w) && 0 <= i < |w.workers| && w.workers[i] == SubHolding(b, f, 1025 * (n + 1), d, p)
    ensures d < |w.deliveries| && Enabled(w, i, Deliver(true))
    ensures Next(w, i, Deliver(true)) == Given(w, i, b, f, d, n, p)
  {
  }

  /** A round before all announced is sent: the pipe is given the next packet of the log, as a message for a subscriber,
      and the handler waits behind it. Nothing else changes. */
  lemma SubscriberRound(w: World, i: int, b: nat, f: nat, d: nat, n: nat)
    requires Inv(w) && Waits(w, i, b, f, d, n) && w.cells[b].size != 1025 * n
    ensures n < |w.cells[b].log| && |w.cells[b].log[n]| == 1025
    ensures Runs(w, Round(i)) && After(w, Round(i)) == Given(w, i, b, f, d, n, AsSent(w.cells[b].log[n]))
    ensures Waits(After(w, Round(i)), i, b, f, d, n + 1)
  {
    hide Inv;
    hide Runs;
    hide After;
    hide Runnable;
    hide Enabled;
    hide Next;
    hide AsSent;
    InvRunnable(w);
    CheckIs(w, i, b, f, d, n);
    RunsOne(w, i, Check);
    var w1 := Next(w, i, Check);
    InvRunnable(w1);
    FetchedIs(w1, i, b, f, d, n);
    RunsThen(w, [Move(i, Check)], i, Fetch);
    var w2 := Next(w1, i, Fetch);
    InvRunnable(w2);
    DeliveredIs(w2, i, b, f, d, n, AsSent(w.cells[b].log[n]));
    RunsThen(w, [Move(i, Check)] + [Move(i, Fetch)], i, Deliver(true));
    assert [Move(i, Check)] + [Move(i, Fetch)] + [Move(i, Deliver(true))] == Round(i);
  }

  /** What record d was given is the whole of this log. */
  ghost predicate HasAll(packets: seq<seq<Byte>>, log: seq<seq<Byte>>) {
    && |packets| == |log|
    && forall j :: 0 <= j < |log| ==> |log[j]| == 1025 && packets[j] == AsSent(log[j])
  }

  /** Only record d and its worker i are different. */
  ghost predicate OnlyRecord(w: World, w': World, i: int, d: nat) {
    && w'.list == w.list && w'.cells == w.cells && w'.dir == w.dir && w'.files == w.files && w'.events == w.events
    && |w'.workers| == |w.workers| && |w'.deliveries| == |w.deliveries|
    && (forall j :: 0 <= j < |w.workers| && j != i ==> w'.workers[j] == w.workers[j])
    && forall e :: 0 <= e < |w.deliveries| && e != d ==> w'.deliveries[e] == w.deliveries[e]
  }

  /** Record d of the subscriber i of box b has m packets of the log, and its handler stands behind them; nothing else
      is different. */
  ghost predicate Sent(w: World, w': World, i: int, b: nat, f: nat, d: nat, m: nat) {
    && b < |w.cells| && m <= |w.cells[b].log|
    && OnlyRecord(w, w', i, d) && Waits(w', i, b, f, d, m)
    && w'.deliveries[d].box == b && HasAll(w'.deliveries[d].packets, w.cells[b].log[..m])
  }

  /** With m packets announced, the rounds can go on until exactly these have been sent, and then the handler waits. */
  lemma {:induction false} SubscriberRounds(w: World, i: int, b: nat, f: nat, d: nat, n: nat, m: nat)
    requires Inv(w) && Waits(w, i, b, f, d, n) && w.cells[b].size == 1025 * m
    ensures n <= m && Runs(w, Rounds(i, m - n))
    ensures var w' := After(w, Rounds(i, m - n));
            Sent(w, w', i, b, f, d, m) && Runnable(w') && !Enabled(w', i, Check)
    decreases w.cells[b].size - 1025 * n
  {
    hide Inv;
    hide Relabel;
    WaitingIs(w, i, b, f, d, n);
    if n == m {
      HasAllOfThem(w, i, b, f, d, n);
      InvRunnable(w);
      CheckIs(w, i, b, f, d, n);
    } else {
      hide Runs;
      hide After;
      hide Runnable;
      hide Enabled;
      SubscriberRound(w, i, b, f, d, n);
      hide AsSent;
      SubscriberRounds(After(w, Round(i)), i, b, f, d, n + 1, m);
      RunsTogether(w, Round(i), Rounds(i, m - n - 1));
    }
  }

  lemma HasAllOfThem(w: World, i: int, b: nat, f: nat, d: nat, n: nat)
    requires Inv(w) && Waits(w, i, b, f, d, n)
    ensures n <= |w.cells[b].log| && HasAll(w.deliveries[d].packets, w.cells[b].log[..n])
  {
    hide Inv;
    WaitingIs(w, i, b, f, d, n);
    forall j | 0 <= j < n
      ensures |w.cells[b].log[j]| == 1025 && w.deliveries[d].packets[j] == AsSent(w.cells[b].log[j])
    {
      RelabelIsAsSent(w.cells[b].log[j]);
    }
    hide AsSent;
    hide Relabel;
  }

  /** A pipe that cannot be written gets nothing more, and its session ends. */
  lemma SubscriberEnds(w: World, i: int, b: nat, f: nat, pos: nat, d: nat, p: seq<Byte>)
    requires Inv(w) && 0 <= i < |w.workers| && w.workers[i] == SubHolding(b, f, pos, d, p) && b < |w.cells|
    ensures var moves := [Move(i, Deliver(false)), Move(i, LeaveSubscriber)];
            && Runs(w, moves)
            && After(w, moves) == w.(workers := w.workers[i := Idle],
                                     cells := w.cells[b := w.cells[b].(subscribers := w.cells[b].subscribers - 1)])
  {
    hide Inv;
    hide Runs;
    hide After;
    InvRunnable(w);
    RunsOne(w, i, Deliver(false));
    var w1 := Next(w, i, Deliver(false));
    assert w1 == w.(workers := w.workers[i := SubLeaving(b, d)]);
    InvRunnable(w1);
    hide Runnable;
    RunsThen(w, [Move(i, Deliver(false))], i, LeaveSubscriber);
    assert [Move(i, Deliver(false))] + [Move(i, LeaveSubscriber)]
        == [Move(i, Deliver(false)), Move(i, LeaveSubscriber)];
  }

  /** A subscriber is turned away exactly when there is no box of the name or its file does not open, and otherwise
      waits at the beginning of the box's file with nothing sent. */
  lemma SubscriberBegins(w: World, i: int, name: CString, opens: bool, k: int)
    requires Inv(w) && 0 <= i < |w.workers| && w.workers[i].Idle?
    ensures Runnable(w) && Enabled(w, i, RegisterSubscriber(name, opens))
    ensures var w' := Next(w, i, RegisterSubscriber(name, opens));
            && (!Listed(w.list, w.cells, name) || !opens || name !in w.dir ==> w' == w)
            && (RemovedAt(w, name, k) && opens && name in w.dir ==>
                  var b, box := w.list[k], w.cells[w.list[k]];
                  && (box.fd.Some? ==> box.fd.value == w.dir[name])
                  && w' == w.(workers := w.workers[i := SubWaiting(b, w.dir[name], 0, |w.deliveries|)],
                              cells := w.cells[b := box.(subscribers := box.subscribers + 1)],
                              deliveries := w.deliveries + [Delivery(b, [])]))
  {
    hide Inv;
    InvRunnable(w);
    FoundIsListed(w, name);
    hide Listed;
    if RemovedAt(w, name, k) {
      FindsBox(w, name, k);
      ListedOk(w, k);
    }
    hide Find;
    hide BoxOk;
    hide CounterOk;
    hide Flatten;
  }

  // ---------- whole sessions ----------

  lemma ReachableOn(w: World, moves: seq<Move>)
    requires Reachable(w) && Inv(w) && Runs(w, moves)
    ensures Reachable(After(w, moves))
  {
    hide Inv;
    hide Runs;
    hide After;
    hide Initial;
    var start: World, before: seq<Move> :| ReachedBy(w, start, before);
    InitialInv(start);
    RunsTogether(start, before, moves);
    assert ReachedBy(After(w, moves), start, before + moves);
  }

  /** Worker i is free, and nobody publishes to the box of this name, the k-th of the list, whose file is open. */
  ghost predicate CanPublish(w: World, i: int, name: CString, k: int) {
    && 0 <= i < |w.workers| && w.workers[i].Idle?
    && RemovedAt(w, name, k) && !HasPublisher(w, w.list[k]) && w.cells[w.list[k]].fd.Some?
  }

  /** Of ps and rest, exactly ps is published. */
  ghost predicate Splits(ps: seq<seq<Byte>>, rest: seq<seq<Byte>>) {
    (forall j :: 0 <= j < |ps| ==> ForServer(ps[j])) && Ends(rest)
  }

  /** Record d of the subscriber j of box b has all of this log, and the subscriber waits for more. */
  ghost predicate AllSent(w: World, j: int, b: nat, f: nat, d: nat, log: seq<seq<Byte>>) {
    && b < |w.cells| && w.cells[b].log == log
    && Waits(w, j, b, f, d, |log|) && HasAll(w.deliveries[d].packets, log)
  }

  function PublisherMoves(i: int, name: CString, input: seq<seq<Byte>>, n: nat): seq<Move> {
    [Move(i, RegisterPublisher(name, input))] + (Turns(i, n) + [Move(i, Receive), Move(i, LeavePublisher)])
  }

  /** Box b after a session that published ps out of ps + rest. */
  ghost function Enriched(box: Box, ps: seq<seq<Byte>>, rest: seq<seq<Byte>>): Box {
    box.(size := box.size + 1025 * |ps|, writeOffset := box.writeOffset + 1025 * |ps|, log := box.log + ps,
         sessions := box.sessions + [Session(ps + rest, if rest == [] then |ps| else |ps| + 1, ps)])
  }

  /** A publisher that registers for a box nobody publishes to puts the messages in front of its input, all of them and
      in order, behind the box's log and into its file, announces them, and leaves at the first read that is none. */
  lemma PublisherSession(w: World, i: int, name: CString, k: int, ps: seq<seq<Byte>>, rest: seq<seq<Byte>>)
    requires Reachable(w) && CanPublish(w, i, name, k) && Splits(ps, rest)
    ensures Inv(w) && Runs(w, PublisherMoves(i, name, ps + rest, |ps|))
    ensures var b, w' := w.list[k], After(w, PublisherMoves(i, name, ps + rest, |ps|));
            && OnlyBox(w, w', b) && w'.workers == w.workers && |w'.cells| == |w.cells|
            && w'.cells[b] == Enriched(w.cells[b], ps, rest)
  {
    ReachableInv(w);
    hide Reachable;
    hide Inv;
    hide Runs;
    hide After;
    hide Runnable;
    hide Enabled;
    hide Next;
    hide Splits;
    hide HasPublisher;
    hide Turns;
    hide OnlyBox;
    hide Enriched;
    hide Listed;
    var b, input := w.list[k], ps + rest;
    PublisherBegins(w, i, name, input, k);
    PublisherCounted(w, b);
    RunsOne(w, i, RegisterPublisher(name, input));
    var w1 := Next(w, i, RegisterPublisher(name, input));
    PublishesAll(w, w1, i, b, ps, rest);
    RunsTogether(w, [Move(i, RegisterPublisher(name, input))],
                 Turns(i, |ps|) + [Move(i, Receive), Move(i, LeavePublisher)]);
  }

  /** From the registration on. */
  lemma PublishesAll(w: World, w1: World, i: int, b: nat, ps: seq<seq<Byte>>, rest: seq<seq<Byte>>)
    requires Inv(w1) && 0 <= i < |w.workers| && w.workers[i].Idle? && Splits(ps, rest)
    requires b < |w.cells| && w.cells[b].publishers == 0 && w.cells[b].fd.Some?
    requires var box := w.cells[b];
             w1 == w.(workers := w.workers[i := PubReading(b, |box.sessions|)],
                      cells := w.cells[b := box.(publishers := 1,
                                                 sessions := box.sessions + [Session(ps + rest, 0, [])])])
    ensures Runs(w1, Turns(i, |ps|) + [Move(i, Receive), Move(i, LeavePublisher)])
    ensures var w' := After(w1, Turns(i, |ps|) + [Move(i, Receive), Move(i, LeavePublisher)]);
            && OnlyBox(w, w', b) && w'.workers == w.workers && |w'.cells| == |w.cells|
            && w'.cells[b] == Enriched(w.cells[b], ps, rest)
  {
    hide Inv;
    hide Runs;
    hide After;
    hide ForServer;
    hide Ends;
    hide Turns;
    hide OnlyBox;
    hide Enriched;
    var k := |w.cells[b].sessions|;
    assert (ps + rest)[0..] == ps + rest;
    PublisherTurns(w1, i, b, k, ps, rest);
    var w2 := After(w1, Turns(i, |ps|));
    PublisherEnds(w2, i, b, k, rest);
    RunsTogether(w1, Turns(i, |ps|), [Move(i, Receive), Move(i, LeavePublisher)]);
    OnlyCells(w1, w2, b);
    SessionTogether(w, w1, w2, After(w1, Turns(i, |ps|) + [Move(i, Receive), Move(i, LeavePublisher)]), i, b, ps, rest);
  }

  lemma SessionTogether(w: World, w1: World, w2: World, w3: World, i: int, b: nat, ps: seq<seq<Byte>>,
                        rest: seq<seq<Byte>>)
    requires 0 <= i < |w.workers| && w.workers[i].Idle? && b < |w.cells| && w.cells[b].publishers == 0
    requires var box := w.cells[b];
             w1 == w.(workers := w.workers[i := PubReading(b, |box.sessions|)],
                      cells := w.cells[b := box.(publishers := 1,
                                                 sessions := box.sessions + [Session(ps + rest, 0, [])])])
    requires Published(w1, w2, b, |w.cells[b].sessions|, ps) && |w2.cells| == |w.cells|
    requires |w2.cells[b].sessions| == |w.cells[b].sessions| + 1
    requires var k := |w.cells[b].sessions|;
             var s := w2.cells[b].sessions[k];
             w3 == w2.(workers := w2.workers[i := Idle],
                       cells := w2.cells[b := w2.cells[b].(
                                              publishers := w2.cells[b].publishers - 1,
                                              sessions := w2.cells[b].sessions[k :=
                                                Session(s.input, if rest == [] then s.taken else s.taken + 1,
                                                        s.stored)])])
    ensures OnlyBox(w, w3, b) && w3.workers == w.workers && |w3.cells| == |w.cells|
    ensures w3.cells[b] == Enriched(w.cells[b], ps, rest)
  {
    assert w3.workers == w.workers;
    assert [] + ps == ps;
    assert w3.cells[b].sessions == Enriched(w.cells[b], ps, rest).sessions;
  }

  /** A box nobody publishes to has announced all it has, and its file begins with that. */
  lemma QuietBox(w: World, name: CString, k: int)
    requires Reachable(w) && RemovedAt(w, name, k) && !HasPublisher(w, w.list[k])
    ensures var box := w.cells[w.list[k]];
            && box.size == 1025 * |box.log|
            && (box.fd.Some? ==> box.fd.value < |w.files| && Flatten(box.log) <= w.files[box.fd.value])
  {
    hide Reachable;
    hide Flatten;
    SizeFollowsLog(w, k);
  }

  /** What is published reaches a subscriber that waits: after the publisher's session its rounds give the pipe all of
      the log, the new messages last, and it waits again. */
  lemma PublishedIsDelivered(w: World, i: int, name: CString, k: int, ps: seq<seq<Byte>>, rest: seq<seq<Byte>>,
                             j: int, f: nat, d: nat, n: nat, log: seq<seq<Byte>>)
    requires Reachable(w) && CanPublish(w, i, name, k) && Splits(ps, rest)
    requires Waits(w, j, w.list[k], f, d, n) && log == w.cells[w.list[k]].log + ps
    ensures Inv(w) && n + |ps| <= |log|
    ensures var moves := PublisherMoves(i, name, ps + rest, |ps|) + Rounds(j, |log| - n);
            Runs(w, moves) && AllSent(After(w, moves), j, w.list[k], f, d, log)
  {
    ReachableInv(w);
    hide Reachable;
    hide Inv;
    hide Runs;
    hide After;
    hide Splits;
    hide HasPublisher;
    hide PublisherMoves;
    hide Rounds;
    WaitingIs(w, j, w.list[k], f, d, n);
    QuietBox(w, name, k);
    PublisherSession(w, i, name, k, ps, rest);
    var moves := PublisherMoves(i, name, ps + rest, |ps|);
    AllRounds(After(w, moves), j, w.list[k], f, d, n, log);
    RunsTogether(w, moves, Rounds(j, |log| - n));
  }

  lemma AllRounds(w: World, j: int, b: nat, f: nat, d: nat, n: nat, log: seq<seq<Byte>>)
    requires Inv(w) && Waits(w, j, b, f, d, n) && w.cells[b].log == log && w.cells[b].size == 1025 * |log|
    ensures n <= |log| && Runs(w, Rounds(j, |log| - n))
    ensures AllSent(After(w, Rounds(j, |log| - n)), j, b, f, d, log)
  {
    hide Inv;
    hide Runs;
    hide After;
    hide Runnable;
    hide Enabled;
    hide Sent;
    hide AllSent;
    hide Rounds;
    SubscriberRounds(w, j, b, f, d, n, |log|);
    SentIsAll(w, After(w, Rounds(j, |log| - n)), j, b, f, d, log);
  }

  lemma SentIsAll(w: World, w': World, j: int, b: nat, f: nat, d: nat, log: seq<seq<Byte>>)
    requires Sent(w, w', j, b, f, d, |log|) && w.cells[b].log == log
    ensures AllSent(w', j, b, f, d, log)
  {
    hide HasAll;
    assert log[..|log|] == log;
  }

  /** Worker i is the newest subscriber of box b, with the record d of its own, and has m packets of the log; nothing
      else is different. */
  ghost predicate Joined(w: World, w': World, i: int, b: nat, f: nat, m: nat) {
    var d := |w.deliveries|;
    && b < |w.cells| && m <= |w.cells[b].log|
    && w'.list == w.list && w'.dir == w.dir && w'.files == w.files && w'.events == w.events
    && w'.cells == w.cells[b := w.cells[b].(subscribers := w.cells[b].subscribers + 1)]
    && |w'.workers| == |w.workers| && (forall j :: 0 <= j < |w.workers| && j != i ==> w'.workers[j] == w.workers[j])
    && |w'.deliveries| == d + 1 && (forall e :: 0 <= e < d ==> w'.deliveries[e] == w.deliveries[e])
    && w'.deliveries[d].box == b
    && Waits(w', i, b, f, d, m) && HasAll(w'.deliveries[d].packets, w.cells[b].log[..m])
  }

  /** A subscriber that comes later is given all that was announced before it came, from the beginning. */
  lemma SubscriberSession(w: World, i: int, name: CString, k: int, m: nat)
    requires Reachable(w) && 0 <= i < |w.workers| && w.workers[i].Idle?
    requires RemovedAt(w, name, k) && name in w.dir && w.cells[w.list[k]].size == 1025 * m
    ensures Inv(w)
    ensures var moves := [Move(i, RegisterSubscriber(name, true))] + Rounds(i, m);
            Runs(w, moves) && Joined(w, After(w, moves), i, w.list[k], w.dir[name], m)
  {
    ReachableInv(w);
    hide Reachable;
    hide Inv;
    hide Runs;
    hide After;
    hide Runnable;
    hide Enabled;
    hide Next;
    hide HasAll;
    hide Rounds;
    hide Listed;
    var step := RegisterSubscriber(name, true);
    SubscriberBegins(w, i, name, true, k);
    RunsOne(w, i, step);
    var w1 := Next(w, i, step);
    JoinsThen(w, w1, i, w.list[k], w.dir[name], m);
    RunsTogether(w, [Move(i, step)], Rounds(i, m));
  }

  lemma JoinsThen(w: World, w1: World, i: int, b: nat, f: nat, m: nat)
    requires Inv(w1) && 0 <= i < |w.workers| && b < |w.cells| && w.cells[b].size == 1025 * m
    requires w1 == w.(workers := w.workers[i := SubWaiting(b, f, 0, |w.deliveries|)],
                      cells := w.cells[b := w.cells[b].(subscribers := w.cells[b].subscribers + 1)],
                      deliveries := w.deliveries + [Delivery(b, [])])
    ensures Runs(w1, Rounds(i, m)) && Joined(w, After(w1, Rounds(i, m)), i, b, f, m)
  {
    hide Inv;
    hide Runs;
    hide After;
    hide Runnable;
    hide Enabled;
    hide HasAll;
    hide Rounds;
    SubscriberRounds(w1, i, b, f, |w.deliveries|, 0, m);
  }
}
