/** Every interleaving of the workers. */
module BrokerRuns {
  import opened Collections
  import opened Memory
  import opened BrokerSteps
  import opened BrokerCounters
  import opened BrokerData
  import opened BrokerSessions
  import opened BrokerInvariant

  /** A worker and the step it takes. */
  datatype Move = Move(worker: int, step: Step)

  /** The broker at its start, over whatever files there are. */
  ghost predicate Initial(w: World) {
    && (forall i :: 0 <= i < |w.workers| ==> w.workers[i].Idle?)
    && w.list == [] && w.cells == [] && w.deliveries == [] && w.events == []
    && DirOk(w.dir, w.files)
  }

  ghost predicate Runs(w: World, moves: seq<Move>)
    requires Inv(w)
    decreases |moves|
  {
    InvRunnable(w);
    moves == [] ||
    (Enabled(w, moves[0].worker, moves[0].step) &&
     (StepKeeps(w, moves[0].worker, moves[0].step); Runs(Next(w, moves[0].worker, moves[0].step), moves[1..])))
  }

  ghost function After(w: World, moves: seq<Move>): (w': World)
    requires Inv(w) && Runs(w, moves)
    ensures Inv(w')
    decreases |moves|
  {
    if moves == [] then w
    else
      InvRunnable(w);
      StepKeeps(w, moves[0].worker, moves[0].step);
      After(Next(w, moves[0].worker, moves[0].step), moves[1..])
  }

  lemma InitialInv(w: World)
    requires Initial(w)
    ensures Inv(w)
  {
  }

  /** A state some run from the start leads to. */
  ghost predicate Reachable(w: World) {
    exists start: World, moves: seq<Move> :: ReachedBy(w, start, moves)
  }

  ghost predicate ReachedBy(w: World, start: World, moves: seq<Move>) {
    Initial(start) && (InitialInv(start); Runs(start, moves)) && w == After(start, moves)
  }

  lemma ReachableInv(w: World)
    requires Reachable(w)
    ensures Inv(w) && Runnable(w)
  {
    hide Inv;
    hide Initial;
    hide Runnable;
    var start: World, moves: seq<Move> :| ReachedBy(w, start, moves);
    InitialInv(start);
    InvRunnable(w);
  }

  /** In every run, each session's box is in the list; a box's counters are its live sessions, at most one
      of them publishing; and over all boxes they add up to the workers in a session, so to no more than the workers. */
  lemma CountersAlways(w: World)
    requires Reachable(w)
    ensures forall i :: 0 <= i < |w.workers| && !w.workers[i].Idle? ==> w.workers[i].box in w.list
    ensures forall b: nat :: b < |w.cells| ==>
              && 0 <= w.cells[b].publishers == Count(w.workers, Publishing, b) <= 1
              && 0 <= w.cells[b].subscribers == Count(w.workers, Subscribing, b)
    ensures forall k :: 0 <= k < |w.list| ==> w.list[k] < |w.cells|
    ensures Total(w.list, w.cells) == Busy(w.workers) <= |w.workers|
  {
    ReachableInv(w);
    hide DirOk;
    hide FilesOk;
    hide SizesOk;
    hide SubscribersOk;
    hide DeliveriesOk;
    hide PublishersOk;
    hide EventsOk;
    CountersAddUp(w.workers, w.list, w.cells);
    forall b: nat | b < |w.cells|
      ensures 0 <= w.cells[b].publishers == Count(w.workers, Publishing, b) <= 1
      ensures 0 <= w.cells[b].subscribers == Count(w.workers, Subscribing, b)
    {
      assert CounterOk(w.workers, w.cells, b);
    }
  }

  /** In every run, what a subscriber session has been given is the beginning of its box's log, relabelled,
      all of it announced by the size, which never runs ahead of what has been written. */
  lemma DeliveredIsPrefix(w: World, s: nat)
    requires Reachable(w) && s < |w.deliveries|
    ensures w.deliveries[s].box < |w.cells|
    ensures var d, box := w.deliveries[s], w.cells[w.deliveries[s].box];
            && |d.packets| <= |box.log|
            && (forall k :: 0 <= k < |d.packets| ==> IsPacket(box.log[k]) && d.packets[k] == Relabel(box.log[k]))
            && PACKET_SIZE * |d.packets| <= box.size <= PACKET_SIZE * |box.log|
  {
    ReachableInv(w);
    hide CountersOk;
    hide DirOk;
    hide FilesOk;
    hide SubscribersOk;
    hide PublishersOk;
    hide EventsOk;
    assert DeliveryOk(w.deliveries[s], w.cells);
    SizeBound(w.workers, w.cells, w.deliveries[s].box);
  }

  /** In every run, a read after the wait returns a whole packet: the next of the log. Neither of the other two
      branches is taken, whatever the box's file held when the box was created. */
  lemma ReadIsWhole(w: World, i: int)
    requires Reachable(w) && 0 <= i < |w.workers| && w.workers[i].SubReady?
    ensures Runnable(w) && FetchLength(w, i) == PACKET_SIZE
    ensures FetchPacket(w, i).workers[i].SubHolding?
    ensures var SubReady(b, f, pos, session) := w.workers[i];
            && session < |w.deliveries| && b < |w.cells| && |w.deliveries[session].packets| < |w.cells[b].log|
            && IsPacket(w.cells[b].log[|w.deliveries[session].packets|])
            && FetchPacket(w, i).workers[i].packet == Relabel(w.cells[b].log[|w.deliveries[session].packets|])
  {
    ReachableInv(w);
    BoxOf(w, i);
    hide Inv;
    hide Count;
    hide BoxOk;
    hide Backed;
    FetchIs(w, i);
  }

  /** In every run, a box's file starts with its log, in packets; size is the log's length but for the one packet
      a publisher has stored and not yet announced. */
  lemma SizeFollowsLog(w: World, k: nat)
    requires Reachable(w) && k < |w.list|
    ensures w.list[k] < |w.cells|
    ensures var box := w.cells[w.list[k]];
            && (box.size == PACKET_SIZE * |box.log|
                || (box.size + PACKET_SIZE == PACKET_SIZE * |box.log| && Stores(w.workers, w.list[k])))
            && (box.fd.Some? ==> box.fd.value < |w.files| && Flatten(box.log) <= w.files[box.fd.value])
            && (box.fd.None? ==> box.log == [])
  {
    ReachableInv(w);
    ListedOk(w, k);
    StoredAtMostOnce(w, w.list[k]);
    hide CountersOk;
    hide DirOk;
    hide SubscribersOk;
    hide DeliveriesOk;
    hide PublishersOk;
    hide EventsOk;
    hide Flatten;
    assert SizeOk(w.workers, w.cells, w.list[k]);
    if Count(w.workers, Storing, w.list[k]) != 0 {
      SomeoneStores(w.workers, w.list[k]);
    }
  }

  /** A publisher has stored a packet of this box and not yet announced it. */
  ghost predicate Stores(workers: seq<Worker>, b: nat) {
    exists i :: 0 <= i < |workers| && workers[i].PubStored? && workers[i].box == b
  }

  lemma SomeoneStores(workers: seq<Worker>, b: nat)
    requires Count(workers, Storing, b) != 0
    ensures Stores(workers, b)
  {
    if forall i :: 0 <= i < |workers| ==> !Plays(workers[i], Storing, b) {
      NobodyCounts(workers, Storing, b);
    } else {
      var i :| 0 <= i < |workers| && Plays(workers[i], Storing, b);
      assert workers[i].PubStored? && workers[i].box == b;
    }
  }

  /** In every run, a box's log is what its publisher sessions contributed, one session after the other in the order
      they attached, and a contribution is the beginning of what the session's pipe yielded. */
  lemma LogIsContributions(w: World, b: nat)
    requires Reachable(w) && b < |w.cells|
    ensures w.cells[b].log == Contributions(w.cells[b].sessions)
    ensures forall k :: 0 <= k < |w.cells[b].sessions| ==> w.cells[b].sessions[k].stored <= w.cells[b].sessions[k].input
  {
    ReachableInv(w);
    hide CountersOk;
    hide DirOk;
    hide FilesOk;
    hide SizesOk;
    hide SubscribersOk;
    hide DeliveriesOk;
    hide EventsOk;
    assert BoxOk(w.cells[b]);
    forall k | 0 <= k < |w.cells[b].sessions|
      ensures w.cells[b].sessions[k].stored <= w.cells[b].sessions[k].input
    {
      assert SessionOk(w.cells[b].sessions[k]);
    }
  }

  /** In every run, a publishing handler reads and stores for the session its box had last, no other handler is in that
      box as a publisher, and unless it is leaving, all it has read but the packet in hand is stored. */
  lemma PublisherOwnsLastSession(w: World, i: int)
    requires Reachable(w) && 0 <= i < |w.workers| && w.workers[i].Publishes()
    ensures var b, k := w.workers[i].box, w.workers[i].session;
            && b < |w.cells| && k + 1 == |w.cells[b].sessions|
            && (forall j :: 0 <= j < |w.workers| && j != i && w.workers[j].Publishes() ==> w.workers[j].box != b)
            && var s := w.cells[b].sessions[k];
               && s.taken <= |s.input|
               && (w.workers[i].PubReading? || w.workers[i].PubStored? ==> s.stored == s.input[..s.taken])
               && (w.workers[i].PubHolding? ==> s.taken > 0 && s.stored + [w.workers[i].packet] == s.input[..s.taken])
  {
    ReachableInv(w);
    BoxOf(w, i);
    var b := w.workers[i].box;
    forall j | 0 <= j < |w.workers| && j != i && w.workers[j].Publishes()
      ensures w.workers[j].box != b
    {
      OnePublisher(w.workers, i, j, b);
    }
    hide Inv;
    hide BoxOk;
    hide Backed;
    hide Count;
  }

  /** Why it has to be the last: a packet stored for session k leaves the log in attach order exactly when it commutes
      with what later sessions have stored. */
  lemma StoringForSession(box: Box, k: nat, p: seq<Byte>)
    requires box.log == Contributions(box.sessions) && k < |box.sessions|
    ensures box.log + [p] == Contributions(WithSession(box, k, WithPacket(box.sessions[k], p)).sessions)
       <==> Later(box, k) + [p] == [p] + Later(box, k)
  {
    var s, rest := WithPacket(box.sessions[k], p), Later(box, k);
    var one := Contributions(box.sessions[..k]) + box.sessions[k].stored;
    AroundSession(box.sessions, k, box.sessions[k]);
    AroundSession(box.sessions, k, s);
    assert box.sessions[k := box.sessions[k]] == box.sessions;
    hide Contributions;
    assert box.log + [p] == one + (rest + [p]);
    assert Contributions(WithSession(box, k, s).sessions) == one + ([p] + rest);
    SameBehind(one, rest + [p], [p] + rest);
  }

  /** The contributions around session k. */
  lemma AroundSession(sessions: seq<Session>, k: nat, s: Session)
    requires k < |sessions|
    ensures Contributions(sessions[k := s])
         == Contributions(sessions[..k]) + s.stored + Contributions(sessions[k + 1..])
  {
    var back := sessions[k + 1..];
    assert sessions[k := s] == sessions[..k] + ([s] + back);
    ContributionsTogether(sessions[..k], [s] + back);
    assert ([s] + back)[1..] == back;
  }

  lemma SameBehind<T>(one: seq<T>, x: seq<T>, y: seq<T>)
    ensures one + x == one + y <==> x == y
  {
    if one + x == one + y {
      assert x == (one + x)[|one|..] && y == (one + y)[|one|..];
    }
  }

  function WithPacket(s: Session, p: seq<Byte>): Session {
    s.(stored := s.stored + [p])
  }

  /** What sessions after the k-th have stored. */
  function Later(box: Box, k: nat): seq<seq<Byte>>
    requires k < |box.sessions|
  {
    Contributions(box.sessions[k + 1..])
  }

  /** In every run, what a subscriber has been given is the beginning, relabelled, of what the box's publishers
      contributed, put together in attach order. */
  lemma DeliveredFromPublishers(w: World, s: nat)
    requires Reachable(w) && s < |w.deliveries|
    ensures w.deliveries[s].box < |w.cells|
    ensures var d, published := w.deliveries[s].packets, Contributions(w.cells[w.deliveries[s].box].sessions);
            && |d| <= |published|
            && forall k :: 0 <= k < |d| ==> IsPacket(published[k]) && d[k] == Relabel(published[k])
  {
    hide Reachable;
    DeliveredIsPrefix(w, s);
    LogIsContributions(w, w.deliveries[s].box);
  }

  /** In every run, for each name, the creates and removes that changed the list alternate, beginning with a create;
      the last was a create exactly when the box exists; and replies are 0 exactly for these. */
  lemma CreatesAndRemovesAlternate(w: World, name: CString)
    requires Reachable(w)
    ensures Alternates(Changes(w.events, name))
    ensures |Changes(w.events, name)| % 2 == 1 <==> Listed(w.list, w.cells, name)
    ensures forall k :: 0 <= k < |w.events| ==> (w.events[k].code == 0 <==> w.events[k].changed)
  {
    ReachableInv(w);
    hide CountersOk;
    hide DirOk;
    hide FilesOk;
    hide SizesOk;
    hide SubscribersOk;
    hide DeliveriesOk;
    hide PublishersOk;
    assert NameOk(w.events, w.list, w.cells, w.dir, name);
  }

  /** A free worker serves every request to create or remove; the reply is 0 when the list changes and -1 when it does
      not, and no session notices. */
  lemma ReplyTellsChange(w: World, i: int, name: CString, opens: bool)
    requires Runnable(w) && 0 <= i < |w.workers| && w.workers[i].Idle?
    ensures Enabled(w, i, Create(name, opens)) && Enabled(w, i, Remove(name))
    ensures var w' := Next(w, i, Create(name, opens));
            && w'.workers == w.workers && w'.deliveries == w.deliveries
            && w'.events == w.events + [if w'.list != w.list then Event(Created, name, true, 0)
                                        else Event(Created, name, false, -1)]
    ensures var w' := Next(w, i, Remove(name));
            && w'.workers == w.workers && w'.deliveries == w.deliveries
            && w'.events == w.events + [if w'.list != w.list then Event(Removed, name, true, 0)
                                        else Event(Removed, name, false, -1)]
  {
  }

  /** A box created again after a remove has an empty log, and its file is empty too: what it held is gone. */
  lemma RecreatedIsEmpty(w: World, i: int, name: CString)
    requires Reachable(w) && 0 <= i < |w.workers| && w.workers[i].Idle?
    requires !Listed(w.list, w.cells, name) && Changes(w.events, name) != []
    ensures Runnable(w) && Enabled(w, i, Create(name, true))
    ensures var w' := Next(w, i, Create(name, true));
            && |w'.cells| == |w.cells| + 1 && w'.list == w.list + [|w.cells|]
            && w'.cells[|w.cells|].log == [] && w'.cells[|w.cells|].size == 0
            && w'.cells[|w.cells|].fd == Some(|w.files|) && w'.files == w.files + [[]]
  {
    ReachableInv(w);
    assert NameOk(w.events, w.list, w.cells, w.dir, name);
    hide Inv;
    FoundIsListed(w, name);
  }

  /** A subscriber waits exactly when it has been given everything announced: no message is passed over. */
  lemma WaitsWhenCaughtUp(w: World, i: int)
    requires Reachable(w) && 0 <= i < |w.workers| && w.workers[i].SubWaiting?
    ensures Runnable(w) && w.workers[i].session < |w.deliveries| && w.workers[i].box < |w.cells|
    ensures !Enabled(w, i, Check) <==>
              PACKET_SIZE * |w.deliveries[w.workers[i].session].packets| == w.cells[w.workers[i].box].size
  {
    ReachableInv(w);
    BoxOf(w, i);
    hide Inv;
    hide Count;
    hide BoxOk;
    hide Backed;
  }

  /** In every run, a subscriber that has passed the wait has at least a whole announced packet ahead. */
  lemma PacketAhead(w: World, i: int)
    requires Reachable(w) && 0 <= i < |w.workers| && w.workers[i].SubReady?
    ensures w.workers[i].box < |w.cells| && w.workers[i].pos + PACKET_SIZE <= w.cells[w.workers[i].box].size
  {
    ReachableInv(w);
    BoxOf(w, i);
    hide Inv;
    hide Count;
    hide BoxOk;
    hide Backed;
  }

  /** In every run, a packet is written behind the log of its box and into no other box's file, or not at all. */
  lemma StoreIsLocal(w: World, i: int, ok: bool)
    requires Reachable(w) && 0 <= i < |w.workers| && w.workers[i].PubHolding?
    ensures Runnable(w) && Enabled(w, i, Store(ok))
    ensures var b, p, w' := w.workers[i].box, w.workers[i].packet, Next(w, i, Store(ok));
            if ok && w.cells[b].fd.Some? then
              && w'.cells[b].log == w.cells[b].log + [p] && w'.cells[b].fd == w.cells[b].fd
              && Flatten(w.cells[b].log) + p <= w'.files[w.cells[b].fd.value]
              && (forall k :: 0 <= k < |w.list| && w.list[k] != b && w.cells[w.list[k]].fd.Some? ==>
                    w'.files[w.cells[w.list[k]].fd.value] == w.files[w.cells[w.list[k]].fd.value])
            else w'.files == w.files && w'.cells == w.cells
  {
    ReachableInv(w);
    BoxOf(w, i);
    hide Flatten;
    var b, p := w.workers[i].box, w.workers[i].packet;
    if ok && w.cells[b].fd.Some? {
      WrittenBehind(w.files[w.cells[b].fd.value], w.cells[b].writeOffset, p);
      OtherFiles(w, b);
    }
    hide Inv;
    hide Overwrite;
    hide BoxOk;
    hide SizeOk;
    hide CounterOk;
    hide PublisherOk;
  }

  lemma WrittenBehind(content: seq<Byte>, offset: nat, p: seq<Byte>)
    requires offset <= |content|
    ensures content[..offset] + p <= Overwrite(content, offset, p)
  {
  }

  /** Boxes in the list have files of their own. */
  lemma OtherFiles(w: World, b: nat)
    requires Inv(w) && b in w.list && b < |w.cells| && w.cells[b].fd.Some?
    ensures forall k :: 0 <= k < |w.list| && w.list[k] != b && w.cells[w.list[k]].fd.Some? ==>
              w.cells[w.list[k]].fd != w.cells[b].fd && w.cells[w.list[k]].fd.value < |w.files|
  {
    hide EventsOk;
    hide PublishersOk;
    hide SizesOk;
    hide SubscribersOk;
    hide DeliveriesOk;
    hide Flatten;
    hide CounterOk;
    var j :| 0 <= j < |w.list| && w.list[j] == b;
    assert Backed(w.cells[w.list[j]], w.dir, w.files);
    forall k | 0 <= k < |w.list| && w.list[k] != b && w.cells[w.list[k]].fd.Some?
      ensures w.cells[w.list[k]].fd != w.cells[b].fd && w.cells[w.list[k]].fd.value < |w.files|
    {
      assert Backed(w.cells[w.list[k]], w.dir, w.files);
      assert k != j;
    }
  }

  /** In every run, a box leaves the list exactly on a request of its name that finds it without sessions; the other
      boxes stay, in their order, and no file changes. */
  lemma RemoveIsExact(w: World, i: int, name: CString)
    requires Reachable(w) && 0 <= i < |w.workers| && w.workers[i].Idle?
    ensures Runnable(w) && Enabled(w, i, Remove(name))
    ensures var w' := Next(w, i, Remove(name));
            && w'.files == w.files && w'.cells == w.cells
            && w'.dir == (if w'.list != w.list then w.dir - {name} else w.dir)
            && (w'.list != w.list <==>
                  exists k :: RemovedAt(w, name, k) && InNoSession(w.workers, w.list[k]))
            && (forall k :: RemovedAt(w, name, k) && InNoSession(w.workers, w.list[k]) ==>
                  w'.list == w.list[..k] + w.list[k + 1..])
  {
    ReachableInv(w);
    var found := Find(w.list, w.cells, name);
    forall k | RemovedAt(w, name, k)
      ensures k == found && (InNoSession(w.workers, w.list[k]) <==>
                           w.cells[w.list[k]].publishers == 0 && w.cells[w.list[k]].subscribers == 0)
    {
      NoSessionIs(w, w.list[k]);
    }
    hide CountersOk;
    hide FilesOk;
    hide SizesOk;
    hide SubscribersOk;
    hide DeliveriesOk;
    hide PublishersOk;
    hide EventsOk;
    if found < |w.list| {
      assert RemovedAt(w, name, found);
    }
  }

  ghost predicate RemovedAt(w: World, name: CString, k: int) {
    0 <= k < |w.list| && w.list[k] < |w.cells| && w.cells[w.list[k]].name == name
  }

  ghost predicate InNoSession(workers: seq<Worker>, b: nat) {
    forall i :: 0 <= i < |workers| && !workers[i].Idle? ==> workers[i].box != b
  }

  /** Zero counters are the absence of sessions. */
  lemma NoSessionIs(w: World, b: nat)
    requires Inv(w) && b < |w.cells|
    ensures InNoSession(w.workers, b) <==> w.cells[b].publishers == 0 && w.cells[b].subscribers == 0
  {
    assert CounterOk(w.workers, w.cells, b);
    if InNoSession(w.workers, b) {
      NobodyCounts(w.workers, Publishing, b);
      NobodyCounts(w.workers, Subscribing, b);
    }
    if w.cells[b].publishers == 0 && w.cells[b].subscribers == 0 {
      NotInUse(w.workers, w.list, w.cells, b);
    }
  }

  /** In every run, a create for a name without a box puts one at the end of the list, with no packets and no sessions,
      and leaves what its file may hold; any other create changes nothing. */
  lemma CreateAppends(w: World, i: int, name: CString, opens: bool)
    requires Reachable(w) && 0 <= i < |w.workers| && w.workers[i].Idle?
    ensures Runnable(w) && Enabled(w, i, Create(name, opens))
    ensures var w' := Next(w, i, Create(name, opens));
            if Listed(w.list, w.cells, name) then
              w'.list == w.list && w'.cells == w.cells && w'.files == w.files && w'.dir == w.dir
            else
              && w'.list == w.list + [|w.cells|] && w.cells <= w'.cells && |w'.cells| == |w.cells| + 1
              && var box := w'.cells[|w.cells|];
                 && box.name == name && box.publishers == 0 && box.subscribers == 0
                 && box.size == 0 && box.log == [] && box.sessions == []
                 && w.files <= w'.files && (name in w.dir ==> w'.files == w.files)
                 && (opens && name !in w.dir ==> w'.files == w.files + [[]] && w'.dir == w.dir[name := |w.files|])
                 && (!opens || name in w.dir ==> w'.dir == w.dir)
                 && (opens <==> box.fd.Some?)
                 && (opens ==> name in w'.dir && box.fd == Some(w'.dir[name]) && box.writeOffset == 0)
  {
    ReachableInv(w);
    hide Inv;
    FoundIsListed(w, name);
    hide Find;
    hide Listed;
  }
}
