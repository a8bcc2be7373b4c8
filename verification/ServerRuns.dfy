/**
 Whole runs of the packet server: any interleaving of packets, socket closes and
 queue reads, on any number of sockets.
 */
module ServerRuns {
  import opened Bytes
  import opened Counting
  import Protocol
  import PC = PhoneConnection
  import opened PacketServer

  type Socket = nat

  datatype Event =
    | Incoming(socket: Socket, raw: seq<byte>, now: real)
    | Close(socket: Socket)
    | Read(phoneId: int)

  /**
   The server with what the run remembers: per live connection its log; per open
   socket the phone ids it registered, in order; and the lists of the sockets closed so far.
   */
  datatype World = World(
    server: Server,
    logs: map<int, PC.Logged>,
    open: map<Socket, seq<int>>,
    closed: seq<seq<int>>,
    duplicates: nat)

  const START := World(Server(map[], 0, 0, 0, 0, 0, 0, 0), map[], map[], [], 0)

  function Registered(w: World, socket: Socket): seq<int> {
    if socket in w.open then w.open[socket] else []
  }

  function Receive(w: World, socket: Socket, raw: seq<byte>, now: real): World {
    var (server, outcome) := Handle(w.server, raw, now);
    var list := Registered(w, socket);
    if !outcome.Handled? then w.(server := server, open := w.open[socket := list])
    else
      var h := outcome.header;
      var log := if h.phoneId in w.logs then w.logs[h.phoneId] else PC.Opened(h.phoneId, h.sampleRateHz);
      World(server,
            w.logs[h.phoneId := PC.Apply(log, PC.Arrival(h.sequence, raw, now))],
            w.open[socket := if outcome.registered then list + [h.phoneId] else list],
            w.closed,
            w.duplicates + (if outcome.verdict.Duplicate? then 1 else 0))
  }

  function Disconnected(w: World, socket: Socket): World {
    if socket !in w.open then w
    else
      var list := w.open[socket];
      World(Disconnect(w.server, list),
            if list == [] then w.logs else w.logs - {list[|list| - 1]},
            w.open - {socket}, w.closed + [list], w.duplicates)
  }

  function Consumed(w: World, phoneId: int): World {
    if phoneId !in w.logs then w
    else
      var log := PC.Apply(w.logs[phoneId], PC.Consume);
      w.(server := w.server.(conns := w.server.conns[phoneId := log.conn]), logs := w.logs[phoneId := log])
  }

  function Step(w: World, e: Event): World {
    match e
    case Incoming(socket, raw, now) => Receive(w, socket, raw, now)
    case Close(socket) => Disconnected(w, socket)
    case Read(phoneId) => Consumed(w, phoneId)
  }

  function Run(events: seq<Event>): World {
    if events == [] then START else Step(Run(events[..|events| - 1]), events[|events| - 1])
  }

  // ----- Connections and their logs -----

  /** Everything accepted is a verified packet of this phone, and the log has its sequence numbers. */
  ghost predicate Verified(phoneId: int, l: PC.Logged) {
    && |l.sequences| == |l.accepted|
    && forall i | 0 <= i < |l.accepted| ::
         var v := Protocol.VerifyPacket(l.accepted[i]);
         v.Ok? && v.value.phoneId == phoneId && v.value.sequence == l.sequences[i]
  }

  ghost predicate LogInv(phoneId: int, l: PC.Logged) {
    && PC.Inv(l)
    && Verified(phoneId, l)
    && l.conn.packetTimes == PC.NoteAll(l.arrivals)
  }

  /** The live connections are exactly the logged ones, in the state their log leads to. */
  ghost predicate LogsMatch(w: World) {
    && w.server.conns.Keys == w.logs.Keys
    && forall k | k in w.logs :: w.server.conns[k] == w.logs[k].conn && LogInv(k, w.logs[k])
  }

  lemma ArrivalKeepsLog(phoneId: int, l: PC.Logged, raw: seq<byte>, now: real)
    requires LogInv(phoneId, l)
    requires Protocol.VerifyPacket(raw).Ok? && Protocol.VerifyPacket(raw).value.phoneId == phoneId
    ensures LogInv(phoneId, PC.Apply(l, PC.Arrival(Protocol.VerifyPacket(raw).value.sequence, raw, now)))
  {
    hide PC.Inv, PC.Noted, Protocol.VerifyPacket, PC.NoteAll;
    var sequence := Protocol.VerifyPacket(raw).value.sequence;
    PC.ApplyKeepsInv(l, PC.Arrival(sequence, raw, now));
    PC.NoteOneMore(l.arrivals, now);
  }

  lemma ReadKeepsLog(phoneId: int, l: PC.Logged)
    requires LogInv(phoneId, l)
    ensures LogInv(phoneId, PC.Apply(l, PC.Consume))
  {
    hide PC.Inv, Protocol.VerifyPacket, PC.NoteAll;
    PC.ApplyKeepsInv(l, PC.Consume);
  }

  lemma OpenedLog(phoneId: int, sampleRateHz: int)
    ensures LogInv(phoneId, PC.Opened(phoneId, sampleRateHz))
  {
  }

  lemma ReceiveKeepsLogs(w: World, socket: Socket, raw: seq<byte>, now: real)
    requires LogsMatch(w)
    ensures LogsMatch(Receive(w, socket, raw, now))
  {
    hide PC.Inv, PC.Arrive, LogInv, Protocol.VerifyPacket;
    var outcome := Handle(w.server, raw, now).1;
    if outcome.Handled? {
      var h := outcome.header;
      OpenedLog(h.phoneId, h.sampleRateHz);
      var log := if h.phoneId in w.logs then w.logs[h.phoneId] else PC.Opened(h.phoneId, h.sampleRateHz);
      ArrivalKeepsLog(h.phoneId, log, raw, now);
      ApplyIsArrive(log, h.sequence, raw, now);
    }
  }

  lemma ApplyIsArrive(l: PC.Logged, sequence: int, raw: seq<byte>, now: real)
    ensures PC.Apply(l, PC.Arrival(sequence, raw, now)).conn == PC.Arrive(l.conn, sequence, raw, now).0
  {
  }

  lemma CloseKeepsLogs(w: World, socket: Socket)
    requires LogsMatch(w)
    ensures LogsMatch(Disconnected(w, socket))
  {
    hide LogInv;
  }

  lemma ReadKeepsLogs(w: World, phoneId: int)
    requires LogsMatch(w)
    ensures LogsMatch(Consumed(w, phoneId))
  {
    hide LogInv, PC.Apply;
    if phoneId in w.logs {
      ReadKeepsLog(phoneId, w.logs[phoneId]);
    }
  }

  lemma StepKeepsLogs(w: World, e: Event)
    requires LogsMatch(w)
    ensures LogsMatch(Step(w, e))
  {
    hide LogsMatch, Receive, Disconnected, Consumed;
    match e
    case Incoming(socket, raw, now) => ReceiveKeepsLogs(w, socket, raw, now);
    case Close(socket) => CloseKeepsLogs(w, socket);
    case Read(phoneId) => ReadKeepsLogs(w, phoneId);
  }

  /**
   In every reachable state, every connection satisfies the loss accounting, its queue
   is the newest suffix of its accepted packets, and all of them verify.
   */
  lemma {:induction false} ConnectionsAccounted(events: seq<Event>)
    ensures LogsMatch(Run(events))
  {
    hide LogsMatch;
    if events == [] {
      StartMatches();
    } else {
      ConnectionsAccounted(events[..|events| - 1]);
      StepKeepsLogs(Run(events[..|events| - 1]), events[|events| - 1]);
    }
  }

  lemma StartMatches()
    ensures LogsMatch(START)
  {
  }

  /** The packets that left a connection's queue have strictly increasing sequence numbers. */
  lemma RemovedIncrease(events: seq<Event>, phoneId: int, i: nat, j: nat)
    requires phoneId in Run(events).logs
    requires i < j < |Run(events).logs[phoneId].removed|
    ensures
      var removed := Run(events).logs[phoneId].removed;
      var a, b := Protocol.VerifyPacket(removed[i]), Protocol.VerifyPacket(removed[j]);
      a.Ok? && b.Ok? && a.value.sequence < b.value.sequence
  {
    hide Run, Protocol.VerifyPacket;
    ConnectionsAccounted(events);
    var l := Run(events).logs[phoneId];
    assert LogInv(phoneId, l);
    assert l.removed[i] == l.accepted[i] && l.removed[j] == l.accepted[j];
    assert l.sequences[i] < l.sequences[j];
  }

  // ----- Counters -----

  /** Every packet received was rejected, decoded or silently dropped as a duplicate. */
  ghost predicate Counters(w: World) {
    && w.server.received == w.server.rejected + w.server.decoded + w.duplicates
    && w.server.crcFailures <= w.server.rejected
    && w.server.activePhones == |w.server.conns|
  }

  lemma HandleCounts(s: Server, raw: seq<byte>, now: real)
    requires s.activePhones == |s.conns|
    ensures
      var (after, outcome) := Handle(s, raw, now);
      && after.received == s.received + 1
      && after.rejected + after.decoded + (if outcome.Handled? && outcome.verdict.Duplicate? then 1 else 0)
         == s.rejected + s.decoded + 1
      && after.rejected - s.rejected >= after.crcFailures - s.crcFailures
      && after.activePhones == |after.conns|
  {
  }

  lemma StepKeepsCounters(w: World, e: Event)
    requires Counters(w) && LogsMatch(w)
    ensures Counters(Step(w, e))
  {
    hide LogInv, PC.Apply, Handle;
    match e {
      case Incoming(socket, raw, now) => HandleCounts(w.server, raw, now);
      case Close(socket) =>
      case Read(phoneId) =>
        var after := Step(w, e).server;
        assert |after.conns.Keys| == |after.conns| && |w.server.conns.Keys| == |w.server.conns|;
        assert after.conns.Keys == w.server.conns.Keys;
    }
  }

  lemma {:induction false} CountersBalance(events: seq<Event>)
    ensures Counters(Run(events))
  {
    hide Step, Counters;
    if events == [] {
      StartBalances();
    } else {
      CountersBalance(events[..|events| - 1]);
      ConnectionsAccounted(events[..|events| - 1]);
      StepKeepsCounters(Run(events[..|events| - 1]), events[|events| - 1]);
    }
  }

  lemma StartBalances()
    ensures Counters(START)
  {
  }

  /** What became of the packets of a run, one by one, and how many sequence numbers they skipped. */
  datatype Tally = Tally(
    bytes: nat, badSize: nat, malformed: nat, refused: nat, duplicates: nat, accepted: nat, missing: nat)

  /** One more packet; `verdict` is what its connection says if it gets that far. */
  function Judged(t: Tally, raw: seq<byte>, verdict: PC.Verdict): Tally {
    var u := t.(bytes := t.bytes + |raw|);
    if |raw| < 34 || |raw| > 32802 then u.(badSize := t.badSize + 1)
    else if Protocol.VerifyPacket(raw).Err? then u.(malformed := t.malformed + 1)
    else
      match verdict
      case RateLimited => u.(refused := t.refused + 1)
      case Duplicate => u.(duplicates := t.duplicates + 1)
      case Accepted(gap) => u.(accepted := t.accepted + 1, missing := t.missing + gap)
  }

  /** The verdict of a packet's connection, if it has one. */
  function VerdictOn(s: Server, raw: seq<byte>, now: real): PC.Verdict {
    var v := Protocol.VerifyPacket(raw);
    if v.Err? then PC.Duplicate else PC.Arrive(Connected(s, v.value), v.value.sequence, raw, now).1
  }

  function TallyOf(events: seq<Event>): Tally {
    if events == [] then Tally(0, 0, 0, 0, 0, 0, 0)
    else
      var front := events[..|events| - 1];
      TallyAfter(TallyOf(front), Run(front).server, events[|events| - 1])
  }

  ghost predicate CountersAre(w: World, t: Tally) {
    && w.server.bytesReceived == t.bytes
    && w.server.crcFailures == t.malformed
    && w.server.rejected == t.badSize + t.malformed + t.refused
    && w.server.decoded == t.accepted
    && w.server.droppedFrames == t.missing
    && w.duplicates == t.duplicates
    && w.server.received == t.badSize + t.malformed + t.refused + t.duplicates + t.accepted
  }

  function TallyAfter(t: Tally, s: Server, e: Event): Tally {
    if e.Incoming? then Judged(t, e.raw, VerdictOn(s, e.raw, e.now)) else t
  }

  lemma PacketKeepsTally(w: World, t: Tally, socket: Socket, raw: seq<byte>, now: real)
    requires CountersAre(w, t)
    ensures CountersAre(Receive(w, socket, raw, now), Judged(t, raw, VerdictOn(w.server, raw, now)))
  {
    hide PC.Arrive, PC.Apply, Protocol.VerifyPacket;
  }

  lemma EventKeepsTally(w: World, t: Tally, e: Event)
    requires CountersAre(w, t)
    ensures CountersAre(Step(w, e), TallyAfter(t, w.server, e))
  {
    hide PC.Apply, Receive, Judged, VerdictOn;
    if e.Incoming? {
      PacketKeepsTally(w, t, e.socket, e.raw, e.now);
    }
  }

  /** The server's counters say exactly what became of every packet of the run. */
  lemma {:induction false} CountersExact(events: seq<Event>)
    ensures CountersAre(Run(events), TallyOf(events))
  {
    hide CountersAre, Step, TallyAfter, Run, TallyOf;
    if events == [] {
      NothingCounted();
    } else {
      var front := events[..|events| - 1];
      CountersExact(front);
      EventKeepsTally(Run(front), TallyOf(front), events[|events| - 1]);
      OneMoreEvent(events);
    }
  }

  lemma OneMoreEvent(events: seq<Event>)
    requires events != []
    ensures
      var front, e := events[..|events| - 1], events[|events| - 1];
      Run(events) == Step(Run(front), e) && TallyOf(events) == TallyAfter(TallyOf(front), Run(front).server, e)
  {
    hide Step, TallyAfter;
  }

  lemma NothingCounted()
    ensures CountersAre(Run([]), TallyOf([]))
  {
  }

  // ----- Rate limiting over runs -----

  ghost predicate ClockRuns(events: seq<Event>) {
    forall i, j | 0 <= i < j < |events| && events[i].Incoming? && events[j].Incoming? :: events[i].now <= events[j].now
  }

  ghost predicate SomeArrival(events: seq<Event>, t: real) {
    exists i | 0 <= i < |events| :: events[i].Incoming? && events[i].now == t
  }

  /** Arrival times of a connection are in order and come from the run. */
  ghost predicate Timed(events: seq<Event>, l: PC.Logged) {
    PC.Ordered(l.arrivals) && forall i | 0 <= i < |l.arrivals| :: SomeArrival(events, l.arrivals[i])
  }

  lemma TimedExtends(events: seq<Event>, l: PC.Logged)
    requires |events| > 0 && Timed(events[..|events| - 1], l)
    ensures Timed(events, l)
  {
  }

  lemma TimedAppends(events: seq<Event>, l: PC.Logged, now: real)
    requires |events| > 0 && ClockRuns(events) && Timed(events[..|events| - 1], l)
    requires events[|events| - 1].Incoming? && events[|events| - 1].now == now
    ensures Timed(events, l.(arrivals := l.arrivals + [now]))
  {
  }

  lemma {:induction false} ArrivalsTimed(events: seq<Event>)
    requires ClockRuns(events)
    ensures forall k | k in Run(events).logs :: Timed(events, Run(events).logs[k])
  {
    hide PC.Arrive, PC.Ordered, SomeArrival, Protocol.VerifyPacket, Timed;
    if events != [] {
      var n := |events| - 1;
      var before := Run(events[..n]);
      ArrivalsTimed(events[..n]);
      forall k | k in Run(events).logs ensures Timed(events, Run(events).logs[k]) {
        var l := if k in before.logs then before.logs[k] else PC.Opened(k, 0);
        assert Timed(events[..n], l) by { EmptyTimed(events[..n], PC.Opened(k, 0)); }
        LogAfterStep(before, events[n], k);
        var after := Run(events).logs[k];
        if after.arrivals == l.arrivals {
          TimedExtends(events, l);
          SameArrivals(events, l, after);
        } else {
          TimedAppends(events, l, events[n].now);
          SameArrivals(events, l.(arrivals := l.arrivals + [events[n].now]), after);
        }
      }
    }
  }

  lemma EmptyTimed(events: seq<Event>, l: PC.Logged)
    requires l.arrivals == []
    ensures Timed(events, l)
  {
  }

  lemma SameArrivals(events: seq<Event>, l: PC.Logged, m: PC.Logged)
    requires Timed(events, l) && l.arrivals == m.arrivals
    ensures Timed(events, m)
  {
  }

  /** One event adds at most its own time to a connection's arrivals. */
  lemma LogAfterStep(w: World, e: Event, k: int)
    requires k in Step(w, e).logs
    ensures
      var before := if k in w.logs then w.logs[k].arrivals else [];
      var after := Step(w, e).logs[k].arrivals;
      after == before || (e.Incoming? && after == before + [e.now])
  {
  }

  /**
   In every run with a clock that does not go back, no closed two-second interval
   lets more than 400 packets of a connection past the limiter.
   */
  lemma RateBoundInRuns(events: seq<Event>, phoneId: int, from: real)
    requires ClockRuns(events) && phoneId in Run(events).logs
    ensures |PC.PassedIn(Run(events).logs[phoneId].arrivals, from)| <= 400
    ensures phoneId in Run(events).server.conns
            && Run(events).server.conns[phoneId].packetTimes == PC.NoteAll(Run(events).logs[phoneId].arrivals)
  {
    hide Run, PC.PassedIn, PC.NoteAll;
    ArrivalsTimed(events);
    ConnectionsAccounted(events);
    assert LogInv(phoneId, Run(events).logs[phoneId]);
    PC.RateBound(Run(events).logs[phoneId].arrivals, from);
  }

  // ----- Who owns a connection -----

  /** The ids a closed socket left behind: all it registered but the last. */
  ghost predicate Left(closed: seq<seq<int>>, pid: int) {
    exists i | 0 <= i < |closed| :: pid in AllButLast(closed[i])
  }

  function AllButLast(list: seq<int>): seq<int> {
    if list == [] then [] else list[..|list| - 1]
  }

  ghost predicate OwnedBy(w: World, socket: Socket, pid: int) {
    socket in w.open && pid in w.open[socket]
  }

  /**
   A phone id has a connection exactly when an open socket registered it or a closed
   one left it behind, and never for two of these reasons at once.
   */
  ghost predicate Ownership(w: World) {
    && (forall pid :: pid in w.server.conns <==> Left(w.closed, pid) || exists s :: OwnedBy(w, s, pid))
    && (forall pid, s, t :: OwnedBy(w, s, pid) && OwnedBy(w, t, pid) ==> s == t)
    && (forall pid, s :: OwnedBy(w, s, pid) ==> !Left(w.closed, pid))
    && (forall s | s in w.open :: Distinct(w.open[s]))
  }

  lemma LeftGrows(closed: seq<seq<int>>, list: seq<int>, pid: int)
    ensures Left(closed + [list], pid) <==> Left(closed, pid) || pid in AllButLast(list)
  {
    var longer := closed + [list];
    if Left(closed, pid) {
      var i :| 0 <= i < |closed| && pid in AllButLast(closed[i]);
      assert longer[i] == closed[i];
    }
    assert longer[|closed|] == list;
  }

  /** What a packet does to the sockets and the set of connected phones. */
  lemma ReceiveEffect(w: World, socket: Socket, raw: seq<byte>, now: real) returns (added: seq<int>)
    requires LogsMatch(w)
    ensures
      var after := Receive(w, socket, raw, now);
      && (added == [] || (|added| == 1 && added[0] !in w.server.conns))
      && after.open == w.open[socket := Registered(w, socket) + added]
      && after.closed == w.closed
      && forall pid :: pid in after.server.conns <==> pid in w.server.conns || pid in added
    ensures
      added != [] ==> Protocol.VerifyPacket(raw).Ok? && added == [Protocol.VerifyPacket(raw).value.phoneId]
  {
    hide PC.Arrive, LogInv, Protocol.VerifyPacket, PC.Apply, Counted;
    CountedKeepsConns(w.server, raw, now);
    var outcome := Handle(w.server, raw, now).1;
    added := if outcome.Handled? && outcome.registered then [outcome.header.phoneId] else [];
    assert Registered(w, socket) + [] == Registered(w, socket);
  }

  lemma CountedKeepsConns(s: Server, raw: seq<byte>, now: real)
    ensures
      var (after, outcome) := Handle(s, raw, now);
      && (outcome.Handled? ==>
            && Protocol.VerifyPacket(raw) == Protocol.Ok(outcome.header)
            && outcome.registered == (outcome.header.phoneId !in s.conns))
      && after.conns.Keys == s.conns.Keys + (if outcome.Handled? then {outcome.header.phoneId} else {})
  {
    hide PC.Arrive, Protocol.VerifyPacket;
  }

  lemma ReceiveKeepsOwnership(w: World, socket: Socket, raw: seq<byte>, now: real)
    requires Ownership(w) && LogsMatch(w)
    ensures Ownership(Receive(w, socket, raw, now))
  {
    hide Receive, LogsMatch, Left, Protocol.VerifyPacket;
    var added := ReceiveEffect(w, socket, raw, now);
    var after := Receive(w, socket, raw, now);
    forall s, pid ensures OwnedBy(after, s, pid) <==> OwnedBy(w, s, pid) || (s == socket && pid in added) {}
    forall pid ensures pid in after.server.conns <==> Left(after.closed, pid) || exists s :: OwnedBy(after, s, pid) {
      if pid in added {
        assert OwnedBy(after, socket, pid);
      }
      if s :| OwnedBy(w, s, pid) {
        assert OwnedBy(after, s, pid);
      }
    }
    forall i | 0 <= i < |Registered(w, socket)| && added != [] ensures Registered(w, socket)[i] != added[0] {
      assert OwnedBy(w, socket, Registered(w, socket)[i]);
    }
  }

  lemma CloseKeepsOwnership(w: World, socket: Socket)
    requires Ownership(w)
    ensures Ownership(Disconnected(w, socket))
  {
    if socket in w.open {
      hide Left;
      var list := w.open[socket];
      var after := Disconnected(w, socket);
      forall pid ensures Left(after.closed, pid) <==> Left(w.closed, pid) || pid in AllButLast(list) {
        LeftGrows(w.closed, list, pid);
      }
      forall s, pid ensures OwnedBy(after, s, pid) <==> OwnedBy(w, s, pid) && s != socket {}
      LastOfList(list);
      assert forall pid :: pid in AllButLast(list) ==> OwnedBy(w, socket, pid);
      forall pid ensures pid in after.server.conns <==> Left(after.closed, pid) || exists s :: OwnedBy(after, s, pid) {
        ClosedConnection(w, socket, pid);
      }
    }
  }

  lemma LastOfList(list: seq<int>)
    requires Distinct(list)
    ensures forall pid :: pid in list <==> pid in AllButLast(list) || (list != [] && pid == list[|list| - 1])
    ensures list != [] ==> list[|list| - 1] !in AllButLast(list)
  {
  }

  lemma ClosedConnection(w: World, socket: Socket, pid: int)
    requires Ownership(w) && socket in w.open
    ensures
      var after := Disconnected(w, socket);
      pid in after.server.conns <==> Left(after.closed, pid) || exists s :: OwnedBy(after, s, pid)
  {
    hide Left;
    var list := w.open[socket];
    var after := Disconnected(w, socket);
    LeftGrows(w.closed, list, pid);
    LastOfList(list);
    if pid in list {
      assert OwnedBy(w, socket, pid);
      assert forall s :: OwnedBy(after, s, pid) ==> OwnedBy(w, s, pid) && s != socket;
    } else {
      if s :| OwnedBy(w, s, pid) {
        assert OwnedBy(after, s, pid);
      }
      assert forall s :: OwnedBy(after, s, pid) ==> OwnedBy(w, s, pid);
    }
    if list != [] {
      assert OwnedBy(w, socket, list[|list| - 1]);
    }
  }

  lemma StepKeepsOwnership(w: World, e: Event)
    requires Ownership(w) && LogsMatch(w)
    ensures Ownership(Step(w, e))
  {
    match e {
      case Incoming(socket, raw, now) =>
        hide Ownership;
        ReceiveKeepsOwnership(w, socket, raw, now);
      case Close(socket) =>
        hide Ownership;
        CloseKeepsOwnership(w, socket);
      case Read(phoneId) =>
        ReadKeepsOwnership(w, phoneId);
    }
  }

  lemma ReadKeepsOwnership(w: World, phoneId: int)
    requires Ownership(w) && LogsMatch(w)
    ensures Ownership(Consumed(w, phoneId))
  {
    hide Left, LogInv, PC.Apply;
    var after := Consumed(w, phoneId);
    forall s, pid ensures OwnedBy(after, s, pid) <==> OwnedBy(w, s, pid) {}
    forall pid ensures pid in after.server.conns <==> Left(after.closed, pid) || exists s :: OwnedBy(after, s, pid) {
      if s :| OwnedBy(w, s, pid) {
        assert OwnedBy(after, s, pid);
      }
    }
  }

  lemma {:induction false} OwnershipHolds(events: seq<Event>)
    ensures Ownership(Run(events))
  {
    hide Step, Ownership, LogsMatch;
    if events == [] {
      StartOwned();
    } else {
      OwnershipHolds(events[..|events| - 1]);
      ConnectionsAccounted(events[..|events| - 1]);
      StepKeepsOwnership(Run(events[..|events| - 1]), events[|events| - 1]);
    }
  }

  lemma StartOwned()
    ensures Ownership(START)
  {
  }

  /**
   Once every socket is closed, the registry is empty if and only if no socket ever
   registered two phones. A socket that did leaves all of them but the last behind.
   */
  lemma EmptyIffOnePhoneEach(events: seq<Event>)
    requires Run(events).open == map[]
    ensures Run(events).server.conns == map[]
            <==> forall i | 0 <= i < |Run(events).closed| :: |Run(events).closed[i]| <= 1
    ensures forall pid :: pid in Run(events).server.conns <==> Left(Run(events).closed, pid)
  {
    hide Run;
    var w := Run(events);
    OwnershipHolds(events);
    forall pid ensures pid in w.server.conns <==> Left(w.closed, pid) {
      assert forall s :: !OwnedBy(w, s, pid);
    }
    if forall i | 0 <= i < |w.closed| :: |w.closed[i]| <= 1 {
      forall pid ensures !Left(w.closed, pid) {}
      assert forall pid :: pid !in w.server.conns;
    } else {
      var i :| 0 <= i < |w.closed| && |w.closed[i]| > 1;
      assert w.closed[i][0] in AllButLast(w.closed[i]);
      assert Left(w.closed, w.closed[i][0]);
    }
  }

  lemma StepClosesMore(w: World, e: Event)
    ensures w.closed <= Step(w, e).closed
  {
    hide Handle, PC.Apply, Disconnect;
  }

  lemma {:induction false} ClosedGrows(events: seq<Event>, more: seq<Event>)
    ensures Run(events).closed <= Run(events + more).closed
  {
    hide Step;
    if more == [] {
      assert events + more == events;
    } else {
      var all := events + more;
      ClosedGrows(events, more[..|more| - 1]);
      assert all[..|all| - 1] == events + more[..|more| - 1];
      StepClosesMore(Run(all[..|all| - 1]), all[|all| - 1]);
    }
  }

  /** A connection left behind stays registered through whatever happens afterwards. */
  lemma LeftForGood(events: seq<Event>, more: seq<Event>, pid: int)
    requires Left(Run(events).closed, pid)
    ensures pid in Run(events + more).server.conns
  {
    hide Run;
    ClosedGrows(events, more);
    var before, after := Run(events).closed, Run(events + more).closed;
    var i :| 0 <= i < |before| && pid in AllButLast(before[i]);
    assert after[i] == before[i];
    OwnershipHolds(events + more);
  }

  /** The first verified packet of a phone registers it with the socket it came on. */
  lemma FirstContact(w: World, socket: Socket, h: Protocol.Header, raw: seq<byte>, now: real)
    requires Protocol.VerifyPacket(raw) == Protocol.Ok(h) && |raw| <= MAX_PACKET_BYTES
    requires h.phoneId !in w.server.conns
    ensures
      var after := Receive(w, socket, raw, now);
      && after.open == w.open[socket := Registered(w, socket) + [h.phoneId]]
      && after.server.conns.Keys == w.server.conns.Keys + {h.phoneId}
  {
    hide PC.Arrive, PC.Apply, Protocol.ParseHeader, Protocol.WordAt;
    CountedKeepsConns(w.server, raw, now);
  }

  /** One socket relaying two phones and closing leaves the first one's connection behind. */
  lemma LeakExample(first: seq<byte>, second: seq<byte>)
    requires Protocol.FramePacket(1, 0, 48000, [], 0, Protocol.AudioFrame, 0) == Protocol.Ok(first)
    requires Protocol.FramePacket(2, 0, 48000, [], 0, Protocol.AudioFrame, 0) == Protocol.Ok(second)
    ensures
      var w := Run([Incoming(0, first, 0.0), Incoming(0, second, 0.0), Close(0)]);
      w.open == map[] && w.server.conns.Keys == {1}
  {
    hide Run, Receive, Disconnected, Protocol.FramePacket, Protocol.VerifyPacket, Protocol.Payload, Protocol.Reserved;
    Protocol.FrameThenVerify(1, 0, 48000, [], 0, Protocol.AudioFrame, 0);
    Protocol.FrameThenVerify(2, 0, 48000, [], 0, Protocol.AudioFrame, 0);
    var one := Receive(START, 0, first, 0.0);
    FirstContact(START, 0, Protocol.VerifyPacket(first).value, first, 0.0);
    FirstContact(one, 0, Protocol.VerifyPacket(second).value, second, 0.0);
    ThreeSteps(Incoming(0, first, 0.0), Incoming(0, second, 0.0), Close(0));
    var two := Receive(one, 0, second, 0.0);
    assert two.open[0] == [1] + [2] && two.open.Keys == {0};
    LastOfTwo(two);
  }

  lemma LastOfTwo(w: World)
    requires w.open.Keys == {0} && w.open[0] == [1, 2] && w.server.conns.Keys == {1, 2}
    ensures Disconnected(w, 0).open == map[] && Disconnected(w, 0).server.conns.Keys == {1}
  {
    assert w.server.conns - {2} == Disconnected(w, 0).server.conns;
  }

  lemma ThreeSteps(a: Event, b: Event, c: Event)
    ensures Run([a, b, c]) == Step(Step(Step(START, a), b), c)
  {
    hide Step;
    assert [a, b, c][..2] == [a, b] && [a, b][..1] == [a] && [a][..0] == [];
    assert Run([a]) == Step(Run([]), a);
    assert Run([a, b]) == Step(Run([a]), b);
  }

  // ----- One phone per socket -----

  /** Every verified packet that arrives on a socket carries that socket's phone id. */
  ghost predicate OnePhonePerSocket(events: seq<Event>, phoneOf: Socket -> int) {
    forall i | 0 <= i < |events| && events[i].Incoming? ::
      var v := Protocol.VerifyPacket(events[i].raw);
      v.Ok? ==> v.value.phoneId == phoneOf(events[i].socket)
  }

  ghost predicate SingleLists(w: World, phoneOf: Socket -> int) {
    && (forall s | s in w.open :: w.open[s] == [] || w.open[s] == [phoneOf(s)])
    && (forall i | 0 <= i < |w.closed| :: |w.closed[i]| <= 1)
  }

  lemma StepKeepsSingle(w: World, e: Event, phoneOf: Socket -> int)
    requires SingleLists(w, phoneOf) && Ownership(w) && LogsMatch(w)
    requires OnePhonePerSocket([e], phoneOf)
    ensures SingleLists(Step(w, e), phoneOf)
  {
    hide LogsMatch, Protocol.VerifyPacket, Left;
    match e {
      case Incoming(socket, raw, now) =>
        hide Receive;
        assert [e][0] == e;
        var added := ReceiveEffect(w, socket, raw, now);
        assert Registered(w, socket) != [] ==> OwnedBy(w, socket, Registered(w, socket)[0]);
      case Close(socket) =>
      case Read(phoneId) =>
    }
  }

  lemma {:induction false} SingleListsHold(events: seq<Event>, phoneOf: Socket -> int)
    requires OnePhonePerSocket(events, phoneOf)
    ensures SingleLists(Run(events), phoneOf)
  {
    hide Step, Ownership, LogsMatch, Protocol.VerifyPacket;
    if events != [] {
      var n := |events| - 1;
      SingleListsHold(events[..n], phoneOf);
      OwnershipHolds(events[..n]);
      ConnectionsAccounted(events[..n]);
      StepKeepsSingle(Run(events[..n]), events[n], phoneOf);
    }
  }

  /**
   With one phone per socket, connections and registered open sockets are in
   bijection, and closing every socket empties the registry.
   */
  lemma ConnectionsAreOpenSockets(events: seq<Event>, phoneOf: Socket -> int)
    requires OnePhonePerSocket(events, phoneOf)
    ensures
      var w := Run(events);
      && (forall s | s in w.open && w.open[s] != [] :: phoneOf(s) in w.server.conns)
      && (forall pid | pid in w.server.conns :: exists s :: s in w.open && w.open[s] == [pid] && phoneOf(s) == pid)
      && (forall s, t | s in w.open && t in w.open && w.open[s] != [] && w.open[s] == w.open[t] :: s == t)
      && (w.open == map[] ==> w.server.conns == map[] && w.server.activePhones == 0)
  {
    hide Run, Protocol.VerifyPacket;
    var w := Run(events);
    OwnershipHolds(events);
    SingleListsHold(events, phoneOf);
    CountersBalance(events);
    forall pid ensures !Left(w.closed, pid) {}
    forall s | s in w.open && w.open[s] != [] ensures phoneOf(s) in w.server.conns {
      assert OwnedBy(w, s, phoneOf(s));
    }
    forall pid | pid in w.server.conns ensures exists s :: s in w.open && w.open[s] == [pid] && phoneOf(s) == pid {
      var s :| OwnedBy(w, s, pid);
      assert w.open[s] == [pid] && phoneOf(s) == pid;
    }
    forall s, t | s in w.open && t in w.open && w.open[s] != [] && w.open[s] == w.open[t] ensures s == t {
      assert OwnedBy(w, s, phoneOf(s)) && OwnedBy(w, t, phoneOf(s));
    }
  }
}
