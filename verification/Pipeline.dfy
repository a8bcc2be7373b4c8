/**
 From the socket to the window: the packet server's queues drained into the DSP loop. In every
 run that mixes arriving packets, closing sockets, queue visits and loop steps, a phone's buffer
 holds the newest part of the decoded packets taken from its connections, in sequence order.
 */
module Pipeline {
  import opened DspLoop
  import Protocol
  import PC = PhoneConnection
  import S = ServerRuns
  import R = StreamRuns
  import P = PhoneRuns

  type Packet = PC.Packet

  datatype Event =
    | Arrive(socket: S.Socket, raw: Packet, now: real)
    | Close(socket: S.Socket)
    | Visit(pid: int, max: nat)
    | Register(pid: int)
    | Step
    | Drop(pid: int)

  /**
   `lives`: for each phone the packets taken from its queue since it was last dropped, one list
   for each connection it has had.
   */
  datatype World = World(server: S.World, stream: R.World, lives: map<int, seq<seq<Packet>>>)

  function LivesOf(w: World, pid: int): (ls: seq<seq<Packet>>) {
    if pid in w.lives && w.lives[pid] != [] then w.lives[pid] else [[]]
  }

  function Start(rate: nat, need: nat): World {
    World(S.START, R.Start([], rate, need), map[])
  }

  /** The queue is read from the front, one packet at a time. */
  function ConsumeTimes(w: S.World, pid: int, k: nat): S.World {
    if k == 0 then w else S.Consumed(ConsumeTimes(w, pid, k - 1), pid)
  }

  function WithTaken(lives: seq<seq<Packet>>, packets: seq<Packet>): (ls: seq<seq<Packet>>)
    requires lives != []
    ensures |ls| == |lives|
  {
    lives[|lives| - 1 := lives[|lives| - 1] + packets]
  }

  function QueueOf(w: World, pid: int): seq<Packet> {
    if pid in w.server.server.conns then w.server.server.conns[pid].queue else []
  }

  function RemovedOf(w: World, pid: int): seq<Packet> {
    if pid in w.server.logs then w.server.logs[pid].removed else []
  }

  /** One queue's turn: nothing for a phone without connection or unknown to the aligner. */
  function Visited1(w: World, pid: int, max: nat): World {
    if pid !in w.server.server.conns || pid !in w.stream.loop.ids then w
    else
      var queue := QueueOf(w, pid);
      var k := Visited(queue, max);
      World(ConsumeTimes(w.server, pid, k), R.PoppedWorld(w.stream, [Source(pid, queue)], max),
            w.lives[pid := WithTaken(LivesOf(w, pid), queue[..k])])
  }

  /** A packet; one that opens a connection also opens a new list for its phone. */
  function Arrived(w: World, socket: S.Socket, raw: Packet, now: real): World {
    var server := S.Receive(w.server, socket, raw, now);
    var verified := Protocol.VerifyPacket(raw);
    if verified.Ok? && verified.value.phoneId !in w.server.logs && verified.value.phoneId in server.logs then
      var pid := verified.value.phoneId;
      World(server, w.stream, w.lives[pid := if pid in w.lives then LivesOf(w, pid) + [[]] else [[]]])
    else w.(server := server)
  }

  function Apply(w: World, e: Event): World {
    match e
    case Arrive(socket, raw, now) => Arrived(w, socket, raw, now)
    case Close(socket) => w.(server := S.Disconnected(w.server, socket))
    case Visit(pid, max) => Visited1(w, pid, max)
    case Register(pid) => w.(stream := R.Apply(w.stream, R.Register(pid)))
    case Step => w.(stream := R.SteppedWorld(w.stream))
    case Drop(pid) => w.(stream := R.Apply(w.stream, R.Drop(pid)), lives := w.lives - {pid})
  }

  function Run(w: World, events: seq<Event>): World {
    if events == [] then w
    else Apply(Run(w, events[..|events| - 1]), events[|events| - 1])
  }

  // ----- What was taken, decoded -----

  /** The samples of one packet; nothing if it does not verify. */
  function SamplesOf(p: Packet): Signal {
    var samples := Protocol.PacketToSamples(p);
    if samples.Ok? then samples.value else []
  }

  function Decoded(packets: seq<Packet>): Signal {
    if packets == [] then []
    else Decoded(packets[..|packets| - 1]) + SamplesOf(packets[|packets| - 1])
  }

  function Flat(lives: seq<seq<Packet>>): seq<Packet> {
    if lives == [] then [] else Flat(lives[..|lives| - 1]) + lives[|lives| - 1]
  }

  lemma DecodedMore(a: seq<Packet>, p: Packet)
    ensures Decoded(a + [p]) == Decoded(a) + SamplesOf(p)
  {
    assert (a + [p])[..|a|] == a;
  }

  lemma {:induction false} DecodedAppend(a: seq<Packet>, b: seq<Packet>)
    ensures Decoded(a + b) == Decoded(a) + Decoded(b)
  {
    hide SamplesOf;
    hide Decoded;
    if b == [] {
      assert a + b == a;
      NothingDecoded();
    } else {
      var front := b[..|b| - 1];
      var p := b[|b| - 1];
      assert b == front + [p] && a + b == a + front + [p];
      DecodedAppend(a, front);
      DecodedMore(a + front, p);
      DecodedMore(front, p);
    }
  }

  lemma NothingDecoded()
    ensures Decoded([]) == []
  {
  }

  lemma FlatWithTaken(lives: seq<seq<Packet>>, packets: seq<Packet>)
    requires lives != []
    ensures Flat(WithTaken(lives, packets)) == Flat(lives) + packets
  {
    var n := |lives| - 1;
    assert WithTaken(lives, packets)[..n] == lives[..n];
  }

  lemma FlatNewLife(lives: seq<seq<Packet>>)
    ensures Flat(lives + [[]]) == Flat(lives)
  {
    assert (lives + [[]])[..|lives|] == lives;
  }

  lemma FlatOne(life: seq<Packet>)
    ensures Flat([life]) == life
  {
    assert [life][..0] == [] && Flat([]) + life == life;
  }

  lemma FedDelivered(w: R.World, pid: int, samples: Signal, q: int)
    ensures R.LogOf(R.FedWorld(w, pid, samples), q).delivered
            == R.LogOf(w, q).delivered + (if q == pid then samples else [])
  {
    hide Fed, Buffer;
  }

  lemma {:induction false} PacketsDelivered(w: R.World, pid: int, packets: seq<Packet>, q: int)
    ensures
      var t := R.FedPacketsWorld(w, pid, packets);
      R.LogOf(t, q).delivered == R.LogOf(w, q).delivered + (if q == pid then Decoded(packets) else [])
  {
    hide Protocol.PacketToSamples, R.FedWorld, R.LogOf;
    if packets != [] {
      var front := packets[..|packets| - 1];
      PacketsDelivered(w, pid, front, q);
      FedDelivered(R.FedPacketsWorld(w, pid, front), pid, SamplesOf(packets[|packets| - 1]), q);
    }
  }

  lemma PoppedIsFed(w: R.World, pid: int, queue: seq<Packet>, max: nat)
    requires pid in w.loop.ids
    ensures R.PoppedWorld(w, [Source(pid, queue)], max) == R.FedPacketsWorld(w, pid, queue[..Visited(queue, max)])
  {
    hide Visited, R.FedPacketsWorld;
    assert [Source(pid, queue)][..0] == [];
  }

  // ----- Sequence order -----

  function Sequence(p: Packet): int {
    var v := Protocol.VerifyPacket(p);
    if v.Ok? then v.value.sequence else -1
  }

  ghost predicate Increasing(life: seq<Packet>, pid: int) {
    && (forall i | 0 <= i < |life| :: P.OfPhone(life[i], pid))
    && (forall i, j | 0 <= i < j < |life| :: Sequence(life[i]) < Sequence(life[j]))
  }

  /** What the list of the present connection has to do with that connection's own record. */
  ghost predicate Matches(life: seq<Packet>, l: PC.Logged) {
    && |life| <= |l.removed|
    && (|life| == |l.removed| ==> life == l.removed)
    && (forall p | p in life :: p in l.removed)
    && (forall i | 0 <= i < |life| :: Sequence(life[i]) <= l.conn.sequence)
    && (forall i, j | 0 <= i < |life| && |l.removed| <= j < |l.accepted| :: Sequence(life[i]) < Sequence(l.accepted[j]))
  }

  ghost predicate Flows(w: World, pid: int) {
    var lives := LivesOf(w, pid);
    && R.LogOf(w.stream, pid).delivered == Decoded(Flat(lives))
    && (forall i | 0 <= i < |lives| :: Increasing(lives[i], pid))
    && (pid in w.server.logs ==> Matches(lives[|lives| - 1], w.server.logs[pid]))
  }

  ghost predicate Inv(w: World) {
    && S.LogsMatch(w.server)
    && R.Inv(w.stream)
    && forall pid :: Flows(w, pid)
  }

  // ----- Every event keeps it -----

  /** The record's accepted packets carry its sequence numbers. */
  lemma AcceptedSequences(l: PC.Logged, pid: int)
    requires S.LogInv(pid, l)
    ensures forall i | 0 <= i < |l.accepted| ::
              P.OfPhone(l.accepted[i], pid) && Sequence(l.accepted[i]) == l.sequences[i] <= l.conn.sequence
    ensures forall i, j | 0 <= i < j < |l.accepted| :: Sequence(l.accepted[i]) < Sequence(l.accepted[j])
    ensures l.accepted == l.removed + l.conn.queue
  {
    hide Protocol.VerifyPacket;
  }

  function Consumed(l: PC.Logged, k: nat): PC.Logged
    requires k <= |l.conn.queue|
  {
    l.(conn := l.conn.(queue := l.conn.queue[k..]), removed := l.removed + l.conn.queue[..k])
  }

  lemma ConsumedNone(l: PC.Logged)
    ensures Consumed(l, 0) == l
  {
    assert l.conn.queue[0..] == l.conn.queue && l.removed + l.conn.queue[..0] == l.removed;
  }

  lemma ConsumedNext(l: PC.Logged, k: nat)
    requires 0 < k <= |l.conn.queue|
    ensures PC.Apply(Consumed(l, k - 1), PC.Consume) == Consumed(l, k)
  {
    var q := l.conn.queue;
    assert q[k - 1..][0] == q[k - 1] && q[k - 1..][1..] == q[k..];
    assert l.removed + q[..k] == l.removed + q[..k - 1] + [q[k - 1]];
  }

  lemma {:induction false} Consuming(w: S.World, pid: int, k: nat)
    requires S.LogsMatch(w) && pid in w.logs && k <= |w.logs[pid].conn.queue|
    ensures
      var t := ConsumeTimes(w, pid, k);
      S.LogsMatch(t) && t.logs == w.logs[pid := Consumed(w.logs[pid], k)]
  {
    hide S.LogsMatch, PC.Apply, Consumed;
    if k == 0 {
      ConsumedNone(w.logs[pid]);
    } else {
      Consuming(w, pid, k - 1);
      S.ReadKeepsLogs(ConsumeTimes(w, pid, k - 1), pid);
      ConsumedNext(w.logs[pid], k);
    }
  }

  lemma TakingKeepsOrder(life: seq<Packet>, l: PC.Logged, pid: int, k: nat)
    requires Increasing(life, pid) && Matches(life, l) && S.LogInv(pid, l) && k <= |l.conn.queue|
    ensures Increasing(life + l.conn.queue[..k], pid) && Matches(life + l.conn.queue[..k], Consumed(l, k))
  {
    hide Sequence, P.OfPhone, S.LogInv;
    AcceptedSequences(l, pid);
    var m := |l.removed|;
    forall i | 0 <= i < k ensures l.conn.queue[..k][i] == l.accepted[m + i] {}
  }

  lemma VisitKeepsInv(w: World, pid: int, max: nat)
    requires Inv(w)
    ensures Inv(Visited1(w, pid, max))
  {
    hide S.LogsMatch, R.Inv, Increasing, Matches, S.LogInv, Decoded, Flat;
    assert pid in w.server.server.conns <==> pid in w.server.logs by {
      ConnsAreLogs(w.server, pid);
    }
    if pid in w.server.logs && pid in w.stream.loop.ids {
      ConnsAreLogs(w.server, pid);
      assert Flows(w, pid);
      var l := w.server.logs[pid];
      var k := Visited(l.conn.queue, max);
      var lives := LivesOf(w, pid);
      var t := Visited1(w, pid, max);
      Consuming(w.server, pid, k);
      PoppedIsFed(w.stream, pid, l.conn.queue, max);
      R.PacketsKeepInv(w.stream, pid, l.conn.queue[..k]);
      TakingKeepsOrder(lives[|lives| - 1], l, pid, k);
      FlatWithTaken(lives, l.conn.queue[..k]);
      DecodedAppend(Flat(lives), l.conn.queue[..k]);
      forall q ensures Flows(t, q) {
        assert Flows(w, q);
        PacketsDelivered(w.stream, pid, l.conn.queue[..k], q);
      }
    }
  }

  lemma ConnsAreLogs(w: S.World, pid: int)
    requires S.LogsMatch(w)
    ensures pid in w.server.conns <==> pid in w.logs
    ensures pid in w.logs ==> w.server.conns[pid] == w.logs[pid].conn && S.LogInv(pid, w.logs[pid])
  {
    hide S.LogInv;
  }

  lemma ArrivalKeepsMatch(life: seq<Packet>, l: PC.Logged, pid: int, raw: Packet, now: real)
    requires Matches(life, l) && S.LogInv(pid, l) && Protocol.VerifyPacket(raw).Ok?
    ensures Matches(life, PC.Apply(l, PC.Arrival(Protocol.VerifyPacket(raw).value.sequence, raw, now)))
  {
    hide PC.Noted, Protocol.VerifyPacket, S.Verified;
  }

  lemma OpenedMatches(pid: int, rate: int)
    ensures Matches([], PC.Opened(pid, rate)) && S.LogInv(pid, PC.Opened(pid, rate))
  {
    S.OpenedLog(pid, rate);
  }

  lemma ArriveKeepsInv(w: World, socket: S.Socket, raw: Packet, now: real)
    requires Inv(w)
    ensures Inv(Arrived(w, socket, raw, now))
  {
    hide S.LogsMatch, R.Inv, Increasing, Matches, S.LogInv, Decoded, Flat, S.Receive, PC.Apply, Protocol.VerifyPacket;
    var t := Arrived(w, socket, raw, now);
    S.ReceiveKeepsLogs(w.server, socket, raw, now);
    P.RecordsAfterPacket(w.server, socket, raw, now);
    var v := Protocol.VerifyPacket(raw);
    if v.Ok? {
      var pid := v.value.phoneId;
      FlatNewLife(LivesOf(w, pid));
      NothingDelivered();
      NoPackets(pid);
      OpenedMatches(pid, v.value.sampleRateHz);
      ArrivalKeepsMatch([], PC.Opened(pid, v.value.sampleRateHz), pid, raw, now);
      if pid in w.server.logs {
        ConnsAreLogs(w.server, pid);
        var lives := LivesOf(w, pid);
        assert Flows(w, pid);
        ArrivalKeepsMatch(lives[|lives| - 1], w.server.logs[pid], pid, raw, now);
      }
    }
    forall q ensures Flows(t, q) {
      assert Flows(w, q);
    }
  }

  lemma NoPackets(pid: int)
    ensures Increasing([], pid)
  {
  }

  lemma CloseKeepsInv(w: World, socket: S.Socket)
    requires Inv(w)
    ensures Inv(w.(server := S.Disconnected(w.server, socket)))
  {
    hide S.LogsMatch, R.Inv, Increasing, Matches, Decoded, Flat;
    S.CloseKeepsLogs(w.server, socket);
    forall q ensures Flows(w.(server := S.Disconnected(w.server, socket)), q) {
      assert Flows(w, q);
    }
  }

  lemma StepDelivers(w: R.World, q: int)
    ensures R.LogOf(R.SteppedWorld(w), q).delivered == R.LogOf(w, q).delivered
  {
    hide Ready, Channels, LastOf, SkipOf;
  }

  lemma StepKeepsInv(w: World)
    requires Inv(w)
    ensures Inv(w.(stream := R.SteppedWorld(w.stream)))
  {
    hide S.LogsMatch, R.Inv, Increasing, Matches, R.SteppedWorld, Decoded, Flat;
    R.StepKeepsInv(w.stream);
    forall q ensures Flows(w.(stream := R.SteppedWorld(w.stream)), q) {
      assert Flows(w, q);
      StepDelivers(w.stream, q);
    }
  }

  lemma NothingDelivered()
    ensures Decoded(Flat([[]])) == []
  {
    FlatOne([]);
  }

  lemma DropKeepsInv(w: World, pid: int)
    requires Inv(w)
    ensures Inv(Apply(w, Drop(pid)))
  {
    hide S.LogsMatch, R.Inv, Increasing, Matches, Decoded, Flat, Dropped;
    R.ApplyKeepsInv(w.stream, R.Drop(pid));
    NothingDelivered();
    NoPackets(pid);
    if pid in w.server.logs {
      NothingTaken(w.server.logs[pid]);
    }
    forall q ensures Flows(Apply(w, Drop(pid)), q) {
      assert Flows(w, q);
    }
  }

  lemma RegisterKeepsInv(w: World, pid: int)
    requires Inv(w)
    ensures Inv(Apply(w, Register(pid)))
  {
    hide S.LogsMatch, R.Inv, Increasing, Matches, Decoded, Flat;
    R.ApplyKeepsInv(w.stream, R.Register(pid));
    forall q ensures Flows(Apply(w, Register(pid)), q) {
      assert Flows(w, q);
    }
  }

  lemma NothingTaken(l: PC.Logged)
    ensures Matches([], l)
  {
  }

  lemma ApplyKeepsInv(w: World, e: Event)
    requires Inv(w)
    ensures Inv(Apply(w, e))
  {
    hide Inv, Arrived, Visited1;
    match e
    case Arrive(socket, raw, now) => ArriveKeepsInv(w, socket, raw, now);
    case Close(socket) => CloseKeepsInv(w, socket);
    case Visit(pid, max) => VisitKeepsInv(w, pid, max);
    case Register(pid) => RegisterKeepsInv(w, pid);
    case Step => StepKeepsInv(w);
    case Drop(pid) => DropKeepsInv(w, pid);
  }

  lemma StartInv(rate: nat, need: nat)
    requires need > 0
    ensures Inv(Start(rate, need))
  {
    hide R.Inv, Decoded, Flat;
    S.StartMatches();
    R.StartInv([], rate, need);
    NothingDelivered();
    assert forall pid :: LivesOf(Start(rate, need), pid) == [[]];
  }

  lemma {:induction false} RunKeepsInv(w: World, events: seq<Event>)
    requires Inv(w)
    ensures Inv(Run(w, events))
  {
    hide Inv, Apply;
    if events != [] {
      RunKeepsInv(w, events[..|events| - 1]);
      ApplyKeepsInv(Run(w, events[..|events| - 1]), events[|events| - 1]);
    }
  }

  // ----- The main results -----

  /**
   After any run a phone has been delivered exactly the decoded packets taken from its
   connections, in the order taken; within one connection their sequence numbers strictly
   increase; and its buffer is the newest part of that.
   */
  lemma DeliveredIsTaken(rate: nat, need: nat, events: seq<Event>, pid: int)
    requires need > 0
    ensures
      var w := Run(Start(rate, need), events);
      var lives := LivesOf(w, pid);
      && R.LogOf(w.stream, pid).delivered == Decoded(Flat(lives))
      && R.Suffix(Buffer(w.stream.loop, pid), Decoded(Flat(lives)))
      && (forall i | 0 <= i < |lives| :: Increasing(lives[i], pid))
      && (pid in w.server.logs ==> forall p | p in lives[|lives| - 1] :: p in w.server.logs[pid].removed)
  {
    hide Run, Decoded, Flat, Increasing;
    StartInv(rate, need);
    RunKeepsInv(Start(rate, need), events);
    var w := Run(Start(rate, need), events);
    assert Flows(w, pid);
    assert R.GoodPhone(w.stream, pid);
  }

  /** Every packet of the phone that arrives is the one its sender gave that sequence number. */
  ghost predicate SentBy(events: seq<Event>, pid: int, sent: nat -> Packet) {
    forall i | 0 <= i < |events| && events[i].Arrive? && P.OfPhone(events[i].raw, pid) :: IsSent(events[i].raw, sent)
  }

  ghost predicate IsSent(p: Packet, sent: nat -> Packet) {
    Sequence(p) >= 0 && p == sent(Sequence(p))
  }

  ghost predicate AllSent(packets: seq<Packet>, sent: nat -> Packet) {
    forall i | 0 <= i < |packets| :: IsSent(packets[i], sent)
  }

  lemma ApplyKeepsSent(w: World, e: Event, pid: int, sent: nat -> Packet)
    requires Inv(w) && SentBy([e], pid, sent)
    requires pid in w.server.logs ==> AllSent(w.server.logs[pid].accepted, sent)
    ensures pid in Apply(w, e).server.logs ==> AllSent(Apply(w, e).server.logs[pid].accepted, sent)
  {
    hide IsSent, Protocol.VerifyPacket, S.LogInv, R.Inv, R.SteppedWorld, R.PoppedWorld, S.Receive, PC.Arrive;
    match e {
      case Arrive(socket, raw, now) =>
        assert [e][0] == e;
        P.RecordsAfterPacket(w.server, socket, raw, now);
      case Visit(q, max) =>
        if q in w.server.logs {
          Consuming(w.server, q, Visited(w.server.logs[q].conn.queue, max));
        }
      case _ =>
    }
  }

  lemma {:induction false} AcceptedSent(w: World, events: seq<Event>, pid: int, sent: nat -> Packet)
    requires Inv(w) && pid !in w.server.logs && SentBy(events, pid, sent)
    ensures pid in Run(w, events).server.logs ==> AllSent(Run(w, events).server.logs[pid].accepted, sent)
  {
    hide Apply, Inv, AllSent, IsSent, P.OfPhone;
    if events != [] {
      var n := |events| - 1;
      AcceptedSent(w, events[..n], pid, sent);
      RunKeepsInv(w, events[..n]);
      assert SentBy([events[n]], pid, sent);
      ApplyKeepsSent(Run(w, events[..n]), events[n], pid, sent);
    }
  }

  /** The sender's first n packets. */
  function FirstSent(sent: nat -> Packet, n: nat): (packets: seq<Packet>)
    ensures |packets| == n
  {
    seq(n, i requires 0 <= i < n => sent(i))
  }

  /** Numbers that strictly increase from 0 or more to their own count are 0, 1, 2 and so on. */
  lemma {:induction false} Contiguous(s: seq<int>, i: nat)
    requires i < |s| && s[0] >= 0 && s[|s| - 1] == |s| - 1
    requires forall a, b | 0 <= a < b < |s| :: s[a] < s[b]
    ensures s[i] == i
  {
    Climbs(s, 0, i);
    Climbs(s, i, |s| - 1);
  }

  lemma {:induction false} Climbs(s: seq<int>, a: nat, b: nat)
    requires a <= b < |s| && forall i, j | 0 <= i < j < |s| :: s[i] < s[j]
    ensures s[b] >= s[a] + (b - a)
  {
    if a < b {
      Climbs(s, a, b - 1);
    }
  }

  /** Without a gap, what was accepted is the sender's packets from the first on. */
  lemma NoGapNoneMissing(l: PC.Logged, pid: int, sent: nat -> Packet)
    requires S.LogInv(pid, l) && AllSent(l.accepted, sent) && l.conn.droppedFrames == 0
    ensures l.accepted == FirstSent(sent, |l.accepted|) && l.conn.sequence + 1 == |l.accepted|
  {
    hide Protocol.VerifyPacket;
    AcceptedSequences(l, pid);
    forall i | 0 <= i < |l.accepted| ensures l.accepted[i] == sent(i) {
      assert IsSent(l.accepted[0], sent) && IsSent(l.accepted[i], sent);
      Contiguous(l.sequences, i);
    }
  }

  /** One connection: its list is the sender's whole stream if and only if nothing is missing. */
  lemma WholeLifeIff(life: seq<Packet>, l: PC.Logged, pid: int, sent: nat -> Packet)
    requires Matches(life, l) && S.LogInv(pid, l) && AllSent(l.accepted, sent)
    ensures l.conn.sequence >= -1
    ensures life == FirstSent(sent, l.conn.sequence + 1)
            <==> l.conn.droppedFrames == 0 && |life| == |l.accepted|
  {
    hide S.LogInv, AllSent;
    Missing(l, pid);
    if l.conn.droppedFrames == 0 && |life| == |l.accepted| {
      assert life == l.accepted;
      NoGapNoneMissing(l, pid, sent);
    }
  }

  /** The numbers up to the last one accepted were accepted or counted as a gap. */
  lemma Missing(l: PC.Logged, pid: int)
    requires S.LogInv(pid, l)
    ensures l.conn.droppedFrames >= 0 && l.accepted == l.removed + l.conn.queue
    ensures l.conn.sequence + 1 == l.conn.droppedFrames + |l.accepted|
  {
    hide Protocol.VerifyPacket;
  }

  /**
   With a sender behind the phone, what was taken from the present connection is the sender's
   whole stream up to the last sequence number accepted, if and only if no gap was counted and
   everything accepted was taken, which leaves no room for a shed packet.
   */
  lemma WholeStreamIff(
    rate: nat, need: nat, events: seq<Event>, pid: int, sent: nat -> Packet)
    requires need > 0 && SentBy(events, pid, sent)
    requires pid in Run(Start(rate, need), events).server.logs
    ensures
      var w := Run(Start(rate, need), events);
      var l := w.server.logs[pid];
      var lives := LivesOf(w, pid);
      var life := lives[|lives| - 1];
      && l.conn.sequence >= -1
      && (life == FirstSent(sent, l.conn.sequence + 1) <==> l.conn.droppedFrames == 0 && |life| == |l.accepted|)
      && (life == FirstSent(sent, l.conn.sequence + 1) && |lives| == 1 ==>
            R.LogOf(w.stream, pid).delivered == Decoded(FirstSent(sent, l.conn.sequence + 1)))
  {
    hide Run, Decoded, Increasing, AllSent, Matches, R.Inv, S.LogInv, FirstSent;
    var start := Start(rate, need);
    StartInv(rate, need);
    RunKeepsInv(start, events);
    AcceptedSent(start, events, pid, sent);
    var w := Run(start, events);
    var l := w.server.logs[pid];
    assert Flows(w, pid);
    ConnsAreLogs(w.server, pid);
    var lives := LivesOf(w, pid);
    WholeLifeIff(lives[|lives| - 1], l, pid, sent);
    if |lives| == 1 {
      FlatOne(lives[0]);
      assert lives == [lives[0]];
    }
  }

  /**
   One visit of a registered phone's queue takes its first `max` packets, or all if there are
   fewer, and delivers them decoded.
   */
  lemma VisitTakes(w: World, pid: int, max: nat)
    requires Inv(w) && pid in w.server.logs && pid in w.stream.loop.ids
    ensures
      var t := Visited1(w, pid, max);
      var queue := QueueOf(w, pid);
      var k := if |queue| <= max then |queue| else max;
      && QueueOf(t, pid) == queue[k..]
      && R.LogOf(t.stream, pid).delivered == R.LogOf(w.stream, pid).delivered + Decoded(queue[..k])
      && RemovedOf(t, pid) == RemovedOf(w, pid) + queue[..k]
  {
    hide R.Inv, S.LogInv, Decoded, Flows;
    ConnsAreLogs(w.server, pid);
    var queue := QueueOf(w, pid);
    var k := Visited(queue, max);
    Consuming(w.server, pid, k);
    ConnsAreLogs(ConsumeTimes(w.server, pid, k), pid);
    PoppedIsFed(w.stream, pid, queue, max);
    PacketsDelivered(w.stream, pid, queue[..k], pid);
  }

  // ----- From the microphone to the buffer -----

  function Reads(pid: int, k: nat): (rs: seq<S.Event>) {
    if k == 0 then [] else Reads(pid, k - 1) + [S.Read(pid)]
  }

  /** What an event means to the server alone. */
  function ServerEventsOf(w: World, e: Event): (events: seq<S.Event>) {
    match e
    case Arrive(socket, raw, now) => [S.Incoming(socket, raw, now)]
    case Close(socket) => [S.Close(socket)]
    case Visit(pid, max) =>
      if pid !in w.server.server.conns || pid !in w.stream.loop.ids then []
      else Reads(pid, Visited(QueueOf(w, pid), max))
    case _ => []
  }

  function ServerEvents(w: World, events: seq<Event>): (r: seq<S.Event>) {
    if events == [] then []
    else
      var front := events[..|events| - 1];
      ServerEvents(w, front) + ServerEventsOf(Run(w, front), events[|events| - 1])
  }

  lemma {:induction false} ReadsConsume(before: seq<S.Event>, pid: int, k: nat)
    ensures S.Run(before + Reads(pid, k)) == ConsumeTimes(S.Run(before), pid, k)
  {
    hide S.Step;
    if k == 0 {
      assert before + [] == before;
    } else {
      ReadsConsume(before, pid, k - 1);
      var all := before + Reads(pid, k);
      assert all[..|all| - 1] == before + Reads(pid, k - 1);
      ReadIsConsumed(S.Run(before + Reads(pid, k - 1)), pid);
    }
  }

  lemma ReadIsConsumed(w: S.World, pid: int)
    ensures S.Step(w, S.Read(pid)) == S.Consumed(w, pid)
  {
  }

  lemma OneStepFurther(before: seq<S.Event>, e: S.Event)
    ensures S.Run(before + [e]) == S.Step(S.Run(before), e)
  {
    hide S.Step;
    assert (before + [e])[..|before|] == before;
  }

  /** The server inside the pipeline is in the state of a run of the server on its own. */
  lemma {:induction false} ServerIsRun(rate: nat, need: nat, events: seq<Event>)
    ensures Run(Start(rate, need), events).server == S.Run(ServerEvents(Start(rate, need), events))
  {
    hide S.Run, S.Receive, S.Disconnected, R.SteppedWorld, R.PoppedWorld, R.Apply;
    var start := Start(rate, need);
    if events == [] {
      NothingServed();
    } else {
      var front, e := events[..|events| - 1], events[|events| - 1];
      var before := ServerEvents(start, front);
      ServerIsRun(rate, need, front);
      match e {
        case Arrive(socket, raw, now) => OneStepFurther(before, S.Incoming(socket, raw, now));
        case Close(socket) => OneStepFurther(before, S.Close(socket));
        case Visit(pid, max) =>
          ReadsConsume(before, pid, Visited(QueueOf(Run(start, front), pid), max));
          assert before + [] == before;
        case _ => assert before + [] == before;
      }
    }
  }

  lemma NothingServed()
    ensures S.Run([]) == S.START
  {
  }

  /** With its sockets open a phone has one connection, and one list of what was taken from it. */
  lemma {:induction false} OneLife(rate: nat, need: nat, events: seq<Event>, pid: int)
    requires need > 0 && P.StaysOpen(ServerEvents(Start(rate, need), events), pid)
    ensures
      var w := Run(Start(rate, need), events);
      |LivesOf(w, pid)| == 1 && (pid in w.lives ==> pid in w.server.logs)
  {
    hide S.Run, S.Receive, PC.Apply, Protocol.VerifyPacket, P.StaysOpen, P.Carried;
    hide R.SteppedWorld, R.PoppedWorld, R.Apply, Inv;
    var start := Start(rate, need);
    if events != [] {
      var front, e := events[..|events| - 1], events[|events| - 1];
      var w := Run(start, front);
      var before := ServerEvents(start, front);
      P.StaysOpenBefore(before, ServerEventsOf(w, e), pid);
      OneLife(rate, need, front, pid);
      ServerIsRun(rate, need, front);
      StartInv(rate, need);
      RunKeepsInv(start, front);
      KeepsOneLife(w, before, e, pid);
    }
  }

  lemma KeepsOneLife(w: World, before: seq<S.Event>, e: Event, pid: int)
    requires Inv(w) && w.server == S.Run(before)
    requires e.Close? ==> !P.Carried(before, e.socket, pid)
    requires |LivesOf(w, pid)| == 1 && (pid in w.lives ==> pid in w.server.logs)
    ensures
      var t := Apply(w, e);
      |LivesOf(t, pid)| == 1 && (pid in t.lives ==> pid in t.server.logs)
  {
    hide S.Run, S.Receive, PC.Apply, Protocol.VerifyPacket, P.Carried, S.LogInv, Flows;
    hide R.SteppedWorld, R.PoppedWorld, R.Apply, R.Inv;
    match e {
      case Arrive(socket, raw, now) => P.RecordsAfterPacket(w.server, socket, raw, now);
      case Close(socket) =>
        if P.Removes(w.server, socket, pid) {
          P.RegisteredWasCarried(before, socket, pid);
          assert false;
        }
      case Visit(q, max) =>
        if q in w.server.logs {
          Consuming(w.server, q, Visited(w.server.logs[q].conn.queue, max));
        }
      case _ =>
    }
  }

  /** Packet `k` of a phone, as its sender frames the samples captured for it. */
  ghost predicate IsFrameOf(packet: Packet, pid: int, k: nat, captured: seq<int>) {
    exists rate, timestamp, flags ::
      Protocol.FramePacket(pid, k, rate, Protocol.Encode(captured), timestamp, Protocol.AudioFrame, flags)
      == Protocol.Ok(packet)
  }

  /** What the first n packets carry, as samples. */
  function Captured(audio: nat -> seq<int>, n: nat): Signal {
    if n == 0 then [] else Captured(audio, n - 1) + Protocol.Scaled(audio(n - 1))
  }

  ghost predicate AllFrames(packets: seq<Packet>, pid: int, audio: nat -> seq<int>) {
    forall k | 0 <= k < |packets| :: IsFrameOf(packets[k], pid, k, audio(k))
  }

  ghost predicate SixteenBit(audio: nat -> seq<int>) {
    forall k: nat, i | 0 <= i < |audio(k)| :: Protocol.Is16Bit(audio(k)[i])
  }

  lemma FrameCarries(packet: Packet, pid: int, k: nat, captured: seq<int>)
    requires IsFrameOf(packet, pid, k, captured) && forall i | 0 <= i < |captured| :: Protocol.Is16Bit(captured[i])
    ensures Protocol.VerifyPacket(packet).Ok? && Protocol.VerifyPacket(packet).value.sequence == k
    ensures SamplesOf(packet) == Protocol.Scaled(captured)
  {
    hide Protocol.FramePacket, Protocol.VerifyPacket, Protocol.Encode, Protocol.PacketToSamples, Protocol.Payload;
    hide Protocol.Scaled, Protocol.Reserved;
    var rate, timestamp, flags :|
      Protocol.FramePacket(pid, k, rate, Protocol.Encode(captured), timestamp, Protocol.AudioFrame, flags)
      == Protocol.Ok(packet);
    Protocol.FrameThenVerify(pid, k, rate, Protocol.Encode(captured), timestamp, Protocol.AudioFrame, flags);
    Protocol.FramedSamples(pid, k, rate, captured, timestamp, Protocol.AudioFrame, flags);
  }

  lemma {:induction false} DecodedIsCaptured(packets: seq<Packet>, pid: int, audio: nat -> seq<int>)
    requires AllFrames(packets, pid, audio) && SixteenBit(audio)
    ensures Decoded(packets) == Captured(audio, |packets|) && P.Numbered(packets)
  {
    hide IsFrameOf, SamplesOf, Protocol.VerifyPacket, Protocol.Scaled;
    if packets != [] {
      var n := |packets| - 1;
      DecodedIsCaptured(packets[..n], pid, audio);
      FrameCarries(packets[n], pid, n, audio(n));
      forall k | 0 <= k < |packets|
        ensures Protocol.VerifyPacket(packets[k]).Ok? && Protocol.VerifyPacket(packets[k]).value.sequence == k
      {
        if k < n {
          assert packets[..n][k] == packets[k];
        }
      }
    }
  }

  /**
   End to end: a phone frames what it captures; its packets reach the server in order, at most 400
   in two seconds, on sockets that stay open, mixed with whatever other phones and sockets do. Once
   everything accepted was taken from its queue, what the loop was delivered is what was captured,
   sample by sample.
   */
  lemma CapturedIsDelivered(rate: nat, need: nat, events: seq<Event>, pid: int, audio: nat -> seq<int>)
    requires need > 0 && SixteenBit(audio)
    requires
      var seen := ServerEvents(Start(rate, need), events);
      && S.ClockRuns(seen) && P.StaysOpen(seen, pid) && PC.UnderLimit(P.TimesOf(seen, pid))
      && P.PacketsOf(seen, pid) != [] && AllFrames(P.PacketsOf(seen, pid), pid, audio)
    ensures
      var w := Run(Start(rate, need), events);
      var n := |P.PacketsOf(ServerEvents(Start(rate, need), events), pid)|;
      && |LivesOf(w, pid)| == 1
      && (|LivesOf(w, pid)[0]| == n ==> R.LogOf(w.stream, pid).delivered == Captured(audio, n))
  {
    hide Run, S.Run, Decoded, Increasing, R.Inv, S.LogInv, AllFrames, P.Numbered, P.StaysOpen, PC.UnderLimit;
    hide S.ClockRuns, Captured, ServerEvents, SixteenBit;
    var start := Start(rate, need);
    var seen := ServerEvents(start, events);
    var packets := P.PacketsOf(seen, pid);
    DecodedIsCaptured(packets, pid, audio);
    ServerIsRun(rate, need, events);
    P.InOrderAllAccepted(seen, pid);
    OneLife(rate, need, events, pid);
    StartInv(rate, need);
    RunKeepsInv(start, events);
    var w := Run(start, events);
    assert Flows(w, pid);
    FlatOne(LivesOf(w, pid)[0]);
    assert LivesOf(w, pid) == [LivesOf(w, pid)[0]];
    AllTaken(LivesOf(w, pid)[0], w.server.logs[pid]);
  }

  lemma AllTaken(life: seq<Packet>, l: PC.Logged)
    requires Matches(life, l) && l.accepted == l.removed + l.conn.queue
    ensures |life| == |l.accepted| ==> life == l.accepted
  {
  }
}
