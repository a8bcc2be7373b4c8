/**
 One phone in a run of the whole server: its live connection is in exactly the state that its own
 arrivals and reads lead to, whatever else happens. So a phone whose packets arrive in sequence and
 under the rate limit loses none of them.
 */
module PhoneRuns {
  import Protocol
  import PC = PhoneConnection
  import opened ServerRuns

  type Packet = PC.Packet

  predicate OfPhone(raw: Packet, pid: int) {
    Protocol.VerifyPacket(raw).Ok? && Protocol.VerifyPacket(raw).value.phoneId == pid
  }

  /** What a phone's live connection went through since it was opened. */
  datatype Life = Absent | Live(sampleRateHz: int, inputs: seq<PC.Input>)

  function More(life: Life, input: PC.Input): Life {
    if life.Live? then life.(inputs := life.inputs + [input]) else life
  }

  /** The connection a closing socket takes with it. */
  predicate Removes(w: World, socket: Socket, pid: int) {
    socket in w.open && w.open[socket] != [] && w.open[socket][|w.open[socket]| - 1] == pid
  }

  function LifeAfter(w: World, life: Life, e: Event, pid: int): Life {
    match e
    case Incoming(_, raw, now) =>
      var v := Protocol.VerifyPacket(raw);
      if v.Err? || v.value.phoneId != pid then life
      else More(if life.Live? then life else Live(v.value.sampleRateHz, []), PC.Arrival(v.value.sequence, raw, now))
    case Close(socket) => if Removes(w, socket, pid) then Absent else life
    case Read(phoneId) => if phoneId == pid then More(life, PC.Consume) else life
  }

  function LifeOf(events: seq<Event>, pid: int): Life {
    if events == [] then Absent
    else
      var front := events[..|events| - 1];
      LifeAfter(Run(front), LifeOf(front, pid), events[|events| - 1], pid)
  }

  /** The server's record of a phone is what its life leads to. */
  ghost predicate Follows(w: World, life: Life, pid: int) {
    && (pid in w.logs <==> life.Live?)
    && (life.Live? ==> w.logs[pid] == PC.Replay(pid, life.sampleRateHz, life.inputs))
  }

  // ----- The projection -----

  /** A packet that verifies has a size the server lets through. */
  lemma VerifiedSize(raw: Packet)
    requires Protocol.VerifyPacket(raw).Ok?
    ensures 34 <= |raw| <= 32802
  {
  }

  lemma ReplayMore(pid: int, rate: int, inputs: seq<PC.Input>, input: PC.Input)
    ensures PC.Replay(pid, rate, inputs + [input]) == PC.Apply(PC.Replay(pid, rate, inputs), input)
  {
    hide PC.Apply;
    assert (inputs + [input])[..|inputs|] == inputs;
  }

  /** Every packet that verifies reaches the record of its phone, and no other record. */
  lemma RecordsAfterPacket(w: World, socket: Socket, raw: Packet, now: real)
    ensures
      var t := Receive(w, socket, raw, now);
      var v := Protocol.VerifyPacket(raw);
      if v.Err? then t.logs == w.logs
      else
        var h := v.value;
        var l := if h.phoneId in w.logs then w.logs[h.phoneId] else PC.Opened(h.phoneId, h.sampleRateHz);
        t.logs == w.logs[h.phoneId := PC.Apply(l, PC.Arrival(h.sequence, raw, now))]
  {
    hide PC.Arrive, PC.Apply, Protocol.VerifyPacket;
    if Protocol.VerifyPacket(raw).Ok? {
      VerifiedSize(raw);
    }
  }

  lemma PacketKeepsFollows(w: World, life: Life, socket: Socket, raw: Packet, now: real, pid: int)
    requires Follows(w, life, pid)
    ensures Follows(Receive(w, socket, raw, now), LifeAfter(w, life, Incoming(socket, raw, now), pid), pid)
  {
    hide PC.Apply, PC.Replay, PC.Opened, Protocol.VerifyPacket, Receive;
    RecordsAfterPacket(w, socket, raw, now);
    var v := Protocol.VerifyPacket(raw);
    if v.Ok? && v.value.phoneId == pid {
      var rate := if life.Live? then life.sampleRateHz else v.value.sampleRateHz;
      var inputs := if life.Live? then life.inputs else [];
      NothingReplayed(pid, rate);
      ReplayMore(pid, rate, inputs, PC.Arrival(v.value.sequence, raw, now));
    }
  }

  lemma CloseKeepsFollows(w: World, life: Life, socket: Socket, pid: int)
    requires Follows(w, life, pid)
    ensures Follows(Disconnected(w, socket), LifeAfter(w, life, Close(socket), pid), pid)
  {
    hide PC.Replay;
  }

  lemma ReadKeepsFollows(w: World, life: Life, phoneId: int, pid: int)
    requires LogsMatch(w) && Follows(w, life, pid)
    ensures Follows(Consumed(w, phoneId), LifeAfter(w, life, Read(phoneId), pid), pid)
  {
    hide PC.Apply, PC.Replay, LogInv;
    if life.Live? {
      ReplayMore(pid, life.sampleRateHz, life.inputs, PC.Consume);
    }
  }

  lemma EventKeepsFollows(w: World, life: Life, e: Event, pid: int)
    requires LogsMatch(w) && Follows(w, life, pid)
    ensures Follows(Step(w, e), LifeAfter(w, life, e, pid), pid)
  {
    hide LogsMatch, Follows, LifeAfter, Receive, Disconnected, Consumed;
    match e
    case Incoming(socket, raw, now) => PacketKeepsFollows(w, life, socket, raw, now, pid);
    case Close(socket) => CloseKeepsFollows(w, life, socket, pid);
    case Read(phoneId) => ReadKeepsFollows(w, life, phoneId, pid);
  }

  lemma NothingReplayed(pid: int, rate: int)
    ensures PC.Replay(pid, rate, []) == PC.Opened(pid, rate)
  {
  }

  /** In every run a phone's connection is the replay of its own life. */
  lemma {:induction false} ConnectionIsReplay(events: seq<Event>, pid: int)
    ensures Follows(Run(events), LifeOf(events, pid), pid)
  {
    hide Step, LifeAfter, Follows, LogsMatch;
    if events == [] {
      StartFollows(pid);
    } else {
      var front := events[..|events| - 1];
      ConnectionIsReplay(front, pid);
      ConnectionsAccounted(front);
      EventKeepsFollows(Run(front), LifeOf(front, pid), events[|events| - 1], pid);
    }
  }

  lemma StartFollows(pid: int)
    ensures Follows(START, Absent, pid)
  {
  }

  lemma {:induction false} ReplayedConn(pid: int, rate: int, inputs: seq<PC.Input>)
    ensures
      var c := PC.Replay(pid, rate, inputs).conn;
      c.phoneId == pid && c.sampleRateHz == rate
  {
    hide PC.Noted, PC.Enqueued;
    if inputs != [] {
      ReplayedConn(pid, rate, inputs[..|inputs| - 1]);
    }
  }

  /** A connection keeps the phone id and the sample rate of the packet that opened it. */
  lemma ConnectionIdentity(events: seq<Event>, pid: int)
    requires pid in Run(events).server.conns
    ensures
      var c := Run(events).server.conns[pid];
      LifeOf(events, pid).Live? && c.phoneId == pid && c.sampleRateHz == LifeOf(events, pid).sampleRateHz
  {
    hide Run, PC.Replay, LogInv, LifeOf;
    ConnectionIsReplay(events, pid);
    ConnectionsAccounted(events);
    var life := LifeOf(events, pid);
    ReplayedConn(pid, life.sampleRateHz, life.inputs);
  }

  // ----- A phone that loses nothing -----

  /** The packets of a phone that arrived and verified, in order. */
  function PacketsOf(events: seq<Event>, pid: int): (packets: seq<Packet>) {
    if events == [] then []
    else
      var e := events[|events| - 1];
      PacketsOf(events[..|events| - 1], pid)
      + (if e.Incoming? && OfPhone(e.raw, pid) then [e.raw] else [])
  }

  function TimesOf(events: seq<Event>, pid: int): (times: seq<real>) {
    if events == [] then []
    else
      var e := events[|events| - 1];
      TimesOf(events[..|events| - 1], pid)
      + (if e.Incoming? && OfPhone(e.raw, pid) then [e.now] else [])
  }

  ghost predicate Carried(events: seq<Event>, socket: Socket, pid: int) {
    exists i | 0 <= i < |events| :: events[i].Incoming? && events[i].socket == socket && OfPhone(events[i].raw, pid)
  }

  /** No socket closes that has carried a packet of the phone. */
  ghost predicate StaysOpen(events: seq<Event>, pid: int) {
    forall i | 0 <= i < |events| && events[i].Close? :: !Carried(events[..i], events[i].socket, pid)
  }

  lemma CarriedGrows(events: seq<Event>, e: Event, socket: Socket, pid: int)
    ensures Carried(events, socket, pid) ==> Carried(events + [e], socket, pid)
    ensures e.Incoming? && e.socket == socket && OfPhone(e.raw, pid) ==> Carried(events + [e], socket, pid)
  {
    hide OfPhone;
    var more := events + [e];
    assert more[|events|] == e;
    if Carried(events, socket, pid) {
      var i :| 0 <= i < |events| && events[i].Incoming? && events[i].socket == socket && OfPhone(events[i].raw, pid);
      assert more[i] == events[i];
    }
  }

  /** Only a socket that carried the phone's packets registers it. */
  lemma {:induction false} RegisteredWasCarried(events: seq<Event>, socket: Socket, pid: int)
    requires OwnedBy(Run(events), socket, pid)
    ensures Carried(events, socket, pid)
  {
    hide Carried, Protocol.VerifyPacket;
    if events != [] {
      var front, e := events[..|events| - 1], events[|events| - 1];
      assert events == front + [e];
      CarriedGrows(front, e, socket, pid);
      OwnerBefore(front, e, socket, pid);
      if OwnedBy(Run(front), socket, pid) {
        RegisteredWasCarried(front, socket, pid);
      }
    }
  }

  lemma OwnerBefore(front: seq<Event>, e: Event, socket: Socket, pid: int)
    requires OwnedBy(Step(Run(front), e), socket, pid)
    ensures OwnedBy(Run(front), socket, pid) || (e.Incoming? && e.socket == socket && OfPhone(e.raw, pid))
  {
    hide Run, Protocol.VerifyPacket, LogsMatch;
    match e {
      case Incoming(s, raw, now) =>
        hide Receive;
        ConnectionsAccounted(front);
        var added := ReceiveEffect(Run(front), s, raw, now);
      case Close(_) =>
      case Read(_) =>
    }
  }

  ghost predicate Numbered(packets: seq<Packet>) {
    forall k | 0 <= k < |packets| ::
      Protocol.VerifyPacket(packets[k]).Ok? && Protocol.VerifyPacket(packets[k]).value.sequence == k
  }

  /** The inputs of a life are the packets in sequence, with reads in between. */
  ghost predicate LivesOn(life: Life, packets: seq<Packet>) {
    && (life.Absent? <==> packets == [])
    && (life.Live? ==> PC.Arrived(life.inputs) == packets && PC.InSequence(life.inputs))
  }

  lemma PacketLivesOn(w: World, life: Life, packets: seq<Packet>, socket: Socket, raw: Packet, now: real, pid: int)
    requires LivesOn(life, packets)
    requires OfPhone(raw, pid) ==> Protocol.VerifyPacket(raw).value.sequence == |packets|
    ensures LivesOn(LifeAfter(w, life, Incoming(socket, raw, now), pid),
                    if OfPhone(raw, pid) then packets + [raw] else packets)
  {
    hide Protocol.VerifyPacket, PC.InSequence, PC.Arrived;
    NothingArrived();
    if OfPhone(raw, pid) {
      OneMoreArrival(if life.Live? then life.inputs else [], |packets|, raw, now);
    }
  }

  lemma NothingArrived()
    ensures PC.Arrived([]) == [] && PC.InSequence([])
  {
  }

  lemma ReadLivesOn(w: World, life: Life, packets: seq<Packet>, phoneId: int, pid: int)
    requires LivesOn(life, packets)
    ensures LivesOn(LifeAfter(w, life, Read(phoneId), pid), packets)
  {
    hide PC.InSequence, PC.Arrived;
    if life.Live? {
      OneMoreRead(life.inputs);
    }
  }

  lemma NumberedBefore(packets: seq<Packet>, raw: Packet)
    requires Numbered(packets + [raw])
    ensures Numbered(packets)
    ensures Protocol.VerifyPacket(raw).Ok? && Protocol.VerifyPacket(raw).value.sequence == |packets|
  {
    hide Protocol.VerifyPacket;
    var more := packets + [raw];
    assert more[|packets|] == raw;
    forall k | 0 <= k < |packets|
      ensures Protocol.VerifyPacket(packets[k]).Ok? && Protocol.VerifyPacket(packets[k]).value.sequence == k
    {
      assert more[k] == packets[k];
    }
  }

  lemma StaysOpenBefore(front: seq<Event>, more: seq<Event>, pid: int)
    requires StaysOpen(front + more, pid)
    ensures StaysOpen(front, pid)
    ensures |more| == 1 && more[0].Close? ==> !Carried(front, more[0].socket, pid)
  {
    hide Carried;
    var all := front + more;
    forall i | 0 <= i < |front| && front[i].Close? ensures !Carried(front[..i], front[i].socket, pid) {
      assert all[..i] == front[..i] && all[i] == front[i];
    }
    if |more| == 1 && more[0].Close? {
      assert all[..|front|] == front && all[|front|] == more[0];
    }
  }

  lemma StillRegistered(front: seq<Event>, e: Event, pid: int)
    requires StaysOpen(front + [e], pid) && e.Close?
    ensures !Removes(Run(front), e.socket, pid)
  {
    hide Run, Carried, StaysOpen;
    StaysOpenBefore(front, [e], pid);
    if Removes(Run(front), e.socket, pid) {
      RegisteredWasCarried(front, e.socket, pid);
    }
  }

  /** With its sockets open and its packets numbered, a phone's life is its packets in sequence. */
  lemma {:induction false} LifeInSequence(events: seq<Event>, pid: int)
    requires StaysOpen(events, pid) && Numbered(PacketsOf(events, pid))
    ensures LivesOn(LifeOf(events, pid), PacketsOf(events, pid))
  {
    hide Run, Protocol.VerifyPacket, LivesOn, Numbered, StaysOpen, Removes, OfPhone;
    if events == [] {
      NotYetAlive();
    } else {
      var front, e := events[..|events| - 1], events[|events| - 1];
      var packets := PacketsOf(front, pid);
      assert events == front + [e];
      StaysOpenBefore(front, [e], pid);
      assert packets + [] == packets;
      if e.Incoming? && OfPhone(e.raw, pid) {
        NumberedBefore(packets, e.raw);
      }
      LifeInSequence(front, pid);
      match e {
        case Incoming(socket, raw, now) =>
          PacketLivesOn(Run(front), LifeOf(front, pid), packets, socket, raw, now, pid);
        case Close(_) => StillRegistered(front, e, pid);
        case Read(phoneId) => ReadLivesOn(Run(front), LifeOf(front, pid), packets, phoneId, pid);
      }
    }
  }

  lemma NotYetAlive()
    ensures LivesOn(Absent, [])
  {
  }

  lemma OneMoreArrival(inputs: seq<PC.Input>, sequence: int, raw: Packet, now: real)
    requires PC.InSequence(inputs) && sequence == |PC.Arrived(inputs)|
    ensures PC.InSequence(inputs + [PC.Arrival(sequence, raw, now)])
    ensures PC.Arrived(inputs + [PC.Arrival(sequence, raw, now)]) == PC.Arrived(inputs) + [raw]
  {
    hide PC.Arrived;
    var more := inputs + [PC.Arrival(sequence, raw, now)];
    ArrivedMore(inputs, PC.Arrival(sequence, raw, now));
    assert more[..|inputs|] == inputs;
    forall k | 0 <= k < |inputs| ensures more[..k] == inputs[..k] {}
  }

  lemma OneMoreRead(inputs: seq<PC.Input>)
    requires PC.InSequence(inputs)
    ensures PC.InSequence(inputs + [PC.Consume]) && PC.Arrived(inputs + [PC.Consume]) == PC.Arrived(inputs)
  {
    hide PC.Arrived;
    var more := inputs + [PC.Consume];
    ArrivedMore(inputs, PC.Consume);
    forall k | 0 <= k < |inputs| ensures more[..k] == inputs[..k] {}
  }

  lemma ArrivedMore(inputs: seq<PC.Input>, input: PC.Input)
    ensures PC.Arrived(inputs + [input]) == PC.Arrived(inputs) + (if input.Arrival? then [input.raw] else [])
  {
    assert (inputs + [input])[..|inputs|] == inputs;
  }

  /** The times noted for a phone are those of its packets. */
  lemma {:induction false} TimesNoted(events: seq<Event>, pid: int)
    requires StaysOpen(events, pid)
    ensures pid in Run(events).logs ==> Run(events).logs[pid].arrivals == TimesOf(events, pid)
    ensures pid !in Run(events).logs ==> TimesOf(events, pid) == []
  {
    hide Receive, PC.Arrive, Protocol.VerifyPacket, StaysOpen;
    if events != [] {
      var front, e := events[..|events| - 1], events[|events| - 1];
      assert events == front + [e];
      StaysOpenBefore(front, [e], pid);
      TimesNoted(front, pid);
      match e {
        case Incoming(socket, raw, now) => RecordsAfterPacket(Run(front), socket, raw, now);
        case Close(_) => StillRegistered(front, e, pid);
        case Read(_) =>
      }
    }
  }

  /**
   In any run with a clock that does not go back, a phone whose verified packets arrive numbered
   from 0, never more than 400 in two seconds, and whose sockets stay open, has all of them
   accepted: none is counted missing, and those not yet removed are the queue.
   */
  lemma InOrderAllAccepted(events: seq<Event>, pid: int)
    requires ClockRuns(events) && StaysOpen(events, pid)
    requires PacketsOf(events, pid) != [] && Numbered(PacketsOf(events, pid))
    requires PC.UnderLimit(TimesOf(events, pid))
    ensures pid in Run(events).logs && pid in Run(events).server.conns
    ensures
      var l := Run(events).logs[pid];
      && l.accepted == PacketsOf(events, pid) == l.removed + Run(events).server.conns[pid].queue
      && Run(events).server.conns[pid].droppedFrames == 0
  {
    hide Run, Protocol.VerifyPacket, PC.Replay, PC.InSequence, PC.UnderLimit, PC.Ordered, Numbered;
    hide StaysOpen, PC.Arrived;
    ConnectionIsReplay(events, pid);
    LifeInSequence(events, pid);
    ConnectionsAccounted(events);
    ArrivalsTimed(events);
    TimesNoted(events, pid);
    var life := LifeOf(events, pid);
    var l := Run(events).logs[pid];
    assert Timed(events, l) && LogInv(pid, l);
    PC.InSequenceAllAccepted(pid, life.sampleRateHz, life.inputs);
  }
}
