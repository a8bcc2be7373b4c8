/**
 The DSP loop's per-phone buffers: feeding, clipping, draining packet queues, taking
 one window across all registered phones, and dropping a phone. Localisation and
 beamforming enter only through a given function of the channels.
 */
module DspLoop {
  import opened Counting
  import opened Options
  import Protocol
  import PC = PhoneConnection

  type Sample = real

  type Signal = seq<Sample>

  const FRAME_SAMPLES: nat := 960

  /** `s[-n:]` of the array library: the last n elements, everything when n is 0 or too large. */
  function LastOf(s: Signal, n: nat): Signal {
    if n == 0 || n >= |s| then s else s[|s| - n..]
  }

  /** `s[n:]` */
  function SkipOf(s: Signal, n: nat): Signal {
    if n >= |s| then [] else s[n..]
  }

  // ----- The loop as a value -----

  datatype Loop = Loop(
    ids: seq<int>,
    buffers: map<int, Signal>,
    sampleRateHz: nat,
    need: nat,
    framesProcessed: nat,
    windowsEmitted: nat)

  function Buffer(l: Loop, pid: int): Signal {
    if pid in l.buffers then l.buffers[pid] else []
  }

  function Clipped(s: Signal, max: nat): Signal {
    if |s| > max then LastOf(s, max) else s
  }

  function Fed(l: Loop, pid: int, samples: Signal): Loop {
    l.(buffers := l.buffers[pid := Clipped(Buffer(l, pid) + samples, l.sampleRateHz)])
  }

  function Enrolled(ids: seq<int>, pid: int): seq<int> {
    if pid in ids then ids else ids + [pid]
  }

  function Without(ids: seq<int>, pid: int): seq<int> {
    if ids == [] then [] else (if ids[0] == pid then [] else [ids[0]]) + Without(ids[1..], pid)
  }

  function Dropped(l: Loop, pid: int): Loop {
    l.(ids := Without(l.ids, pid), buffers := l.buffers - {pid})
  }

  predicate Ready(l: Loop) {
    forall i | 0 <= i < |l.ids| :: |Buffer(l, l.ids[i])| >= l.need
  }

  /** The newest window of every registered phone, in registration order. */
  function Channels(l: Loop): (chs: seq<Signal>)
    ensures |chs| == |l.ids|
  {
    seq(|l.ids|, i requires 0 <= i < |l.ids| => LastOf(Buffer(l, l.ids[i]), l.need))
  }

  function Cropped(ids: seq<int>, buffers: map<int, Signal>, need: nat): map<int, Signal> {
    map pid | pid in buffers :: if pid in ids then SkipOf(buffers[pid], need) else buffers[pid]
  }

  lemma CroppedNone(buffers: map<int, Signal>, need: nat)
    ensures Cropped([], buffers, need) == buffers
  {
  }

  lemma CroppedNext(ids: seq<int>, i: nat, buffers: map<int, Signal>, need: nat)
    requires i < |ids| && ids[i] in buffers && ids[i] !in ids[..i]
    ensures
      var before := Cropped(ids[..i], buffers, need);
      Cropped(ids[..i + 1], buffers, need) == before[ids[i] := SkipOf(before[ids[i]], need)]
  {
  }

  /** Each registered phone's buffer loses its oldest window. */
  function Advanced(l: Loop): Loop {
    l.(buffers := Cropped(l.ids, l.buffers, l.need))
  }

  datatype StepResult =
    | NotReady
    | Raised
    | Frame(channels: seq<Signal>, beamformed: Signal)

  /**
   One iteration: counters, window, beamformer. With the window already taken, it raises when no
   phone is registered (there is no shortest channel) or the sample rate is zero (the offset gauge
   divides by it).
   */
  function Stepped(l: Loop, beam: seq<Signal> -> Signal): (Loop, StepResult) {
    var m := l.(framesProcessed := l.framesProcessed + 1);
    if !Ready(l) then (m, NotReady)
    else if l.ids == [] || l.sampleRateHz == 0 then (Advanced(m), Raised)
    else
      var chs := Channels(l);
      (Advanced(m).(windowsEmitted := m.windowsEmitted + 1), Frame(chs, beam(chs)))
  }

  lemma CounterAside(l: Loop, m: Loop)
    requires m == l.(framesProcessed := m.framesProcessed)
    ensures Ready(m) == Ready(l) && Channels(m) == Channels(l)
  {
  }

  // ----- Draining packet queues -----

  /** How many packets one visit takes from a queue. */
  function Visited(queue: seq<PC.Packet>, max: nat): (n: nat)
    ensures n <= |queue|
  {
    if |queue| < max then |queue| else max
  }

  /** Decoded packets are fed in order; ones that do not verify are skipped. */
  function FedPackets(l: Loop, pid: int, packets: seq<PC.Packet>): Loop {
    if packets == [] then l
    else
      var before := FedPackets(l, pid, packets[..|packets| - 1]);
      var samples := Protocol.PacketToSamples(packets[|packets| - 1]);
      if samples.Ok? then Fed(before, pid, samples.value) else before
  }

  function CountDecoded(packets: seq<PC.Packet>): nat {
    if packets == [] then 0
    else CountDecoded(packets[..|packets| - 1])
         + (if Protocol.PacketToSamples(packets[|packets| - 1]).Ok? then 1 else 0)
  }

  /** The count is the number of packets that verify. */
  lemma {:induction false} CountedAreVerified(packets: seq<PC.Packet>)
    ensures CountDecoded(packets) == |set i: int | 0 <= i < |packets| && Protocol.VerifyPacket(packets[i]).Ok?|
  {
    hide Protocol.PacketToSamples, Protocol.VerifyPacket;
    var now := set i: int | 0 <= i < |packets| && Protocol.VerifyPacket(packets[i]).Ok?;
    if packets == [] {
      assert now == {};
    } else {
      var n := |packets| - 1;
      var front := packets[..n];
      CountedAreVerified(front);
      var before := set i: int | 0 <= i < |front| && Protocol.VerifyPacket(front[i]).Ok?;
      assert now == before + (if Protocol.VerifyPacket(packets[n]).Ok? then {n} else {});
    }
  }

  lemma FedNone(l: Loop, pid: int)
    ensures FedPackets(l, pid, []) == l && CountDecoded([]) == 0
  {
  }

  lemma FedNext(l: Loop, pid: int, queue: seq<PC.Packet>, i: nat)
    requires i < |queue|
    ensures
      var before := FedPackets(l, pid, queue[..i]);
      var samples := Protocol.PacketToSamples(queue[i]);
      && FedPackets(l, pid, queue[..i + 1]) == (if samples.Ok? then Fed(before, pid, samples.value) else before)
      && CountDecoded(queue[..i + 1]) == CountDecoded(queue[..i]) + (if samples.Ok? then 1 else 0)
  {
    hide Fed, Protocol.PacketToSamples;
    assert queue[..i + 1][..i] == queue[..i];
  }

  /** One packet queue and the phone it belongs to. */
  datatype Source = Source(phoneId: int, queue: seq<PC.Packet>)

  /** The buffers after visiting each queue once; a phone the aligner does not know is skipped. */
  function Popped(l: Loop, sources: seq<Source>, max: nat): Loop {
    if sources == [] then l
    else
      var before := Popped(l, sources[..|sources| - 1], max);
      var s := sources[|sources| - 1];
      if s.phoneId in l.ids then FedPackets(before, s.phoneId, s.queue[..Visited(s.queue, max)]) else before
  }

  function PoppedCount(ids: seq<int>, sources: seq<Source>, max: nat): nat {
    if sources == [] then 0
    else
      var s := sources[|sources| - 1];
      PoppedCount(ids, sources[..|sources| - 1], max)
      + (if s.phoneId in ids then CountDecoded(s.queue[..Visited(s.queue, max)]) else 0)
  }

  lemma {:induction false} FedPacketsElsewhere(l: Loop, pid: int, packets: seq<PC.Packet>, q: int)
    requires q != pid
    ensures Buffer(FedPackets(l, pid, packets), q) == Buffer(l, q) && FedPackets(l, pid, packets).ids == l.ids
  {
    hide Protocol.PacketToSamples, Clipped;
    if packets != [] {
      FedPacketsElsewhere(l, pid, packets[..|packets| - 1], q);
    }
  }

  /** Draining never touches the buffer of a phone the aligner does not know. */
  lemma {:induction false} UnknownUntouched(l: Loop, sources: seq<Source>, max: nat, q: int)
    requires q !in l.ids
    ensures Buffer(Popped(l, sources, max), q) == Buffer(l, q) && Popped(l, sources, max).ids == l.ids
  {
    hide FedPackets, Visited, Buffer;
    if sources != [] {
      var n := |sources| - 1;
      UnknownUntouched(l, sources[..n], max, q);
      if sources[n].phoneId in l.ids {
        var s := sources[n];
        FedPacketsElsewhere(Popped(l, sources[..n], max), s.phoneId, s.queue[..Visited(s.queue, max)], q);
      }
    }
  }

  lemma PoppedNone(l: Loop, max: nat)
    ensures Popped(l, [], max) == l && PoppedCount(l.ids, [], max) == 0
  {
  }

  lemma PoppedNext(l: Loop, sources: seq<Source>, i: nat, max: nat)
    requires i < |sources|
    ensures
      var before := Popped(l, sources[..i], max);
      var s := sources[i];
      var taken := s.queue[..Visited(s.queue, max)];
      && Popped(l, sources[..i + 1], max)
         == (if s.phoneId in l.ids then FedPackets(before, s.phoneId, taken) else before)
      && PoppedCount(l.ids, sources[..i + 1], max)
         == PoppedCount(l.ids, sources[..i], max) + (if s.phoneId in l.ids then CountDecoded(taken) else 0)
  {
    hide Visited;
    assert sources[..i + 1][..i] == sources[..i];
  }

  // ----- The objects -----

  /** Registration order and the master of the stream aligner. */
  class StreamAligner {
    var ids: seq<int>
    var masterId: Option<int>

    ghost predicate Valid()
      reads this
    {
      Distinct(ids)
    }

    constructor (masterId: Option<int>)
      ensures Valid() && ids == [] && this.masterId == masterId
    {
      ids, this.masterId := [], masterId;
    }

    method Register(phoneId: int)
      requires Valid()
      modifies this
      ensures Valid()
      ensures ids == Enrolled(old(ids), phoneId)
      ensures masterId == if old(masterId) == None && phoneId !in old(ids) then Some(phoneId) else old(masterId)
    {
      if phoneId !in ids {
        ids := ids + [phoneId];
        if masterId == None {
          masterId := Some(phoneId);
        }
      }
    }

    method Unregister(phoneId: int) returns (was: bool)
      requires Valid()
      modifies this`ids
      ensures Valid() && was == (phoneId in old(ids)) && ids == Without(old(ids), phoneId)
      ensures !was ==> ids == old(ids)
      ensures forall k | 0 <= k < |old(ids)| && old(ids)[k] == phoneId :: ids == old(ids)[..k] + old(ids)[k + 1..]
    {
      was := phoneId in ids;
      WithoutKeepsOrder(ids, phoneId);
      WithoutMembers(ids, phoneId);
      ids := Without(ids, phoneId);
    }
  }

  lemma {:induction false} WithoutMembers(ids: seq<int>, pid: int)
    requires Distinct(ids)
    ensures forall x :: x in Without(ids, pid) <==> x in ids && x != pid
    ensures Distinct(Without(ids, pid))
  {
    if ids != [] {
      WithoutMembers(ids[1..], pid);
      var rest := Without(ids[1..], pid);
      assert ids == [ids[0]] + ids[1..];
      assert forall i | 0 <= i < |rest| :: rest[i] in rest;
    }
  }

  /** The others stay in order: the place of the phone that leaves is closed up. */
  lemma {:induction false} WithoutKeepsOrder(ids: seq<int>, pid: int)
    requires Distinct(ids)
    ensures pid !in ids ==> Without(ids, pid) == ids
    ensures forall k | 0 <= k < |ids| && ids[k] == pid :: Without(ids, pid) == ids[..k] + ids[k + 1..]
  {
    if ids != [] {
      var rest := ids[1..];
      WithoutKeepsOrder(rest, pid);
      assert ids == [ids[0]] + rest;
      forall k | 0 <= k < |ids| && ids[k] == pid ensures Without(ids, pid) == ids[..k] + ids[k + 1..] {
        if k > 0 {
          assert rest[k - 1] == pid && rest[..k - 1] == ids[1..k] && rest[k..] == ids[k + 1..];
          assert ids[..k] == [ids[0]] + ids[1..k];
        }
      }
    }
  }

  class DspLoop {
    const aligner: StreamAligner
    const sampleRateHz: nat
    const windowFrames: nat
    var buffers: map<int, Signal>
    var framesProcessed: nat
    var windowsEmitted: nat

    function View(): Loop
      reads this, aligner
    {
      Loop(aligner.ids, buffers, sampleRateHz, FRAME_SAMPLES * windowFrames, framesProcessed, windowsEmitted)
    }

    ghost predicate Valid()
      reads this, aligner
    {
      aligner.Valid()
    }

    constructor (aligner: StreamAligner, sampleRateHz: nat, windowFrames: nat)
      requires aligner.Valid() && windowFrames > 0
      ensures Valid() && this.aligner == aligner
      ensures View() == Loop(aligner.ids, map[], sampleRateHz, FRAME_SAMPLES * windowFrames, 0, 0)
    {
      this.aligner, this.sampleRateHz, this.windowFrames := aligner, sampleRateHz, windowFrames;
      buffers, framesProcessed, windowsEmitted := map[], 0, 0;
    }

    method BufferPcm(phoneId: int, samples: Signal)
      requires Valid()
      modifies this`buffers
      ensures Valid() && View() == Fed(old(View()), phoneId, samples)
    {
      if phoneId !in buffers {
        buffers := buffers[phoneId := samples];
        assert [] + samples == samples;
      } else {
        buffers := buffers[phoneId := buffers[phoneId] + samples];
      }
      if |buffers[phoneId]| > sampleRateHz {
        buffers := buffers[phoneId := LastOf(buffers[phoneId], sampleRateHz)];
      }
    }

    method DropPhone(phoneId: int)
      requires Valid()
      modifies this`buffers, aligner`ids
      ensures Valid() && View() == Dropped(old(View()), phoneId)
    {
      buffers := buffers - {phoneId};
      var was := aligner.Unregister(phoneId);
    }

    method IsReady() returns (ready: bool)
      requires Valid()
      ensures ready == Ready(View())
    {
      for i := 0 to |aligner.ids|
        invariant forall k | 0 <= k < i :: |Buffer(View(), aligner.ids[k])| >= FRAME_SAMPLES * windowFrames
      {
        var size := if aligner.ids[i] in buffers then |buffers[aligner.ids[i]]| else 0;
        if size < FRAME_SAMPLES * windowFrames {
          return false;
        }
      }
      ready := true;
    }

    method AlignedWindow() returns (ok: bool, channels: seq<Signal>)
      requires Valid() && windowFrames > 0
      modifies this`buffers
      ensures Valid() && ok == Ready(old(View()))
      ensures ok ==> channels == Channels(old(View())) && View() == Advanced(old(View()))
      ensures !ok ==> channels == [] && View() == old(View())
    {
      var need := FRAME_SAMPLES * windowFrames;
      channels := [];
      ok := IsReady();
      if !ok {
        return;
      }
      for i := 0 to |aligner.ids|
        invariant channels == Channels(View())[..i]
      {
        channels := channels + [LastOf(buffers[aligner.ids[i]], need)];
      }
      CropAll();
    }

    /** Drops the oldest window of every registered phone. */
    method CropAll()
      requires Valid() && windowFrames > 0 && Ready(View())
      modifies this`buffers
      ensures Valid() && View() == Advanced(old(View()))
    {
      hide SkipOf;
      var need := FRAME_SAMPLES * windowFrames;
      ghost var before := buffers;
      CroppedNone(before, need);
      for i := 0 to |aligner.ids|
        invariant buffers == Cropped(aligner.ids[..i], before, need)
      {
        var pid := aligner.ids[i];
        assert |Buffer(old(View()), pid)| >= need;
        CroppedNext(aligner.ids, i, before, need);
        buffers := buffers[pid := SkipOf(buffers[pid], need)];
      }
      assert aligner.ids[..|aligner.ids|] == aligner.ids;
    }

    method Step(beam: seq<Signal> -> Signal) returns (result: StepResult)
      requires Valid() && windowFrames > 0
      modifies this`buffers, this`framesProcessed, this`windowsEmitted
      ensures Valid() && (View(), result) == Stepped(old(View()), beam)
    {
      framesProcessed := framesProcessed + 1;
      CounterAside(old(View()), View());
      var ok, channels := AlignedWindow();
      if !ok {
        return NotReady;
      }
      if |channels| == 0 || sampleRateHz == 0 {
        return Raised;
      }
      windowsEmitted := windowsEmitted + 1;
      result := Frame(channels, beam(channels));
    }

    /** Takes up to `max` packets from one connection's queue into the phone's buffer. */
    method DrainQueue(conn: PC.Connection, max: nat) returns (n: nat)
      requires Valid()
      modifies this`buffers, conn`queue
      ensures Valid()
      ensures
        var k := Visited(old(conn.queue), max);
        && conn.queue == old(conn.queue)[k..]
        && View() == FedPackets(old(View()), conn.phoneId, old(conn.queue)[..k])
        && n == CountDecoded(old(conn.queue)[..k])
      ensures |conn.queue| == if |old(conn.queue)| > max then |old(conn.queue)| - max else 0
    {
      hide Fed, Protocol.PacketToSamples, FedPackets, CountDecoded;
      n := 0;
      ghost var queue := conn.queue;
      FedNone(old(View()), conn.phoneId);
      var i := 0;
      while i < max && |conn.queue| > 0
        invariant 0 <= i <= max && i <= |queue| && conn.queue == queue[i..]
        invariant View() == FedPackets(old(View()), conn.phoneId, queue[..i])
        invariant n == CountDecoded(queue[..i])
      {
        var raw := conn.queue[0];
        var got := conn.GetNoWait();
        FedNext(old(View()), conn.phoneId, queue, i);
        var samples := Protocol.PacketToSamples(raw);
        if samples.Ok? {
          BufferPcm(conn.phoneId, samples.value);
          n := n + 1;
        }
        i := i + 1;
      }
    }

    /** Visits every queue in turn; phones the aligner does not know are skipped. */
    method PopFromQueues(conns: seq<PC.Connection>, max: nat) returns (n: nat)
      requires Valid()
      requires forall i, j | 0 <= i < j < |conns| :: conns[i] != conns[j]
      modifies this`buffers, conns`queue
      ensures Valid()
      ensures View() == Popped(old(View()), old(Sources(conns)), max)
      ensures n == PoppedCount(old(View().ids), old(Sources(conns)), max)
      ensures forall i | 0 <= i < |conns| ::
        conns[i].queue == if conns[i].phoneId in aligner.ids
                          then old(conns[i].queue)[Visited(old(conns[i].queue), max)..] else old(conns[i].queue)
    {
      hide FedPackets, CountDecoded, Popped, PoppedCount, Visited;
      PoppedNone(old(View()), max);
      n := 0;
      ghost var sources := Sources(conns);
      for i := 0 to |conns|
        invariant View() == Popped(old(View()), sources[..i], max)
        invariant n == PoppedCount(old(View().ids), sources[..i], max)
        invariant forall j | 0 <= j < i ::
          conns[j].queue == if conns[j].phoneId in aligner.ids
                            then sources[j].queue[Visited(sources[j].queue, max)..] else sources[j].queue
        invariant forall j | i <= j < |conns| :: conns[j].queue == sources[j].queue
      {
        PoppedNext(old(View()), sources, i, max);
        if conns[i].phoneId in aligner.ids {
          var k := DrainQueue(conns[i], max);
          n := n + k;
        }
      }
      assert sources[..|conns|] == sources;
    }
  }

  function Sources(conns: seq<PC.Connection>): (s: seq<Source>)
    reads conns
    ensures |s| == |conns|
  {
    seq(|conns|, i requires 0 <= i < |conns| reads conns => Source(conns[i].phoneId, conns[i].queue))
  }
}
