/**
 One phone's connection on the laptop: a sliding-window rate limiter, a monotonic
 sequence with gap accounting, and a bounded queue that sheds its oldest packet.
 */
module PhoneConnection {
  import opened Bytes
  import opened Counting

  const RATE_WINDOW: real := 2.0
  const RATE_MAX_PACKETS: nat := 400
  const QUEUE_SIZE: nat := 64

  type Packet = seq<byte>

  // ----- One connection as a value -----

  datatype Conn = Conn(
    phoneId: int,
    sampleRateHz: int,
    queue: seq<Packet>,
    packetTimes: seq<real>,
    sequence: int,
    droppedFrames: int)

  function NewConn(phoneId: int, sampleRateHz: int): Conn {
    Conn(phoneId, sampleRateHz, [], [], -1, 0)
  }

  function DropOld(times: seq<real>, now: real): seq<real> {
    if times != [] && now - times[0] > RATE_WINDOW then DropOld(times[1..], now) else times
  }

  function Noted(times: seq<real>, now: real): seq<real> {
    DropOld(times + [now], now)
  }

  function Enqueued(queue: seq<Packet>, raw: Packet): seq<Packet> {
    if |queue| < QUEUE_SIZE then queue + [raw] else queue[1..] + [raw]
  }

  datatype Verdict = RateLimited | Duplicate | Accepted(gap: nat)

  /** What a verified packet with this sequence number does to its connection. */
  function Arrive(c: Conn, sequence: int, raw: Packet, now: real): (Conn, Verdict) {
    var noted := c.(packetTimes := Noted(c.packetTimes, now));
    if |noted.packetTimes| > RATE_MAX_PACKETS then (noted, RateLimited)
    else if sequence <= c.sequence then (noted, Duplicate)
    else
      var gap := sequence - c.sequence - 1;
      (noted.(droppedFrames := c.droppedFrames + gap, sequence := sequence, queue := Enqueued(c.queue, raw)),
       Accepted(gap))
  }

  // ----- The object -----

  class Connection {
    const phoneId: int
    const sampleRateHz: int
    var queue: seq<Packet>
    var packetTimes: seq<real>
    var sequence: int
    var droppedFrames: int

    function View(): Conn
      reads this
    {
      Conn(phoneId, sampleRateHz, queue, packetTimes, sequence, droppedFrames)
    }

    constructor (phoneId: int, sampleRateHz: int)
      ensures View() == NewConn(phoneId, sampleRateHz)
    {
      this.phoneId, this.sampleRateHz := phoneId, sampleRateHz;
      queue, packetTimes, sequence, droppedFrames := [], [], -1, 0;
    }

    method NotePacket(now: real)
      modifies this`packetTimes
      ensures packetTimes == Noted(old(packetTimes), now)
    {
      packetTimes := packetTimes + [now];
      while packetTimes != [] && now - packetTimes[0] > RATE_WINDOW
        invariant DropOld(packetTimes, now) == Noted(old(packetTimes), now)
        decreases |packetTimes|
      {
        packetTimes := packetTimes[1..];
      }
    }

    method OverRateLimit() returns (over: bool)
      ensures over == (|packetTimes| > RATE_MAX_PACKETS)
    {
      over := |packetTimes| > RATE_MAX_PACKETS;
    }

    /** Refused when full. */
    method PutNoWait(raw: Packet) returns (ok: bool)
      modifies this`queue
      ensures ok == (|old(queue)| < QUEUE_SIZE)
      ensures queue == if ok then old(queue) + [raw] else old(queue)
    {
      ok := |queue| < QUEUE_SIZE;
      if ok {
        queue := queue + [raw];
      }
    }

    method GetNoWait() returns (ok: bool)
      modifies this`queue
      ensures ok == (|old(queue)| > 0)
      ensures queue == if ok then old(queue)[1..] else old(queue)
    {
      ok := |queue| > 0;
      if ok {
        queue := queue[1..];
      }
    }

    /** Puts the packet last, dropping the oldest one to make room. */
    method PutNewest(raw: Packet)
      requires |queue| <= QUEUE_SIZE
      modifies this`queue
      ensures queue == Enqueued(old(queue), raw)
    {
      var ok := PutNoWait(raw);
      if !ok {
        var removed := GetNoWait();
        ok := PutNoWait(raw);
      }
    }
  }

  // ----- Histories -----

  /** What happens to a connection: a verified packet arrives, or a consumer takes the oldest one. */
  datatype Input = Arrival(sequence: int, raw: Packet, now: real) | Consume

  /** A connection with the record of everything that happened to it. */
  datatype Logged = Logged(
    conn: Conn,
    arrivals: seq<real>,
    accepted: seq<Packet>,
    sequences: seq<int>,
    removed: seq<Packet>)

  function Apply(l: Logged, i: Input): Logged {
    match i
    case Consume =>
      if |l.conn.queue| == 0 then l
      else l.(conn := l.conn.(queue := l.conn.queue[1..]), removed := l.removed + [l.conn.queue[0]])
    case Arrival(sequence, raw, now) =>
      var (after, verdict) := Arrive(l.conn, sequence, raw, now);
      var noted := l.(conn := after, arrivals := l.arrivals + [now]);
      if !verdict.Accepted? then noted
      else
        noted.(
        accepted := l.accepted + [raw],
        sequences := l.sequences + [sequence],
        removed := if |l.conn.queue| < QUEUE_SIZE then l.removed else l.removed + [l.conn.queue[0]])
  }

  function Opened(phoneId: int, sampleRateHz: int): Logged {
    Logged(NewConn(phoneId, sampleRateHz), [], [], [], [])
  }

  function Replay(phoneId: int, sampleRateHz: int, inputs: seq<Input>): Logged {
    if inputs == [] then Opened(phoneId, sampleRateHz)
    else Apply(Replay(phoneId, sampleRateHz, inputs[..|inputs| - 1]), inputs[|inputs| - 1])
  }

  // ----- Loss accounting, queue and order -----

  ghost predicate Inv(l: Logged) {
    && l.conn.sequence + 1 == l.conn.droppedFrames + |l.accepted|
    && l.conn.droppedFrames >= 0
    && l.accepted == l.removed + l.conn.queue
    && |l.conn.queue| <= 64
    && |l.sequences| == |l.accepted|
    && (forall i, j | 0 <= i < j < |l.sequences| :: l.sequences[i] < l.sequences[j])
    && (forall i | 0 <= i < |l.sequences| :: l.sequences[i] <= l.conn.sequence)
    && (|l.sequences| > 0 ==> l.sequences[|l.sequences| - 1] == l.conn.sequence)
  }

  lemma ApplyKeepsInv(l: Logged, i: Input)
    requires Inv(l)
    ensures Inv(Apply(l, i))
  {
    hide Noted;
    match i {
      case Consume =>
        if |l.conn.queue| > 0 {
          assert l.conn.queue == [l.conn.queue[0]] + l.conn.queue[1..];
        }
      case Arrival(sequence, raw, now) =>
        if Arrive(l.conn, sequence, raw, now).1.Accepted? {
          AcceptKeepsInv(l, sequence, raw, now);
        }
    }
  }

  lemma AcceptKeepsInv(l: Logged, sequence: int, raw: Packet, now: real)
    requires Inv(l) && Arrive(l.conn, sequence, raw, now).1.Accepted?
    ensures Inv(Apply(l, Arrival(sequence, raw, now)))
  {
    hide Noted;
    var m := Apply(l, Arrival(sequence, raw, now));
    if |l.conn.queue| == QUEUE_SIZE {
      assert l.conn.queue == [l.conn.queue[0]] + l.conn.queue[1..];
    }
    assert m.accepted == m.removed + m.conn.queue;
  }

  /**
   In every state of every connection: sequence + 1 = dropped + accepted; everything
   removed, then the queue, is the accepted packets in order; at most 64 are queued;
   and accepted sequence numbers strictly increase.
   */
  lemma {:induction false} ConnectionAccounting(phoneId: int, sampleRateHz: int, inputs: seq<Input>)
    ensures Inv(Replay(phoneId, sampleRateHz, inputs))
  {
    hide Inv;
    if inputs == [] {
      OpenedInv(phoneId, sampleRateHz);
    } else {
      ConnectionAccounting(phoneId, sampleRateHz, inputs[..|inputs| - 1]);
      ApplyKeepsInv(Replay(phoneId, sampleRateHz, inputs[..|inputs| - 1]), inputs[|inputs| - 1]);
    }
  }

  lemma OpenedInv(phoneId: int, sampleRateHz: int)
    ensures Inv(Opened(phoneId, sampleRateHz))
  {
  }

  // ----- The rate limiter -----

  function NoteAll(times: seq<real>): (noted: seq<real>) {
    if times == [] then [] else Noted(NoteAll(times[..|times| - 1]), times[|times| - 1])
  }

  ghost predicate Ordered(times: seq<real>) {
    forall i, j | 0 <= i < j < |times| :: times[i] <= times[j]
  }

  lemma {:induction false} DropOldIsSuffix(times: seq<real>, now: real)
    requires Ordered(times)
    ensures
      var kept := DropOld(times, now);
      var k := |times| - |kept|;
      0 <= k && kept == times[k..] && forall i | 0 <= i < |times| :: k <= i <==> now - times[i] <= RATE_WINDOW
  {
    if times != [] && now - times[0] > RATE_WINDOW {
      DropOldIsSuffix(times[1..], now);
      var k := |times| - |DropOld(times, now)|;
      forall i | 0 <= i < |times| ensures k <= i <==> now - times[i] <= RATE_WINDOW {
        if i > 0 {
          assert times[i] == times[1..][i - 1];
        }
      }
    }
  }

  /** `kept` is the part of an ordered history that lies within the window before `now`. */
  ghost predicate IsWindow(times: seq<real>, kept: seq<real>, now: real) {
    && |kept| <= |times|
    && kept == times[|times| - |kept|..]
    && forall i | 0 <= i < |times| :: |times| - |kept| <= i <==> now - times[i] <= RATE_WINDOW
  }

  /** The window after a nonempty ordered history: exactly the arrivals no older than two seconds. */
  lemma {:induction false} WindowExact(times: seq<real>)
    requires Ordered(times) && times != []
    ensures IsWindow(times, NoteAll(times), times[|times| - 1])
  {
    var n := |times| - 1;
    if n > 0 {
      WindowExact(times[..n]);
      WindowStep(times[..n], NoteAll(times[..n]), times[n - 1], times[n]);
      assert times[..n] + [times[n]] == times;
    } else {
      assert times == [times[0]];
      WindowStep([], [], times[0], times[0]);
    }
  }

  lemma WindowStep(times: seq<real>, kept: seq<real>, last: real, now: real)
    requires Ordered(times + [now]) && IsWindow(times, kept, last) && last <= now
    ensures IsWindow(times + [now], Noted(kept, now), now)
  {
    hide DropOld;
    var all, longer := times + [now], kept + [now];
    var b := |times| - |kept|;
    assert longer == all[b..];
    forall i, j | 0 <= i < j < |longer| ensures longer[i] <= longer[j] {
      assert longer[i] == all[b + i] && longer[j] == all[b + j];
    }
    DropOldIsSuffix(longer, now);
    var k := |longer| - |DropOld(longer, now)|;
    assert DropOld(longer, now) == all[b + k..];
    forall i | 0 <= i < |all| ensures b + k <= i <==> now - all[i] <= RATE_WINDOW {
      if b <= i {
        assert longer[i - b] == all[i];
      } else {
        assert all[i] == times[i];
      }
    }
  }

  /** Whether the arrival at index `i` got past the limiter. */
  predicate Passed(times: seq<real>, i: nat)
    requires i < |times|
  {
    |NoteAll(times[..i + 1])| <= RATE_MAX_PACKETS
  }

  ghost function PassedIn(times: seq<real>, from: real): set<int> {
    set i: int | 0 <= i < |times| && Passed(times, i) && from <= times[i] <= from + 2.0
  }

  lemma LargestMember(s: set<int>, n: nat) returns (m: int)
    requires s <= Between(0, n) && s != {}
    ensures m in s && forall x | x in s :: x <= m
    decreases n
  {
    BetweenSize(0, n);
    if n - 1 in s {
      m := n - 1;
    } else {
      m := LargestMember(s, n - 1);
    }
  }

  /** No closed two-second interval lets more than 400 packets of a connection through. */
  lemma RateBound(times: seq<real>, from: real)
    requires Ordered(times)
    ensures |PassedIn(times, from)| <= 400
  {
    var s := PassedIn(times, from);
    if s != {} {
      BetweenSize(0, |times|);
      var m := LargestMember(s, |times|);
      var upTo := times[..m + 1];
      WindowExact(upTo);
      var k := |upTo| - |NoteAll(upTo)|;
      BetweenSize(k, m + 1);
      forall i | i in s ensures i in Between(k, m + 1) {
        assert times[i] == upTo[i] && times[m] == upTo[m];
      }
      SubsetSize(s, Between(k, m + 1));
    }
  }

  /** The connection's window is the replay of its arrivals, so the bound applies to what it accepts. */
  lemma {:induction false} WindowIsReplay(phoneId: int, sampleRateHz: int, inputs: seq<Input>)
    ensures
      var l := Replay(phoneId, sampleRateHz, inputs);
      l.conn.packetTimes == NoteAll(l.arrivals)
  {
    hide Noted;
    if inputs != [] {
      WindowIsReplay(phoneId, sampleRateHz, inputs[..|inputs| - 1]);
      var before := Replay(phoneId, sampleRateHz, inputs[..|inputs| - 1]);
      var i := inputs[|inputs| - 1];
      if i.Arrival? {
        assert (before.arrivals + [i.now])[..|before.arrivals|] == before.arrivals;
      }
    }
  }

  lemma NoteOneMore(times: seq<real>, now: real)
    ensures NoteAll(times + [now]) == Noted(NoteAll(times), now)
  {
    assert (times + [now])[..|times|] == times;
  }

  /** Which arrivals are no earlier than `from`. */
  ghost function ArrivalsSince(times: seq<real>, from: real): set<int> {
    set i: int | 0 <= i < |times| && times[i] >= from
  }

  lemma WindowSize(times: seq<real>, now: real)
    requires Ordered(times) && times != [] && now == times[|times| - 1]
    ensures |NoteAll(times)| == |ArrivalsSince(times, now - RATE_WINDOW)|
  {
    hide NoteAll;
    WindowExact(times);
    var k := |times| - |NoteAll(times)|;
    BetweenSize(k, |times|);
    assert ArrivalsSince(times, now - RATE_WINDOW) == Between(k, |times|);
  }

  /** A packet is refused by the limiter exactly when more than 400 arrivals lie in the two seconds up to it. */
  lemma LimiterVerdict(l: Logged, sequence: int, raw: Packet, now: real)
    requires l.conn.packetTimes == NoteAll(l.arrivals) && Ordered(l.arrivals + [now])
    ensures
      var times := l.arrivals + [now];
      Arrive(l.conn, sequence, raw, now).1.RateLimited? <==> |ArrivalsSince(times, now - 2.0)| > 400
  {
    hide NoteAll, Noted;
    NoteOneMore(l.arrivals, now);
    WindowSize(l.arrivals + [now], now);
  }

  /**
   Acceptance, over the history: a packet gets in exactly when at most 400 arrivals lie in the two
   seconds up to it and its sequence number is above every one accepted before. What it skips is
   then counted as missing.
   */
  lemma AcceptedIff(phoneId: int, sampleRateHz: int, inputs: seq<Input>, sequence: int, raw: Packet, now: real)
    requires sequence >= 0 && Ordered(Replay(phoneId, sampleRateHz, inputs).arrivals + [now])
    ensures
      var l := Replay(phoneId, sampleRateHz, inputs);
      var (after, verdict) := Arrive(l.conn, sequence, raw, now);
      && (verdict.Accepted? <==>
            |ArrivalsSince(l.arrivals + [now], now - 2.0)| <= 400 && forall s | s in l.sequences :: s < sequence)
      && (verdict.Accepted? ==>
            && after.sequence == sequence
            && after.droppedFrames == sequence - |l.accepted|
            && after.queue[|after.queue| - 1] == raw)
      && (!verdict.Accepted? ==> after == l.conn.(packetTimes := after.packetTimes))
  {
    hide Noted, NoteAll;
    var l := Replay(phoneId, sampleRateHz, inputs);
    ConnectionAccounting(phoneId, sampleRateHz, inputs);
    WindowIsReplay(phoneId, sampleRateHz, inputs);
    LimiterVerdict(l, sequence, raw, now);
    NeverLess(phoneId, sampleRateHz, inputs);
    assert |l.sequences| > 0 ==> l.sequences[|l.sequences| - 1] in l.sequences;
  }

  /** Nothing accepted yet means the sequence number is still -1. */
  lemma {:induction false} NeverLess(phoneId: int, sampleRateHz: int, inputs: seq<Input>)
    ensures
      var l := Replay(phoneId, sampleRateHz, inputs);
      l.conn.sequence == if l.sequences == [] then -1 else l.sequences[|l.sequences| - 1]
  {
    hide Noted, Enqueued;
    if inputs != [] {
      NeverLess(phoneId, sampleRateHz, inputs[..|inputs| - 1]);
    }
  }

  /** A queue that nobody reads holds the newest 64 accepted packets, or all of them if there are fewer. */
  lemma {:induction false} UnreadQueue(phoneId: int, sampleRateHz: int, inputs: seq<Input>)
    requires forall i | 0 <= i < |inputs| :: inputs[i].Arrival?
    ensures
      var l := Replay(phoneId, sampleRateHz, inputs);
      var n := |l.accepted|;
      l.conn.queue == if n <= 64 then l.accepted else l.accepted[n - 64..]
  {
    hide Noted;
    if inputs != [] {
      UnreadQueue(phoneId, sampleRateHz, inputs[..|inputs| - 1]);
    }
  }

  // ----- A sender that loses nothing -----

  /** The packets that arrived, in order. */
  function Arrived(inputs: seq<Input>): (packets: seq<Packet>) {
    if inputs == [] then []
    else
      var i := inputs[|inputs| - 1];
      Arrived(inputs[..|inputs| - 1]) + (if i.Arrival? then [i.raw] else [])
  }

  /** The arrivals are numbered 0, 1, 2 and so on. */
  ghost predicate InSequence(inputs: seq<Input>) {
    forall k | 0 <= k < |inputs| && inputs[k].Arrival? :: inputs[k].sequence == |Arrived(inputs[..k])|
  }

  /** At no arrival do more than 400 lie in the two seconds up to it. */
  ghost predicate UnderLimit(times: seq<real>) {
    forall k | 0 <= k < |times| :: UnderLimitAt(times, k)
  }

  ghost predicate UnderLimitAt(times: seq<real>, k: nat)
    requires k < |times|
  {
    |ArrivalsSince(times[..k + 1], times[k] - 2.0)| <= 400
  }

  /** A connection whose packets arrive in sequence under the limit accepts all of them. */
  lemma {:induction false} InSequenceAllAccepted(phoneId: int, sampleRateHz: int, inputs: seq<Input>)
    requires InSequence(inputs)
    requires var times := Replay(phoneId, sampleRateHz, inputs).arrivals; Ordered(times) && UnderLimit(times)
    ensures
      var l := Replay(phoneId, sampleRateHz, inputs);
      l.accepted == Arrived(inputs) && l.conn.droppedFrames == 0 && l.conn.sequence + 1 == |Arrived(inputs)|
  {
    hide Arrive, UnderLimit, Ordered;
    if inputs != [] {
      var n := |inputs| - 1;
      var front := inputs[..n];
      var before, after := Replay(phoneId, sampleRateHz, front), Replay(phoneId, sampleRateHz, inputs);
      assert InSequence(front) by {
        forall k | 0 <= k < n && front[k].Arrival? ensures front[k].sequence == |Arrived(front[..k])| {
          assert inputs[..k] == front[..k];
        }
      }
      match inputs[n] {
        case Consume =>
          InSequenceAllAccepted(phoneId, sampleRateHz, front);
        case Arrival(sequence, raw, now) =>
          assert after.arrivals == before.arrivals + [now];
          LimitOfFront(before.arrivals, now);
          InSequenceAllAccepted(phoneId, sampleRateHz, front);
          ConnectionAccounting(phoneId, sampleRateHz, front);
          AcceptedIff(phoneId, sampleRateHz, front, sequence, raw, now);
      }
    }
  }

  lemma LimitOfFront(times: seq<real>, now: real)
    requires Ordered(times + [now]) && UnderLimit(times + [now])
    ensures Ordered(times) && UnderLimit(times) && |ArrivalsSince(times + [now], now - 2.0)| <= 400
  {
    var all := times + [now];
    assert all[..|times| + 1] == all && UnderLimitAt(all, |times|);
    forall i | 0 <= i < |times| ensures all[i] == times[i] {}
    forall k | 0 <= k < |times| ensures UnderLimitAt(times, k) {
      assert all[..k + 1] == times[..k + 1] && UnderLimitAt(all, k);
    }
  }
}
