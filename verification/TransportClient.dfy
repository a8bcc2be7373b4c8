/**
 The phone's send queue: any number of threads call `send` while one sender thread
 drains. The queue operations and the counter increments are the atomic steps; a
 run is any interleaving of them.
 */
module TransportClient {
  import Counting

  const QUEUE_CAPACITY: nat := 256
  const INITIAL_BACKOFF: nat := 500
  const MAX_BACKOFF: nat := 8000

  /** Where a thread is inside `send`. */
  datatype Phase<P> =
    | Idle
    | Full(packet: P)      // the first offer failed
    | Shedding(packet: P)  // the oldest packet was removed, its drop not yet counted
    | Retrying(packet: P)  // about to offer again
    | Losing               // the second offer failed, the loss not yet counted
  {
    /** The packet the thread still has to place. */
    function InHand(): seq<P> {
      match this
      case Full(p) => [p]
      case Shedding(p) => [p]
      case Retrying(p) => [p]
      case _ => []
    }

    predicate OwesCount() {
      Shedding? || Losing?
    }
  }

  datatype Sender<P> =
    | Waiting
    | Holding(packet: P)
    | Sleeping
    | Awake(read: nat)   // the backoff value was read, the doubled one not yet written
    | Stopped

  /** How a packet left the queue. */
  datatype Removal<P> = Taken(packet: P) | Polled(packet: P)

  datatype State<P> = State(
    queue: seq<P>,
    threads: seq<Phase<P>>,
    sender: Sender<P>,
    dropped: nat,
    sent: nat,
    backoff: nat,
    // history
    issued: seq<P>,
    removed: seq<Removal<P>>,
    lost: seq<P>,
    failed: nat)

  datatype Action<P> =
    | Offer(id: nat, packet: P)
    | Poll(id: nat)
    | Count(id: nat)
    | OfferAgain(id: nat)
    | Take
    | SendSucceeds
    | SendFails
    | Wake
    | WriteBackoff
    | ConnectionOpens
    | Interrupt

  function Init<P>(threads: nat): State<P> {
    State([], seq(threads, _ => Idle), Waiting, 0, 0, INITIAL_BACKOFF, [], [], [], 0)
  }

  predicate Enabled<P>(s: State<P>, a: Action<P>) {
    match a
    case Offer(id, _) => id < |s.threads| && s.threads[id].Idle?
    case Poll(id) => id < |s.threads| && s.threads[id].Full?
    case Count(id) => id < |s.threads| && s.threads[id].OwesCount()
    case OfferAgain(id) => id < |s.threads| && s.threads[id].Retrying?
    case Take => s.sender.Waiting? && |s.queue| > 0
    case SendSucceeds => s.sender.Holding?
    case SendFails => s.sender.Holding?
    case Wake => s.sender.Sleeping?
    case WriteBackoff => s.sender.Awake?
    case ConnectionOpens => true
    case Interrupt => !s.sender.Stopped?
  }

  function Apply<P>(s: State<P>, a: Action<P>): State<P>
    requires Enabled(s, a)
  {
    match a
    case Offer(id, p) =>
      var t := s.(issued := s.issued + [p]);
      if |s.queue| < QUEUE_CAPACITY then t.(queue := s.queue + [p])
      else t.(threads := s.threads[id := Full(p)])
    case Poll(id) =>
      var p := s.threads[id].packet;
      if |s.queue| > 0 then
        s.(queue := s.queue[1..], removed := s.removed + [Polled(s.queue[0])],
           threads := s.threads[id := Shedding(p)])
      else s.(threads := s.threads[id := Retrying(p)])
    case Count(id) =>
      s.(dropped := s.dropped + 1,
         threads := s.threads[id := match s.threads[id] case Shedding(p) => Retrying(p) case _ => Idle])
    case OfferAgain(id) =>
      var p := s.threads[id].packet;
      if |s.queue| < QUEUE_CAPACITY then s.(queue := s.queue + [p], threads := s.threads[id := Idle])
      else s.(lost := s.lost + [p], threads := s.threads[id := Losing])
    case Take =>
      s.(queue := s.queue[1..], removed := s.removed + [Taken(s.queue[0])], sender := Holding(s.queue[0]))
    case SendSucceeds => s.(sent := s.sent + 1, backoff := INITIAL_BACKOFF, sender := Waiting)
    case SendFails => s.(failed := s.failed + 1, sender := Sleeping)
    case Wake => s.(sender := Awake(s.backoff))
    case WriteBackoff => s.(backoff := Doubled(s.sender.read), sender := Waiting)
    case ConnectionOpens => s.(backoff := INITIAL_BACKOFF)
    case Interrupt => s.(sender := Stopped)
  }

  function Doubled(ms: nat): nat {
    if 2 * ms > MAX_BACKOFF then MAX_BACKOFF else 2 * ms
  }

  datatype Outcome<P> = Reached(state: State<P>) | Disabled

  /** Plays the actions from the initial state, each only if it is enabled in its turn. */
  function Run<P>(threads: nat, actions: seq<Action<P>>): Outcome<P>
    decreases |actions|
  {
    if actions == [] then Reached(Init(threads))
    else
      var n := |actions| - 1;
      var before := Run(threads, actions[..n]);
      if before.Reached? && Enabled(before.state, actions[n]) then Reached(Apply(before.state, actions[n]))
      else Disabled
  }

  ghost predicate Reaches<P>(threads: nat, actions: seq<Action<P>>, s: State<P>) {
    Run(threads, actions) == Reached(s)
  }

  // ----- Accounting -----

  function Packets<P>(removed: seq<Removal<P>>): (ps: seq<P>)
    ensures |ps| == |removed|
  {
    seq(|removed|, i requires 0 <= i < |removed| => removed[i].packet)
  }

  function TakenOf<P>(removed: seq<Removal<P>>): seq<P> {
    if removed == [] then []
    else
      var last := removed[|removed| - 1];
      TakenOf(removed[..|removed| - 1]) + (if last.Taken? then [last.packet] else [])
  }

  function PolledOf<P>(removed: seq<Removal<P>>): seq<P> {
    if removed == [] then []
    else
      var last := removed[|removed| - 1];
      PolledOf(removed[..|removed| - 1]) + (if last.Polled? then [last.packet] else [])
  }

  /** How often `p` occurs in a list of packets. */
  ghost function Times<P>(p: P, q: seq<P>): nat {
    multiset(q)[p]
  }

  /** How many threads still hold `p`. */
  ghost function InHands<P>(p: P, threads: seq<Phase<P>>): nat {
    if threads == [] then 0
    else InHands(p, threads[..|threads| - 1]) + Times(p, threads[|threads| - 1].InHand())
  }

  function Owed<P>(threads: seq<Phase<P>>): nat {
    if threads == [] then 0 else Owed(threads[..|threads| - 1]) + OwedBy(threads[|threads| - 1])
  }

  function OwedBy<P>(phase: Phase<P>): nat {
    if phase.OwesCount() then 1 else 0
  }

  function SenderHolds<P>(sender: Sender<P>): nat {
    if sender.Holding? then 1 else 0
  }

  lemma {:induction false} ThreadUpdate<P>(p: P, threads: seq<Phase<P>>, id: nat, phase: Phase<P>)
    requires id < |threads|
    ensures InHands(p, threads[id := phase]) + Times(p, threads[id].InHand())
            == InHands(p, threads) + Times(p, phase.InHand())
    ensures Owed(threads[id := phase]) + OwedBy(threads[id]) == Owed(threads) + OwedBy(phase)
    decreases |threads|
  {
    hide Times, OwedBy;
    var n := |threads| - 1;
    var after := threads[id := phase];
    if id == n {
      assert after[..n] == threads[..n];
    } else {
      assert after[..n] == threads[..n][id := phase];
      ThreadUpdate(p, threads[..n], id, phase);
    }
  }

  lemma {:induction false} AllIdle<P>(p: P, threads: seq<Phase<P>>)
    requires forall i | 0 <= i < |threads| :: threads[i].Idle?
    ensures InHands(p, threads) == 0 && Owed(threads) == 0
  {
    if threads != [] {
      AllIdle(p, threads[..|threads| - 1]);
    }
  }

  /** Each issued copy of `p` is in exactly one place: queued, taken, shed, or in a thread's hands. */
  ghost predicate Conserved<P>(s: State<P>, p: P) {
    Times(p, s.issued)
    == Times(p, s.queue) + Times(p, TakenOf(s.removed)) + Times(p, PolledOf(s.removed)) + Times(p, s.lost)
       + InHands(p, s.threads)
  }

  ghost predicate Counted<P>(s: State<P>) {
    && |s.queue| <= 256
    && s.dropped + Owed(s.threads) == |PolledOf(s.removed)| + |s.lost|
    && (!s.sender.Stopped? ==> s.sent + s.failed + SenderHolds(s.sender) == |TakenOf(s.removed)|)
  }

  ghost predicate Inv<P>(s: State<P>, p: P) {
    Counted(s) && Conserved(s, p)
  }

  lemma Appended<P>(removed: seq<Removal<P>>, r: Removal<P>)
    ensures TakenOf(removed + [r]) == if r.Taken? then TakenOf(removed) + [r.packet] else TakenOf(removed)
    ensures PolledOf(removed + [r]) == if r.Polled? then PolledOf(removed) + [r.packet] else PolledOf(removed)
  {
  }

  lemma TimesEnds<P>(p: P, q: seq<P>, x: P)
    ensures Times(p, q + [x]) == Times(p, q) + Times(p, [x])
    ensures |q| > 0 ==> Times(p, q) == Times(p, [q[0]]) + Times(p, q[1..])
    ensures Times(p, []) == 0
  {
    if |q| > 0 {
      assert q == [q[0]] + q[1..];
    }
  }

  lemma OfferKeepsInv<P>(s: State<P>, id: nat, x: P, p: P)
    requires Inv(s, p) && Enabled(s, Offer(id, x))
    ensures Inv(Apply(s, Offer(id, x)), p)
  {
    hide Times, InHands, Owed;
    TimesEnds(p, s.issued, x);
    TimesEnds(p, s.queue, x);
    ThreadUpdate(p, s.threads, id, Full(x));
  }

  lemma PollKeepsInv<P>(s: State<P>, id: nat, p: P)
    requires Inv(s, p) && Enabled(s, Poll(id))
    ensures Inv(Apply(s, Poll(id)), p)
  {
    hide Times, InHands, Owed, TakenOf, PolledOf;
    ThreadUpdate(p, s.threads, id, Apply(s, Poll(id)).threads[id]);
    if |s.queue| > 0 {
      Appended(s.removed, Polled(s.queue[0]));
      TimesEnds(p, s.queue, s.queue[0]);
      TimesEnds(p, PolledOf(s.removed), s.queue[0]);
    }
  }

  lemma CountKeepsInv<P>(s: State<P>, id: nat, p: P)
    requires Inv(s, p) && Enabled(s, Count(id))
    ensures Inv(Apply(s, Count(id)), p)
  {
    hide Times, InHands, Owed;
    ThreadUpdate(p, s.threads, id, Apply(s, Count(id)).threads[id]);
  }

  lemma OfferAgainKeepsInv<P>(s: State<P>, id: nat, p: P)
    requires Inv(s, p) && Enabled(s, OfferAgain(id))
    ensures Inv(Apply(s, OfferAgain(id)), p)
  {
    hide Times, InHands, Owed;
    var x := s.threads[id].packet;
    ThreadUpdate(p, s.threads, id, Apply(s, OfferAgain(id)).threads[id]);
    TimesEnds(p, s.queue, x);
    TimesEnds(p, s.lost, x);
  }

  lemma TakeKeepsInv<P>(s: State<P>, p: P)
    requires Inv(s, p) && Enabled(s, Take)
    ensures Inv(Apply(s, Take), p)
  {
    hide Times, InHands, Owed, TakenOf, PolledOf;
    Appended(s.removed, Taken(s.queue[0]));
    TimesEnds(p, s.queue, s.queue[0]);
    TimesEnds(p, TakenOf(s.removed), s.queue[0]);
  }

  lemma ApplyKeepsInv<P>(s: State<P>, a: Action<P>, p: P)
    requires Inv(s, p) && Enabled(s, a)
    ensures Inv(Apply(s, a), p)
  {
    hide Inv, Apply;
    match a {
      case Offer(id, x) => OfferKeepsInv(s, id, x, p);
      case Poll(id) => PollKeepsInv(s, id, p);
      case Count(id) => CountKeepsInv(s, id, p);
      case OfferAgain(id) => OfferAgainKeepsInv(s, id, p);
      case Take => TakeKeepsInv(s, p);
      case _ => SenderKeepsInv(s, a, p);
    }
  }

  lemma SenderKeepsInv<P>(s: State<P>, a: Action<P>, p: P)
    requires Inv(s, p) && Enabled(s, a)
    requires a.SendSucceeds? || a.SendFails? || a.Wake? || a.WriteBackoff? || a.ConnectionOpens? || a.Interrupt?
    ensures Inv(Apply(s, a), p)
  {
    hide Times, InHands, Owed, TakenOf, PolledOf;
  }

  /** The accounting holds in every reachable state, for every packet and every number of threads. */
  lemma {:induction false} Accounting<P>(threads: nat, actions: seq<Action<P>>, s: State<P>, p: P)
    requires Reaches(threads, actions, s)
    ensures Inv(s, p) && |s.threads| == threads
    decreases |actions|
  {
    hide Inv;
    if actions == [] {
      InitKeepsInv(threads, p);
    } else {
      var n := |actions| - 1;
      var before := Run(threads, actions[..n]).state;
      Accounting(threads, actions[..n], before, p);
      ApplyKeepsInv(before, actions[n], p);
    }
  }

  lemma InitKeepsInv<P>(threads: nat, p: P)
    ensures Inv(Init(threads), p)
  {
    AllIdle(p, Init<P>(threads).threads);
  }

  /** With no call under way, the drop counter is exact and no packet is unaccounted for. */
  lemma Quiescent<P>(threads: nat, actions: seq<Action<P>>, s: State<P>, p: P)
    requires Reaches(threads, actions, s)
    requires forall i | 0 <= i < |s.threads| :: s.threads[i].Idle?
    ensures s.dropped == |PolledOf(s.removed)| + |s.lost|
    ensures Times(p, s.issued)
            == Times(p, s.queue) + Times(p, TakenOf(s.removed)) + Times(p, PolledOf(s.removed)) + Times(p, s.lost)
  {
    Accounting(threads, actions, s, p);
    AllIdle(p, s.threads);
  }

  // ----- Order -----

  /** The packets the queue accepted in this run, in order. */
  function Accepted<P>(s: State<P>): seq<P> {
    Packets(s.removed) + s.queue
  }

  /** What one action does to the accepted packets: at most it appends the one it placed. */
  lemma AcceptedGrows<P>(s: State<P>, a: Action<P>)
    requires Enabled(s, a)
    ensures
      var t := Apply(s, a);
      Accepted(t) == match a
                     case Offer(_, p) => if |s.queue| < QUEUE_CAPACITY then Accepted(s) + [p] else Accepted(s)
                     case OfferAgain(id) =>
                       if |s.queue| < QUEUE_CAPACITY then Accepted(s) + [s.threads[id].packet] else Accepted(s)
                     case _ => Accepted(s)
    ensures s.removed <= Apply(s, a).removed
  {
  }

  /** The packets of the successful offers of a run, in the order in which they took effect. */
  function Placed<P>(threads: nat, actions: seq<Action<P>>): seq<P>
    requires Run(threads, actions).Reached?
    decreases |actions|
  {
    if actions == [] then []
    else
      var n := |actions| - 1;
      var before := Run(threads, actions[..n]).state;
      var earlier := Placed(threads, actions[..n]);
      if |before.queue| >= QUEUE_CAPACITY then earlier
      else
        match actions[n]
        case Offer(_, p) => earlier + [p]
        case OfferAgain(id) => earlier + [before.threads[id].packet]
        case _ => earlier
  }

  /** First in, first out: removed packets followed by the queue are exactly the placed packets in order. */
  lemma {:induction false} FirstInFirstOut<P>(threads: nat, actions: seq<Action<P>>, s: State<P>)
    requires Reaches(threads, actions, s)
    ensures Packets(s.removed) + s.queue == Placed(threads, actions)
    decreases |actions|
  {
    if actions != [] {
      var n := |actions| - 1;
      var before := Run(threads, actions[..n]).state;
      FirstInFirstOut(threads, actions[..n], before);
      AcceptedGrows(before, actions[n]);
    }
  }

  // ----- Does the newest packet survive? -----

  /** With one thread, a thread past its poll always finds room. */
  ghost predicate RoomAfterPoll<P>(s: State<P>) {
    && |s.queue| <= 256
    && |s.threads| == 1
    && s.lost == []
    && (s.threads[0].Shedding? || s.threads[0].Retrying? ==> |s.queue| < QUEUE_CAPACITY)
    && !s.threads[0].Losing?
  }

  lemma {:induction false} SingleThreadKeepsNewest<P>(actions: seq<Action<P>>, s: State<P>)
    requires Reaches(1, actions, s)
    ensures RoomAfterPoll(s)
    decreases |actions|
  {
    if actions != [] {
      var n := |actions| - 1;
      var before := Run(1, actions[..n]).state;
      SingleThreadKeepsNewest(actions[..n], before);
    }
  }

  /** The state after one thread has offered `n` packets to an empty queue. */
  function Filled<P>(threads: nat, p: P, n: nat): State<P>
  {
    Init<P>(threads).(queue := seq(n, _ => p), issued := seq(n, _ => p))
  }

  lemma Extend<P>(threads: nat, actions: seq<Action<P>>, s: State<P>, a: Action<P>)
    requires Reaches(threads, actions, s) && Enabled(s, a)
    ensures Reaches(threads, actions + [a], Apply(s, a))
  {
  }

  lemma {:induction false} FillReachable<P>(threads: nat, p: P, n: nat) returns (actions: seq<Action<P>>)
    requires threads > 0 && n <= QUEUE_CAPACITY
    ensures Reaches(threads, actions, Filled(threads, p, n))
  {
    if n == 0 {
      actions := [];
      assert Filled(threads, p, 0) == Init<P>(threads);
    } else {
      actions := FillReachable(threads, p, n - 1);
      var before := Filled(threads, p, n - 1);
      Extend(threads, actions, before, Offer(0, p));
      assert seq(n - 1, _ => p) + [p] == seq(n, _ => p);
      assert Apply(before, Offer(0, p)) == Filled(threads, p, n);
      actions := actions + [Offer(0, p)];
    }
  }

  /** The packet issued last, and issued only once, failed its second offer and is nowhere any more. */
  ghost predicate NewestLost<P>(s: State<P>) {
    && |s.issued| > 0
    && var newest := s.issued[|s.issued| - 1];
       Times(newest, s.issued) == 1 && newest in s.lost && newest !in s.queue
  }

  /**
   With a second thread the retry of the newest packet can fail: both threads poll, but another
   packet takes the place freed first and the other thread's retry the place freed for the newest.
   */
  lemma NewestCanBeLost<P>(threads: nat, earlier: P, newest: P) returns (actions: seq<Action<P>>, s: State<P>)
    requires threads >= 2 && earlier != newest
    ensures Reaches(threads, actions, s) && NewestLost(s)
    ensures s.lost == [newest] && s.issued[|s.issued| - 1] == newest
  {
    hide Reaches;
    actions := FillReachable(threads, earlier, QUEUE_CAPACITY);
    s := Filled(threads, earlier, QUEUE_CAPACITY);
    actions, s := Then(threads, actions, s, Offer(0, earlier));
    actions, s := Then(threads, actions, s, Poll(0));
    actions, s := Then(threads, actions, s, Count(0));
    actions, s := Then(threads, actions, s, Offer(1, earlier));
    actions, s := Then(threads, actions, s, Offer(1, newest));
    actions, s := Then(threads, actions, s, Poll(1));
    actions, s := Then(threads, actions, s, Count(1));
    actions, s := Then(threads, actions, s, OfferAgain(0));
    actions, s := Then(threads, actions, s, OfferAgain(1));
    NotAmong(newest, seq(QUEUE_CAPACITY, _ => earlier) + [earlier, earlier]);
  }

  lemma NotAmong<P>(p: P, q: seq<P>)
    requires p !in q
    ensures Times(p, q + [p]) == 1
  {
  }

  lemma Then<P>(threads: nat, actions: seq<Action<P>>, s: State<P>, a: Action<P>)
    returns (longer: seq<Action<P>>, t: State<P>)
    requires Reaches(threads, actions, s) && Enabled(s, a)
    ensures t == Apply(s, a) && Reaches(threads, longer, t) && actions <= longer
  {
    Extend(threads, actions, s, a);
    longer, t := actions + [a], Apply(s, a);
  }

  /** In some run the packet issued last is lost exactly when two or more threads send. */
  lemma LossIffContention<P>(threads: nat, earlier: P, newest: P)
    requires threads > 0 && earlier != newest
    ensures (exists actions: seq<Action<P>>, s: State<P> :: Reaches(threads, actions, s) && NewestLost(s))
            <==> threads >= 2
  {
    hide NewestLost;
    if threads >= 2 {
      var actions, s := NewestCanBeLost(threads, earlier, newest);
    } else {
      forall actions: seq<Action<P>>, s: State<P> | Reaches(threads, actions, s) ensures !NewestLost(s) {
        SingleThreadKeepsNewest(actions, s);
        NothingLost(s);
      }
    }
  }

  lemma NothingLost<P>(s: State<P>)
    requires s.lost == []
    ensures !NewestLost(s)
  {
  }

  // ----- Backoff -----

  /** The backoff after `k` failures in a row. */
  function BackoffAfter(k: nat): nat {
    if k == 0 then INITIAL_BACKOFF else Doubled(BackoffAfter(k - 1))
  }

  lemma {:induction false} BackoffFormula(k: nat)
    ensures BackoffAfter(k) == if k < 4 then 500 * Counting.Pow2(k) else 8000
  {
    if k > 0 {
      BackoffFormula(k - 1);
    }
  }

  ghost predicate IsBackoff(ms: nat) {
    exists k: nat :: ms == BackoffAfter(k)
  }

  /** Even with resets racing the doubling, the wait is always a step of the schedule. */
  lemma {:induction false} BackoffOnSchedule<P>(threads: nat, actions: seq<Action<P>>, s: State<P>)
    requires Reaches(threads, actions, s)
    ensures IsBackoff(s.backoff) && (s.sender.Awake? ==> IsBackoff(s.sender.read))
    decreases |actions|
  {
    assert BackoffAfter(0) == INITIAL_BACKOFF;
    if actions != [] {
      var n := |actions| - 1;
      var before := Run(threads, actions[..n]).state;
      BackoffOnSchedule(threads, actions[..n], before);
      if actions[n].WriteBackoff? {
        var k: nat :| before.sender.read == BackoffAfter(k);
        assert s.backoff == BackoffAfter(k + 1);
      }
    }
  }

  // ----- The client object, called from one thread at a time -----

  class Client<P> {
    var started: bool
    var queue: seq<P>
    var dropped: nat
    var sent: nat
    var backoff: nat

    ghost predicate Valid()
      reads this
    {
      |queue| <= QUEUE_CAPACITY && IsBackoff(backoff)
    }

    constructor ()
      ensures Valid() && !started && queue == [] && dropped == sent == 0 && backoff == INITIAL_BACKOFF
    {
      started, queue, dropped, sent, backoff := false, [], 0, 0, INITIAL_BACKOFF;
      assert BackoffAfter(0) == INITIAL_BACKOFF;
    }

    method TryOffer(packet: P) returns (ok: bool)
      requires Valid()
      modifies this`queue
      ensures Valid()
      ensures ok == (|old(queue)| < QUEUE_CAPACITY)
      ensures queue == if ok then old(queue) + [packet] else old(queue)
    {
      ok := |queue| < QUEUE_CAPACITY;
      if ok {
        queue := queue + [packet];
      }
    }

    method TryPoll() returns (found: bool)
      requires Valid()
      modifies this`queue
      ensures Valid()
      ensures found == (|old(queue)| > 0)
      ensures queue == if found then old(queue)[1..] else old(queue)
    {
      found := |queue| > 0;
      if found {
        queue := queue[1..];
      }
    }

    method CountIf(drop: bool)
      modifies this`dropped
      ensures dropped == old(dropped) + (if drop then 1 else 0)
    {
      if drop {
        dropped := dropped + 1;
      }
    }

    /** Called alone, `send` always places the packet last, at the cost of at most the oldest one. */
    method Send(packet: P)
      requires Valid()
      modifies this`queue, this`dropped
      ensures Valid()
      ensures !started ==> queue == old(queue) && dropped == old(dropped)
      ensures started && |old(queue)| < 256 ==> queue == old(queue) + [packet] && dropped == old(dropped)
      ensures started && |old(queue)| == 256
              ==> queue == old(queue)[1..] + [packet] && dropped == old(dropped) + 1
    {
      if !started {
        return;
      }
      var ok := TryOffer(packet);
      if !ok {
        var found := TryPoll();
        CountIf(found);
        ok := TryOffer(packet);
        CountIf(!ok);
      }
    }

    /**
     One turn of the sender loop on a nonempty queue. Whether the send went through without an
     exception is given, and whether the socket accepted the packet, which nobody looks at.
     */
    method SendOldest(noException: bool, accepted: bool) returns (packet: P)
      requires Valid() && |queue| > 0
      modifies this`queue, this`sent, this`backoff
      ensures Valid()
      ensures packet == old(queue)[0] && queue == old(queue)[1..]
      ensures sent == old(sent) + (if noException then 1 else 0)
      ensures noException && !accepted ==> sent == old(sent) + 1
      ensures backoff == if noException then INITIAL_BACKOFF else Doubled(old(backoff))
    {
      packet := queue[0];
      queue := queue[1..];
      if noException {
        sent := sent + 1;
        backoff := INITIAL_BACKOFF;
        assert BackoffAfter(0) == INITIAL_BACKOFF;
      } else {
        ghost var k: nat :| backoff == BackoffAfter(k);
        assert Doubled(backoff) == BackoffAfter(k + 1);
        backoff := Doubled(backoff);
      }
    }
  }

  /** In the interleaved model, a call that runs without interference does what the object's `Send` does. */
  lemma UninterruptedSend<P>(threads: nat, actions: seq<Action<P>>, s: State<P>, id: nat, packet: P)
    returns (longer: seq<Action<P>>, t: State<P>)
    requires Reaches(threads, actions, s) && Enabled(s, Offer(id, packet))
    ensures Reaches(threads, longer, t) && actions <= longer
    ensures t.threads == s.threads && t.lost == s.lost && t.sender == s.sender
    ensures if |s.queue| < QUEUE_CAPACITY then t.queue == s.queue + [packet] && t.dropped == s.dropped
            else t.queue == s.queue[1..] + [packet] && t.dropped == s.dropped + 1
  {
    Accounting(threads, actions, s, packet);
    longer, t := Then(threads, actions, s, Offer(id, packet));
    if |s.queue| >= QUEUE_CAPACITY {
      longer, t := Then(threads, longer, t, Poll(id));
      longer, t := Then(threads, longer, t, Count(id));
      longer, t := Then(threads, longer, t, OfferAgain(id));
    }
  }

  /**
   The sender's turn in the interleaving model, run together, does what the method does: the
   oldest packet is sent and the backoff starts again, or the send fails and the backoff doubles.
   */
  lemma UninterruptedTurn<P>(s: State<P>, failed: State<P>, woken: State<P>)
    requires Enabled(s, Take) && failed == Apply(Apply(s, Take), SendFails)
    requires woken == Apply(failed, Wake)
    ensures
      var taken := Apply(s, Take);
      && taken.sender == Holding(s.queue[0]) && taken.queue == s.queue[1..]
      && Enabled(taken, SendSucceeds) && Enabled(taken, SendFails)
      && Apply(taken, SendSucceeds)
         == s.(queue := s.queue[1..], removed := s.removed + [Taken(s.queue[0])], sent := s.sent + 1, backoff := 500)
    ensures
      && Enabled(failed, Wake) && Enabled(woken, WriteBackoff)
      && Apply(woken, WriteBackoff)
         == s.(queue := s.queue[1..], removed := s.removed + [Taken(s.queue[0])], failed := s.failed + 1,
               backoff := if s.backoff > 4000 then 8000 else 2 * s.backoff)
  {
  }
}
