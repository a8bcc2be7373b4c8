/**
 Whole runs of the DSP loop under any schedule of registering, feeding, draining, stepping
 and dropping phones. Beside the loop, each phone carries a log of everything delivered to
 it since it was last dropped; the buffers and windows are then described by that log.
 */
module StreamRuns {
  import opened DspLoop
  import Protocol
  import PC = PhoneConnection

  /**
   `delivered`: every sample fed since the phone was last dropped. `clipped`: samples cut by
   the one-second cap. `starts`: for each window taken, the delivered position it begins at.
   `emitted`: the windows taken, joined. `inStep`: every window was taken when the buffer held
   exactly one window and nothing had been clipped.
   */
  datatype PhoneLog = PhoneLog(
    delivered: Signal, clipped: nat, starts: seq<int>, emitted: Signal, inStep: bool)

  datatype World = World(loop: Loop, logs: map<int, PhoneLog>)

  datatype Event =
    | Register(pid: int)
    | Feed(pid: int, samples: Signal)
    | Drain(sources: seq<Source>, max: nat)
    | Step
    | Drop(pid: int)

  function Start(ids: seq<int>, rate: nat, need: nat): World {
    World(Loop(ids, map[], rate, need, 0, 0), map[])
  }

  function LogOf(w: World, pid: int): PhoneLog {
    if pid in w.logs then w.logs[pid] else PhoneLog([], 0, [], [], true)
  }

  function FedWorld(w: World, pid: int, samples: Signal): World {
    var g := LogOf(w, pid);
    var total := |Buffer(w.loop, pid)| + |samples|;
    var cut := if 0 < w.loop.sampleRateHz < total then total - w.loop.sampleRateHz else 0;
    World(Fed(w.loop, pid, samples),
          w.logs[pid := g.(delivered := g.delivered + samples, clipped := g.clipped + cut)])
  }

  function FedPacketsWorld(w: World, pid: int, packets: seq<PC.Packet>): World {
    if packets == [] then w
    else
      var before := FedPacketsWorld(w, pid, packets[..|packets| - 1]);
      var samples := Protocol.PacketToSamples(packets[|packets| - 1]);
      if samples.Ok? then FedWorld(before, pid, samples.value) else before
  }

  function PoppedWorld(w: World, sources: seq<Source>, max: nat): World {
    if sources == [] then w
    else
      var before := PoppedWorld(w, sources[..|sources| - 1], max);
      var s := sources[|sources| - 1];
      if s.phoneId in w.loop.ids then FedPacketsWorld(before, s.phoneId, s.queue[..Visited(s.queue, max)])
      else before
  }

  function LogWindow(w: World, pid: int): PhoneLog {
    var g := LogOf(w, pid);
    var b := Buffer(w.loop, pid);
    g.(starts := g.starts + [|g.delivered| - w.loop.need],
       emitted := g.emitted + LastOf(b, w.loop.need),
       inStep := g.inStep && |b| == w.loop.need && g.clipped == 0)
  }

  function Silent(channels: seq<Signal>): Signal {
    []
  }

  /** The beamformer has no influence on the buffers, so any will do. */
  function SteppedWorld(w: World): World {
    var (l, r) := Stepped(w.loop, Silent);
    World(l, if !r.NotReady? then w.logs + map pid | pid in w.loop.ids :: LogWindow(w, pid) else w.logs)
  }

  function Apply(w: World, e: Event): World {
    match e
    case Register(pid) => w.(loop := w.loop.(ids := Enrolled(w.loop.ids, pid)))
    case Feed(pid, samples) => FedWorld(w, pid, samples)
    case Drain(sources, max) => PoppedWorld(w, sources, max)
    case Step => SteppedWorld(w)
    case Drop(pid) => World(Dropped(w.loop, pid), w.logs - {pid})
  }

  function Run(w: World, events: seq<Event>): World {
    if events == [] then w
    else Apply(Run(w, events[..|events| - 1]), events[|events| - 1])
  }

  /** The world's loop is what the loop's own operation makes of it. */
  lemma {:induction false} DrainIsPop(w: World, sources: seq<Source>, max: nat)
    ensures PoppedWorld(w, sources, max).loop == Popped(w.loop, sources, max)
  {
    hide Visited;
    if sources != [] {
      var n := |sources| - 1;
      DrainIsPop(w, sources[..n], max);
      var before := PoppedWorld(w, sources[..n], max);
      PacketsFeed(before, sources[n].phoneId, sources[n].queue[..Visited(sources[n].queue, max)]);
    }
  }

  lemma {:induction false} PacketsFeed(w: World, pid: int, packets: seq<PC.Packet>)
    ensures FedPacketsWorld(w, pid, packets).loop == FedPackets(w.loop, pid, packets)
  {
    hide Protocol.PacketToSamples;
    if packets != [] {
      PacketsFeed(w, pid, packets[..|packets| - 1]);
    }
  }

  // ----- What holds in every world -----

  predicate Suffix(b: Signal, s: Signal) {
    |b| <= |s| && b == s[|s| - |b|..]
  }

  function Times(n: nat, m: nat): nat {
    n * m
  }

  predicate Evenly(starts: seq<int>, need: nat) {
    forall k | 0 <= k < |starts| :: starts[k] == Times(k, need)
  }

  predicate Good(b: Signal, g: PhoneLog, rate: nat, need: nat) {
    && Suffix(b, g.delivered)
    && (rate > 0 ==> |b| <= rate)
    && |g.delivered| == |b| + Times(|g.starts|, need) + g.clipped
    && (Evenly(g.starts, need) <==> g.inStep)
    && |g.emitted| == Times(|g.starts|, need)
    && (g.inStep ==> g.emitted == g.delivered[..|g.emitted|])
  }

  predicate GoodPhone(w: World, pid: int) {
    Good(Buffer(w.loop, pid), LogOf(w, pid), w.loop.sampleRateHz, w.loop.need)
  }

  ghost predicate Inv(w: World) {
    && w.loop.need > 0
    && forall pid :: GoodPhone(w, pid)
  }

  predicate SameSetup(w: World, after: World) {
    after.loop.need == w.loop.need && after.loop.sampleRateHz == w.loop.sampleRateHz
  }

  lemma EmptyGood(rate: nat, need: nat)
    ensures Good([], PhoneLog([], 0, [], [], true), rate, need)
  {
  }

  lemma StartInv(ids: seq<int>, rate: nat, need: nat)
    requires need > 0
    ensures Inv(Start(ids, rate, need))
  {
  }

  lemma FeedKeepsGood(b: Signal, g: PhoneLog, rate: nat, need: nat, samples: Signal)
    requires Good(b, g, rate, need)
    ensures
      var total := |b| + |samples|;
      var cut := if 0 < rate < total then total - rate else 0;
      Good(Clipped(b + samples, rate), g.(delivered := g.delivered + samples, clipped := g.clipped + cut), rate, need)
  {
    hide Evenly, Times;
    var d := g.delivered + samples;
    assert b + samples == d[|d| - |b + samples|..];
    assert g.inStep ==> d[..|g.emitted|] == g.delivered[..|g.emitted|];
  }

  lemma FeedKeepsInv(w: World, pid: int, samples: Signal)
    requires Inv(w)
    ensures Inv(FedWorld(w, pid, samples)) && SameSetup(w, FedWorld(w, pid, samples))
  {
    hide Good, Clipped;
    assert GoodPhone(w, pid);
    FeedKeepsGood(Buffer(w.loop, pid), LogOf(w, pid), w.loop.sampleRateHz, w.loop.need, samples);
    var after := FedWorld(w, pid, samples);
    forall q ensures GoodPhone(after, q) {
      assert GoodPhone(w, q);
    }
  }

  lemma {:induction false} PacketsKeepInv(w: World, pid: int, packets: seq<PC.Packet>)
    requires Inv(w)
    ensures Inv(FedPacketsWorld(w, pid, packets)) && SameSetup(w, FedPacketsWorld(w, pid, packets))
  {
    hide Inv, FedWorld, Protocol.PacketToSamples;
    if packets != [] {
      var before := FedPacketsWorld(w, pid, packets[..|packets| - 1]);
      PacketsKeepInv(w, pid, packets[..|packets| - 1]);
      var samples := Protocol.PacketToSamples(packets[|packets| - 1]);
      if samples.Ok? {
        FeedKeepsInv(before, pid, samples.value);
      }
    }
  }

  lemma {:induction false} DrainKeepsInv(w: World, sources: seq<Source>, max: nat)
    requires Inv(w)
    ensures Inv(PoppedWorld(w, sources, max)) && SameSetup(w, PoppedWorld(w, sources, max))
  {
    hide Inv, Visited;
    if sources != [] {
      var n := |sources| - 1;
      DrainKeepsInv(w, sources[..n], max);
      PacketsKeepInv(PoppedWorld(w, sources[..n], max), sources[n].phoneId,
                     sources[n].queue[..Visited(sources[n].queue, max)]);
    }
  }

  lemma TimesNext(n: nat, need: nat)
    ensures Times(n + 1, need) == Times(n, need) + need
  {
  }

  lemma EvenlyNext(starts: seq<int>, need: nat, s: int)
    ensures Evenly(starts + [s], need) <==> Evenly(starts, need) && s == Times(|starts|, need)
  {
  }

  lemma WindowKeepsGood(b: Signal, g: PhoneLog, rate: nat, need: nat)
    requires Good(b, g, rate, need) && 0 < need <= |b|
    ensures
      Good(SkipOf(b, need),
           g.(starts := g.starts + [|g.delivered| - need],
              emitted := g.emitted + LastOf(b, need),
              inStep := g.inStep && |b| == need && g.clipped == 0),
           rate, need)
  {
    hide Evenly, Times;
    TimesNext(|g.starts|, need);
    EvenlyNext(g.starts, need, |g.delivered| - need);
    if g.inStep && |b| == need && g.clipped == 0 {
      assert g.delivered == g.delivered[..|g.emitted|] + b;
    }
  }

  lemma StepKeepsInv(w: World)
    requires Inv(w)
    ensures Inv(SteppedWorld(w)) && SameSetup(w, SteppedWorld(w))
  {
    hide Good, LastOf, SkipOf;
    var after := SteppedWorld(w);
    forall pid ensures GoodPhone(after, pid) {
      assert GoodPhone(w, pid);
      if Ready(w.loop) && pid in w.loop.ids {
        var i :| 0 <= i < |w.loop.ids| && w.loop.ids[i] == pid;
        assert |Buffer(w.loop, w.loop.ids[i])| >= w.loop.need;
        WindowKeepsGood(Buffer(w.loop, pid), LogOf(w, pid), w.loop.sampleRateHz, w.loop.need);
      }
    }
  }

  lemma ApplyKeepsInv(w: World, e: Event)
    requires Inv(w)
    ensures Inv(Apply(w, e)) && SameSetup(w, Apply(w, e))
  {
    hide Good;
    match e
    case Register(pid) =>
      forall q ensures GoodPhone(Apply(w, e), q) {
        assert GoodPhone(w, q);
      }
    case Feed(pid, samples) => FeedKeepsInv(w, pid, samples);
    case Drain(sources, max) => DrainKeepsInv(w, sources, max);
    case Step => StepKeepsInv(w);
    case Drop(pid) =>
      forall q ensures GoodPhone(Apply(w, e), q) {
        assert GoodPhone(w, q);
        EmptyGood(w.loop.sampleRateHz, w.loop.need);
      }
  }

  lemma {:induction false} RunKeepsInv(w: World, events: seq<Event>)
    requires Inv(w)
    ensures Inv(Run(w, events)) && SameSetup(w, Run(w, events))
  {
    hide Inv, Apply;
    if events != [] {
      RunKeepsInv(w, events[..|events| - 1]);
      ApplyKeepsInv(Run(w, events[..|events| - 1]), events[|events| - 1]);
    }
  }

  // ----- The main results -----

  lemma Reached(ids: seq<int>, rate: nat, need: nat, events: seq<Event>, pid: int)
    requires need > 0
    ensures
      var w := Run(Start(ids, rate, need), events);
      Inv(w) && w.loop.need == need && Good(Buffer(w.loop, pid), LogOf(w, pid), rate, need)
  {
    hide Good, Run;
    StartInv(ids, rate, need);
    RunKeepsInv(Start(ids, rate, need), events);
    assert GoodPhone(Run(Start(ids, rate, need), events), pid);
  }

  /**
   After any schedule, a phone's buffer is the newest part of what it was sent, at most one
   second long, and every delivered sample is buffered, was consumed by a window or was clipped.
   */
  lemma BuffersDescribed(ids: seq<int>, rate: nat, need: nat, events: seq<Event>, pid: int)
    requires need > 0
    ensures
      var w := Run(Start(ids, rate, need), events);
      var b := Buffer(w.loop, pid);
      var g := LogOf(w, pid);
      && Suffix(b, g.delivered)
      && (rate > 0 ==> |b| <= rate)
      && |g.delivered| == |b| + |g.starts| * need + g.clipped
  {
    hide Run;
    Reached(ids, rate, need, events, pid);
  }

  /** A step that produces a frame, after any schedule, hands over each phone's newest window. */
  lemma FramesAreNewest(
    ids: seq<int>, rate: nat, need: nat, events: seq<Event>, beam: seq<Signal> -> Signal, i: nat)
    requires need > 0
    requires
      var (_, r) := Stepped(Run(Start(ids, rate, need), events).loop, beam);
      r.Frame? && i < |r.channels|
    ensures
      var w := Run(Start(ids, rate, need), events);
      var d := LogOf(w, w.loop.ids[i]).delivered;
      var (_, r) := Stepped(w.loop, beam);
      need <= |d| && r.channels[i] == d[|d| - need..]
  {
    hide Run;
    var w := Run(Start(ids, rate, need), events);
    Reached(ids, rate, need, events, w.loop.ids[i]);
    assert |Buffer(w.loop, w.loop.ids[i])| >= w.loop.need;
  }

  /**
   A phone's windows lie end to end in what it was sent, the k-th starting at sample k * need,
   if and only if each of them was taken from a buffer of exactly one window with nothing
   clipped before; the windows joined are then the stream itself.
   */
  lemma GaplessIffInStep(ids: seq<int>, rate: nat, need: nat, events: seq<Event>, pid: int)
    requires need > 0
    ensures
      var g := LogOf(Run(Start(ids, rate, need), events), pid);
      && ((forall k | 0 <= k < |g.starts| :: g.starts[k] == k * need) <==> g.inStep)
      && (g.inStep ==> |g.emitted| == |g.starts| * need && g.emitted <= g.delivered)
  {
    hide Run, Good;
    Reached(ids, rate, need, events, pid);
    var w := Run(Start(ids, rate, need), events);
    GoodMeans(Buffer(w.loop, pid), LogOf(w, pid), rate, need);
  }

  lemma GoodMeans(b: Signal, g: PhoneLog, rate: nat, need: nat)
    requires Good(b, g, rate, need)
    ensures (forall k | 0 <= k < |g.starts| :: g.starts[k] == k * need) <==> g.inStep
    ensures g.inStep ==> |g.emitted| == |g.starts| * need && g.emitted <= g.delivered
  {
  }

  /**
   Two steps with nothing fed between them: the second also produces a frame exactly when every
   registered phone had two windows buffered, and it then repeats the first frame's channels
   instead of moving on.
   */
  lemma BacklogRepeats(l: Loop, beam: seq<Signal> -> Signal)
    requires l.need > 0
    requires Stepped(l, beam).1.Frame?
    ensures
      var (m, first) := Stepped(l, beam);
      var (_, second) := Stepped(m, beam);
      && (second.Frame? <==> forall i | 0 <= i < |l.ids| :: |Buffer(l, l.ids[i])| >= 2 * l.need)
      && (second.Frame? ==> second.channels == first.channels)
  {
  }

  // ----- The loop's counters -----

  /** Whether a step yields a frame: every phone has a window, and there is a phone and a rate. */
  predicate Yields(l: Loop) {
    Ready(l) && l.ids != [] && l.sampleRateHz > 0
  }

  function StepsOf(events: seq<Event>): nat {
    if events == [] then 0
    else StepsOf(events[..|events| - 1]) + (if events[|events| - 1].Step? then 1 else 0)
  }

  function FramesOf(w: World, events: seq<Event>): nat {
    if events == [] then 0
    else
      var front := events[..|events| - 1];
      FramesOf(w, front) + (if events[|events| - 1].Step? && Yields(Run(w, front).loop) then 1 else 0)
  }

  lemma {:induction false} CountersKept(w: World, packets: seq<PC.Packet>, pid: int)
    ensures
      var t := FedPacketsWorld(w, pid, packets).loop;
      t.framesProcessed == w.loop.framesProcessed && t.windowsEmitted == w.loop.windowsEmitted
  {
    hide Protocol.PacketToSamples, LogOf, Clipped, Buffer;
    if packets != [] {
      CountersKept(w, packets[..|packets| - 1], pid);
    }
  }

  lemma {:induction false} DrainKeepsCounters(w: World, sources: seq<Source>, max: nat)
    ensures
      var t := PoppedWorld(w, sources, max).loop;
      t.framesProcessed == w.loop.framesProcessed && t.windowsEmitted == w.loop.windowsEmitted
  {
    hide FedPacketsWorld, Visited;
    if sources != [] {
      var n := |sources| - 1;
      DrainKeepsCounters(w, sources[..n], max);
      var before := PoppedWorld(w, sources[..n], max);
      CountersKept(before, sources[n].queue[..Visited(sources[n].queue, max)], sources[n].phoneId);
    }
  }

  /** The loop counts its steps, and of these the ones that yielded a frame. */
  lemma {:induction false} LoopCounters(ids: seq<int>, rate: nat, need: nat, events: seq<Event>)
    ensures
      var start := Start(ids, rate, need);
      var l := Run(start, events).loop;
      l.framesProcessed == StepsOf(events) && l.windowsEmitted == FramesOf(start, events)
  {
    hide Ready, Channels, FedPacketsWorld, PoppedWorld, LogOf, LogWindow, Clipped, Buffer;
    if events != [] {
      var front, e := events[..|events| - 1], events[|events| - 1];
      LoopCounters(ids, rate, need, front);
      if e.Drain? {
        DrainKeepsCounters(Run(Start(ids, rate, need), front), e.sources, e.max);
      }
    }
  }

  lemma RunOfThree(w: World, a: Event, b: Event, c: Event)
    ensures Run(w, [a, b, c]) == Apply(Apply(Apply(w, a), b), c)
  {
    hide Apply;
    assert [a, b, c][..2] == [a, b] && [a, b][..1] == [a] && [a][..0] == [];
    assert Run(w, [a]) == Apply(Run(w, []), a);
    assert Run(w, [a, b]) == Apply(Run(w, [a]), b);
  }

  /** A step of a one-phone loop with windows of one sample. */
  lemma OneSampleStep(w: World)
    requires w.loop.ids == [0] && w.loop.need == 1 && |Buffer(w.loop, 0)| >= 1
    ensures
      var b := Buffer(w.loop, 0);
      var t := SteppedWorld(w);
      && t.loop.ids == [0] && t.loop.need == 1 && Buffer(t.loop, 0) == b[1..]
      && LogOf(t, 0).delivered == LogOf(w, 0).delivered
      && LogOf(t, 0).emitted == LogOf(w, 0).emitted + [b[|b| - 1]]
  {
    hide Stepped, Buffer, LogWindow;
    OneSampleLoop(w.loop);
    assert w.loop.ids[0] == 0;
    OneSampleLog(w);
  }

  lemma OneSampleLoop(l: Loop)
    requires l.ids == [0] && l.need == 1 && |Buffer(l, 0)| >= 1
    ensures
      var (m, r) := Stepped(l, Silent);
      !r.NotReady? && m.ids == [0] && m.need == 1 && Buffer(m, 0) == Buffer(l, 0)[1..]
  {
    assert Ready(l);
  }

  lemma OneSampleLog(w: World)
    requires w.loop.need == 1 && |Buffer(w.loop, 0)| >= 1
    ensures
      var b := Buffer(w.loop, 0);
      && LogWindow(w, 0).delivered == LogOf(w, 0).delivered
      && LogWindow(w, 0).emitted == LogOf(w, 0).emitted + [b[|b| - 1]]
  {
  }

  /** Two samples fed at once, then two steps of one-sample windows: the second sample comes out twice. */
  lemma BacklogExample()
    ensures
      var g := LogOf(Run(Start([0], 8, 1), [Feed(0, [1.0, 2.0]), Step, Step]), 0);
      g.delivered == [1.0, 2.0] && g.emitted == [2.0, 2.0]
  {
    hide Run, SteppedWorld;
    var start := Start([0], 8, 1);
    RunOfThree(start, Feed(0, [1.0, 2.0]), Step, Step);
    var fed := FedWorld(start, 0, [1.0, 2.0]);
    assert Buffer(fed.loop, 0) == [1.0, 2.0];
    OneSampleStep(fed);
    OneSampleStep(SteppedWorld(fed));
  }
}
