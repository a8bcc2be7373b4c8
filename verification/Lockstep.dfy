/**
 The recorded demo: every round feeds one window of frames to each phone, frame by frame and
 phone by phone, then steps the loop and hands the result to the recorder.
 */
module Lockstep {
  import opened Counting
  import opened DspLoop
  import opened Options
  import R = Recorder
  import FileNames

  /** Frame number t of a phone. */
  type FrameSource = (int, nat) -> Signal

  ghost predicate WholeFrames(source: FrameSource) {
    forall pid, t :: |source(pid, t)| == FRAME_SAMPLES
  }

  function Stream(source: FrameSource, pid: int, from: nat, count: nat): Signal {
    if count == 0 then [] else Stream(source, pid, from, count - 1) + source(pid, from + count - 1)
  }

  /** The number of the first frame of a round. */
  function First(round: nat, frames: nat): nat {
    round * frames
  }

  lemma FirstNext(round: nat, frames: nat)
    ensures First(round + 1, frames) == First(round, frames) + frames
  {
  }

  /** Frame t for the first p phones. */
  function FeedFrame(l: Loop, ids: seq<int>, p: nat, source: FrameSource, t: nat): Loop
    requires p <= |ids|
  {
    if p == 0 then l
    else Fed(FeedFrame(l, ids, p - 1, source, t), ids[p - 1], source(ids[p - 1], t))
  }

  function FeedFrames(l: Loop, ids: seq<int>, source: FrameSource, from: nat, count: nat): Loop {
    if count == 0 then l
    else FeedFrame(FeedFrames(l, ids, source, from, count - 1), ids, |ids|, source, from + count - 1)
  }

  function Keep(tape: R.Tape, result: StepResult): (r: R.Tape)
    requires R.WellFormed(tape)
    ensures R.WellFormed(r) && r.phoneIds == tape.phoneIds
  {
    if result.Frame? then R.Recorded(tape, R.Frame(result.channels, result.beamformed)) else tape
  }

  /** `raised`: a step has raised, which ends the run. */
  datatype State = State(loop: Loop, tape: R.Tape, raised: bool)

  /** Feed one window, step, record. */
  function Round(s: State, ids: seq<int>, frames: nat, source: FrameSource, beam: seq<Signal> -> Signal, from: nat)
    : (r: State)
    requires R.WellFormed(s.tape)
    ensures R.WellFormed(r.tape) && r.tape.phoneIds == s.tape.phoneIds
  {
    var (l, result) := Stepped(FeedFrames(s.loop, ids, source, from, frames), beam);
    State(l, Keep(s.tape, result), result.Raised?)
  }

  function Rounds(s: State, ids: seq<int>, frames: nat, source: FrameSource, beam: seq<Signal> -> Signal, rounds: nat)
    : (r: State)
    requires R.WellFormed(s.tape)
    ensures R.WellFormed(r.tape) && r.tape.phoneIds == s.tape.phoneIds
  {
    if rounds == 0 then s
    else
      var before := Rounds(s, ids, frames, source, beam, rounds - 1);
      if before.raised then before else
      Round(before, ids, frames, source, beam, First(rounds - 1, frames))
  }

  function Fresh(ids: seq<int>, rate: nat, frames: nat): State {
    State(Loop(ids, map[], rate, FRAME_SAMPLES * frames, 0, 0), R.Blank(ids), false)
  }

  // ----- Feeding -----

  predicate SameSetup(l: Loop, m: Loop) {
    m == l.(buffers := m.buffers)
  }

  lemma {:induction false} FeedFrameBuffers(l: Loop, ids: seq<int>, p: nat, source: FrameSource, t: nat)
    requires p <= |ids| && Distinct(ids)
    ensures
      var m := FeedFrame(l, ids, p, source, t);
      && SameSetup(l, m)
      && (forall i | 0 <= i < p ::
            Buffer(m, ids[i]) == Clipped(Buffer(l, ids[i]) + source(ids[i], t), l.sampleRateHz))
      && (forall i | p <= i < |ids| :: Buffer(m, ids[i]) == Buffer(l, ids[i]))
  {
    hide Clipped;
    if p > 0 {
      FeedFrameBuffers(l, ids, p - 1, source, t);
    }
  }

  lemma {:induction false} StreamLength(source: FrameSource, pid: int, from: nat, count: nat)
    requires WholeFrames(source)
    ensures |Stream(source, pid, from, count)| == FRAME_SAMPLES * count
  {
    if count > 0 {
      StreamLength(source, pid, from, count - 1);
    }
  }

  lemma {:induction false} StreamJoins(source: FrameSource, pid: int, from: nat, a: nat, b: nat)
    ensures Stream(source, pid, from, a + b) == Stream(source, pid, from, a) + Stream(source, pid, from + a, b)
  {
    if b > 0 {
      StreamJoins(source, pid, from, a, b - 1);
    }
  }

  predicate Empty(l: Loop) {
    forall i | 0 <= i < |l.ids| :: Buffer(l, l.ids[i]) == []
  }

  /** The window fits the one-second buffer of a positive sample rate. */
  predicate Fits(rate: nat, need: nat) {
    0 < rate && need <= rate
  }

  lemma StreamNone(source: FrameSource, pid: int, from: nat)
    ensures Stream(source, pid, from, 0) == []
  {
  }

  lemma StreamNext(source: FrameSource, pid: int, from: nat, count: nat, rate: nat)
    requires WholeFrames(source) && count > 0 && Fits(rate, FRAME_SAMPLES * count)
    ensures Clipped(Stream(source, pid, from, count - 1) + source(pid, from + count - 1), rate)
         == Stream(source, pid, from, count)
  {
    StreamLength(source, pid, from, count);
  }

  /** With room for it, empty buffers end up holding exactly the frames fed. */
  lemma {:induction false} FeedFramesBuffers(l: Loop, source: FrameSource, from: nat, count: nat)
    requires Distinct(l.ids) && WholeFrames(source) && Empty(l)
    requires Fits(l.sampleRateHz, FRAME_SAMPLES * count)
    ensures
      var m := FeedFrames(l, l.ids, source, from, count);
      && SameSetup(l, m)
      && forall i | 0 <= i < |l.ids| :: Buffer(m, l.ids[i]) == Stream(source, l.ids[i], from, count)
  {
    hide FeedFrame, Clipped, Stream;
    if count > 0 {
      FeedFramesBuffers(l, source, from, count - 1);
      var before := FeedFrames(l, l.ids, source, from, count - 1);
      FeedFrameBuffers(before, l.ids, |l.ids|, source, from + count - 1);
      forall i | 0 <= i < |l.ids|
        ensures Clipped(Stream(source, l.ids[i], from, count - 1) + source(l.ids[i], from + count - 1), l.sampleRateHz)
             == Stream(source, l.ids[i], from, count)
      {
        StreamNext(source, l.ids[i], from, count, l.sampleRateHz);
      }
    } else {
      forall i | 0 <= i < |l.ids| ensures Stream(source, l.ids[i], from, 0) == [] {
        StreamNone(source, l.ids[i], from);
      }
    }
  }

  lemma ClippedFits(s: Signal, max: nat)
    requires max > 0
    ensures |Clipped(s, max)| <= max
  {
  }

  predicate Bounded(l: Loop) {
    forall i | 0 <= i < |l.ids| :: |Buffer(l, l.ids[i])| <= l.sampleRateHz
  }

  lemma {:induction false} FeedFramesBounded(l: Loop, source: FrameSource, from: nat, count: nat)
    requires Distinct(l.ids) && (l.sampleRateHz > 0 ==> Bounded(l))
    ensures SameSetup(l, FeedFrames(l, l.ids, source, from, count))
    ensures l.sampleRateHz > 0 ==> Bounded(FeedFrames(l, l.ids, source, from, count))
  {
    hide FeedFrame, Clipped;
    if count > 0 {
      FeedFramesBounded(l, source, from, count - 1);
      var before := FeedFrames(l, l.ids, source, from, count - 1);
      FeedFrameBuffers(before, l.ids, |l.ids|, source, from + count - 1);
      forall i | 0 <= i < |l.ids| && l.sampleRateHz > 0
        ensures
          |Clipped(Buffer(before, l.ids[i]) + source(l.ids[i], from + count - 1), l.sampleRateHz)| <= l.sampleRateHz
      {
        ClippedFits(Buffer(before, l.ids[i]) + source(l.ids[i], from + count - 1), l.sampleRateHz);
      }
    }
  }

  // ----- One round -----

  function Windows(source: FrameSource, ids: seq<int>, from: nat, count: nat): (chs: seq<Signal>)
    ensures |chs| == |ids|
  {
    seq(|ids|, i requires 0 <= i < |ids| => Stream(source, ids[i], from, count))
  }

  lemma RoundTakesAll(l: Loop, source: FrameSource, from: nat, frames: nat, beam: seq<Signal> -> Signal)
    requires Distinct(l.ids) && l.ids != [] && WholeFrames(source) && Empty(l)
    requires frames > 0 && l.need == FRAME_SAMPLES * frames && Fits(l.sampleRateHz, l.need)
    ensures
      var (m, r) := Stepped(FeedFrames(l, l.ids, source, from, frames), beam);
      var chs := Windows(source, l.ids, from, frames);
      && r == StepResult.Frame(chs, beam(chs))
      && m.ids == l.ids && m.need == l.need && m.sampleRateHz == l.sampleRateHz
      && Empty(m)
  {
    FeedFramesBuffers(l, source, from, frames);
    var fed := FeedFrames(l, l.ids, source, from, frames);
    forall i | 0 <= i < |l.ids| ensures |Buffer(fed, l.ids[i])| == l.need {
      StreamLength(source, l.ids[i], from, frames);
    }
    assert Channels(fed) == Windows(source, l.ids, from, frames);
  }

  lemma RoundTooSmall(l: Loop, source: FrameSource, from: nat, frames: nat, beam: seq<Signal> -> Signal)
    requires Distinct(l.ids) && l.ids != []
    requires l.sampleRateHz == 0 || (Bounded(l) && l.sampleRateHz < l.need)
    ensures
      var (m, r) := Stepped(FeedFrames(l, l.ids, source, from, frames), beam);
      && !r.Frame? && m.ids == l.ids && m.need == l.need && m.sampleRateHz == l.sampleRateHz
      && (l.sampleRateHz > 0 ==> Bounded(m))
  {
    FeedFramesBounded(l, source, from, frames);
    var fed := FeedFrames(l, l.ids, source, from, frames);
    if l.sampleRateHz > 0 {
      assert |Buffer(fed, fed.ids[0])| < fed.need;
      var m := Stepped(fed, beam).0;
      assert forall pid :: Buffer(m, pid) == Buffer(fed, pid);
    }
  }

  // ----- Whole runs -----

  function Taken(source: FrameSource, ids: seq<int>, frames: nat, beam: seq<Signal> -> Signal, rounds: nat)
    : (r: seq<R.Frame>)
    ensures |r| == rounds
  {
    if rounds == 0 then []
    else
      var chs := Windows(source, ids, First(rounds - 1, frames), frames);
      Taken(source, ids, frames, beam, rounds - 1) + [R.Frame.Frame(chs, beam(chs))]
  }

  lemma {:induction false} RoundsTakeAll(
    ids: seq<int>, rate: nat, frames: nat, source: FrameSource, beam: seq<Signal> -> Signal, rounds: nat)
    requires Distinct(ids) && ids != [] && frames > 0 && WholeFrames(source)
    requires Fits(rate, FRAME_SAMPLES * frames)
    ensures
      var s := Rounds(Fresh(ids, rate, frames), ids, frames, source, beam, rounds);
      && s.loop.ids == ids && s.loop.need == FRAME_SAMPLES * frames && s.loop.sampleRateHz == rate
      && Empty(s.loop) && !s.raised
      && s.tape == R.RecordAll(R.Blank(ids), Taken(source, ids, frames, beam, rounds))
  {
    hide R.Recorded, R.Blank, Empty, Windows, First, Stepped, FeedFrames;
    if rounds == 0 {
      assert Empty(Fresh(ids, rate, frames).loop) by {
        EmptyStart(ids, rate, frames);
      }
    } else {
      RoundsTakeAll(ids, rate, frames, source, beam, rounds - 1);
      var before := Rounds(Fresh(ids, rate, frames), ids, frames, source, beam, rounds - 1);
      var from := First(rounds - 1, frames);
      RoundTakesAll(before.loop, source, from, frames, beam);
      var chs := Windows(source, ids, from, frames);
      R.RecordOneMore(R.Blank(ids), Taken(source, ids, frames, beam, rounds - 1), R.Frame.Frame(chs, beam(chs)));
    }
  }

  lemma EmptyStart(ids: seq<int>, rate: nat, frames: nat)
    ensures Empty(Fresh(ids, rate, frames).loop) && Bounded(Fresh(ids, rate, frames).loop)
  {
  }

  lemma {:induction false} RoundsTooSmall(
    ids: seq<int>, rate: nat, frames: nat, source: FrameSource, beam: seq<Signal> -> Signal, rounds: nat)
    requires Distinct(ids) && ids != [] && !Fits(rate, FRAME_SAMPLES * frames)
    ensures
      var s := Rounds(Fresh(ids, rate, frames), ids, frames, source, beam, rounds);
      && s.loop.ids == ids && s.loop.need == FRAME_SAMPLES * frames && s.loop.sampleRateHz == rate
      && (rate > 0 ==> Bounded(s.loop))
      && s.tape == R.Blank(ids)
  {
    hide R.Recorded, R.Blank, Bounded, First, Stepped, FeedFrames;
    if rounds == 0 {
      EmptyStart(ids, rate, frames);
    } else {
      RoundsTooSmall(ids, rate, frames, source, beam, rounds - 1);
      var before := Rounds(Fresh(ids, rate, frames), ids, frames, source, beam, rounds - 1);
      if !before.raised {
        RoundTooSmall(before.loop, source, First(rounds - 1, frames), frames, beam);
      }
    }
  }

  // ----- What is on tape -----

  lemma NothingTaken(source: FrameSource, pid: int, frames: nat, i: nat)
    ensures R.Column([], i) == [] && R.Joined([]) == Stream(source, pid, 0, First(0, frames))
  {
  }

  lemma WindowAt(source: FrameSource, ids: seq<int>, from: nat, count: nat, i: nat)
    requires i < |ids|
    ensures Windows(source, ids, from, count)[i] == Stream(source, ids[i], from, count)
  {
  }

  lemma {:induction false} TakenColumn(
    source: FrameSource, ids: seq<int>, frames: nat, beam: seq<Signal> -> Signal, rounds: nat, i: nat)
    requires i < |ids|
    ensures
      var chunks := R.Column(Taken(source, ids, frames, beam, rounds), i);
      |chunks| == rounds && R.Joined(chunks) == Stream(source, ids[i], 0, First(rounds, frames))
  {
    hide First, Windows, Stream, R.Joined, R.Column;
    if rounds == 0 {
      NothingTaken(source, ids[i], frames, i);
    } else {
      var from := First(rounds - 1, frames);
      var before := Taken(source, ids, frames, beam, rounds - 1);
      var chs := Windows(source, ids, from, frames);
      TakenColumn(source, ids, frames, beam, rounds - 1, i);
      R.ColumnOfMore(before, R.Frame.Frame(chs, beam(chs)), i);
      R.JoinedOfMore(R.Column(before, i), chs[i]);
      WindowAt(source, ids, from, frames, i);
      StreamJoins(source, ids[i], 0, from, frames);
      FirstNext(rounds - 1, frames);
    }
  }

  predicate AllOfLength(chs: seq<Signal>, n: nat) {
    forall i | 0 <= i < |chs| :: |chs[i]| == n
  }

  /** Beamforming equally long channels gives a signal of their length. */
  ghost predicate LengthPreserving(beam: seq<Signal> -> Signal) {
    forall chs, n: nat | chs != [] && AllOfLength(chs, n) :: |beam(chs)| == n
  }

  lemma {:induction false} TakenBeams(
    source: FrameSource, ids: seq<int>, frames: nat, beam: seq<Signal> -> Signal, rounds: nat)
    requires ids != [] && WholeFrames(source) && LengthPreserving(beam)
    ensures |R.Joined(R.Beams(Taken(source, ids, frames, beam, rounds)))| == FRAME_SAMPLES * (First(rounds, frames))
  {
    if rounds > 0 {
      TakenBeams(source, ids, frames, beam, rounds - 1);
      var from := First(rounds - 1, frames);
      var chs := Windows(source, ids, from, frames);
      forall i | 0 <= i < |chs| ensures |chs[i]| == FRAME_SAMPLES * frames {
        StreamLength(source, ids[i], from, frames);
      }
      assert AllOfLength(chs, FRAME_SAMPLES * frames);
      var before := R.Beams(Taken(source, ids, frames, beam, rounds - 1));
      var beams := R.Beams(Taken(source, ids, frames, beam, rounds));
      assert beams == before + [beam(chs)];
      assert beams[..rounds - 1] == before;
      FirstNext(rounds - 1, frames);
    }
  }

  // ----- The main results -----

  /**
   With a window that fits the buffer, the file of the i-th smallest phone id is everything the
   i-th registered phone sent, without gap or repetition, and the beamformed track is as long;
   with one that does not fit, nothing is ever recorded.
   */
  lemma RunRecorded(
    ids: seq<int>, rate: nat, frames: nat, source: FrameSource, beam: seq<Signal> -> Signal, rounds: nat)
    requires Distinct(ids) && ids != [] && frames > 0 && WholeFrames(source)
    ensures |R.SortedIds(ids)| == |ids|
    ensures
      var tape := Rounds(Fresh(ids, rate, frames), ids, frames, source, beam, rounds).tape;
      if Fits(rate, FRAME_SAMPLES * frames) then
        && (forall i | 0 <= i < |ids| ::
              && |tape.channels[R.SortedIds(ids)[i]]| == rounds
              && R.Joined(tape.channels[R.SortedIds(ids)[i]]) == Stream(source, ids[i], 0, rounds * frames))
        && (LengthPreserving(beam) ==> |R.Joined(tape.beamformed)| == FRAME_SAMPLES * (rounds * frames))
      else tape == R.Blank(ids)
  {
    hide LengthPreserving, Stream, R.Joined, R.Column, R.Beams, Rounds, R.RecordAll, R.SortedIds, Taken;
    R.SortedIdsShape(ids);
    if Fits(rate, FRAME_SAMPLES * frames) {
      RoundsTakeAll(ids, rate, frames, source, beam, rounds);
      var taken := Taken(source, ids, frames, beam, rounds);
      forall i | 0 <= i < |ids|
        ensures R.RecordAll(R.Blank(ids), taken).channels[R.SortedIds(ids)[i]] == R.Column(taken, i)
        ensures |R.Column(taken, i)| == rounds
        ensures R.Joined(R.Column(taken, i)) == Stream(source, ids[i], 0, First(rounds, frames))
      {
        R.TapeHoldsColumns(ids, taken, i);
        TakenColumn(source, ids, frames, beam, rounds, i);
      }
      R.TapeHoldsColumns(ids, taken, 0);
      if LengthPreserving(beam) {
        TakenBeams(source, ids, frames, beam, rounds);
      }
    } else {
      RoundsTooSmall(ids, rate, frames, source, beam, rounds);
    }
  }

  /** Every phone's recorded audio is what that phone sent. */
  predicate EachOwn(tape: R.Tape, ids: seq<int>, source: FrameSource, count: nat) {
    forall i | 0 <= i < |ids| ::
      ids[i] in tape.channels && R.Audio(tape.channels[ids[i]]) == Stream(source, ids[i], 0, count)
  }

  function TaggedSample(pid: int): Sample {
    pid as real
  }

  /** Frames whose every sample is the phone's own number. */
  function Tagged(pid: int, t: nat): (s: Signal)
    ensures |s| == FRAME_SAMPLES && s[0] == TaggedSample(pid)
  {
    seq(FRAME_SAMPLES, i requires 0 <= i < FRAME_SAMPLES => TaggedSample(pid))
  }

  lemma {:induction false} TaggedStream(pid: int, count: nat)
    requires count > 0
    ensures |Stream(Tagged, pid, 0, count)| > 0 && Stream(Tagged, pid, 0, count)[0] == TaggedSample(pid)
  {
    if count > 1 {
      TaggedStream(pid, count - 1);
    } else {
      assert Stream(Tagged, pid, 0, 0) == [];
    }
  }

  lemma OwnWhenAscending(
    ids: seq<int>, rate: nat, frames: nat, source: FrameSource, beam: seq<Signal> -> Signal, rounds: nat)
    requires Distinct(ids) && ids != [] && frames > 0 && rounds > 0 && WholeFrames(source)
    requires Fits(rate, FRAME_SAMPLES * frames) && R.Ascending(ids)
    ensures EachOwn(Rounds(Fresh(ids, rate, frames), ids, frames, source, beam, rounds).tape,
                    ids, source, rounds * frames)
  {
    hide Stream, R.Joined, Rounds, R.SortedIds;
    RunRecorded(ids, rate, frames, source, beam, rounds);
    R.SortedIdsShape(ids);
    var tape := Rounds(Fresh(ids, rate, frames), ids, frames, source, beam, rounds).tape;
    assert tape.phoneIds == ids;
  }

  lemma StreamPositive(rounds: nat, frames: nat)
    requires rounds > 0 && frames > 0
    ensures rounds * frames > 0
  {
  }

  lemma NotOwnWhenTooSmall(ids: seq<int>, rate: nat, frames: nat, beam: seq<Signal> -> Signal, rounds: nat)
    requires Distinct(ids) && ids != [] && frames > 0 && rounds > 0 && !Fits(rate, FRAME_SAMPLES * frames)
    ensures !EachOwn(Rounds(Fresh(ids, rate, frames), ids, frames, Tagged, beam, rounds).tape,
                     ids, Tagged, rounds * frames)
  {
    hide Stream, R.Joined, Rounds, R.SortedIds;
    RunRecorded(ids, rate, frames, Tagged, beam, rounds);
    StreamPositive(rounds, frames);
    StreamLength(Tagged, ids[0], 0, rounds * frames);
    assert ids[0] in ids;
  }

  /** The file of one phone is the stream of another. */
  predicate Holds(tape: R.Tape, pid: int, source: FrameSource, other: int, count: nat) {
    pid in tape.channels && R.Audio(tape.channels[pid]) == Stream(source, other, 0, count)
  }

  /** Some phone's file is another phone's stream. */
  lemma FilesSwapped(
    ids: seq<int>, rate: nat, frames: nat, source: FrameSource, beam: seq<Signal> -> Signal, rounds: nat)
    returns (k: nat, other: int)
    requires Distinct(ids) && ids != [] && frames > 0 && rounds > 0 && WholeFrames(source)
    requires Fits(rate, FRAME_SAMPLES * frames) && !R.Ascending(ids)
    ensures k < |ids| && other != ids[k]
    ensures Holds(Rounds(Fresh(ids, rate, frames), ids, frames, source, beam, rounds).tape,
                  ids[k], source, other, rounds * frames)
  {
    hide Stream, R.Joined, Rounds, R.SortedIds, R.Ascending, WholeFrames, LengthPreserving;
    RunRecorded(ids, rate, frames, source, beam, rounds);
    var tape := Rounds(Fresh(ids, rate, frames), ids, frames, source, beam, rounds).tape;
    var sorted := R.SortedIds(ids);
    assert sorted != ids;
    var i :| 0 <= i < |ids| && sorted[i] != ids[i];
    assert sorted[i] in sorted;
    k :| 0 <= k < |ids| && ids[k] == sorted[i];
    other := ids[i];
    assert |tape.channels[ids[k]]| == rounds;
  }

  lemma NotOwnWhenUnordered(ids: seq<int>, rate: nat, frames: nat, beam: seq<Signal> -> Signal, rounds: nat)
    requires Distinct(ids) && ids != [] && frames > 0 && rounds > 0
    requires Fits(rate, FRAME_SAMPLES * frames) && !R.Ascending(ids)
    ensures !EachOwn(Rounds(Fresh(ids, rate, frames), ids, frames, Tagged, beam, rounds).tape,
                     ids, Tagged, rounds * frames)
  {
    hide Stream, R.Audio, Rounds, R.Ascending, Tagged, WholeFrames;
    TaggedWhole();
    StreamPositive(rounds, frames);
    var k, other := FilesSwapped(ids, rate, frames, Tagged, beam, rounds);
    TaggedStream(ids[k], rounds * frames);
    TaggedStream(other, rounds * frames);
  }

  lemma TaggedWhole()
    ensures WholeFrames(Tagged)
  {
  }

  /**
   Each phone's file is that phone's own stream, whatever the phones send, if and only if a
   window fits the one-second buffer and the phones were registered in ascending order.
   */
  lemma LosslessIff(ids: seq<int>, rate: nat, frames: nat, beam: seq<Signal> -> Signal, rounds: nat)
    requires Distinct(ids) && ids != [] && frames > 0 && rounds > 0
    ensures
      (forall source: FrameSource | WholeFrames(source) ::
         EachOwn(Rounds(Fresh(ids, rate, frames), ids, frames, source, beam, rounds).tape,
                 ids, source, rounds * frames))
      <==> Fits(rate, FRAME_SAMPLES * frames) && R.Ascending(ids)
  {
    hide EachOwn, Rounds, WholeFrames;
    if Fits(rate, FRAME_SAMPLES * frames) && R.Ascending(ids) {
      forall source: FrameSource | WholeFrames(source)
        ensures EachOwn(Rounds(Fresh(ids, rate, frames), ids, frames, source, beam, rounds).tape,
                        ids, source, rounds * frames)
      {
        OwnWhenAscending(ids, rate, frames, source, beam, rounds);
      }
    } else {
      TaggedWhole();
      if Fits(rate, FRAME_SAMPLES * frames) {
        NotOwnWhenUnordered(ids, rate, frames, beam, rounds);
      } else {
        NotOwnWhenTooSmall(ids, rate, frames, beam, rounds);
      }
    }
  }

  // ----- The files -----

  /** A phone's samples one by one: frame after frame, 960 to a frame. */
  ghost function Heard(source: FrameSource, pid: int, from: nat, count: nat): (s: Signal)
    requires WholeFrames(source)
  {
    seq(960 * count, k requires 0 <= k < 960 * count => source(pid, from + k / 960)[k % 960])
  }

  lemma {:induction false} StreamIsHeard(source: FrameSource, pid: int, from: nat, count: nat)
    requires WholeFrames(source)
    ensures Stream(source, pid, from, count) == Heard(source, pid, from, count)
  {
    hide WholeFrames;
    if count > 0 {
      var last := source(pid, from + count - 1);
      assert |last| == 960 by { WholeFrame(source, pid, from + count - 1); }
      StreamIsHeard(source, pid, from, count - 1);
      forall k | 0 <= k < 960 ensures Heard(source, pid, from, count)[960 * (count - 1) + k] == last[k] {}
      assert Heard(source, pid, from, count) == Heard(source, pid, from, count - 1) + last;
    }
  }

  lemma WholeFrame(source: FrameSource, pid: int, t: nat)
    requires WholeFrames(source)
    ensures |source(pid, t)| == 960
  {
  }

  /** The beamformer's output for the channels of round after round. */
  ghost function BeamTrack(
    source: FrameSource, ids: seq<int>, frames: nat, beam: seq<Signal> -> Signal, rounds: nat): Signal
    requires WholeFrames(source)
  {
    if rounds == 0 then []
    else
      BeamTrack(source, ids, frames, beam, rounds - 1)
      + beam(seq(|ids|, i requires 0 <= i < |ids| => Heard(source, ids[i], (rounds - 1) * frames, frames)))
  }

  lemma {:induction false} TakenBeamTrack(
    source: FrameSource, ids: seq<int>, frames: nat, beam: seq<Signal> -> Signal, rounds: nat)
    requires WholeFrames(source)
    ensures R.Joined(R.Beams(Taken(source, ids, frames, beam, rounds))) == BeamTrack(source, ids, frames, beam, rounds)
  {
    hide Stream, Heard;
    if rounds > 0 {
      TakenBeamTrack(source, ids, frames, beam, rounds - 1);
      var from := First(rounds - 1, frames);
      var chs := Windows(source, ids, from, frames);
      forall i | 0 <= i < |ids| ensures chs[i] == Heard(source, ids[i], from, frames) {
        StreamIsHeard(source, ids[i], from, frames);
      }
      assert chs == seq(|ids|, i requires 0 <= i < |ids| => Heard(source, ids[i], from, frames));
      var before := R.Beams(Taken(source, ids, frames, beam, rounds - 1));
      assert R.Beams(Taken(source, ids, frames, beam, rounds)) == before + [beam(chs)];
      R.JoinedOfMore(before, beam(chs));
    }
  }

  /**
   What a recording of phones in ascending order leaves on disk: a file for each phone, then the
   beamformed one, holding everything the phones sent; or one silent sample each if nothing was recorded.
   */
  ghost predicate DiskHolds(
    disk: seq<R.WavFile>, ids: seq<int>, rate: nat, frames: nat, source: FrameSource,
    beam: seq<Signal> -> Signal, rounds: nat, runId: string)
    requires WholeFrames(source)
  {
    var full := rounds > 0 && Fits(rate, 960 * frames);
    && |disk| == |ids| + 1
    && (forall i | 0 <= i < |ids| :: disk[i].stem == FileNames.PhoneStem(runId, ids[i]))
    && disk[|ids|].stem == FileNames.BeamformedStem(runId)
    && (forall i | 0 <= i <= |ids| :: disk[i].sampleRateHz == rate)
    && (full ==>
          && (forall i | 0 <= i < |ids| :: R.WrittenAs(Heard(source, ids[i], 0, rounds * frames), disk[i].samples))
          && R.WrittenAs(BeamTrack(source, ids, frames, beam, rounds), disk[|ids|].samples))
    && (!full ==> forall i | 0 <= i <= |ids| :: disk[i].samples == [0])
  }

  lemma FileAt(tape: R.Tape, runId: string, rate: int, i: nat)
    requires R.WellFormed(tape) && i <= |tape.phoneIds|
    ensures R.Files(tape, runId, rate)[i]
         == if i < |tape.phoneIds| then R.PhoneFile(tape, runId, rate, tape.phoneIds[i])
            else R.WavFile(FileNames.BeamformedStem(runId), R.Pcm16(R.Audio(tape.beamformed)), rate)
  {
    hide R.PhoneFile, R.Pcm16, R.Audio;
    if i < |tape.phoneIds| {
      R.PhoneFilesAt(tape, runId, rate, |tape.phoneIds|, i);
    }
  }

  lemma SilentFile()
    ensures R.Pcm16(R.Audio([])) == [0]
  {
  }

  ghost predicate EachHeard(tape: R.Tape, ids: seq<int>, source: FrameSource, count: nat)
    requires WholeFrames(source)
  {
    forall i | 0 <= i < |ids| ::
      ids[i] in tape.channels && R.Audio(tape.channels[ids[i]]) == Heard(source, ids[i], 0, count)
  }

  /** A tape that has heard every round. */
  lemma FullTape(
    ids: seq<int>, rate: nat, frames: nat, source: FrameSource, beam: seq<Signal> -> Signal, rounds: nat)
    requires Distinct(ids) && ids != [] && R.Ascending(ids) && frames > 0 && rounds > 0
    requires WholeFrames(source) && Fits(rate, FRAME_SAMPLES * frames)
    ensures
      var tape := Rounds(Fresh(ids, rate, frames), ids, frames, source, beam, rounds).tape;
      && EachHeard(tape, ids, source, rounds * frames)
      && R.Audio(tape.beamformed) == BeamTrack(source, ids, frames, beam, rounds)
  {
    hide Stream, Heard, BeamTrack, R.Joined, Rounds, R.SortedIds, R.Beams, R.RecordAll, Taken, WholeFrames;
    OwnWhenAscending(ids, rate, frames, source, beam, rounds);
    R.SortedIdsShape(ids);
    forall i | 0 <= i < |ids|
      ensures Stream(source, ids[i], 0, rounds * frames) == Heard(source, ids[i], 0, rounds * frames)
    {
      StreamIsHeard(source, ids[i], 0, rounds * frames);
    }
    RoundsTakeAll(ids, rate, frames, source, beam, rounds);
    R.TapeHoldsColumns(ids, Taken(source, ids, frames, beam, rounds), 0);
    TakenBeamTrack(source, ids, frames, beam, rounds);
  }

  lemma NothingRounded(ids: seq<int>, rate: nat, frames: nat, source: FrameSource, beam: seq<Signal> -> Signal)
    ensures Rounds(Fresh(ids, rate, frames), ids, frames, source, beam, 0).tape == R.Blank(ids)
  {
  }

  /** What is on disk after any run of the demo, without a word about how it got there. */
  lemma FilesHold(
    ids: seq<int>, rate: nat, frames: nat, source: FrameSource, beam: seq<Signal> -> Signal, rounds: nat,
    runId: string)
    requires Distinct(ids) && ids != [] && R.Ascending(ids) && frames > 0 && WholeFrames(source)
    ensures
      var tape := Rounds(Fresh(ids, rate, frames), ids, frames, source, beam, rounds).tape;
      DiskHolds(R.Files(tape, runId, rate), ids, rate, frames, source, beam, rounds, runId)
  {
    hide Heard, BeamTrack, Rounds, R.SortedIds, R.Files, R.Audio, R.Pcm16, R.WrittenAs, R.Ascending, WholeFrames;
    hide FileNames.PhoneStem, FileNames.BeamformedStem;
    var tape := Rounds(Fresh(ids, rate, frames), ids, frames, source, beam, rounds).tape;
    R.SortedIdsShape(ids);
    forall i: nat | i <= |ids| ensures R.Files(tape, runId, rate)[i]
         == if i < |ids| then R.PhoneFile(tape, runId, rate, ids[i])
            else R.WavFile(FileNames.BeamformedStem(runId), R.Pcm16(R.Audio(tape.beamformed)), rate)
    {
      FileAt(tape, runId, rate, i);
    }
    if rounds > 0 && Fits(rate, FRAME_SAMPLES * frames) {
      FullTape(ids, rate, frames, source, beam, rounds);
      forall i | 0 <= i < |ids|
        ensures R.WrittenAs(Heard(source, ids[i], 0, rounds * frames), R.Pcm16(R.Audio(tape.channels[ids[i]])))
      {
        R.Pcm16Written(Heard(source, ids[i], 0, rounds * frames));
      }
      R.Pcm16Written(BeamTrack(source, ids, frames, beam, rounds));
    } else {
      SilentFile();
      if rounds == 0 {
        NothingRounded(ids, rate, frames, source, beam);
      } else {
        RoundsTooSmall(ids, rate, frames, source, beam, rounds);
      }
    }
  }

  // ----- The demo -----

  function Range(n: nat): (ids: seq<int>)
    ensures |ids| == n && Distinct(ids) && R.Ascending(ids)
  {
    seq(n, i => i)
  }

  /** `count` frames, each for every phone before the next. */
  method FeedWindow(loop: DspLoop, ids: seq<int>, source: FrameSource, from: nat, count: nat)
    requires loop.Valid()
    modifies loop`buffers
    ensures loop.Valid() && loop.View() == FeedFrames(old(loop.View()), ids, source, from, count)
  {
    hide Fed;
    for j := 0 to count
      invariant loop.Valid() && loop.View() == FeedFrames(old(loop.View()), ids, source, from, j)
    {
      ghost var fed := loop.View();
      for p := 0 to |ids|
        invariant loop.Valid() && loop.View() == FeedFrame(fed, ids, p, source, from + j)
      {
        loop.BufferPcm(ids[p], source(ids[p], from + j));
      }
    }
  }

  method DemoRound(
    loop: DspLoop, recorder: R.LoopRecorder, ids: seq<int>, source: FrameSource, from: nat,
    beam: seq<Signal> -> Signal)
    returns (raised: bool)
    requires loop.Valid() && loop.windowFrames > 0 && recorder.Valid() && !recorder.finalised
    modifies loop, recorder
    ensures loop.Valid() && recorder.Valid() && !recorder.finalised && recorder.disk == old(recorder.disk)
    ensures State(loop.View(), recorder.View().tape, raised)
         == Round(State(old(loop.View()), old(recorder.View().tape), false), ids, loop.windowFrames, source, beam, from)
  {
    hide FeedFrames, Stepped, R.Recorded, R.Files;
    FeedWindow(loop, ids, source, from, loop.windowFrames);
    var result := loop.Step(beam);
    if result.Frame? {
      var ok := recorder.Record(R.Frame.Frame(result.channels, result.beamformed));
    }
    raised := result.Raised?;
  }

  /** The recording made by a demo of `rounds` rounds is the one described above. */
  method RunDemo(
    nPhones: nat, rate: nat, windowFrames: nat, rounds: nat, source: FrameSource,
    beam: seq<Signal> -> Signal, runId: string)
    returns (recorder: R.LoopRecorder, paths: seq<string>)
    requires nPhones > 0 && windowFrames > 0
    ensures
      var ids := Range(nPhones);
      var tape := Rounds(Fresh(ids, rate, windowFrames), ids, windowFrames, source, beam, rounds).tape;
      && recorder.disk == R.Files(tape, runId, rate)
      && paths == R.Stems(recorder.disk)
    ensures WholeFrames(source) ==>
              DiskHolds(recorder.disk, Range(nPhones), rate, windowFrames, source, beam, rounds, runId)
  {
    hide Round, R.Files, R.Stems, R.SortedIds, R.Ascending, DiskHolds, WholeFrames;
    var aligner := new StreamAligner(None);
    for pid := 0 to nPhones
      invariant aligner.Valid() && aligner.ids == Range(pid)
      modifies aligner
    {
      aligner.Register(pid);
    }
    var ids := Range(nPhones);
    var loop := new DspLoop(aligner, rate, windowFrames);
    recorder := new R.LoopRecorder(ids, rate, runId);
    ghost var start := Fresh(ids, rate, windowFrames);
    var round, raised := 0, false;
    while round < rounds && !raised
      modifies loop, recorder
      invariant round <= rounds
      invariant loop.Valid() && recorder.Valid() && !recorder.finalised && recorder.disk == []
      invariant State(loop.View(), recorder.View().tape, raised)
             == Rounds(start, ids, windowFrames, source, beam, round)
    {
      raised := DemoRound(loop, recorder, ids, source, First(round, windowFrames), beam);
      round := round + 1;
    }
    if raised {
      RaisedStays(start, ids, windowFrames, source, beam, round, rounds);
    }
    paths := recorder.Finalise();
    if WholeFrames(source) {
      FilesHold(ids, rate, windowFrames, source, beam, rounds, runId);
    }
  }

  lemma {:induction false} RaisedStays(
    s: State, ids: seq<int>, frames: nat, source: FrameSource, beam: seq<Signal> -> Signal, k: nat, rounds: nat)
    requires R.WellFormed(s.tape) && k <= rounds && Rounds(s, ids, frames, source, beam, k).raised
    ensures Rounds(s, ids, frames, source, beam, rounds) == Rounds(s, ids, frames, source, beam, k)
  {
    hide Round, First;
    if k < rounds {
      RaisedStays(s, ids, frames, source, beam, k, rounds - 1);
    }
  }
}
