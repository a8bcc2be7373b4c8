/**
 The run recorder: it keeps each frame's channels and beamformed signal, and on finalising
 writes one 16-bit file per phone and one for the beamformed signal.
 */
module Recorder {
  import opened Counting
  import opened DspLoop
  import FileNames
  import Sums

  // ----- Sixteen-bit samples -----

  function Clip(x: real): real {
    if x < -1.0 then -1.0 else if x > 1.0 then 1.0 else x
  }

  function ToPcm16(x: real): (n: int)
    ensures -32767 <= n <= 32767
  {
    Sums.Truncate(Clip(x) * 32767.0)
  }

  function Pcm16(audio: Signal): (s: seq<int>)
    ensures |s| == |audio|
  {
    seq(|audio|, i requires 0 <= i < |audio| => ToPcm16(audio[i]))
  }

  /**
   A received 16-bit sample n reaches the recorder as n / 32768; recording it moves every
   sample but zero one step towards zero.
   */
  lemma RecordedOneStepDown(n: int)
    requires -32768 <= n <= 32767
    ensures ToPcm16(n as real / 32768.0) == OneStepDown(n)
  {
  }

  /** The 16-bit value of a sample: 32767 times it, cut towards zero, and full scale beyond 1. */
  predicate Rounded(x: real, n: int) {
    if x >= 1.0 then n == 32767
    else if x <= -1.0 then n == -32767
    else if x >= 0.0 then n as real <= 32767.0 * x < n as real + 1.0
    else n as real - 1.0 < 32767.0 * x <= n as real
  }

  predicate Received(x: real, n: int) {
    -32768 <= n <= 32767 && x == n as real / 32768.0
  }

  function OneStepDown(n: int): int {
    if n > 0 then n - 1 else if n < 0 then n + 1 else 0
  }

  /** The samples of a file, one for each of the signal's and in its order. */
  ghost predicate WrittenAs(audio: Signal, samples: seq<int>) {
    && |samples| == |audio|
    && (forall k | 0 <= k < |audio| :: Rounded(audio[k], samples[k]))
    && (forall k, n | 0 <= k < |audio| && Received(audio[k], n) :: samples[k] == OneStepDown(n))
  }

  lemma SampleRounded(x: real)
    ensures Rounded(x, ToPcm16(x))
  {
  }

  lemma Pcm16Written(audio: Signal)
    ensures WrittenAs(audio, Pcm16(audio))
  {
    hide Rounded, ToPcm16;
    forall k | 0 <= k < |audio| ensures Rounded(audio[k], Pcm16(audio)[k]) {
      SampleRounded(audio[k]);
    }
    forall k, n | 0 <= k < |audio| && Received(audio[k], n) ensures Pcm16(audio)[k] == OneStepDown(n) {
      RecordedOneStepDown(n);
    }
  }

  // ----- The tape -----

  datatype Frame = Frame(channels: seq<Signal>, beamformed: Signal)

  datatype WavFile = WavFile(stem: string, samples: seq<int>, sampleRateHz: int)

  /** The chunks of each phone and of the beamformer, in recording order. */
  datatype Tape = Tape(phoneIds: seq<int>, channels: map<int, seq<Signal>>, beamformed: seq<Signal>)

  predicate Ascending(ids: seq<int>) {
    forall i, j | 0 <= i < j < |ids| :: ids[i] < ids[j]
  }

  predicate WellFormed(t: Tape) {
    Ascending(t.phoneIds) && t.channels.Keys == set pid | pid in t.phoneIds
  }

  function Placed(ids: seq<int>, x: int): (r: seq<int>) {
    if ids == [] || x < ids[0] then [x] + ids
    else if x == ids[0] then ids
    else [ids[0]] + Placed(ids[1..], x)
  }

  lemma {:induction false} PlacedAscends(ids: seq<int>, x: int)
    requires Ascending(ids)
    ensures Ascending(Placed(ids, x)) && forall y :: y in Placed(ids, x) <==> y == x || y in ids
  {
    if ids != [] && x > ids[0] {
      PlacedAscends(ids[1..], x);
      assert ids == [ids[0]] + ids[1..];
      var rest := Placed(ids[1..], x);
      forall k | 0 <= k < |rest| ensures ids[0] < rest[k] {
        assert rest[k] in rest;
      }
    }
  }

  /** Ascending, each id once. */
  function SortedIds(ids: seq<int>): (r: seq<int>)
    ensures Ascending(r) && forall x :: x in r <==> x in ids
  {
    if ids == [] then []
    else
      var front := SortedIds(ids[..|ids| - 1]);
      PlacedAscends(front, ids[|ids| - 1]);
      assert ids == ids[..|ids| - 1] + [ids[|ids| - 1]];
      Placed(front, ids[|ids| - 1])
  }

  lemma {:induction false} PlacedLength(ids: seq<int>, x: int)
    requires x !in ids
    ensures |Placed(ids, x)| == |ids| + 1
    ensures (forall i | 0 <= i < |ids| :: ids[i] < x) ==> Placed(ids, x) == ids + [x]
  {
    if ids != [] && x > ids[0] {
      PlacedLength(ids[1..], x);
      assert forall i | 0 <= i < |ids[1..]| :: ids[1..][i] == ids[i + 1];
    }
  }

  lemma {:induction false} SortedIdsShape(ids: seq<int>)
    requires Distinct(ids)
    ensures |SortedIds(ids)| == |ids|
    ensures Ascending(ids) ==> SortedIds(ids) == ids
  {
    hide Placed;
    if ids != [] {
      var front := ids[..|ids| - 1];
      var x := ids[|ids| - 1];
      SortedIdsShape(front);
      assert x !in front;
      PlacedLength(SortedIds(front), x);
      assert ids == front + [x];
    }
  }

  function Blank(phoneIds: seq<int>): (t: Tape)
    ensures WellFormed(t)
  {
    var ids := SortedIds(phoneIds);
    Tape(ids, map pid | pid in ids :: [], [])
  }

  predicate Covers(channels: map<int, seq<Signal>>, ids: seq<int>) {
    forall i | 0 <= i < |ids| :: ids[i] in channels
  }

  /** The first n channels of a frame go to the first n phones, by position. */
  function Appended(ids: seq<int>, channels: map<int, seq<Signal>>, frame: seq<Signal>, n: nat)
    : (r: map<int, seq<Signal>>)
    requires n <= |ids| && n <= |frame| && Covers(channels, ids)
    ensures r.Keys == channels.Keys
  {
    if n == 0 then channels
    else
      var before := Appended(ids, channels, frame, n - 1);
      before[ids[n - 1] := before[ids[n - 1]] + [frame[n - 1]]]
  }

  function Least(a: nat, b: nat): nat {
    if a < b then a else b
  }

  function Recorded(t: Tape, f: Frame): (r: Tape)
    requires WellFormed(t)
    ensures WellFormed(r) && r.phoneIds == t.phoneIds
  {
    var n := Least(|t.phoneIds|, |f.channels|);
    Tape(t.phoneIds, Appended(t.phoneIds, t.channels, f.channels, n), t.beamformed + [f.beamformed])
  }

  function RecordAll(t: Tape, frames: seq<Frame>): (r: Tape)
    requires WellFormed(t)
    ensures WellFormed(r) && r.phoneIds == t.phoneIds
  {
    if frames == [] then t
    else Recorded(RecordAll(t, frames[..|frames| - 1]), frames[|frames| - 1])
  }

  /** One chunk after another; a single silent sample when there is none. */
  function Joined(chunks: seq<Signal>): Signal {
    if chunks == [] then [] else Joined(chunks[..|chunks| - 1]) + chunks[|chunks| - 1]
  }

  function Audio(chunks: seq<Signal>): Signal {
    if chunks == [] then [0.0] else Joined(chunks)
  }

  function PhoneFile(t: Tape, runId: string, rate: int, pid: int): WavFile
    requires pid in t.channels
  {
    WavFile(FileNames.PhoneStem(runId, pid), Pcm16(Audio(t.channels[pid])), rate)
  }

  function PhoneFiles(t: Tape, runId: string, rate: int, n: nat): (files: seq<WavFile>)
    requires WellFormed(t) && n <= |t.phoneIds|
    ensures |files| == n
  {
    if n == 0 then []
    else PhoneFiles(t, runId, rate, n - 1) + [PhoneFile(t, runId, rate, t.phoneIds[n - 1])]
  }

  lemma {:induction false} PhoneFilesAt(t: Tape, runId: string, rate: int, n: nat, i: nat)
    requires WellFormed(t) && i < n <= |t.phoneIds|
    ensures PhoneFiles(t, runId, rate, n)[i] == PhoneFile(t, runId, rate, t.phoneIds[i])
  {
    hide PhoneFile;
    if i < n - 1 {
      PhoneFilesAt(t, runId, rate, n - 1, i);
    }
  }

  /** Phones ascending, then the beamformed signal. */
  function Files(t: Tape, runId: string, rate: int): (files: seq<WavFile>)
    requires WellFormed(t)
    ensures |files| == |t.phoneIds| + 1
  {
    PhoneFiles(t, runId, rate, |t.phoneIds|)
    + [WavFile(FileNames.BeamformedStem(runId), Pcm16(Audio(t.beamformed)), rate)]
  }

  function Stems(files: seq<WavFile>): (stems: seq<string>)
    ensures |stems| == |files|
  {
    seq(|files|, i requires 0 <= i < |files| => files[i].stem)
  }

  lemma StemsOfMore(files: seq<WavFile>, f: WavFile)
    ensures Stems(files + [f]) == Stems(files) + [f.stem]
  {
  }

  lemma TapeCovers(t: Tape)
    requires WellFormed(t)
    ensures Covers(t.channels, t.phoneIds)
  {
  }

  // ----- What a tape holds -----

  /** The i-th channels of the frames that have one. */
  function Column(frames: seq<Frame>, i: nat): seq<Signal> {
    if frames == [] then []
    else
      var f := frames[|frames| - 1];
      Column(frames[..|frames| - 1], i) + (if i < |f.channels| then [f.channels[i]] else [])
  }

  function Beams(frames: seq<Frame>): (r: seq<Signal>)
    ensures |r| == |frames|
  {
    seq(|frames|, i requires 0 <= i < |frames| => frames[i].beamformed)
  }

  lemma ColumnOfMore(frames: seq<Frame>, f: Frame, i: nat)
    ensures Column(frames + [f], i) == Column(frames, i) + (if i < |f.channels| then [f.channels[i]] else [])
  {
  }

  lemma JoinedOfMore(chunks: seq<Signal>, s: Signal)
    ensures Joined(chunks + [s]) == Joined(chunks) + s
  {
  }

  lemma {:induction false} AppendedAt(
    ids: seq<int>, channels: map<int, seq<Signal>>, frame: seq<Signal>, n: nat, i: nat)
    requires n <= |ids| && n <= |frame| && i < |ids| && Ascending(ids) && Covers(channels, ids)
    ensures Appended(ids, channels, frame, n)[ids[i]]
         == channels[ids[i]] + (if i < n then [frame[i]] else [])
  {
    if n > 0 {
      AppendedAt(ids, channels, frame, n - 1, i);
    }
  }

  /** Position decides: the i-th smallest phone id gets the i-th channel of every frame that has one. */
  lemma {:induction false} TapeHoldsColumns(phoneIds: seq<int>, frames: seq<Frame>, i: nat)
    requires i < |SortedIds(phoneIds)|
    ensures
      var t := RecordAll(Blank(phoneIds), frames);
      && t.channels[SortedIds(phoneIds)[i]] == Column(frames, i)
      && t.beamformed == Beams(frames)
  {
    hide SortedIds, Appended, Ascending;
    if frames != [] {
      var front := frames[..|frames| - 1];
      var f := frames[|frames| - 1];
      TapeHoldsColumns(phoneIds, front, i);
      var t := RecordAll(Blank(phoneIds), front);
      AppendedAt(t.phoneIds, t.channels, f.channels, Least(|t.phoneIds|, |f.channels|), i);
      assert Beams(frames) == Beams(front) + [f.beamformed];
    }
  }

  /** No two files of a run share a name. */
  lemma StemsDiffer(t: Tape, runId: string, rate: int, i: nat, j: nat)
    requires WellFormed(t) && i < j <= |t.phoneIds|
    ensures Files(t, runId, rate)[i].stem != Files(t, runId, rate)[j].stem
  {
    var a := t.phoneIds[i];
    var one := FileNames.PhoneStem(runId, a);
    PhoneFilesAt(t, runId, rate, |t.phoneIds|, i);
    assert Files(t, runId, rate)[i].stem == one;
    if j < |t.phoneIds| {
      PhoneFilesAt(t, runId, rate, |t.phoneIds|, j);
      assert Files(t, runId, rate)[j].stem == FileNames.PhoneStem(runId, t.phoneIds[j]);
      if one == FileNames.PhoneStem(runId, t.phoneIds[j]) {
        FileNames.PhoneStemsDiffer(runId, a, t.phoneIds[j]);
      }
    } else {
      var beam := FileNames.BeamformedStem(runId);
      assert FileNames.IsDigit(one[|one| - 1]);
      assert beam[|beam| - 1] == "_beamformed"[10];
    }
  }

  // ----- A recorder's life -----

  datatype Session = Session(
    tape: Tape, nFrames: nat, finalised: bool, paths: seq<string>, disk: seq<WavFile>)

  datatype Command = Record(frame: Frame) | Finalise

  /** Recording after finalising raises and changes nothing; finalising again writes nothing. */
  function Did(s: Session, runId: string, rate: int, c: Command): (r: Session)
    requires WellFormed(s.tape)
    ensures WellFormed(r.tape)
  {
    if s.finalised then s
    else match c
      case Record(frame) => s.(tape := Recorded(s.tape, frame), nFrames := s.nFrames + 1)
      case Finalise =>
        var files := Files(s.tape, runId, rate);
        s.(finalised := true, paths := Stems(files), disk := s.disk + files)
  }

  function DidAll(s: Session, runId: string, rate: int, commands: seq<Command>): (r: Session)
    requires WellFormed(s.tape)
    ensures WellFormed(r.tape)
  {
    if commands == [] then s
    else Did(DidAll(s, runId, rate, commands[..|commands| - 1]), runId, rate, commands[|commands| - 1])
  }

  function NewSession(phoneIds: seq<int>): (s: Session)
    ensures WellFormed(s.tape)
  {
    Session(Blank(phoneIds), 0, false, [], [])
  }

  /** The frames handed over before the first finalise. */
  function FramesBefore(commands: seq<Command>): seq<Frame> {
    if commands == [] then []
    else
      var front := commands[..|commands| - 1];
      var c := commands[|commands| - 1];
      FramesBefore(front) + (if Finalise !in front && c.Record? then [c.frame] else [])
  }

  lemma RecordOneMore(t: Tape, frames: seq<Frame>, f: Frame)
    requires WellFormed(t)
    ensures RecordAll(t, frames + [f]) == Recorded(RecordAll(t, frames), f)
  {
  }

  /** The recorder after some frames, before or after finalising. */
  function Described(phoneIds: seq<int>, runId: string, rate: int, frames: seq<Frame>, done: bool): (s: Session)
    ensures WellFormed(s.tape)
  {
    var tape := RecordAll(Blank(phoneIds), frames);
    var files := if done then Files(tape, runId, rate) else [];
    Session(tape, |frames|, done, Stems(files), files)
  }

  lemma DidDescribed(
    phoneIds: seq<int>, runId: string, rate: int, frames: seq<Frame>, done: bool, c: Command)
    ensures
      Did(Described(phoneIds, runId, rate, frames, done), runId, rate, c)
      == Described(phoneIds, runId, rate, frames + (if !done && c.Record? then [c.frame] else []),
                   done || c.Finalise?)
  {
    hide Blank, Recorded, Files, Stems, RecordAll;
    if !done && c.Record? {
      RecordOneMore(Blank(phoneIds), frames, c.frame);
    } else {
      assert frames + [] == frames;
    }
  }

  /**
   Whatever is called and in whatever order, the disk holds nothing before the first finalise
   and from then on exactly one set of files, made of the frames recorded before it.
   */
  lemma {:induction false} WrittenOnce(phoneIds: seq<int>, runId: string, rate: int, commands: seq<Command>)
    ensures
      DidAll(NewSession(phoneIds), runId, rate, commands)
      == Described(phoneIds, runId, rate, FramesBefore(commands), Finalise in commands)
  {
    hide Described, Did;
    if commands == [] {
      StartDescribed(phoneIds, runId, rate);
    } else {
      var front := commands[..|commands| - 1];
      var c := commands[|commands| - 1];
      WrittenOnce(phoneIds, runId, rate, front);
      assert commands == front + [c];
      DidDescribed(phoneIds, runId, rate, FramesBefore(front), Finalise in front, c);
    }
  }

  lemma StartDescribed(phoneIds: seq<int>, runId: string, rate: int)
    ensures NewSession(phoneIds) == Described(phoneIds, runId, rate, [], false)
  {
  }

  class LoopRecorder {
    const runId: string
    const sampleRateHz: int
    const phoneIds: seq<int>
    var channels: map<int, seq<Signal>>
    var beamformed: seq<Signal>
    var nFrames: nat
    var finalised: bool
    var writtenPaths: seq<string>
    var disk: seq<WavFile>

    function View(): Session
      reads this
    {
      Session(Tape(phoneIds, channels, beamformed), nFrames, finalised, writtenPaths, disk)
    }

    ghost predicate Valid()
      reads this
    {
      WellFormed(View().tape)
    }

    constructor (ids: seq<int>, sampleRateHz: int, runId: string)
      ensures Valid() && View() == NewSession(ids)
      ensures this.runId == runId && this.sampleRateHz == sampleRateHz
    {
      var sorted := SortedIds(ids);
      this.runId, this.sampleRateHz, this.phoneIds := runId, sampleRateHz, sorted;
      channels := map pid | pid in sorted :: [];
      beamformed, nFrames, finalised, writtenPaths, disk := [], 0, false, [], [];
    }

    /** False where the original raises. */
    method Record(frame: Frame) returns (ok: bool)
      requires Valid()
      modifies this
      ensures Valid() && ok == !old(finalised)
      ensures View() == Did(old(View()), runId, sampleRateHz, Command.Record(frame))
    {
      hide WellFormed, Ascending;
      if finalised {
        return false;
      }
      TapeCovers(View().tape);
      var nKnown := Least(|phoneIds|, |frame.channels|);
      for i := 0 to nKnown
        modifies `channels
        invariant channels == Appended(phoneIds, old(channels), frame.channels, i)
      {
        var pid := phoneIds[i];
        channels := channels[pid := channels[pid] + [frame.channels[i]]];
      }
      beamformed := beamformed + [frame.beamformed];
      nFrames := nFrames + 1;
      assert View().tape == Recorded(old(View()).tape, frame);
      ok := true;
    }

    method WriteChunks(stem: string, chunks: seq<Signal>)
      modifies `disk
      ensures disk == old(disk) + [WavFile(stem, Pcm16(Audio(chunks)), sampleRateHz)]
    {
      var audio := if chunks != [] then Joined(chunks) else [0.0];
      disk := disk + [WavFile(stem, Pcm16(audio), sampleRateHz)];
    }

    method Finalise() returns (paths: seq<string>)
      requires Valid()
      modifies this
      ensures Valid() && View() == Did(old(View()), runId, sampleRateHz, Command.Finalise)
      ensures paths == writtenPaths
    {
      hide WellFormed, Ascending, Audio, Pcm16, Stems, FileNames.PhoneStem, FileNames.BeamformedStem;
      if finalised {
        return writtenPaths;
      }
      ghost var t := View().tape;
      paths := [];
      assert Stems([]) == [];
      TapeCovers(t);
      for i := 0 to |phoneIds|
        modifies `disk
        invariant disk == old(disk) + PhoneFiles(t, runId, sampleRateHz, i)
        invariant paths == Stems(PhoneFiles(t, runId, sampleRateHz, i))
      {
        var stem := FileNames.PhoneStem(runId, phoneIds[i]);
        WriteChunks(stem, channels[phoneIds[i]]);
        paths := paths + [stem];
        StemsOfMore(PhoneFiles(t, runId, sampleRateHz, i), PhoneFile(t, runId, sampleRateHz, phoneIds[i]));
      }
      var stem := FileNames.BeamformedStem(runId);
      WriteChunks(stem, beamformed);
      paths := paths + [stem];
      StemsOfMore(PhoneFiles(t, runId, sampleRateHz, |phoneIds|),
                  WavFile(stem, Pcm16(Audio(beamformed)), sampleRateHz));
      writtenPaths, finalised := paths, true;
    }
  }
}
