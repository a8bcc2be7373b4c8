/**
 Identity over whole runs of the tracker. When every observation is within the
 association radius of where its speaker was last seen, outside the radius of where the
 other recent speakers were last seen, and finds room, tracking by nearest position
 coincides with tracking by the true speaker. Speakers may walk.
 */
module SpeakerIdentity {
  import Counting
  import opened Options
  import opened Tracker

  // ----- The ideal tracker, which is told who speaks -----

  datatype Labelled = Labelled(speaker: nat, track: TrackState)

  datatype Ideal = Ideal(live: seq<Labelled>, nextId: nat)

  function Find(live: seq<Labelled>, speaker: nat): (i: Option<nat>)
    ensures i.Some? ==> i.value < |live| && live[i.value].speaker == speaker
    ensures i.None? ==> forall k | 0 <= k < |live| :: live[k].speaker != speaker
  {
    if live == [] then None
    else if live[|live| - 1].speaker == speaker then Some(|live| - 1)
    else Find(live[..|live| - 1], speaker)
  }

  function IdealAssociate(s: Ideal, speaker: nat, p: Point, now: real): Ideal {
    var i := Find(s.live, speaker);
    if i.Some? then s.(live := s.live[i.value := Labelled(speaker, Touched(s.live[i.value].track, p, now))])
    else Ideal(s.live + [Labelled(speaker, TrackState(s.nextId, p, now, []))], s.nextId + 1)
  }

  function StillLive(live: seq<Labelled>, now: real, timeout: real): seq<Labelled> {
    if live == [] then []
    else
      var n := |live| - 1;
      StillLive(live[..n], now, timeout) + (if now - live[n].track.seen <= timeout then [live[n]] else [])
  }

  function IdealUpdated(s: Ideal, o: Observation, timeout: real): Ideal {
    var t := if o.speaker.Some? then IdealAssociate(s, o.speaker.value, o.position, o.now) else s;
    t.(live := StillLive(t.live, o.now, timeout))
  }

  function IdealRun(obs: seq<Observation>, timeout: real): Ideal {
    if obs == [] then Ideal([], 0)
    else IdealUpdated(IdealRun(obs[..|obs| - 1], timeout), obs[|obs| - 1], timeout)
  }

  function Strip(live: seq<Labelled>): (ts: seq<TrackState>)
    ensures |ts| == |live|
  {
    seq(|live|, i requires 0 <= i < |live| => live[i].track)
  }

  // ----- Labels are distinct -----

  ghost predicate Distinct(live: seq<Labelled>) {
    forall i, j | 0 <= i < j < |live| :: live[i].speaker != live[j].speaker
  }

  lemma {:induction false} StillLiveMembers(live: seq<Labelled>, now: real, timeout: real, l: Labelled)
    ensures l in StillLive(live, now, timeout) <==> l in live && now - l.track.seen <= timeout
  {
    if live != [] {
      StillLiveMembers(live[..|live| - 1], now, timeout, l);
      assert live == live[..|live| - 1] + [live[|live| - 1]];
    }
  }

  lemma {:induction false} StillLiveDistinct(live: seq<Labelled>, now: real, timeout: real)
    requires Distinct(live)
    ensures Distinct(StillLive(live, now, timeout))
  {
    if live != [] {
      var n := |live| - 1;
      var r := StillLive(live[..n], now, timeout);
      StillLiveDistinct(live[..n], now, timeout);
      forall i | 0 <= i < |r| ensures r[i].speaker != live[n].speaker {
        StillLiveMembers(live[..n], now, timeout, r[i]);
        assert r[i] in live[..n];
      }
    }
  }

  lemma FindUnique(live: seq<Labelled>, i: nat)
    requires Distinct(live) && i < |live|
    ensures Find(live, live[i].speaker) == Some(i)
  {
  }

  lemma {:induction false} IdealDistinct(obs: seq<Observation>, timeout: real)
    ensures Distinct(IdealRun(obs, timeout).live)
  {
    if obs != [] {
      var n := |obs| - 1;
      var o := obs[n];
      var before := IdealRun(obs[..n], timeout);
      IdealDistinct(obs[..n], timeout);
      var t := if o.speaker.Some? then IdealAssociate(before, o.speaker.value, o.position, o.now) else before;
      assert Distinct(t.live);
      StillLiveDistinct(t.live, o.now, timeout);
    }
  }

  // ----- Who has a track -----

  ghost predicate Ordered(obs: seq<Observation>) {
    forall i, j | 0 <= i < j < |obs| :: obs[i].now <= obs[j].now
  }

  /** The latest observation of a speaker. */
  function Latest(obs: seq<Observation>, speaker: nat): (o: Option<Observation>)
    ensures o.Some? ==> o.value in obs
  {
    if obs == [] then None
    else if obs[|obs| - 1].speaker == Some(speaker) then Some(obs[|obs| - 1])
    else Latest(obs[..|obs| - 1], speaker)
  }

  lemma {:induction false} LatestIsObserved(obs: seq<Observation>, speaker: nat) returns (k: nat)
    requires Latest(obs, speaker).Some?
    ensures k < |obs| && obs[k].speaker == Some(speaker) && Latest(obs, speaker) == Some(obs[k])
    ensures forall m | k < m < |obs| :: obs[m].speaker != Some(speaker)
  {
    k := |obs| - 1;
    if obs[k].speaker != Some(speaker) {
      k := LatestIsObserved(obs[..k], speaker);
    }
  }

  ghost predicate Recent(obs: seq<Observation>, speaker: nat, timeout: real)
    requires |obs| > 0
  {
    var o := Latest(obs, speaker);
    o.Some? && obs[|obs| - 1].now - o.value.now <= timeout
  }

  ghost predicate HasTrack(obs: seq<Observation>, speaker: nat, timeout: real) {
    Find(IdealRun(obs, timeout).live, speaker).Some?
  }

  function TrackOf(obs: seq<Observation>, speaker: nat, timeout: real): TrackState
    requires HasTrack(obs, speaker, timeout)
  {
    var s := IdealRun(obs, timeout);
    s.live[Find(s.live, speaker).value].track
  }

  /** What one update does to one speaker's entry. */
  lemma EntryAfterUpdate(s: Ideal, o: Observation, timeout: real, speaker: nat)
    requires Distinct(s.live)
    ensures
      var t := IdealUpdated(s, o, timeout);
      var was, next := Find(s.live, speaker), Find(t.live, speaker);
      && Distinct(t.live)
      && if o.speaker == Some(speaker) then
           && next.Some? == (0.0 <= timeout)
           && (next.Some? ==>
                 var now := t.live[next.value].track;
                 && now.seen == o.now && now.position == o.position
                 && now.id == (if was.Some? then s.live[was.value].track.id else s.nextId))
         else
           && next.Some? == (was.Some? && o.now - s.live[was.value].track.seen <= timeout)
           && (next.Some? ==> t.live[next.value].track == s.live[was.value].track)
  {
    hide Touched;
    var a := if o.speaker.Some? then IdealAssociate(s, o.speaker.value, o.position, o.now) else s;
    assert Distinct(a.live);
    StillLiveDistinct(a.live, o.now, timeout);
    var t := IdealUpdated(s, o, timeout);
    EntrySurvives(a.live, t.live, o.now, timeout, speaker);
    EntryAfterAssociate(s, o, speaker);
  }

  lemma EntryAfterAssociate(s: Ideal, o: Observation, speaker: nat)
    requires Distinct(s.live)
    ensures
      var a := if o.speaker.Some? then IdealAssociate(s, o.speaker.value, o.position, o.now) else s;
      var was, next := Find(s.live, speaker), Find(a.live, speaker);
      && Distinct(a.live)
      && if o.speaker == Some(speaker) then
           next.Some? &&
           var now := a.live[next.value].track;
           && now.seen == o.now && now.position == o.position
           && now.id == (if was.Some? then s.live[was.value].track.id else s.nextId)
         else
           next.Some? == was.Some? && (next.Some? ==> a.live[next.value].track == s.live[was.value].track)
  {
    var a := if o.speaker.Some? then IdealAssociate(s, o.speaker.value, o.position, o.now) else s;
    var was := Find(s.live, speaker);
    if was.Some? {
      assert a.live[was.value].speaker == speaker;
      FindUnique(a.live, was.value);
    } else if o.speaker == Some(speaker) {
      FindUnique(a.live, |s.live|);
    }
  }

  lemma EntrySurvives(live: seq<Labelled>, after: seq<Labelled>, now: real, timeout: real, speaker: nat)
    requires Distinct(live) && Distinct(after) && after == StillLive(live, now, timeout)
    ensures
      var was, next := Find(live, speaker), Find(after, speaker);
      && next.Some? == (was.Some? && now - live[was.value].track.seen <= timeout)
      && (next.Some? ==> after[next.value] == live[was.value])
  {
    var was, next := Find(live, speaker), Find(after, speaker);
    if next.Some? {
      StillLiveMembers(live, now, timeout, after[next.value]);
      var i :| 0 <= i < |live| && live[i] == after[next.value];
      FindUnique(live, i);
    }
    if was.Some? && now - live[was.value].track.seen <= timeout {
      StillLiveMembers(live, now, timeout, live[was.value]);
      var i :| 0 <= i < |after| && after[i] == live[was.value];
      FindUnique(after, i);
    }
  }

  /**
   In the ideal tracker, after every update, exactly the recently seen speakers have a track, and
   it shows their latest observation.
   */
  lemma {:induction false} IdealTrackIffRecent(obs: seq<Observation>, timeout: real, speaker: nat)
    requires Ordered(obs) && |obs| > 0
    ensures HasTrack(obs, speaker, timeout) <==> Recent(obs, speaker, timeout)
    ensures HasTrack(obs, speaker, timeout) ==>
              var t := TrackOf(obs, speaker, timeout);
              t.position == Latest(obs, speaker).value.position && t.seen == Latest(obs, speaker).value.now
  {
    var n := |obs| - 1;
    var before := IdealRun(obs[..n], timeout);
    IdealDistinct(obs[..n], timeout);
    EntryAfterUpdate(before, obs[n], timeout, speaker);
    if n > 0 {
      IdealTrackIffRecent(obs[..n], timeout, speaker);
      assert obs[n - 1].now <= obs[n].now;
    }
  }

  // ----- Refinement -----

  /** The speakers seen within the timeout of the last observation. */
  ghost function RecentSpeakers(obs: seq<Observation>, timeout: real): set<nat> {
    if obs == [] then {}
    else set o | o in obs && o.speaker.Some? && Recent(obs, o.speaker.value, timeout) :: o.speaker.value
  }

  /**
   The new observation is within the radius of where its speaker was last seen, if recently, and
   of no other recent speaker; and a speaker not seen recently finds room.
   */
  ghost predicate SeparatedFrom(cfg: Config, before: seq<Observation>, o: Observation) {
    o.speaker.Some? ==>
      && (forall t: nat | t in RecentSpeakers(before, cfg.timeout) && Latest(before, t).Some? ::
            t == o.speaker.value
            <==> SquaredDistance(Latest(before, t).value.position, o.position) <= Limit(cfg.radius))
      && (o.speaker.value in RecentSpeakers(before, cfg.timeout)
          || |RecentSpeakers(before, cfg.timeout)| < cfg.maxTracks)
  }

  ghost predicate Separated(cfg: Config, obs: seq<Observation>) {
    cfg.radius >= 0.0 && forall n | 0 <= n < |obs| :: SeparatedFrom(cfg, obs[..n], obs[n])
  }

  lemma ClosestIsSpeaker(live: seq<Labelled>, speaker: nat, p: Point, limit: real)
    requires Distinct(live)
    requires forall i | 0 <= i < |live| ::
               live[i].speaker == speaker <==> SquaredDistance(live[i].track.position, p) <= limit
    ensures Closest(Strip(live), p, limit) == Find(live, speaker)
  {
    hide SquaredDistance;
    ClosestIsNearest(Strip(live), p, limit);
    var b := Closest(Strip(live), p, limit);
    forall i | 0 <= i < |live| ensures Strip(live)[i].position == live[i].track.position {}
    if b.Some? {
      assert SquaredDistance(Strip(live)[b.value].position, p) <= limit;
      FindUnique(live, b.value);
    } else {
      forall i | 0 <= i < |live| ensures live[i].speaker != speaker {
        assert SquaredDistance(Strip(live)[i].position, p) > limit;
      }
    }
  }

  lemma {:induction false} StillLiveStrip(live: seq<Labelled>, now: real, timeout: real)
    ensures Strip(StillLive(live, now, timeout)) == Fresh(Strip(live), now, timeout)
  {
    if live != [] {
      StillLiveStrip(live[..|live| - 1], now, timeout);
      assert Strip(live)[..|live| - 1] == Strip(live[..|live| - 1]);
    }
  }

  ghost function Speakers(live: seq<Labelled>): set<nat> {
    set l | l in live :: l.speaker
  }

  lemma {:induction false} DistinctSize(live: seq<Labelled>)
    requires Distinct(live)
    ensures |Speakers(live)| == |live|
  {
    if live != [] {
      var n := |live| - 1;
      DistinctSize(live[..n]);
      assert live == live[..n] + [live[n]];
      assert Speakers(live) == Speakers(live[..n]) + {live[n].speaker};
      assert live[n].speaker !in Speakers(live[..n]);
    }
  }

  /** The ideal tracker's labels are recent speakers, at their latest positions. */
  lemma LabelsAreRecent(obs: seq<Observation>, timeout: real, l: Labelled)
    requires Ordered(obs) && l in IdealRun(obs, timeout).live
    ensures l.speaker in RecentSpeakers(obs, timeout) && Latest(obs, l.speaker).Some?
    ensures l.track.position == Latest(obs, l.speaker).value.position
  {
    hide IdealRun;
    IdealDistinct(obs, timeout);
    var live := IdealRun(obs, timeout).live;
    var i :| 0 <= i < |live| && live[i] == l;
    FindUnique(live, i);
    assert obs != [] by {
      NobodyAtFirst(timeout);
    }
    IdealTrackIffRecent(obs, timeout, l.speaker);
    var k := LatestIsObserved(obs, l.speaker);
    assert obs[k] in obs;
  }

  lemma NobodyAtFirst(timeout: real)
    ensures IdealRun([], timeout).live == []
  {
  }

  lemma RecentHasLabel(obs: seq<Observation>, timeout: real, speaker: nat)
    requires Ordered(obs) && speaker in RecentSpeakers(obs, timeout)
    ensures Find(IdealRun(obs, timeout).live, speaker).Some?
  {
    hide IdealRun;
    IdealTrackIffRecent(obs, timeout, speaker);
  }

  /** There are no more live labels than recent speakers. */
  lemma LabelsFit(obs: seq<Observation>, timeout: real)
    requires Ordered(obs)
    ensures |IdealRun(obs, timeout).live| <= |RecentSpeakers(obs, timeout)|
  {
    hide IdealRun, RecentSpeakers;
    var live := IdealRun(obs, timeout).live;
    IdealDistinct(obs, timeout);
    DistinctSize(live);
    forall l | l in live ensures l.speaker in RecentSpeakers(obs, timeout) {
      LabelsAreRecent(obs, timeout, l);
    }
    Counting.SubsetSize(Speakers(live), RecentSpeakers(obs, timeout));
  }

  lemma AssociateRefines(cfg: Config, obs: seq<Observation>, o: Observation)
    requires Ordered(obs) && SeparatedFrom(cfg, obs, o) && o.speaker.Some?
    ensures
      var s := IdealRun(obs, cfg.timeout);
      var t := IdealAssociate(s, o.speaker.value, o.position, o.now);
      Associate(cfg, Tracks(Strip(s.live), s.nextId), o.position, o.now) == Tracks(Strip(t.live), t.nextId)
  {
    hide SquaredDistance, Limit, Touched, RecentSpeakers, IdealRun;
    var s := IdealRun(obs, cfg.timeout);
    var speaker := o.speaker.value;
    IdealDistinct(obs, cfg.timeout);
    forall i | 0 <= i < |s.live|
      ensures s.live[i].speaker == speaker
              <==> SquaredDistance(s.live[i].track.position, o.position) <= Limit(cfg.radius)
    {
      assert s.live[i] in s.live;
      LabelsAreRecent(obs, cfg.timeout, s.live[i]);
    }
    ClosestIsSpeaker(s.live, speaker, o.position, Limit(cfg.radius));
    LabelsFit(obs, cfg.timeout);
    if speaker in RecentSpeakers(obs, cfg.timeout) {
      RecentHasLabel(obs, cfg.timeout, speaker);
    }
    var t := IdealAssociate(s, speaker, o.position, o.now);
    var a := Associate(cfg, Tracks(Strip(s.live), s.nextId), o.position, o.now);
    assert a.tracks == Strip(t.live);
  }

  /** On separated observations the real tracker is the ideal one with its labels removed. */
  lemma {:induction false} TrackerRefinesIdeal(cfg: Config, obs: seq<Observation>)
    requires Separated(cfg, obs) && Ordered(obs)
    ensures
      var s := IdealRun(obs, cfg.timeout);
      Run(cfg, obs) == Tracks(Strip(s.live), s.nextId)
  {
    hide Associate, IdealAssociate, SeparatedFrom;
    if obs == [] {
      assert Strip([]) == [];
    } else {
      var n := |obs| - 1;
      var o := obs[n];
      var s := IdealRun(obs[..n], cfg.timeout);
      SeparatedPrefix(cfg, obs, n);
      TrackerRefinesIdeal(cfg, obs[..n]);
      var t := s;
      if o.speaker.Some? {
        AssociateRefines(cfg, obs[..n], o);
        t := IdealAssociate(s, o.speaker.value, o.position, o.now);
      }
      StillLiveStrip(t.live, o.now, cfg.timeout);
    }
  }

  lemma SeparatedPrefix(cfg: Config, obs: seq<Observation>, k: nat)
    requires Separated(cfg, obs) && k <= |obs|
    ensures Separated(cfg, obs[..k])
  {
    hide SeparatedFrom;
    forall n | 0 <= n < k ensures obs[..k][..n] == obs[..n] {}
  }

  // ----- Speakers who keep their places -----

  /** One speaker stays within the radius, two speakers stay apart, and every speaker has room. */
  ghost predicate KeepPlaces(cfg: Config, obs: seq<Observation>, speakers: nat) {
    && speakers <= cfg.maxTracks
    && (forall i | 0 <= i < |obs| && obs[i].speaker.Some? :: obs[i].speaker.value < speakers)
    && (forall i, j | 0 <= i < |obs| && 0 <= j < |obs| && obs[i].speaker.Some? && obs[j].speaker.Some? ::
          obs[i].speaker == obs[j].speaker
          <==> SquaredDistance(obs[i].position, obs[j].position) <= Limit(cfg.radius))
  }

  /**
   Speakers at most as many as tracks, each within the radius of all its own positions and of no
   other's, are separated.
   */
  lemma KeepingPlacesSeparates(cfg: Config, obs: seq<Observation>, speakers: nat)
    requires KeepPlaces(cfg, obs, speakers) && cfg.radius >= 0.0
    ensures Separated(cfg, obs)
  {
    hide RecentSpeakers, SquaredDistance, Limit;
    forall n | 0 <= n < |obs| ensures SeparatedFrom(cfg, obs[..n], obs[n]) {
      var before := obs[..n];
      forall t: nat | Latest(before, t).Some?
        ensures exists k :: 0 <= k < n && obs[k].speaker == Some(t) && obs[k] == Latest(before, t).value
      {
        var k := LatestIsObserved(before, t);
        assert before[k] == obs[k];
      }
      if obs[n].speaker.Some? {
        FewRecent(before, cfg.timeout, obs[n].speaker.value, speakers);
      }
    }
  }

  lemma FewRecent(before: seq<Observation>, timeout: real, speaker: nat, speakers: nat)
    requires speaker < speakers
    requires forall i | 0 <= i < |before| && before[i].speaker.Some? :: before[i].speaker.value < speakers
    ensures speaker in RecentSpeakers(before, timeout) || |RecentSpeakers(before, timeout)| < speakers
  {
    var r := RecentSpeakers(before, timeout);
    Counting.BetweenSize(0, speakers);
    if speaker !in r {
      Counting.SubsetSize<int>(r + {speaker}, Counting.Between(0, speakers));
    }
  }

  /** Live tracks and recently seen speakers are in bijection. */
  lemma TracksAreRecentSpeakers(cfg: Config, obs: seq<Observation>)
    returns (labels: seq<nat>)
    requires Separated(cfg, obs) && Ordered(obs) && |obs| > 0
    ensures |labels| == |Run(cfg, obs).tracks|
    ensures forall i, j | 0 <= i < j < |labels| :: labels[i] != labels[j]
    ensures forall s: nat :: s in labels <==> Recent(obs, s, cfg.timeout)
    ensures forall i | 0 <= i < |labels| ::
              HasTrack(obs, labels[i], cfg.timeout) && Run(cfg, obs).tracks[i] == TrackOf(obs, labels[i], cfg.timeout)
    ensures forall i | 0 <= i < |labels| ::
              var o := Latest(obs, labels[i]);
              && o.Some?
              && Run(cfg, obs).tracks[i].position == o.value.position
              && Run(cfg, obs).tracks[i].seen == o.value.now
  {
    hide Run, IdealRun, SquaredDistance, Limit;
    var live := IdealRun(obs, cfg.timeout).live;
    TrackerRefinesIdeal(cfg, obs);
    IdealDistinct(obs, cfg.timeout);
    labels := seq(|live|, i requires 0 <= i < |live| => live[i].speaker);
    forall s: nat ensures s in labels <==> Recent(obs, s, cfg.timeout) {
      IdealTrackIffRecent(obs, cfg.timeout, s);
      if HasTrack(obs, s, cfg.timeout) {
        assert labels[Find(live, s).value] == s;
      }
    }
    forall i | 0 <= i < |labels|
      ensures HasTrack(obs, labels[i], cfg.timeout) && live[i].track == TrackOf(obs, labels[i], cfg.timeout)
      ensures
        var o := Latest(obs, labels[i]);
        o.Some? && live[i].track.position == o.value.position && live[i].track.seen == o.value.now
    {
      IdealTrackIffRecent(obs, cfg.timeout, labels[i]);
      FindUnique(live, i);
    }
  }

  // ----- Ids -----

  lemma {:induction false} IdsBelowNext(obs: seq<Observation>, timeout: real, speaker: nat)
    requires HasTrack(obs, speaker, timeout)
    ensures TrackOf(obs, speaker, timeout).id < IdealRun(obs, timeout).nextId
  {
    if obs != [] {
      var n := |obs| - 1;
      IdealDistinct(obs[..n], timeout);
      EntryAfterUpdate(IdealRun(obs[..n], timeout), obs[n], timeout, speaker);
      if HasTrack(obs[..n], speaker, timeout) {
        IdsBelowNext(obs[..n], timeout, speaker);
      }
    }
  }

  lemma {:induction false} NextIdGrows(obs: seq<Observation>, timeout: real, k: nat)
    requires k <= |obs|
    ensures IdealRun(obs[..k], timeout).nextId <= IdealRun(obs, timeout).nextId
    decreases |obs| - k
  {
    if k < |obs| {
      NextIdGrows(obs, timeout, k + 1);
      assert obs[..k + 1][..k] == obs[..k];
    } else {
      assert obs[..k] == obs;
    }
  }

  /** A speaker with a track before and after an update keeps its id. */
  lemma StepKeepsId(obs: seq<Observation>, timeout: real, speaker: nat)
    requires |obs| > 0
    requires HasTrack(obs[..|obs| - 1], speaker, timeout) && HasTrack(obs, speaker, timeout)
    ensures TrackOf(obs, speaker, timeout).id == TrackOf(obs[..|obs| - 1], speaker, timeout).id
  {
    var n := |obs| - 1;
    IdealDistinct(obs[..n], timeout);
    EntryAfterUpdate(IdealRun(obs[..n], timeout), obs[n], timeout, speaker);
  }

  /** A track that is there now but was missing after `k` updates has an id not given out by then. */
  lemma {:induction false} RenewedId(obs: seq<Observation>, timeout: real, speaker: nat, k: nat)
    requires k < |obs| && !HasTrack(obs[..k], speaker, timeout) && HasTrack(obs, speaker, timeout)
    ensures TrackOf(obs, speaker, timeout).id >= IdealRun(obs[..k], timeout).nextId
    decreases |obs|
  {
    var n := |obs| - 1;
    assert obs[..n][..k] == obs[..k];
    if HasTrack(obs[..n], speaker, timeout) {
      RenewedId(obs[..n], timeout, speaker, k);
      StepKeepsId(obs, timeout, speaker);
    } else {
      IdealDistinct(obs[..n], timeout);
      EntryAfterUpdate(IdealRun(obs[..n], timeout), obs[n], timeout, speaker);
      NextIdGrows(obs[..n], timeout, k);
    }
  }

  lemma {:induction false} KeptId(obs: seq<Observation>, timeout: real, speaker: nat, k: nat)
    requires 0 < k <= |obs|
    requires forall j | k <= j <= |obs| :: HasTrack(obs[..j], speaker, timeout)
    ensures obs[..|obs|] == obs && TrackOf(obs, speaker, timeout).id == TrackOf(obs[..k], speaker, timeout).id
    decreases |obs|
  {
    assert obs[..|obs|] == obs;
    if k < |obs| {
      var n := |obs| - 1;
      assert HasTrack(obs[..n], speaker, timeout) && HasTrack(obs[..n + 1], speaker, timeout);
      forall j | k <= j <= n ensures obs[..n][..j] == obs[..j] {}
      KeptId(obs[..n], timeout, speaker, k);
      StepKeepsId(obs, timeout, speaker);
    }
  }

  /**
   In the ideal tracker a speaker seen recently both after `k` updates and now has the same id at both
   times if and only if at every update in between it had been seen within the timeout.
   */
  lemma IdealSameIdIffNoGap(obs: seq<Observation>, timeout: real, speaker: nat, k: nat)
    requires Ordered(obs) && 0 < k <= |obs|
    requires HasTrack(obs[..k], speaker, timeout) && HasTrack(obs, speaker, timeout)
    ensures TrackOf(obs, speaker, timeout).id == TrackOf(obs[..k], speaker, timeout).id
            <==> forall j | k <= j <= |obs| :: Recent(obs[..j], speaker, timeout)
  {
    hide IdealRun, TrackOf, HasTrack, Recent;
    assert obs[..|obs|] == obs;
    forall j | k <= j <= |obs| ensures HasTrack(obs[..j], speaker, timeout) <==> Recent(obs[..j], speaker, timeout) {
      IdealTrackIffRecent(obs[..j], timeout, speaker);
    }
    if forall j | k <= j <= |obs| :: Recent(obs[..j], speaker, timeout) {
      KeptId(obs, timeout, speaker, k);
    } else {
      var j :| k <= j <= |obs| && !Recent(obs[..j], speaker, timeout);
      IdealGapRenewsId(obs, timeout, speaker, k, j);
    }
  }

  lemma IdealGapRenewsId(obs: seq<Observation>, timeout: real, speaker: nat, k: nat, j: nat)
    requires k <= j < |obs|
    requires HasTrack(obs[..k], speaker, timeout) && !HasTrack(obs[..j], speaker, timeout)
    requires HasTrack(obs, speaker, timeout)
    ensures TrackOf(obs[..k], speaker, timeout).id < TrackOf(obs, speaker, timeout).id
  {
    hide IdealRun, TrackOf;
    RenewedId(obs, timeout, speaker, j);
    IdsBelowNext(obs[..k], timeout, speaker);
    assert obs[..j][..k] == obs[..k];
    NextIdGrows(obs[..j], timeout, k);
  }

  // ----- The same of the real tracker -----

  /** The i-th track of the real tracker shows the speaker's latest observation. */
  ghost predicate Shows(cfg: Config, obs: seq<Observation>, speaker: nat, i: nat) {
    && i < |Run(cfg, obs).tracks|
    && Latest(obs, speaker).Some?
    && Run(cfg, obs).tracks[i].position == Latest(obs, speaker).value.position
    && Run(cfg, obs).tracks[i].seen == Latest(obs, speaker).value.now
  }

  lemma {:induction false} LatestAt(obs: seq<Observation>, speaker: nat, i: nat)
    requires i < |obs| && obs[i].speaker == Some(speaker)
    requires forall m | i < m < |obs| :: obs[m].speaker != Some(speaker)
    ensures Latest(obs, speaker) == Some(obs[i])
  {
    if i < |obs| - 1 {
      LatestAt(obs[..|obs| - 1], speaker, i);
    }
  }

  /** Recent speakers last seen in the same place are the same: the later one would have been too near. */
  lemma PlaceTellsSpeaker(cfg: Config, obs: seq<Observation>, s: nat, t: nat)
    requires Separated(cfg, obs) && Ordered(obs) && |obs| > 0
    requires Recent(obs, s, cfg.timeout) && Recent(obs, t, cfg.timeout)
    requires Latest(obs, s).value.position == Latest(obs, t).value.position
    ensures s == t
  {
    hide SquaredDistance, Limit, RecentSpeakers, Separated;
    var i := LatestIsObserved(obs, s);
    var j := LatestIsObserved(obs, t);
    if i < j {
      LaterIsSame(cfg, obs, s, i, t, j);
    } else if j < i {
      LaterIsSame(cfg, obs, t, j, s, i);
    }
  }

  lemma LaterIsSame(cfg: Config, obs: seq<Observation>, s: nat, i: nat, t: nat, j: nat)
    requires Separated(cfg, obs) && Ordered(obs) && i < j < |obs|
    requires obs[i].speaker == Some(s) && obs[j].speaker == Some(t)
    requires forall m | i < m < |obs| :: obs[m].speaker != Some(s)
    requires obs[|obs| - 1].now - obs[i].now <= cfg.timeout && obs[i].position == obs[j].position
    ensures s == t
  {
    hide SquaredDistance, Limit;
    var before := obs[..j];
    LatestAt(before, s, i);
    assert before[j - 1].now <= obs[|obs| - 1].now;
    assert before[i] in before;
    assert s in RecentSpeakers(before, cfg.timeout);
    NoDistance(cfg, obs[i].position);
    assert SeparatedFrom(cfg, before, obs[j]);
  }

  lemma NoDistance(cfg: Config, p: Point)
    requires cfg.radius >= 0.0
    ensures SquaredDistance(p, p) <= Limit(cfg.radius)
  {
  }

  /**
   On separated observations exactly the recently seen speakers have a track that shows their
   latest observation, and only one.
   */
  lemma TrackIffRecent(cfg: Config, obs: seq<Observation>, speaker: nat)
    requires Separated(cfg, obs) && Ordered(obs) && |obs| > 0
    ensures (exists i: nat :: Shows(cfg, obs, speaker, i)) <==> Recent(obs, speaker, cfg.timeout)
    ensures forall i: nat, j: nat :: Shows(cfg, obs, speaker, i) && Shows(cfg, obs, speaker, j) ==> i == j
    ensures forall i: nat | Shows(cfg, obs, speaker, i) ::
              HasTrack(obs, speaker, cfg.timeout) && Run(cfg, obs).tracks[i] == TrackOf(obs, speaker, cfg.timeout)
  {
    hide Run, HasTrack, TrackOf, Separated;
    var labels := TracksAreRecentSpeakers(cfg, obs);
    forall i: nat | Shows(cfg, obs, speaker, i) ensures labels[i] == speaker && labels[i] in labels {
      assert labels[i] in labels && Recent(obs, labels[i], cfg.timeout);
      PlaceTellsSpeaker(cfg, obs, labels[i], speaker);
    }
    if Recent(obs, speaker, cfg.timeout) {
      var i :| 0 <= i < |labels| && labels[i] == speaker;
      assert Shows(cfg, obs, speaker, i);
    }
  }

  /**
   The track of a speaker after `k` updates and the one it has now carry the same id if and
   only if at every update in between the speaker had been seen within the timeout.
   */
  lemma SameIdIffNoGap(cfg: Config, obs: seq<Observation>, speaker: nat, k: nat, a: nat, b: nat)
    requires Separated(cfg, obs) && Ordered(obs) && 0 < k <= |obs|
    requires Shows(cfg, obs[..k], speaker, a) && Shows(cfg, obs, speaker, b)
    ensures Run(cfg, obs).tracks[b].id == Run(cfg, obs[..k]).tracks[a].id
            <==> forall j | k <= j <= |obs| :: Recent(obs[..j], speaker, cfg.timeout)
  {
    hide Separated, Recent, HasTrack, TrackOf, Shows;
    SeparatedPrefix(cfg, obs, k);
    TrackIffRecent(cfg, obs[..k], speaker);
    TrackIffRecent(cfg, obs, speaker);
    IdealSameIdIffNoGap(obs, cfg.timeout, speaker, k);
  }

  /** A speaker who was gone at some update in between comes back under a larger id. */
  lemma GapRenewsId(cfg: Config, obs: seq<Observation>, speaker: nat, k: nat, j: nat, a: nat, b: nat)
    requires Separated(cfg, obs) && Ordered(obs) && 0 < k <= j <= |obs|
    requires Shows(cfg, obs[..k], speaker, a) && Shows(cfg, obs, speaker, b)
    requires !Recent(obs[..j], speaker, cfg.timeout)
    ensures Run(cfg, obs[..k]).tracks[a].id < Run(cfg, obs).tracks[b].id
  {
    hide Separated, Recent, HasTrack, TrackOf, Shows;
    SeparatedPrefix(cfg, obs, k);
    TrackIffRecent(cfg, obs[..k], speaker);
    TrackIffRecent(cfg, obs, speaker);
    IdealTrackIffRecent(obs[..j], cfg.timeout, speaker);
    assert obs[..|obs|] == obs;
    IdealGapRenewsId(obs, cfg.timeout, speaker, k, j);
  }
}
