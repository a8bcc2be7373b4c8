/**
 The multi-speaker tracker: nearest-neighbour association within a radius, a cap on
 the number of tracks, and pruning by age. Distances are compared squared, in exact
 arithmetic.
 */
module Tracker {
  import opened Options

  datatype Point = Point(x: real, y: real)

  const HISTORY_LENGTH: nat := 64

  datatype Config = Config(maxTracks: int, radius: real, timeout: real)

  /** The state of one track. */
  datatype TrackState = TrackState(id: nat, position: Point, seen: real, history: seq<Point>)

  function SquaredDistance(p: Point, q: Point): real {
    (p.x - q.x) * (p.x - q.x) + (p.y - q.y) * (p.y - q.y)
  }

  /** The squared radius; a negative radius admits nothing. */
  function Limit(radius: real): real {
    if radius >= 0.0 then radius * radius else -1.0
  }

  function Remember(history: seq<Point>, p: Point): (h: seq<Point>)
    ensures 0 < |h| <= HISTORY_LENGTH && h[|h| - 1] == p
  {
    var longer := history + [p];
    if |longer| > HISTORY_LENGTH then longer[|longer| - HISTORY_LENGTH..] else longer
  }

  function Touched(t: TrackState, p: Point, now: real): TrackState {
    t.(position := p, seen := now, history := Remember(t.history, p))
  }

  /** The search of the nearest track, best so far from left to right; ties go to the later track. */
  function Closest(ts: seq<TrackState>, p: Point, limit: real): (best: Option<nat>)
    ensures best.Some? ==> best.value < |ts|
  {
    if ts == [] then None
    else
      var n := |ts| - 1;
      var best := Closest(ts[..n], p, limit);
      var bound := if best.Some? then SquaredDistance(ts[best.value].position, p) else limit;
      if SquaredDistance(ts[n].position, p) <= bound then Some(n) else best
  }

  /** No track is nearer than the chosen one, the chosen one is in range, and none is chosen only if none is. */
  lemma {:induction false} ClosestIsNearest(ts: seq<TrackState>, p: Point, limit: real)
    ensures
      match Closest(ts, p, limit)
      case None => forall i | 0 <= i < |ts| :: SquaredDistance(ts[i].position, p) > limit
      case Some(b) =>
        && SquaredDistance(ts[b].position, p) <= limit
        && (forall i | 0 <= i < |ts| :: SquaredDistance(ts[b].position, p) <= SquaredDistance(ts[i].position, p))
        && (forall i | b < i < |ts| :: SquaredDistance(ts[b].position, p) < SquaredDistance(ts[i].position, p))
  {
    hide SquaredDistance;
    if ts != [] {
      ClosestIsNearest(ts[..|ts| - 1], p, limit);
    }
  }

  function Fresh(ts: seq<TrackState>, now: real, timeout: real): (r: seq<TrackState>)
    ensures |r| <= |ts|
  {
    if ts == [] then []
    else
      var n := |ts| - 1;
      Fresh(ts[..n], now, timeout) + (if now - ts[n].seen <= timeout then [ts[n]] else [])
  }

  lemma FreshNext(ts: seq<TrackState>, i: nat, now: real, timeout: real)
    requires i < |ts|
    ensures Fresh(ts[..i + 1], now, timeout)
            == Fresh(ts[..i], now, timeout) + (if now - ts[i].seen <= timeout then [ts[i]] else [])
  {
    assert ts[..i + 1][..i] == ts[..i];
  }

  lemma NoneFresh(now: real, timeout: real)
    ensures Fresh([], now, timeout) == []
  {
  }

  datatype Tracks = Tracks(tracks: seq<TrackState>, nextId: nat)

  function Associate(cfg: Config, s: Tracks, p: Point, now: real): Tracks {
    var best := Closest(s.tracks, p, Limit(cfg.radius));
    if best.Some? then s.(tracks := s.tracks[best.value := Touched(s.tracks[best.value], p, now)])
    else if |s.tracks| < cfg.maxTracks then
      Tracks(s.tracks + [TrackState(s.nextId, p, now, [])], s.nextId + 1)
    else s
  }

  /** One update: associate the position, if there is one, then drop the stale tracks. */
  function Updated(cfg: Config, s: Tracks, position: Option<Point>, now: real): Tracks {
    var t := if position.Some? then Associate(cfg, s, position.value, now) else s;
    t.(tracks := Fresh(t.tracks, now, cfg.timeout))
  }

  // ----- The objects -----

  class Track {
    const trackId: nat
    var lastPosition: Point
    var lastSeen: real
    var history: seq<Point>

    constructor (trackId: nat, position: Point, now: real)
      ensures View() == TrackState(trackId, position, now, [])
    {
      this.trackId, lastPosition, lastSeen, history := trackId, position, now, [];
    }

    function View(): TrackState
      reads this
    {
      TrackState(trackId, lastPosition, lastSeen, history)
    }

    method Update(position: Point, now: real)
      modifies this
      ensures View() == Touched(old(View()), position, now)
    {
      lastPosition, lastSeen := position, now;
      history := Remember(history, position);
    }
  }

  class MultiSpeakerTracker {
    const cfg: Config
    var nextId: nat
    var tracks: seq<Track>

    ghost predicate Valid()
      reads this
    {
      forall i, j | 0 <= i < j < |tracks| :: tracks[i] != tracks[j]
    }

    function Views(ts: seq<Track>): (vs: seq<TrackState>)
      reads ts
      ensures |vs| == |ts|
    {
      seq(|ts|, i requires 0 <= i < |ts| reads ts => ts[i].View())
    }

    function View(): Tracks
      reads this, tracks
    {
      Tracks(Views(tracks), nextId)
    }

    constructor (cfg: Config)
      ensures this.cfg == cfg && Valid() && View() == Tracks([], 0)
    {
      this.cfg, nextId, tracks := cfg, 0, [];
    }

    method FindClosest(position: Point) returns (best: Option<nat>)
      ensures best == Closest(Views(tracks), position, Limit(cfg.radius))
    {
      hide SquaredDistance;
      best := None;
      var bestDistance := Limit(cfg.radius);
      ghost var vs := Views(tracks);
      for i := 0 to |tracks|
        invariant best == Closest(vs[..i], position, Limit(cfg.radius))
        invariant bestDistance
                  == if best.Some? then SquaredDistance(vs[best.value].position, position) else Limit(cfg.radius)
      {
        var d := SquaredDistance(tracks[i].lastPosition, position);
        assert vs[..i + 1][..i] == vs[..i];
        if d <= bestDistance {
          best, bestDistance := Some(i), d;
        }
      }
      assert vs[..|tracks|] == vs;
    }

    method Prune(now: real)
      requires Valid()
      modifies this`tracks
      ensures Valid() && (forall t | t in tracks :: t in old(tracks))
      ensures Views(tracks) == Fresh(Views(old(tracks)), now, cfg.timeout)
    {
      hide Fresh;
      var kept: seq<Track> := [];
      ghost var vs := Views(tracks);
      NoneFresh(now, cfg.timeout);
      for i := 0 to |tracks|
        modifies {}
        invariant forall k | 0 <= k < |kept| :: kept[k] in tracks[..i]
        invariant forall k, l | 0 <= k < l < |kept| :: kept[k] != kept[l]
        invariant Views(kept) == Fresh(vs[..i], now, cfg.timeout)
      {
        var t := tracks[i];
        FreshNext(vs, i, now, cfg.timeout);
        assert tracks[..i + 1] == tracks[..i] + [t];
        if now - t.lastSeen <= cfg.timeout {
          assert Views(kept + [t]) == Views(kept) + [t.View()];
          kept := kept + [t];
        }
      }
      assert vs[..|tracks|] == vs;
      tracks := kept;
    }

    method AssociatePosition(position: Point, now: real)
      requires Valid()
      modifies this`tracks, this`nextId, tracks
      ensures Valid()
      ensures forall t | t in tracks :: t in old(tracks) || fresh(t)
      ensures View() == Associate(cfg, old(View()), position, now)
    {
      hide Closest, Touched, SquaredDistance, Limit;
      ghost var vs := Views(tracks);
      var best := FindClosest(position);
      if best.Some? {
        tracks[best.value].Update(position, now);
        assert Views(tracks) == vs[best.value := Touched(vs[best.value], position, now)];
      } else if |tracks| < cfg.maxTracks {
        var t := new Track(nextId, position, now);
        tracks := tracks + [t];
        nextId := nextId + 1;
        assert Views(tracks) == vs + [t.View()];
      }
    }

    method Update(position: Option<Point>, now: real) returns (current: seq<Track>)
      requires Valid()
      modifies this`tracks, this`nextId, tracks
      ensures Valid() && current == tracks
      ensures forall t | t in tracks :: t in old(tracks) || fresh(t)
      ensures View() == Updated(cfg, old(View()), position, now)
    {
      hide Associate, Fresh;
      if position.Some? {
        AssociatePosition(position.value, now);
      }
      Prune(now);
      current := tracks;
    }

    method Reset()
      modifies this
      ensures Valid() && View() == Tracks([], 0)
    {
      tracks, nextId := [], 0;
    }
  }

  // ----- What every run keeps -----

  datatype Observation = Observation(speaker: Option<nat>, position: Point, now: real) {
    function Input(): Option<Point> {
      if speaker.Some? then Some(position) else None
    }
  }

  function Run(cfg: Config, obs: seq<Observation>): Tracks {
    if obs == [] then Tracks([], 0)
    else
      var o := obs[|obs| - 1];
      Updated(cfg, Run(cfg, obs[..|obs| - 1]), o.Input(), o.now)
  }

  /** The remembered positions are bounded and end where the track stands; a new track has none. */
  ghost predicate HistoryHolds(t: TrackState) {
    |t.history| <= HISTORY_LENGTH && (t.history == [] || t.history[|t.history| - 1] == t.position)
  }

  /** Ids grow along the list and stay below the next one, histories hold, and so does the cap. */
  ghost predicate WellFormed(cfg: Config, s: Tracks) {
    && IdsGrow(s.tracks)
    && (forall i | 0 <= i < |s.tracks| :: s.tracks[i].id < s.nextId && HistoryHolds(s.tracks[i]))
    && |s.tracks| <= (if cfg.maxTracks > 0 then cfg.maxTracks else 0)
  }

  lemma {:induction false} FreshMembers(ts: seq<TrackState>, now: real, timeout: real, t: TrackState)
    ensures t in Fresh(ts, now, timeout) <==> t in ts && now - t.seen <= timeout
  {
    if ts != [] {
      FreshMembers(ts[..|ts| - 1], now, timeout, t);
      assert ts == ts[..|ts| - 1] + [ts[|ts| - 1]];
    }
  }

  ghost predicate IdsGrow(ts: seq<TrackState>) {
    forall i, j | 0 <= i < j < |ts| :: ts[i].id < ts[j].id
  }

  lemma {:induction false} FreshKeepsOrder(ts: seq<TrackState>, now: real, timeout: real)
    requires IdsGrow(ts)
    ensures IdsGrow(Fresh(ts, now, timeout))
  {
    if ts != [] {
      var n := |ts| - 1;
      var r := Fresh(ts[..n], now, timeout);
      FreshKeepsOrder(ts[..n], now, timeout);
      forall i | 0 <= i < |r| ensures r[i].id < ts[n].id {
        FreshMembers(ts[..n], now, timeout, r[i]);
        assert r[i] in ts[..n];
      }
    }
  }

  lemma AssociateKeepsWellFormed(cfg: Config, s: Tracks, p: Point, now: real)
    requires WellFormed(cfg, s)
    ensures WellFormed(cfg, Associate(cfg, s, p, now)) && s.nextId <= Associate(cfg, s, p, now).nextId
  {
    hide Closest, Limit, SquaredDistance;
  }

  lemma UpdateKeepsWellFormed(cfg: Config, s: Tracks, position: Option<Point>, now: real)
    requires WellFormed(cfg, s)
    ensures WellFormed(cfg, Updated(cfg, s, position, now))
    ensures s.nextId <= Updated(cfg, s, position, now).nextId
    ensures forall t | t in Updated(cfg, s, position, now).tracks :: now - t.seen <= cfg.timeout
  {
    hide Associate;
    if position.Some? {
      AssociateKeepsWellFormed(cfg, s, position.value, now);
    }
    var a := if position.Some? then Associate(cfg, s, position.value, now) else s;
    var r := Fresh(a.tracks, now, cfg.timeout);
    FreshKeepsOrder(a.tracks, now, cfg.timeout);
    forall t | t in r ensures t in a.tracks && now - t.seen <= cfg.timeout {
      FreshMembers(a.tracks, now, cfg.timeout, t);
    }
    forall i | 0 <= i < |r| ensures r[i].id < a.nextId && HistoryHolds(r[i]) {
      assert r[i] in a.tracks;
    }
  }

  lemma {:induction false} RunWellFormed(cfg: Config, obs: seq<Observation>)
    ensures WellFormed(cfg, Run(cfg, obs))
    ensures obs != [] ==> forall t | t in Run(cfg, obs).tracks :: obs[|obs| - 1].now - t.seen <= cfg.timeout
  {
    if obs != [] {
      var o := obs[|obs| - 1];
      RunWellFormed(cfg, obs[..|obs| - 1]);
      UpdateKeepsWellFormed(cfg, Run(cfg, obs[..|obs| - 1]), o.Input(), o.now);
    }
  }

  // ----- What a history holds -----

  /** The newest `n` of a sequence. */
  function Newest<T>(s: seq<T>, n: nat): (r: seq<T>)
    ensures |r| <= n
  {
    if |s| <= n then s else s[|s| - n..]
  }

  /** The positions that moved a track: those observed while it was the nearest one in reach. */
  function MovesOf(cfg: Config, obs: seq<Observation>, id: nat): seq<Point> {
    if obs == [] then []
    else
      var o := obs[|obs| - 1];
      var tracks := Run(cfg, obs[..|obs| - 1]).tracks;
      var best := Closest(tracks, o.position, Limit(cfg.radius));
      MovesOf(cfg, obs[..|obs| - 1], id)
      + (if o.speaker.Some? && best.Some? && tracks[best.value].id == id then [o.position] else [])
  }

  lemma RememberNewest(moves: seq<Point>, p: Point)
    ensures Remember(Newest(moves, 64), p) == Newest(moves + [p], 64)
  {
  }

  /** Whether every history is the newest moves of its track, and no move belongs to an id not given yet. */
  ghost predicate HistoriesHold(cfg: Config, obs: seq<Observation>, s: Tracks) {
    && (forall t | t in s.tracks :: t.history == Newest(MovesOf(cfg, obs, t.id), 64))
    && (forall id: nat | id >= s.nextId :: MovesOf(cfg, obs, id) == [])
  }

  lemma AssociateKeepsHistories(cfg: Config, front: seq<Observation>, o: Observation, s: Tracks, t: Tracks)
    requires s == Run(cfg, front) && HistoriesHold(cfg, front, s) && WellFormed(cfg, s)
    requires t == if o.Input().Some? then Associate(cfg, s, o.position, o.now) else s
    ensures HistoriesHold(cfg, front + [o], t)
  {
    hide Closest, Limit, Run, Newest, Remember, HistoryHolds, MovesOf;
    var best := Closest(s.tracks, o.position, Limit(cfg.radius));
    NoMoves();
    forall id: nat
      ensures
        var moves := MovesOf(cfg, front, id);
        MovesOf(cfg, front + [o], id)
        == if o.speaker.Some? && best.Some? && s.tracks[best.value].id == id then moves + [o.position] else moves
    {
      OneMoreMove(cfg, front, o, id);
    }
    forall i | 0 <= i < |t.tracks|
      ensures t.tracks[i].history == Newest(MovesOf(cfg, front + [o], t.tracks[i].id), 64)
    {
      if i < |s.tracks| {
        assert s.tracks[i] in s.tracks;
        RememberNewest(MovesOf(cfg, front, s.tracks[i].id), o.position);
      }
    }
  }

  lemma OneMoreMove(cfg: Config, front: seq<Observation>, o: Observation, id: nat)
    ensures
      var tracks := Run(cfg, front).tracks;
      var best := Closest(tracks, o.position, Limit(cfg.radius));
      var moves := MovesOf(cfg, front, id);
      MovesOf(cfg, front + [o], id)
      == if o.speaker.Some? && best.Some? && tracks[best.value].id == id then moves + [o.position] else moves
  {
    hide Closest, Limit, Run;
    assert (front + [o])[..|front|] == front;
  }

  lemma NoMoves()
    ensures Newest<Point>([], 64) == []
  {
  }

  /**
   A track remembers the newest 64 positions that moved it, oldest first; the one it opened with
   is not among them.
   */
  lemma {:induction false} HistoryIsNewestMoves(cfg: Config, obs: seq<Observation>)
    ensures HistoriesHold(cfg, obs, Run(cfg, obs))
  {
    hide Associate, Fresh, MovesOf, WellFormed;
    if obs == [] {
      StartHistories(cfg);
    } else {
      var front, o := obs[..|obs| - 1], obs[|obs| - 1];
      var s := Run(cfg, front);
      HistoryIsNewestMoves(cfg, front);
      RunWellFormed(cfg, front);
      var t := if o.Input().Some? then Associate(cfg, s, o.position, o.now) else s;
      assert obs == front + [o];
      AssociateKeepsHistories(cfg, front, o, s, t);
      forall u | u in Fresh(t.tracks, o.now, cfg.timeout) ensures u in t.tracks {
        FreshMembers(t.tracks, o.now, cfg.timeout, u);
      }
    }
  }

  lemma StartHistories(cfg: Config)
    ensures HistoriesHold(cfg, [], Run(cfg, []))
  {
  }

  /**
   With no room left and no track in reach, an observation is as good as none: the tracker is in
   the state it would be in had only the clock moved on.
   */
  lemma FullIgnores(cfg: Config, obs: seq<Observation>, o: Observation)
    requires |Run(cfg, obs).tracks| >= cfg.maxTracks
    requires forall t | t in Run(cfg, obs).tracks :: SquaredDistance(t.position, o.position) > Limit(cfg.radius)
    ensures Run(cfg, obs + [o]) == Run(cfg, obs + [o.(speaker := None)])
    ensures Run(cfg, obs + [o]).nextId == Run(cfg, obs).nextId
    ensures forall t :: t in Run(cfg, obs + [o]).tracks
                        <==> t in Run(cfg, obs).tracks && o.now - t.seen <= cfg.timeout
  {
    hide SquaredDistance, Limit, Closest, Fresh;
    var s := Run(cfg, obs);
    assert (obs + [o])[..|obs|] == obs == (obs + [o.(speaker := None)])[..|obs|];
    ClosestIsNearest(s.tracks, o.position, Limit(cfg.radius));
    forall t ensures t in Fresh(s.tracks, o.now, cfg.timeout) <==> t in s.tracks && o.now - t.seen <= cfg.timeout {
      FreshMembers(s.tracks, o.now, cfg.timeout, t);
    }
  }
}
