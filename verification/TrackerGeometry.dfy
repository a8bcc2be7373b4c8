/**
 The tracker in the plane: what its distances mean in coordinates, that a track is out of reach as
 soon as one coordinate is, and that moving the whole scene moves the tracks and changes nothing else.
 */
module TrackerGeometry {
  import opened Options
  import opened Tracker

  function Square(x: real): real {
    x * x
  }

  function Abs(x: real): real {
    if x < 0.0 then -x else x
  }

  // ----- Distances -----

  /** Pythagoras: first along x, then along y. */
  lemma DistanceByAxes(p: Point, q: Point)
    ensures
      var corner := Point(q.x, p.y);
      && SquaredDistance(p, q) == SquaredDistance(p, corner) + SquaredDistance(corner, q)
      && SquaredDistance(p, corner) == Square(p.x - q.x)
      && SquaredDistance(corner, q) == Square(p.y - q.y)
  {
    var dx, dy := p.x - q.x, p.y - q.y;
    assert dx * dx + 0.0 * 0.0 == dx * dx && 0.0 * 0.0 + dy * dy == dy * dy;
  }

  lemma Product(x: real, y: real)
    requires x >= 0.0 && y >= 0.0
    ensures x * y >= 0.0 && (x > 0.0 && y > 0.0 ==> x * y > 0.0)
  {
  }

  lemma SquaresOrder(a: real, b: real)
    requires a >= 0.0 && b >= 0.0
    ensures a <= b <==> Square(a) <= Square(b)
  {
    if a <= b {
      var gap := b - a;
      Product(a, gap);
      Product(b, gap);
      assert b * b - a * a == a * gap + b * gap;
    } else {
      var gap := a - b;
      Product(a, gap);
      Product(b, gap);
      assert a * a - b * b == a * gap + b * gap;
    }
  }

  lemma SquareNonnegative(x: real)
    ensures Square(x) >= 0.0
  {
    if x >= 0.0 {
      Product(x, x);
    } else {
      var y := -x;
      Product(y, y);
      assert x * x == y * y;
    }
  }

  /** Comparing squares is comparing the distance itself with the radius. */
  lemma InReachIff(p: Point, q: Point, distance: real, radius: real)
    requires distance >= 0.0 && Square(distance) == Square(p.x - q.x) + Square(p.y - q.y)
    ensures SquaredDistance(p, q) <= Limit(radius) <==> distance <= radius
  {
    hide Square;
    DistanceByAxes(p, q);
    SquareNonnegative(p.x - q.x);
    SquareNonnegative(p.y - q.y);
    if radius >= 0.0 {
      SquaresOrder(distance, radius);
      assert Limit(radius) == Square(radius) by { LimitIsSquare(radius); }
    }
  }

  lemma LimitIsSquare(radius: real)
    requires radius >= 0.0
    ensures Limit(radius) == Square(radius)
  {
  }

  // ----- Out of reach -----

  /** Farther than the radius in one coordinate already. */
  predicate Beyond(p: Point, q: Point, radius: real) {
    Abs(p.x - q.x) > radius || Abs(p.y - q.y) > radius
  }

  lemma BeyondReach(p: Point, q: Point, radius: real)
    requires Beyond(p, q, radius)
    ensures SquaredDistance(p, q) > Limit(radius)
  {
    hide Square;
    DistanceByAxes(p, q);
    SquareNonnegative(p.x - q.x);
    SquareNonnegative(p.y - q.y);
    if radius >= 0.0 {
      LimitIsSquare(radius);
      SquareOfAbs(p.x - q.x);
      SquareOfAbs(p.y - q.y);
      SquaresOrder(Abs(p.x - q.x), radius);
      SquaresOrder(Abs(p.y - q.y), radius);
    }
  }

  lemma SquareOfAbs(x: real)
    ensures Square(Abs(x)) == Square(x)
  {
  }

  /** An observation beyond a track's reach leaves it as it was: it is there afterwards unless it is stale. */
  lemma OutOfReachStays(cfg: Config, obs: seq<Observation>, o: Observation, t: TrackState)
    requires t in Run(cfg, obs).tracks && Beyond(t.position, o.position, cfg.radius)
    ensures t in Run(cfg, obs + [o]).tracks <==> o.now - t.seen <= cfg.timeout
  {
    hide Limit, SquaredDistance, Closest, Beyond, Fresh;
    var s := Run(cfg, obs);
    assert (obs + [o])[..|obs|] == obs;
    var i :| 0 <= i < |s.tracks| && s.tracks[i] == t;
    var after := if o.Input().Some? then Associate(cfg, s, o.position, o.now) else s;
    ClosestIsNearest(s.tracks, o.position, Limit(cfg.radius));
    BeyondReach(t.position, o.position, cfg.radius);
    assert after.tracks[i] == t;
    FreshMembers(after.tracks, o.now, cfg.timeout, t);
  }

  // ----- Moving the scene -----

  type Motion = Point -> Point

  /** Every distance is kept. */
  ghost predicate Rigid(f: Motion) {
    forall p, q :: SquaredDistance(f(p), f(q)) == SquaredDistance(p, q)
  }

  function MovedPoints(f: Motion, points: seq<Point>): (r: seq<Point>)
    ensures |r| == |points|
  {
    seq(|points|, i requires 0 <= i < |points| => f(points[i]))
  }

  function MovedTrack(f: Motion, t: TrackState): TrackState {
    t.(position := f(t.position), history := MovedPoints(f, t.history))
  }

  function MovedTracks(f: Motion, ts: seq<TrackState>): (r: seq<TrackState>)
    ensures |r| == |ts|
  {
    seq(|ts|, i requires 0 <= i < |ts| => MovedTrack(f, ts[i]))
  }

  function MovedScene(f: Motion, obs: seq<Observation>): (r: seq<Observation>)
    ensures |r| == |obs|
  {
    seq(|obs|, i requires 0 <= i < |obs| => obs[i].(position := f(obs[i].position)))
  }

  lemma {:induction false} ClosestMoves(f: Motion, ts: seq<TrackState>, p: Point, limit: real)
    requires Rigid(f)
    ensures Closest(MovedTracks(f, ts), f(p), limit) == Closest(ts, p, limit)
  {
    hide SquaredDistance;
    if ts != [] {
      var n := |ts| - 1;
      ClosestMoves(f, ts[..n], p, limit);
      assert MovedTracks(f, ts)[..n] == MovedTracks(f, ts[..n]);
    }
  }

  lemma {:induction false} FreshMoves(f: Motion, ts: seq<TrackState>, now: real, timeout: real)
    ensures Fresh(MovedTracks(f, ts), now, timeout) == MovedTracks(f, Fresh(ts, now, timeout))
  {
    if ts != [] {
      var n := |ts| - 1;
      FreshMoves(f, ts[..n], now, timeout);
      assert MovedTracks(f, ts)[..n] == MovedTracks(f, ts[..n]);
    }
  }

  lemma TouchedMoves(f: Motion, t: TrackState, p: Point, now: real)
    ensures Touched(MovedTrack(f, t), f(p), now) == MovedTrack(f, Touched(t, p, now))
  {
  }

  lemma AssociateMoves(f: Motion, cfg: Config, s: Tracks, p: Point, now: real)
    requires Rigid(f)
    ensures
      var t := Associate(cfg, s, p, now);
      Associate(cfg, s.(tracks := MovedTracks(f, s.tracks)), f(p), now) == t.(tracks := MovedTracks(f, t.tracks))
  {
    hide Closest, Touched, Rigid, Limit, MovedTrack;
    ClosestMoves(f, s.tracks, p, Limit(cfg.radius));
    var best := Closest(s.tracks, p, Limit(cfg.radius));
    if best.Some? {
      TouchedMoves(f, s.tracks[best.value], p, now);
    } else {
      NewTrackMoves(f, TrackState(s.nextId, p, now, []));
    }
  }

  lemma NewTrackMoves(f: Motion, t: TrackState)
    requires t.history == []
    ensures MovedTrack(f, t) == t.(position := f(t.position))
  {
  }

  /**
   Moving every observation by the same rigid motion moves every track and its history by it, and
   leaves ids, times and the number of tracks as they are.
   */
  lemma {:induction false} SceneMoves(f: Motion, cfg: Config, obs: seq<Observation>)
    requires Rigid(f)
    ensures
      var s := Run(cfg, obs);
      Run(cfg, MovedScene(f, obs)) == s.(tracks := MovedTracks(f, s.tracks))
  {
    hide Associate, Fresh, Rigid, MovedTracks;
    if obs == [] {
      NoTracksMove(f);
    } else {
      var n := |obs| - 1;
      var o := obs[n];
      SceneMoves(f, cfg, obs[..n]);
      assert MovedScene(f, obs)[..n] == MovedScene(f, obs[..n]);
      var s := Run(cfg, obs[..n]);
      AssociateMoves(f, cfg, s, o.position, o.now);
      var t := if o.Input().Some? then Associate(cfg, s, o.position, o.now) else s;
      FreshMoves(f, t.tracks, o.now, cfg.timeout);
    }
  }

  lemma NoTracksMove(f: Motion)
    ensures MovedTracks(f, []) == []
  {
  }

  // ----- Which motions are rigid -----

  const EXCHANGE: Motion := (p: Point) => Point(p.y, p.x)

  function ShiftBy(a: real, b: real): Motion {
    (p: Point) => Point(p.x + a, p.y + b)
  }

  /** A turn about the origin, by the angle with cosine `c` and sine `s`. */
  function TurnBy(c: real, s: real): Motion {
    (p: Point) => Point(c * p.x - s * p.y, s * p.x + c * p.y)
  }

  lemma ExchangeIsRigid()
    ensures Rigid(EXCHANGE)
  {
    hide SquaredDistance;
    forall p, q ensures SquaredDistance(EXCHANGE(p), EXCHANGE(q)) == SquaredDistance(p, q) {
      DistanceByAxes(p, q);
      DistanceByAxes(EXCHANGE(p), EXCHANGE(q));
    }
  }

  lemma ShiftIsRigid(a: real, b: real)
    ensures Rigid(ShiftBy(a, b))
  {
    hide SquaredDistance, Square;
    var f := ShiftBy(a, b);
    forall p, q ensures SquaredDistance(f(p), f(q)) == SquaredDistance(p, q) {
      DistanceByAxes(p, q);
      DistanceByAxes(f(p), f(q));
      assert f(p).x - f(q).x == p.x - q.x && f(p).y - f(q).y == p.y - q.y;
    }
  }

  lemma TurnIsRigid(c: real, s: real)
    requires Square(c) + Square(s) == 1.0
    ensures Rigid(TurnBy(c, s))
  {
    hide SquaredDistance, Square, Turned;
    var f := TurnBy(c, s);
    forall p, q ensures SquaredDistance(f(p), f(q)) == SquaredDistance(p, q) {
      DistanceByAxes(p, q);
      DistanceByAxes(f(p), f(q));
      DifferenceTurned(c, s, p, q);
      TurnedSquares(c, s, p.x - q.x, p.y - q.y, f(p).x - f(q).x, f(p).y - f(q).y);
    }
  }

  /** The turned difference is the difference of the turned points. */
  predicate Turned(c: real, s: real, u: real, v: real, m: real, n: real) {
    m == c * u - s * v && n == s * u + c * v
  }

  lemma DifferenceTurned(c: real, s: real, p: Point, q: Point)
    ensures
      var (a, b) := (TurnBy(c, s)(p), TurnBy(c, s)(q));
      Turned(c, s, p.x - q.x, p.y - q.y, a.x - b.x, a.y - b.y)
  {
  }

  lemma TurnedSquares(c: real, s: real, u: real, v: real, m: real, n: real)
    requires Square(c) + Square(s) == 1.0 && Turned(c, s, u, v, m, n)
    ensures Square(m) + Square(n) == Square(u) + Square(v)
  {
    assert m * m == c * c * (u * u) - 2.0 * (c * s * u * v) + s * s * (v * v);
    assert n * n == s * s * (u * u) + 2.0 * (c * s * u * v) + c * c * (v * v);
    assert (c * c + s * s) * (u * u) + (c * c + s * s) * (v * v) == u * u + v * v;
  }

  /** Exchanging x and y in every observation exchanges them in every track. */
  lemma ExchangedScene(cfg: Config, obs: seq<Observation>)
    ensures
      var s := Run(cfg, obs);
      Run(cfg, MovedScene(EXCHANGE, obs)) == s.(tracks := MovedTracks(EXCHANGE, s.tracks))
  {
    ExchangeIsRigid();
    SceneMoves(EXCHANGE, cfg, obs);
  }
}
