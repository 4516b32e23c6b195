/** A car: its kinematics, its collision checks before and after each move, its radar
    refresh and its reward. */
module Cars {
  import opened Geometry
  import opened Radar

  const MaxSpeed := 10

  /** A snapshot of the fields of a Car; the pure parts of the car (center, get_data,
      is_alive, get_reward) are functions of it. */
  datatype CarState = CarState(
    position: Point,   // top-left corner of the sprite
    angle: int,        // heading in degrees
    speed: int,
    alive: bool,
    distance: int,
    radars: seq<Reading>)
  {
    /** The sprite's centre: CAR_SIZE / 2 is 7.5 (true division). */
    function Center(): Point {
      Point(position.x + CarSize as real / 2.0, position.y + CarSize as real / 2.0)
    }

    /** The collision test on the truncated centre, as both checks in update do it. */
    predicate Crashed(track: Track) {
      Impassable(track, TruncPoint(Center()))
    }

    /** get_data: the radar distances scaled for the policy. */
    function SensorData(): (v: seq<real>)
      ensures |radars| <= SensorWidth ==> |v| == SensorWidth
    {
      SensorVector(radars)
    }

    /** get_reward: the forward component of the velocity, floored at zero. */
    function Reward(m: Math): (r: real)
      ensures 0.0 <= r
      ensures 0 <= speed && DirX(m, angle) <= 0.0 ==> r == 0.0
      ensures r == 0.0 || r == speed as real * DirX(m, angle)
      ensures speed as real * DirX(m, angle) <= r
    {
      var forward := DirX(m, angle);
      if speed as real * forward < 0.0 then 0.0 else speed as real * forward
    }
  }

  /** The state of a freshly built car. */
  const Spawn := CarState(Point(630.0, 270.0), 0, 5, true, 0, [])

  /** One move along the heading at the current speed, counted in the distance. */
  function Advanced(s: CarState, m: Math): CarState {
    s.(position := Point(s.position.x + DirX(m, s.angle) * s.speed as real,
                         s.position.y + DirY(m, s.angle) * s.speed as real),
       distance := s.distance + s.speed)
  }

  /** check_collision: kills the car when its centre is off the screen or on the border;
      never sets alive back to true. */
  function CollisionChecked(s: CarState, track: Track): CarState {
    if s.Crashed(track) then s.(alive := false) else s
  }

  /** After check_collision the car is alive exactly when it was alive and its centre is
      on the screen and off the border; nothing else changes. */
  lemma CollisionCheckedIff(s: CarState, track: Track)
    ensures var r := CollisionChecked(s, track);
      && (r.alive <==> s.alive && InBounds(TruncPoint(s.Center())) && !IsBorder(track, TruncPoint(s.Center())))
      && r.(alive := s.alive) == s
  {
  }

  /** check_radars: the readings rebuilt from the current centre and heading. */
  function RadarsRefreshed(s: CarState, track: Track, m: Math): CarState {
    s.(radars := Scan(track, m, s.Center(), s.angle))
  }

  /** update: nothing for a dead car; a car whose centre is already blocked dies where it
      is; otherwise the car moves, is checked again, and its radar is refreshed whether or
      not that second check killed it. */
  function Updated(s: CarState, track: Track, m: Math): CarState {
    if !s.alive then s
    else if s.Crashed(track) then s.(alive := false)
    else RadarsRefreshed(CollisionChecked(Advanced(s, m), track), track, m)
  }

  /** A dead car is left untouched. */
  lemma UpdateDeadIsNoOp(s: CarState, track: Track, m: Math)
    requires !s.alive
    ensures Updated(s, track, m) == s
  {
  }

  /** A car whose centre is blocked before the move only loses `alive`: position,
      distance, heading, speed and radar stay as they were. */
  lemma UpdateBlockedBeforeMove(s: CarState, track: Track, m: Math)
    requires s.alive && s.Crashed(track)
    ensures var r := Updated(s, track, m);
      !r.alive && r.position == s.position && r.distance == s.distance
      && r.angle == s.angle && r.speed == s.speed && r.radars == s.radars
  {
  }

  /** A car that passes the first check moves by exactly speed along its heading and its
      distance grows by exactly speed; heading and speed do not change. */
  lemma UpdateMoves(s: CarState, track: Track, m: Math)
    requires s.alive && !s.Crashed(track)
    ensures var r := Updated(s, track, m);
      && r.position.x == s.position.x + s.speed as real * m.cos(m.radians((360 - s.angle) as real))
      && r.position.y == s.position.y + s.speed as real * m.sin(m.radians((360 - s.angle) as real))
      && r.distance == s.distance + s.speed
      && r.angle == s.angle && r.speed == s.speed
  {
  }

  /** After update the car is alive exactly when it was alive, passed the check before
      the move, and passes the check at its new centre; in particular no car is revived. */
  lemma UpdateAliveIff(s: CarState, track: Track, m: Math)
    ensures var r := Updated(s, track, m);
      r.alive <==> s.alive && !s.Crashed(track) && !Advanced(s, m).Crashed(track)
  {
  }

  /** Once a car has moved its radar is rebuilt at the new centre, five readings in
      offset order, even when the second check has just killed it. */
  lemma UpdateRefreshesRadars(s: CarState, track: Track, m: Math)
    requires s.alive && !s.Crashed(track)
    ensures var r := Updated(s, track, m);
      && |r.radars| == |Offsets|
      && (forall k :: 0 <= k < |Offsets| ==>
            r.radars[k] == Ray(track, m, r.Center(), r.angle + Offsets[k]))
      && (r.Crashed(track) ==> !r.alive && |r.radars| == |Offsets|)
  {
  }

  /** Distance never decreases while speed is not negative. */
  lemma UpdateDistanceGrows(s: CarState, track: Track, m: Math)
    requires 0 <= s.speed
    ensures s.distance <= Updated(s, track, m).distance
  {
  }

  /** A car on the track. Its position, a two-element list in place in the source, is a
      Point value here; the list is never shared, so the in-place update of its two
      entries is the same as reassigning the field. */
  class Car {
    var position: Point
    var angle: int
    var speed: int
    var alive: bool
    var distance: int
    var radars: seq<Reading>

    constructor ()
      ensures State() == Spawn
    {
      position := Point(630.0, 270.0);
      angle := 0;
      speed := 5;
      alive := true;
      distance := 0;
      radars := [];
    }

    function State(): CarState
      reads this
    {
      CarState(position, angle, speed, alive, distance, radars)
    }

    /** is_alive */
    predicate IsAlive()
      reads this
    {
      alive
    }

    method Update(track: Track, m: Math)
      modifies this
      ensures State() == Updated(old(State()), track, m)
    {
      if !alive {
        return;
      }
      ghost var before := State();
      var c := TruncPoint(State().Center());
      if !(0 <= c.x < Width && 0 <= c.y < Height) || track.pixel(c.x, c.y) == BorderColor {
        alive := false;
        return;
      }
      assert !before.Crashed(track);
      position := position.(x := position.x + DirX(m, angle) * speed as real);
      position := position.(y := position.y + DirY(m, angle) * speed as real);
      distance := distance + speed;
      assert State() == Advanced(before, m);
      CheckCollision(track);
      CheckRadars(track, m);
    }

    method CheckCollision(track: Track)
      modifies this
      ensures State() == CollisionChecked(old(State()), track)
    {
      var p := TruncPoint(State().Center());
      if 0 <= p.x < Width && 0 <= p.y < Height {
        if track.pixel(p.x, p.y) == BorderColor {
          alive := false;
        }
      } else {
        alive := false;
      }
    }

    method CheckRadars(track: Track, m: Math)
      modifies this
      ensures State() == RadarsRefreshed(old(State()), track, m)
    {
      var c := State().Center();
      radars := [];
      var d := -90;
      while d < 120
        invariant 0 <= |radars| <= |Offsets|
        invariant d == -90 + 45 * |radars|
        invariant position == old(position) && angle == old(angle) && speed == old(speed)
        invariant alive == old(alive) && distance == old(distance)
        invariant radars == Scan(track, m, c, angle)[..|radars|]
      {
        OffsetsStep(|radars|);
        var reading := CastRay(track, m, c, angle + d);
        radars := radars + [reading];
        d := d + 45;
      }
    }
  }
}
