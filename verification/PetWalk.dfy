/** Where the desk pet may stand and how it wanders. Screen coordinates are reals. */
module PetWalk {
  const MARGIN: real := 8.0
  const MIN_SCALE := 1
  const MAX_SCALE := 8

  datatype Rect = Rect(minX: real, minY: real, maxX: real, maxY: real)

  datatype Track = Track(feetY: real, minX: real, maxX: real)

  function Max(a: real, b: real): (r: real)
    ensures r >= a && r >= b && (r == a || r == b)
  {
    if a >= b then a else b
  }

  function Min(a: real, b: real): (r: real)
    ensures r <= a && r <= b && (r == a || r == b)
  {
    if a <= b then a else b
  }

  function Distance(a: real, b: real): (d: real)
    ensures d >= 0.0 && (a == b + d || b == a + d)
  {
    if a >= b then a - b else b - a
  }

  /** `now` is the point of the track closest to where it was. */
  predicate Nearest(was: real, now: real, track: Track) {
    && track.minX <= now <= track.maxX
    && (was < now ==> now == track.minX) && (was > now ==> now == track.maxX)
  }

  /** The strip beside the largest inset: on top of one at the bottom, right or left of
      one at a side, a canvas and two margins narrower than what is left, and never
      inverted. */
  predicate BesideDock(track: Track, frame: Rect, visible: Rect, canvas: real) {
    var below := visible.minY - frame.minY >= Max(visible.minX - frame.minX, frame.maxX - visible.maxX);
    var beside := visible.minX - frame.minX > frame.maxX - visible.maxX;
    && track.feetY == (if below then visible.minY else frame.minY + MARGIN)
    && track.minX == (if !below && beside then visible.minX else frame.minX) + MARGIN
    && track.maxX == Max(track.minX, (if below || beside then frame.maxX else visible.maxX) - canvas - MARGIN)
  }

  // ----- the walk towards a target, by itself

  function StepTowards(x: real, target: real, speed: real): real {
    if Distance(target, x) < speed then x else if target > x then x + speed else x - speed
  }

  function Position(x: real, target: real, speed: real, n: nat): real {
    if n == 0 then x else StepTowards(Position(x, target, speed, n - 1), target, speed)
  }

  predicate Between(a: real, x: real, b: real) {
    (a <= x <= b) || (b <= x <= a)
  }

  function Times(a: real, b: real): real {
    a * b
  }

  /** The way made in `n` steps. */
  function Way(n: nat, speed: real): real {
    if n == 0 then 0.0 else Way(n - 1, speed) + speed
  }

  lemma {:induction false} WayIsProduct(n: nat, speed: real)
    ensures Way(n, speed) == Times(n as real, speed)
  {
    if n > 0 {
      WayIsProduct(n - 1, speed);
      OneMore((n - 1) as real, speed);
      assert n as real == (n - 1) as real + 1.0;
    }
  }

  lemma OneMore(a: real, speed: real)
    ensures Times(a + 1.0, speed) == Times(a, speed) + speed
  {
  }

  lemma {:induction false} WayGrows(m: nat, n: nat, speed: real)
    requires m <= n && speed > 0.0
    ensures Way(m, speed) <= Way(n, speed) && (m < n ==> Way(m, speed) + speed <= Way(n, speed))
  {
    if m < n {
      WayGrows(m, n - 1, speed);
    }
  }

  /** Whole steps that fit into the distance. */
  function Steps(distance: real, speed: real): int
    requires speed > 0.0
  {
    (distance / speed).Floor
  }

  lemma StepsFit(distance: real, speed: real)
    requires speed > 0.0 && distance >= 0.0
    ensures Steps(distance, speed) >= 0
    ensures Way(Steps(distance, speed), speed) <= distance < Way(Steps(distance, speed), speed) + speed
  {
    var q, n := distance / speed, Steps(distance, speed);
    Divides(distance, speed);
    assert n as real <= q < n as real + 1.0;
    if n < 0 {
      assert n as real + 1.0 <= 0.0;
      Scaled(q, 0.0, speed);
    }
    ScaledOrEqual(n as real, q, speed);
    Scaled(q, n as real + 1.0, speed);
    OneMore(n as real, speed);
    WayIsProduct(n, speed);
  }

  lemma Divides(distance: real, speed: real)
    requires speed > 0.0
    ensures Times(distance / speed, speed) == distance
  {
  }

  lemma Scaled(a: real, b: real, c: real)
    requires a < b && c > 0.0
    ensures Times(a, c) < Times(b, c)
  {
  }

  lemma ScaledOrEqual(a: real, b: real, c: real)
    requires a <= b && c > 0.0
    ensures Times(a, c) <= Times(b, c)
  {
  }

  /** The distance shrinks by exactly one step a frame, on the same side, as long as
      a whole step fits into it. */
  lemma {:induction false} DistanceAfter(x: real, target: real, speed: real, n: nat)
    requires speed > 0.0 && Way(n, speed) <= Distance(target, x)
    ensures Distance(target, Position(x, target, speed, n)) == Distance(target, x) - Way(n, speed)
    ensures Between(x, Position(x, target, speed, n), target)
  {
    if n > 0 {
      DistanceAfter(x, target, speed, n - 1);
    }
  }

  /** Each leg arrives after exactly as many frames as whole steps fit into it: not
      before, and never overshooting the target. */
  lemma ArrivesExactly(x: real, target: real, speed: real, k: nat)
    requires speed > 0.0 && k <= Steps(Distance(target, x), speed)
    ensures Distance(target, Position(x, target, speed, k)) < speed <==> k == Steps(Distance(target, x), speed)
    ensures Between(x, Position(x, target, speed, k), target)
  {
    StepsFit(Distance(target, x), speed);
    WayGrows(k, Steps(Distance(target, x), speed), speed);
    DistanceAfter(x, target, speed, k);
  }

  // ----- the controller

  datatype Facing = Down | Left | Right

  class Pet {
    const scale: int
    const canvas: real
    var track: Track
    var x: real
    var targetX: real
    var tick: int
    var idleUntil: int
    var facing: Facing

    /** `requested` is the scale asked for, kept within bounds. The pet starts in the
        middle of its track, at rest. */
    constructor (requested: int, canvasW: nat, frame: Rect, visible: Rect)
      ensures Valid() && canvas == canvasW as real * scale as real
      ensures scale == if requested < MIN_SCALE then MIN_SCALE else if requested > MAX_SCALE then MAX_SCALE else requested
      ensures BesideDock(track, frame, visible, canvas)
      ensures Distance(x, track.minX) == Distance(track.maxX, x) && targetX == x
      ensures tick == 0 && idleUntil == 30 && facing == Down
    {
      var clipped := if requested > MAX_SCALE then MAX_SCALE else requested;
      clipped := if clipped < MIN_SCALE then MIN_SCALE else clipped;
      scale, canvas := clipped, canvasW as real * clipped as real;
      track, x, targetX := Track(0.0, 0.0, 0.0), 0.0, 0.0;
      tick, idleUntil, facing := 0, 0, Down;
      new;
      RecomputeTrack(frame, visible);
      x := (track.minX + track.maxX) / 2.0;
      targetX := x;
      idleUntil := 30;
    }

    /** The target may lie past the right end, but by less than one unit and only
        when the track is narrower than that: less than the smallest step. */
    ghost predicate Valid()
      reads this
    {
      && MIN_SCALE <= scale <= MAX_SCALE
      && track.minX <= track.maxX
      && track.minX <= x <= track.maxX
      && track.minX <= targetX
      && (targetX <= track.maxX || targetX < track.minX + 1.0)
    }

    /** The strip beside the largest inset of the visible frame, where the Dock is. */
    method RecomputeTrack(frame: Rect, visible: Rect)
      requires MIN_SCALE <= scale <= MAX_SCALE
      modifies this`track, this`x, this`targetX
      ensures Valid() && targetX <= track.maxX
      ensures BesideDock(track, frame, visible, canvas)
      ensures Nearest(old(x), x, track) && Nearest(old(targetX), targetX, track)
    {
      var bottom, left, right := visible.minY - frame.minY, visible.minX - frame.minX, frame.maxX - visible.maxX;
      if bottom >= Max(left, right) {
        track := Track(frame.minY + bottom, frame.minX + MARGIN, frame.maxX - canvas - MARGIN);
      } else if left > right {
        track := Track(frame.minY + MARGIN, frame.minX + left + MARGIN, frame.maxX - canvas - MARGIN);
      } else {
        track := Track(frame.minY + MARGIN, frame.minX + MARGIN, frame.maxX - right - canvas - MARGIN);
      }
      if track.maxX < track.minX {
        track := track.(maxX := track.minX);
      }
      x := Min(Max(x, track.minX), track.maxX);
      targetX := Min(Max(targetX, track.minX), track.maxX);
    }

    /** One walking frame; `pick` and `rest` are the two random numbers drawn. */
    method Roam(pick: real, rest: real)
      requires Valid() && 0.0 <= pick < 1.0 && 0.0 <= rest < 1.0
      modifies this`x, this`targetX, this`idleUntil, this`facing
      ensures Valid()
      ensures old(tick < idleUntil) ==> x == old(x) && targetX == old(targetX) && idleUntil == old(idleUntil) && facing == Down
      ensures old(tick >= idleUntil && Distance(targetX, x) < scale as real) ==>
                && x == old(x) && facing == Down
                && targetX == track.minX + Times(pick, Max(1.0, track.maxX - track.minX))
                && idleUntil == tick + 8 + (rest * 40.0).Floor && tick + 8 <= idleUntil <= tick + 47
      ensures old(tick >= idleUntil && Distance(targetX, x) >= scale as real) ==>
                && x == StepTowards(old(x), old(targetX), scale as real) && targetX == old(targetX)
                && Between(old(x), x, targetX) && facing == (if targetX > old(x) then Right else Left)
    {
      var speed := scale as real;
      if tick < idleUntil {
        facing := Down;
        return;
      }
      if Distance(targetX, x) < speed {
        var span := Max(1.0, track.maxX - track.minX);
        PickWithin(pick, span);
        targetX := track.minX + Times(pick, span);
        assert targetX < track.minX + span;
        RestWithin(rest);
        idleUntil := tick + 8 + (rest * 40.0).Floor;
        facing := Down;
        return;
      }
      if targetX > x {
        x := x + speed;
        facing := Right;
      } else {
        x := x - speed;
        facing := Left;
      }
    }

    lemma PickWithin(pick: real, span: real)
      requires 0.0 <= pick < 1.0 && span > 0.0
      ensures 0.0 <= Times(pick, span) < span
    {
      Scaled(pick, 1.0, span);
      ScaledOrEqual(0.0, pick, span);
    }

    lemma RestWithin(rest: real)
      requires 0.0 <= rest < 1.0
      ensures 0 <= (rest * 40.0).Floor <= 39
    {
    }

    /** Any number of frames, each advancing the tick before it walks. */
    method Wander(picks: seq<(real, real)>)
      requires Valid()
      requires forall i | 0 <= i < |picks| :: 0.0 <= picks[i].0 < 1.0 && 0.0 <= picks[i].1 < 1.0
      modifies this`x, this`targetX, this`tick, this`idleUntil, this`facing
      ensures Valid() && track == old(track) && tick == old(tick) + |picks|
    {
      for i := 0 to |picks|
        invariant Valid() && track == old(track) && tick == old(tick) + i
      {
        tick := tick + 1;
        Roam(picks[i].0, picks[i].1);
      }
    }
  }
}
