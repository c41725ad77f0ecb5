/**
 The per-frame movement and jump policy of `animate` (js/index.js:177-214):
 which horizontal branch a frame takes, the decay of horizontal speed when no
 direction is cleanly held, and when a jump is triggered.
 */
module Movement {
  import opened Config
  import opened Rounding
  import opened Physics
  import opened Input

  /** The branch a frame takes: schedule a move right, schedule a move left, or
      let the horizontal speed decay now. */
  datatype Decision = MoveRight | MoveLeft | Decay

  /** `d` held alone and pressed last. */
  predicate RightHeld(input: InputState) {
    input.d && input.lastKey == LastD && !input.a
  }

  /** `a` held alone and pressed last. */
  predicate LeftHeld(input: InputState) {
    input.a && input.lastKey == LastA && !input.d
  }

  /** The horizontal branch of `animate`, with its two position guards. */
  function Decide(input: InputState, e: Entity): (r: Decision)
    ensures r == MoveRight <==> RightHeld(input) && e.pos.x <= MapWidth
    ensures r == MoveLeft <==> LeftHeld(input) && e.pos.x >= 0.0
    ensures input.a == input.d ==> r == Decay
  {
    if input.d && input.lastKey == LastD && !input.a && e.pos.x <= MapWidth then MoveRight
    else if input.a && input.lastKey == LastA && !input.d && e.pos.x >= 0.0 then MoveLeft
    else Decay
  }

  /** The two directions are never both cleanly held, so the order of the
      branches does not matter; `lastKey` alone never breaks a tie. */
  lemma DirectionsExclusive(input: InputState, e: Entity)
    ensures !(RightHeld(input) && LeftHeld(input))
    ensures input.a && input.d ==> Decide(input, e) == Decay
    ensures Decide(input, e) != Decay ==> Decide(input.(lastKey := NoKey), e) == Decay
  {
  }

  /** One frame of decay: the speed moves `DecayStep` towards zero and is
      rounded to hundredths; zero stays zero. */
  function DecayVelocity(v: real): (r: real)
    ensures v == 0.0 ==> r == 0.0
    ensures v >= DecayStep ==> 0.0 <= r < v
    ensures v <= -DecayStep ==> v < r <= 0.0
    ensures v > 0.0 ==> -0.005 <= r - (v - DecayStep) <= 0.005
    ensures v < 0.0 ==> -0.005 <= r - (v + DecayStep) <= 0.005
    // the result is what `Number(... .toFixed(2))` can return, and a speed
    // already in hundredths loses exactly one step, with nothing to round
    ensures OnHundredths(r)
    ensures OnHundredths(v) && v > 0.0 ==> r == v - DecayStep
    ensures OnHundredths(v) && v < 0.0 ==> r == v + DecayStep
  {
    HundredthsOnGrid(0);
    ShiftOnGrid(v, -40);
    ShiftOnGrid(v, 40);
    if v > 0.0 then ToFixed2(v - DecayStep)
    else if v < 0.0 then ToFixed2(v + DecayStep)
    else v
  }

  /** Decay treats both directions alike. */
  lemma DecayOdd(v: real)
    ensures DecayVelocity(-v) == -DecayVelocity(v)
  {
    if v > 0.0 {
      ToFixed2Odd(v - DecayStep);
    } else if v < 0.0 {
      ToFixed2Odd(-v - DecayStep);
    }
  }

  /** The jump guard of `animate`. The map height is 0, so its position test
      only asks that the entity is not above the map's top edge. */
  predicate JumpReady(input: InputState, e: Entity)
    ensures JumpReady(input, e) <==> input.w && !e.isFalling && e.pos.y >= 0.0
  {
    input.w && !e.isFalling && e.pos.y >= MapHeight * -1.0
  }

  /** `k` decay steps from zero: the values a horizontal speed of
      `MovementSpeed` passes through as it decays. */
  function GridPoint(k: int): real {
    k as real * DecayStep
  }

  /** Reachable horizontal speeds: a whole number of decay steps, at most
      `MovementSpeed` either way. */
  predicate OnSpeedGrid(v: real) {
    var k := (v / DecayStep).Floor;
    -25 <= k <= 25 && GridPoint(k) == v
  }

  lemma GridPointIndex(k: int)
    ensures (GridPoint(k) / DecayStep).Floor == k
    ensures OnHundredths(GridPoint(k))
  {
    assert GridPoint(k) / DecayStep == k as real;
    HundredthsOnGrid(40 * k);
    assert GridPoint(k) == (40 * k) as real / 100.0;
  }

  /** On the grid, decay takes off exactly one step: rounding changes nothing. */
  lemma DecayOnGrid(k: int)
    ensures k > 0 ==> DecayVelocity(GridPoint(k)) == GridPoint(k - 1)
    ensures k < 0 ==> DecayVelocity(GridPoint(k)) == GridPoint(k + 1)
    ensures k == 0 ==> DecayVelocity(GridPoint(k)) == 0.0
  {
    if k > 0 {
      GridPointIndex(k - 1);
      assert GridPoint(k) - DecayStep == GridPoint(k - 1);
    } else if k < 0 {
      GridPointIndex(k + 1);
      assert GridPoint(k) + DecayStep == GridPoint(k + 1);
    }
  }

  /** Decay keeps a reachable speed reachable; so do both move speeds. */
  lemma DecayKeepsGrid(v: real)
    requires OnSpeedGrid(v)
    ensures OnSpeedGrid(DecayVelocity(v))
  {
    var k := (v / DecayStep).Floor;
    DecayOnGrid(k);
    if k > 0 {
      GridPointIndex(k - 1);
    } else if k < 0 {
      GridPointIndex(k + 1);
    } else {
      GridPointIndex(0);
    }
  }

  lemma MoveSpeedsOnGrid()
    ensures OnSpeedGrid(MovementSpeed) && OnSpeedGrid(-MovementSpeed) && OnSpeedGrid(0.0)
  {
    GridPointIndex(25);
    GridPointIndex(-25);
    GridPointIndex(0);
    assert GridPoint(25) == MovementSpeed;
    assert GridPoint(-25) == -MovementSpeed;
  }

  /** The horizontal speed after `n` frames of decay. */
  function DecaySteps(v: real, n: nat): real
    decreases n
  {
    if n == 0 then v else DecaySteps(DecayVelocity(v), n - 1)
  }

  /** From `k` steps above zero, `n <= k` frames of decay leave exactly `k - n`
      steps: the speed falls linearly, with no residue from rounding. */
  lemma {:induction false} DecayStepsOnGrid(k: nat, n: nat)
    requires n <= k
    ensures DecaySteps(GridPoint(k), n) == GridPoint(k - n)
    ensures DecaySteps(GridPoint(-(k as int)), n) == GridPoint(n as int - k as int)
    decreases n
  {
    if n > 0 {
      DecayOnGrid(k);
      DecayOnGrid(-(k as int));
      DecayStepsOnGrid(k - 1, n - 1);
    }
  }

  /** Zero is a fixed point of decay. */
  lemma {:induction false} DecayStepsFromZero(n: nat)
    ensures DecaySteps(0.0, n) == 0.0
    decreases n
  {
    if n > 0 {
      DecayStepsFromZero(n - 1);
    }
  }

  /** From `k` steps either way, decay reaches zero after exactly `k` frames
      and stays there. */
  lemma StopsAfterSteps(k: nat, n: nat)
    requires k >= 1
    ensures DecaySteps(GridPoint(k), k - 1) != 0.0 && DecaySteps(GridPoint(-(k as int)), k - 1) != 0.0
    ensures n >= k ==> DecaySteps(GridPoint(k), n) == 0.0 && DecaySteps(GridPoint(-(k as int)), n) == 0.0
  {
    DecayStepsOnGrid(k, k - 1);
    if n >= k {
      DecayStepsOnGrid(k, k);
      DecayStepsSplit(GridPoint(k), k, n - k);
      DecayStepsSplit(GridPoint(-(k as int)), k, n - k);
      DecayStepsFromZero(n - k);
    }
  }

  /** Released from full speed in either direction, the player stops exactly
      after 25 frames, is still moving one frame earlier, and stays stopped. */
  lemma FullSpeedStopsAfter25(n: nat)
    ensures DecaySteps(MovementSpeed, 24) != 0.0 && DecaySteps(-MovementSpeed, 24) != 0.0
    ensures n >= 25 ==> DecaySteps(MovementSpeed, n) == 0.0 && DecaySteps(-MovementSpeed, n) == 0.0
  {
    assert GridPoint(25) == MovementSpeed;
    assert GridPoint(-25) == -MovementSpeed;
    StopsAfterSteps(25, n);
  }

  /** Any reachable horizontal speed has decayed to exactly zero after 25 frames. */
  lemma GridSpeedStops(v: real, n: nat)
    requires OnSpeedGrid(v)
    requires n >= 25
    ensures DecaySteps(v, n) == 0.0
  {
    var k := (v / DecayStep).Floor;
    assert v == GridPoint(k);
    if k > 0 {
      StopsAfterSteps(k, n);
    } else if k < 0 {
      var j: nat := -k;
      assert v == GridPoint(-(j as int));
      StopsAfterSteps(j, n);
    } else {
      assert v == 0.0;
      DecayStepsFromZero(n);
    }
  }

  /** Decaying `m` then `n` frames is decaying `m + n` frames. */
  lemma {:induction false} DecayStepsSplit(v: real, m: nat, n: nat)
    ensures DecaySteps(v, m + n) == DecaySteps(DecaySteps(v, m), n)
    decreases m
  {
    if m > 0 {
      DecayStepsSplit(DecayVelocity(v), m - 1, n);
    }
  }

  /** Off the grid, decay need not settle: a speed smaller than one step ends
      at zero or on the other side, never on the same side, and 0.2 alternates
      with -0.2 forever. */
  lemma SmallSpeedOscillates(v: real)
    ensures 0.0 < v < DecayStep ==> DecayVelocity(v) <= 0.0
    ensures -DecayStep < v < 0.0 ==> DecayVelocity(v) >= 0.0
    ensures DecayVelocity(0.2) == -0.2 && DecayVelocity(-0.2) == 0.2
  {
    HundredthsOnGrid(-20);
    HundredthsOnGrid(20);
    assert 0.2 - DecayStep == -20 as real / 100.0;
    assert -0.2 + DecayStep == 20 as real / 100.0;
  }
}
