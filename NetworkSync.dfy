/**
  Synchronisation of a remote character with the snapshots its owner
  sends: each snapshot overwrites the health and mana mirrors, decodes the
  movement input, is handed to the movement cheat detector and starts an
  interpolation of the rendered position towards the received one, which
  takes at most `maxLerpTime`; once it is done, the character is moved on
  by its last input (extrapolation) until the extrapolation time reaches
  `maxExtrapolationTime` (the last tick may pass it by up to one tick).

  Distances are supplied by the caller as reals; the movement the
  extrapolation drives is done by a movement controller that is not part of
  this model, so a tick reports how much time it handed to that controller.
*/
module NetworkSync {
  import opened Vectors
  import opened InputBits
  import MovementCheat
  import Queues

  /** The render-side fields that a tick changes. */
  datatype Render = Render(
    position: Vec3,
    interpolate: bool,
    lerpTime: real,
    lerpTimeNeeded: real,
    lerpPercentage: real,
    extrapolate: bool,
    extrapolationTime: real,
    deltaTimeLeft: real)

  /** What the render fields satisfy between two calls. */
  predicate RenderInvariant(r: Render, maxLerpTime: real)
  {
    && 0.0 <= r.lerpPercentage <= 1.0
    && r.lerpTime >= 0.0
    && r.extrapolationTime >= 0.0
    && r.deltaTimeLeft >= 0.0
    && (r.interpolate ==> 0.0 < r.lerpTimeNeeded <= maxLerpTime && r.lerpTime < r.lerpTimeNeeded && r.lerpPercentage < 1.0)
  }

  /**
    The duration of an interpolation over `distance` at `speed`, capped at
    `maxLerpTime`; a speed of 0 makes the quotient infinite in floating
    point, so the cap applies.
  */
  function LerpDuration(distance: real, speed: real, maxLerpTime: real): (d: real)
    requires distance > 0.0 && speed >= 0.0 && maxLerpTime > 0.0
    ensures 0.0 < d <= maxLerpTime
    ensures speed > 0.0 && distance / speed <= maxLerpTime ==> d == distance / speed
    ensures (speed > 0.0 && distance / speed >= maxLerpTime) || speed == 0.0 ==> d == maxLerpTime
  {
    if speed == 0.0 then maxLerpTime else Min(distance / speed, maxLerpTime)
  }

  /** `StartPositionLerping`: interpolate iff there is a distance to cover, from time and percentage 0. */
  function StartLerping(r: Render, distance: real, speed: real, maxLerpTime: real): Render
    requires distance >= 0.0 && speed >= 0.0 && maxLerpTime > 0.0
  {
    if distance > 0.0 then
      r.(interpolate := true, lerpTimeNeeded := LerpDuration(distance, speed, maxLerpTime),
         lerpPercentage := 0.0, lerpTime := 0.0)
    else r.(interpolate := false)
  }

  /** `StartPositionExtrapolation`: extrapolate iff the last input moves, with the extrapolation time reset. */
  function StartExtrapolation(r: Render, moving: bool): Render
  {
    r.(extrapolate := moving, extrapolationTime := if moving then 0.0 else r.extrapolationTime)
  }

  /**
    `Interpolate`: spend the tick's time on the interpolation towards
    `target`; what is left of it once the interpolation completes stays in
    `deltaTimeLeft` for the extrapolation.
  */
  function InterpolateStep(r: Render, target: Vec3, moving: bool): Render
    requires r.lerpTimeNeeded > 0.0
  {
    var prevLerpTime := r.lerpTime;
    var lerpTime := prevLerpTime + r.deltaTimeLeft;
    var lerpPercentage := Min(lerpTime / r.lerpTimeNeeded, 1.0);
    var deltaTimeLeft :=
      if lerpPercentage == 1.0 then Max(r.deltaTimeLeft - (r.lerpTimeNeeded - prevLerpTime), 0.0) else 0.0;
    var r' := r.(lerpTime := lerpTime, lerpPercentage := lerpPercentage, deltaTimeLeft := deltaTimeLeft,
                 position := Lerp(r.position, target, lerpPercentage));
    if lerpPercentage == 1.0 then StartExtrapolation(r'.(interpolate := false), moving) else r'
  }

  /** The state of a tick after its interpolation phase. */
  function Interpolated(r: Render, dt: real, target: Vec3, moving: bool, maxLerpTime: real): Render
    requires RenderInvariant(r, maxLerpTime)
  {
    var r1 := r.(deltaTimeLeft := dt);
    if r1.interpolate && r1.lerpPercentage < 1.0 then InterpolateStep(r1, target, moving) else r1
  }

  /**
    `Update`: one render tick of length `dt`; the second component is the
    time the extrapolation hands to the movement controller (0 if none).
  */
  function Tick(r: Render, dt: real, target: Vec3, moving: bool, maxLerpTime: real, maxExtrapolationTime: real)
    : (Render, real)
    requires RenderInvariant(r, maxLerpTime)
  {
    var r2 := Interpolated(r, dt, target, moving, maxLerpTime);
    if r2.extrapolate && r2.extrapolationTime < maxExtrapolationTime then
      (r2.(extrapolationTime := r2.extrapolationTime + r2.deltaTimeLeft), r2.deltaTimeLeft)
    else (r2, 0.0)
  }

  lemma {:induction false} StartLerpingKeepsInvariant(r: Render, distance: real, speed: real, maxLerpTime: real)
    requires RenderInvariant(r, maxLerpTime) && distance >= 0.0 && speed >= 0.0 && maxLerpTime > 0.0
    ensures var r' := StartLerping(r, distance, speed, maxLerpTime);
      && RenderInvariant(r', maxLerpTime)
      && (r'.interpolate <==> distance > 0.0)
      && (r'.interpolate ==> r'.lerpTime == 0.0 && r'.lerpPercentage == 0.0 && r'.lerpTimeNeeded <= maxLerpTime)
  {
    if distance > 0.0 {
      var d := LerpDuration(distance, speed, maxLerpTime);
      assert 0.0 < d <= maxLerpTime;
    }
  }

  lemma NonNegativeQuotient(a: real, b: real)
    requires b > 0.0 && a >= 0.0
    ensures a / b >= 0.0
  {
    var q := a / b;
    MulPositive(b, b);
    assert q * b * b == a * b;
  }

  lemma {:induction false} DivisionBelowOne(a: real, b: real)
    requires b > 0.0 && a >= 0.0
    ensures a / b >= 0.0
    ensures a / b >= 1.0 <==> a >= b
  {
    var q := a / b;
    assert q * b == a;
    NonNegativeQuotient(a, b);
    if q >= 1.0 {
      var e := q - 1.0;
      MulNonNegative(e, b);
      assert e * b == a - b;
    } else {
      var d := 1.0 - q;
      MulPositive(d, b);
      assert d * b == b - a;
    }
  }

  /**
    One interpolation step: the percentage stays in [0, 1] and reaches 1
    exactly when the accumulated time covers the duration; the time budget
    left over is 0 unless the interpolation completed, and then it is the
    part of the budget the interpolation did not need.
  */
  lemma {:induction false} InterpolateStepBudget(r: Render, target: Vec3, moving: bool, maxLerpTime: real)
    requires RenderInvariant(r, maxLerpTime) && r.interpolate
    ensures var r' := InterpolateStep(r, target, moving);
      && 0.0 <= r'.lerpPercentage <= 1.0
      && (r'.lerpPercentage == 1.0 <==> r.lerpTime + r.deltaTimeLeft >= r.lerpTimeNeeded)
      && 0.0 <= r'.deltaTimeLeft <= r.deltaTimeLeft
      && r'.deltaTimeLeft == (if r'.lerpPercentage == 1.0 then r.deltaTimeLeft - (r.lerpTimeNeeded - r.lerpTime) else 0.0)
      && r'.lerpTime == r.lerpTime + r.deltaTimeLeft
      && RenderInvariant(r', maxLerpTime)
  {
    DivisionBelowOne(r.lerpTime + r.deltaTimeLeft, r.lerpTimeNeeded);
  }

  /**
    When the interpolation completes, the rendered position is the target
    and interpolation stops; extrapolation starts, from time 0, iff the
    last input moves. Until then the interpolation goes on and the
    extrapolation state is untouched.
  */
  lemma {:induction false} InterpolateStepCompletion(r: Render, target: Vec3, moving: bool, maxLerpTime: real)
    requires RenderInvariant(r, maxLerpTime) && r.interpolate
    ensures var r' := InterpolateStep(r, target, moving);
      && (r'.lerpPercentage == 1.0 ==>
            r'.position == target && !r'.interpolate && r'.extrapolate == moving
            && (moving ==> r'.extrapolationTime == 0.0))
      && (r'.lerpPercentage < 1.0 ==>
            r'.interpolate && r'.extrapolate == r.extrapolate && r'.extrapolationTime == r.extrapolationTime)
  {
    InterpolateStepBudget(r, target, moving, maxLerpTime);
    var r' := InterpolateStep(r, target, moving);
    LerpEnds(r.position, target, r'.lerpPercentage);
  }

  /**
    An interpolation step moves the rendered position towards the target
    without overshooting: each coordinate stays between the old rendered
    position's and the target's.
  */
  lemma InterpolateStepStaysBetween(r: Render, target: Vec3, moving: bool)
    requires r.lerpTimeNeeded > 0.0
    ensures Between(r.position, target, InterpolateStep(r, target, moving).position)
  {
    LerpStaysBetween(r.position, target, Min((r.lerpTime + r.deltaTimeLeft) / r.lerpTimeNeeded, 1.0));
  }

  /** A tick keeps the invariant, and hands the movement controller no negative time. */
  lemma {:induction false} TickKeepsInvariant(
    r: Render, dt: real, target: Vec3, moving: bool, maxLerpTime: real, maxExtrapolationTime: real)
    requires RenderInvariant(r, maxLerpTime) && dt >= 0.0
    ensures var (r', moveTime) := Tick(r, dt, target, moving, maxLerpTime, maxExtrapolationTime);
      RenderInvariant(r', maxLerpTime) && moveTime >= 0.0 && r'.lerpTimeNeeded == r.lerpTimeNeeded
  {
    var r1 := r.(deltaTimeLeft := dt);
    if r1.interpolate {
      InterpolateStepBudget(r1, target, moving, maxLerpTime);
    }
  }

  /**
    The extrapolation of a tick runs iff, after the interpolation phase,
    `extrapolate` holds and the extrapolation time is below the cap; it then
    adds exactly the time left in the tick.
  */
  lemma ExtrapolationGate(
    r: Render, dt: real, target: Vec3, moving: bool, maxLerpTime: real, maxExtrapolationTime: real)
    requires RenderInvariant(r, maxLerpTime)
    ensures var m := Interpolated(r, dt, target, moving, maxLerpTime);
      var (r', moveTime) := Tick(r, dt, target, moving, maxLerpTime, maxExtrapolationTime);
      && (m.extrapolate && m.extrapolationTime < maxExtrapolationTime ==>
            moveTime == m.deltaTimeLeft && r'.extrapolationTime == m.extrapolationTime + m.deltaTimeLeft)
      && (!(m.extrapolate && m.extrapolationTime < maxExtrapolationTime) ==> moveTime == 0.0 && r' == m)
  {
  }

  /**
    At most one of interpolation and extrapolation drives a tick: while the
    interpolation is still going on after the tick, the extrapolation was
    given no time; time handed to the movement controller means the
    interpolation is over and the extrapolation ran.
  */
  lemma {:induction false} OneDriverPerTick(
    r: Render, dt: real, target: Vec3, moving: bool, maxLerpTime: real, maxExtrapolationTime: real)
    requires RenderInvariant(r, maxLerpTime) && dt >= 0.0
    ensures var (r', moveTime) := Tick(r, dt, target, moving, maxLerpTime, maxExtrapolationTime);
      && (r'.interpolate ==> moveTime == 0.0)
      && (moveTime > 0.0 ==> !r'.interpolate && r'.extrapolate)
  {
    if r.interpolate {
      InterpolateStepBudget(r.(deltaTimeLeft := dt), target, moving, maxLerpTime);
    }
  }

  function Sum(dts: seq<real>): real
  {
    if dts == [] then 0.0 else Sum(dts[..|dts| - 1]) + dts[|dts| - 1]
  }

  /** Ticks of the given lengths with no snapshot in between; the total time handed to the movement controller. */
  function Run(r: Render, dts: seq<real>, target: Vec3, moving: bool, maxLerpTime: real, maxExtrapolationTime: real)
    : (result: (Render, real))
    requires RenderInvariant(r, maxLerpTime)
    requires forall i :: 0 <= i < |dts| ==> dts[i] >= 0.0
    ensures RenderInvariant(result.0, maxLerpTime)
  {
    if dts == [] then (r, 0.0)
    else
      var prefix := dts[..|dts| - 1];
      assert forall i :: 0 <= i < |prefix| ==> prefix[i] == dts[i];
      var (r1, moved) := Run(r, prefix, target, moving, maxLerpTime, maxExtrapolationTime);
      TickKeepsInvariant(r1, dts[|dts| - 1], target, moving, maxLerpTime, maxExtrapolationTime);
      var (r2, step) := Tick(r1, dts[|dts| - 1], target, moving, maxLerpTime, maxExtrapolationTime);
      (r2, moved + step)
  }

  lemma {:induction false} RunKeepsInvariant(
    r: Render, dts: seq<real>, target: Vec3, moving: bool, maxLerpTime: real, maxExtrapolationTime: real)
    requires RenderInvariant(r, maxLerpTime)
    requires forall i :: 0 <= i < |dts| ==> dts[i] >= 0.0
    ensures var (r', _) := Run(r, dts, target, moving, maxLerpTime, maxExtrapolationTime);
      RenderInvariant(r', maxLerpTime) && r'.lerpTimeNeeded == r.lerpTimeNeeded
      && (r'.interpolate ==> r.interpolate && r'.lerpTime == r.lerpTime + Sum(dts))
  {
    if dts != [] {
      var prefix := dts[..|dts| - 1];
      assert forall i :: 0 <= i < |prefix| ==> prefix[i] == dts[i];
      RunKeepsInvariant(r, prefix, target, moving, maxLerpTime, maxExtrapolationTime);
      var (r1, _) := Run(r, prefix, target, moving, maxLerpTime, maxExtrapolationTime);
      var dt := dts[|dts| - 1];
      TickKeepsInvariant(r1, dt, target, moving, maxLerpTime, maxExtrapolationTime);
      if r1.interpolate {
        InterpolateStepBudget(r1.(deltaTimeLeft := dt), target, moving, maxLerpTime);
      }
    }
  }

  /**
    Without a new snapshot the interpolation is over once the ticks add up
    to the time it still needs, which is at most `maxLerpTime`.
  */
  lemma {:induction false} InterpolationFinishes(
    r: Render, dts: seq<real>, target: Vec3, moving: bool, maxLerpTime: real, maxExtrapolationTime: real)
    requires RenderInvariant(r, maxLerpTime)
    requires forall i :: 0 <= i < |dts| ==> dts[i] >= 0.0
    requires Sum(dts) >= r.lerpTimeNeeded - r.lerpTime
    ensures !Run(r, dts, target, moving, maxLerpTime, maxExtrapolationTime).0.interpolate
  {
    RunKeepsInvariant(r, dts, target, moving, maxLerpTime, maxExtrapolationTime);
  }

  /**
    Without a new snapshot, starting once interpolation is over, the time
    handed to the movement controller is what the extrapolation time grew by, and the extrapolation time never
    passes the cap by more than one tick: extrapolation stops once the cap
    is reached.
  */
  lemma {:induction false} ExtrapolationBounded(
    r: Render, dts: seq<real>, target: Vec3, moving: bool, maxLerpTime: real, maxExtrapolationTime: real, maxTick: real)
    requires RenderInvariant(r, maxLerpTime) && !r.interpolate
    requires forall i :: 0 <= i < |dts| ==> 0.0 <= dts[i] <= maxTick
    ensures var (r', moved) := Run(r, dts, target, moving, maxLerpTime, maxExtrapolationTime);
      && !r'.interpolate
      && moved == r'.extrapolationTime - r.extrapolationTime
      && r'.extrapolationTime <= Max(r.extrapolationTime, maxExtrapolationTime + maxTick)
  {
    if dts != [] {
      var prefix := dts[..|dts| - 1];
      assert forall i :: 0 <= i < |prefix| ==> prefix[i] == dts[i];
      ExtrapolationBounded(r, prefix, target, moving, maxLerpTime, maxExtrapolationTime, maxTick);
      RunKeepsInvariant(r, prefix, target, moving, maxLerpTime, maxExtrapolationTime);
    }
  }

  /** Everything a snapshot overwrites. */
  datatype Received = Received(
    correctCharacterPosition: Vec3,
    health: real,
    mana: real,
    input: MoveInput,
    inputByte: byte)

  class CharacterNetworkSync {
    var position: Vec3
    var correctCharacterPosition: Vec3
    var health: real
    var mana: real

    var hasInputHorizontal: bool
    var inputHorizontal: real
    var hasInputVertical: bool
    var inputVertical: real
    var inputByte: byte

    const maxLerpTime: real
    var lerpTimeNeeded: real
    var lerpTime: real
    var lerpPercentage: real
    var lerpStartPosition: Vec3
    var lerpDistance: real
    var interpolate: bool

    const maxExtrapolationTime: real
    var extrapolationTime: real
    var extrapolate: bool

    var deltaTimeLeft: real

    const movemantCheatDetection: MovementCheat.MovemantCheatDetection?
    ghost const Repr: set<object>

    function State(): Render
      reads this
    {
      Render(position, interpolate, lerpTime, lerpTimeNeeded, lerpPercentage,
             extrapolate, extrapolationTime, deltaTimeLeft)
    }

    function Mirror(): Received
      reads this
    {
      Received(correctCharacterPosition, health, mana,
               MoveInput(hasInputVertical, inputVertical, hasInputHorizontal, inputHorizontal), inputByte)
    }

    /** Whether the last received input moves the character. */
    function Moving(): bool
      reads this
    {
      hasInputVertical || hasInputHorizontal
    }

    ghost predicate Valid()
      reads this, Repr
    {
      && this in Repr
      && maxLerpTime > 0.0
      && RenderInvariant(State(), maxLerpTime)
      && (movemantCheatDetection != null ==>
            && movemantCheatDetection in Repr
            && movemantCheatDetection.movemantLog in Repr
            && movemantCheatDetection.Valid())
    }

    /** A character at `initialPosition`; a remote one gets a movement cheat detector. */
    constructor (initialPosition: Vec3, maxLerpTime: real, maxExtrapolationTime: real, remote: bool)
      requires maxLerpTime > 0.0
      ensures Valid() && fresh(Repr)
      ensures State() == Render(initialPosition, false, 0.0, 0.0, 1.0, false, 2.0, 0.0)
      ensures Mirror() == Received(Zero, 0.0, 0.0, MoveInput(false, 0.0, false, 0.0), 0)
      ensures this.maxLerpTime == maxLerpTime && this.maxExtrapolationTime == maxExtrapolationTime
      ensures (movemantCheatDetection != null) == remote
      ensures movemantCheatDetection != null ==>
        && movemantCheatDetection.prevTime == 0.0
        && movemantCheatDetection.previousPosition == Zero
        && movemantCheatDetection.movemantLog.list == []
        && movemantCheatDetection.Timer() == MovementCheat.Unset
    {
      position := initialPosition;
      correctCharacterPosition := Zero;
      health, mana := 0.0, 0.0;
      hasInputHorizontal, inputHorizontal := false, 0.0;
      hasInputVertical, inputVertical := false, 0.0;
      inputByte := 0;
      this.maxLerpTime := maxLerpTime;
      lerpTimeNeeded, lerpTime, lerpPercentage := 0.0, 0.0, 1.0;
      lerpStartPosition, lerpDistance, interpolate := Zero, 0.0, false;
      this.maxExtrapolationTime := maxExtrapolationTime;
      extrapolationTime, extrapolate := 2.0, false;
      deltaTimeLeft := 0.0;
      var detector: MovementCheat.MovemantCheatDetection? := null;
      if remote {
        detector := new MovementCheat.MovemantCheatDetection();
      }
      movemantCheatDetection := detector;
      var parts: set<object> := if detector != null then {detector, detector.movemantLog} else {};
      Repr := {this} + parts;
    }

    /**
      `StartPositionLerping`: interpolate from the rendered position, which
      is `distance` away from the authoritative one, at `speed`.
    */
    method StartPositionLerping(distance: real, speed: real)
      requires Valid() && distance >= 0.0 && speed >= 0.0
      modifies this
      ensures Valid()
      ensures State() == StartLerping(old(State()), distance, speed, maxLerpTime)
      ensures lerpStartPosition == old(position) && lerpDistance == distance
      ensures Mirror() == old(Mirror())
    {
      lerpStartPosition := position;
      lerpDistance := distance;
      interpolate := lerpDistance > 0.0;
      if interpolate {
        lerpTimeNeeded := LerpDuration(lerpDistance, speed, maxLerpTime);
        lerpPercentage := 0.0;
        lerpTime := 0.0;
      }
      StartLerpingKeepsInvariant(old(State()), distance, speed, maxLerpTime);
    }

    method StartPositionExtrapolation()
      requires Valid()
      modifies this
      ensures Valid()
      ensures State() == StartExtrapolation(old(State()), old(Moving()))
      ensures Mirror() == old(Mirror())
      ensures lerpStartPosition == old(lerpStartPosition) && lerpDistance == old(lerpDistance)
    {
      extrapolate := hasInputVertical || hasInputHorizontal;
      if extrapolate {
        extrapolationTime := 0.0;
      }
    }

    method Interpolate()
      requires Valid() && interpolate
      modifies this
      ensures Valid()
      ensures State() == InterpolateStep(old(State()), correctCharacterPosition, Moving())
      ensures Mirror() == old(Mirror())
      ensures lerpStartPosition == old(lerpStartPosition) && lerpDistance == old(lerpDistance)
    {
      InterpolateStepBudget(State(), correctCharacterPosition, Moving(), maxLerpTime);
      var prevLerpTime := lerpTime;
      lerpTime := lerpTime + deltaTimeLeft;
      lerpPercentage := Min(lerpTime / lerpTimeNeeded, 1.0);
      if lerpPercentage == 1.0 {
        deltaTimeLeft := Max(deltaTimeLeft - (lerpTimeNeeded - prevLerpTime), 0.0);
      } else {
        deltaTimeLeft := 0.0;
      }
      position := Lerp(position, correctCharacterPosition, lerpPercentage);
      if lerpPercentage == 1.0 {
        interpolate := false;
        StartPositionExtrapolation();
      }
    }

    /** `Extrapolate`: `moveTime` is the time handed to the movement controller. */
    method Extrapolate() returns (moveTime: real)
      requires Valid()
      modifies this
      ensures Valid()
      ensures State() == old(State()).(extrapolationTime := old(extrapolationTime + deltaTimeLeft))
      ensures moveTime == old(deltaTimeLeft)
      ensures Mirror() == old(Mirror())
      ensures lerpStartPosition == old(lerpStartPosition) && lerpDistance == old(lerpDistance)
    {
      extrapolationTime := extrapolationTime + deltaTimeLeft;
      moveTime := deltaTimeLeft;
    }

    /**
      `Update`: one render tick of `dt`; `moveTime` is the time handed to
      the movement controller and `animationSpeed` the speed given to the
      animation (the stat `speed` while interpolating or extrapolating).
    */
    method Update(dt: real, speed: real) returns (moveTime: real, animationSpeed: real)
      requires Valid() && dt >= 0.0
      modifies this
      ensures Valid()
      ensures (State(), moveTime)
           == Tick(old(State()), dt, correctCharacterPosition, Moving(), maxLerpTime, maxExtrapolationTime)
      ensures animationSpeed == if interpolate || extrapolate then speed else 0.0
      ensures Mirror() == old(Mirror())
      ensures lerpStartPosition == old(lerpStartPosition) && lerpDistance == old(lerpDistance)
    {
      TickKeepsInvariant(State(), dt, correctCharacterPosition, Moving(), maxLerpTime, maxExtrapolationTime);
      deltaTimeLeft := dt;
      if interpolate && lerpPercentage < 1.0 {
        Interpolate();
      }
      if extrapolate && extrapolationTime < maxExtrapolationTime {
        moveTime := Extrapolate();
      } else {
        moveTime := 0.0;
      }
      animationSpeed := if interpolate || extrapolate then speed else 0.0;
    }

    /** `InstantPositionChange`: a teleport sets the rendered and the authoritative position. */
    method InstantPositionChange(p: Vec3)
      requires Valid()
      modifies this
      ensures Valid()
      ensures position == p && correctCharacterPosition == p
      ensures State() == old(State()).(position := p)
      ensures Mirror() == old(Mirror()).(correctCharacterPosition := p)
      ensures lerpStartPosition == old(lerpStartPosition) && lerpDistance == old(lerpDistance)
    {
      correctCharacterPosition := p;
      position := p;
    }

    /** The mirrors of the owner's stats and position, and the raw input byte. */
    method StoreReceived(health: real, mana: real, newPosition: Vec3, inputByte: byte)
      requires Valid()
      modifies this
      ensures State() == old(State())
      ensures Valid()
      ensures Mirror() == old(Mirror()).(correctCharacterPosition := newPosition, health := health, mana := mana,
                                         inputByte := inputByte)
      ensures lerpStartPosition == old(lerpStartPosition) && lerpDistance == old(lerpDistance)
    {
      this.health := health;
      this.mana := mana;
      correctCharacterPosition := newPosition;
      this.inputByte := inputByte;
    }

    /** The decoded movement input. */
    method StoreInput(input: MoveInput)
      requires Valid()
      modifies this
      ensures State() == old(State())
      ensures Valid()
      ensures Mirror() == old(Mirror()).(input := input)
      ensures lerpStartPosition == old(lerpStartPosition) && lerpDistance == old(lerpDistance)
    {
      hasInputVertical, inputVertical := input.hasInputVertical, input.inputVertical;
      hasInputHorizontal, inputHorizontal := input.hasInputHorizontal, input.inputHorizontal;
    }

    /**
      The receive half of `OnPhotonSerializeView`: a snapshot with the
      owner's health, mana, position and input byte. `renderDistance` is the
      distance from the rendered position to `newPosition`, `stepDistance`
      the one from the detector's previous position to it; `speed` is the
      speed stat. `cheatDetected` is the movement detector's signal.
    */
    method OnReceive(
      health: real, mana: real, newPosition: Vec3, inputByte: byte,
      renderDistance: real, stepDistance: real, networkTime: real, localTime: real, speed: real)
      returns (cheatDetected: bool)
      requires Valid() && renderDistance >= 0.0 && stepDistance >= 0.0 && speed >= 0.0
      requires movemantCheatDetection != null ==> movemantCheatDetection.Accepts(newPosition, networkTime)
      modifies Repr
      ensures Valid()
      ensures Mirror() == Received(newPosition, health, mana, DecodeInput(inputByte), inputByte)
      ensures State() == StartLerping(old(State()), renderDistance, speed, maxLerpTime)
      ensures lerpStartPosition == old(position) && lerpDistance == renderDistance
      ensures movemantCheatDetection == null ==> !cheatDetected
      ensures movemantCheatDetection != null ==>
        && movemantCheatDetection.Valid()
        && movemantCheatDetection.prevTime == networkTime
        && movemantCheatDetection.previousPosition == newPosition
      // the detector's first sample is only recorded
      ensures movemantCheatDetection != null && old(movemantCheatDetection.prevTime) == 0.0 ==>
        && movemantCheatDetection.movemantLog.list == old(movemantCheatDetection.movemantLog.list)
        && movemantCheatDetection.Timer() == old(movemantCheatDetection.Timer())
        && !cheatDetected
      // an unchanged position clears the detector's window
      ensures movemantCheatDetection != null && old(movemantCheatDetection.prevTime) != 0.0
              && old(movemantCheatDetection.previousPosition) == newPosition ==>
        && movemantCheatDetection.movemantLog.list == []
        && movemantCheatDetection.Timer() == old(movemantCheatDetection.Timer())
        && !cheatDetected
      // a move is logged and the timer runs on the window's averages
      ensures movemantCheatDetection != null && old(movemantCheatDetection.prevTime) != 0.0
              && old(movemantCheatDetection.previousPosition) != newPosition ==>
        var elapsed := networkTime - old(movemantCheatDetection.prevTime);
        var log := movemantCheatDetection.movemantLog.list;
        && elapsed > 0.0
        && log == Queues.BoundedAppend(old(movemantCheatDetection.movemantLog.list),
                                       MovementCheat.LogItem(elapsed, stepDistance / elapsed, speed),
                                       MovementCheat.LOG_LIMIT)
        && |log| > 0
        && movemantCheatDetection.Timer()
           == MovementCheat.HysteresisNext(old(movemantCheatDetection.Timer()), MovementCheat.Exceeded(log), localTime)
        && cheatDetected
           == MovementCheat.Fires(old(movemantCheatDetection.Timer()), MovementCheat.Exceeded(log), localTime)
    {
      var detector := movemantCheatDetection;
      StoreReceived(health, mana, newPosition, inputByte);
      StoreInput(DecodeInput(inputByte));
      assert detector != null ==> unchanged(detector, detector.movemantLog);

      cheatDetected := false;
      if detector != null {
        cheatDetected := detector.SetNext(newPosition, stepDistance, networkTime, localTime, speed);
      }
      // The lerp restart touches only this object, not the detector.
      label detected:
      StartPositionLerping(renderDistance, speed);
      assert detector != null ==> unchanged@detected(detector, detector.movemantLog);
    }
  }
}
