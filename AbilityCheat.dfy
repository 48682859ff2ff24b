/**
  Validation of a remote character's ability use: targeting, cooldown and
  mana cost are each checked with the ability's own rule and accepted,
  failing that, within a tolerance that absorbs network latency. An
  ability is given by the values its methods and fields report for the
  cast being checked, the target point and target unit included.
*/
module AbilityCheat {
  const COOLDOWN_THRESHOLD: real := 1.0
  const COST_TRESHOLD: real := 2.0
  const RANGE_TRESHOLD: real := -2.0

  datatype TargetingType = Point | Unit

  datatype Ability = Ability(
    needTargeting: bool,           // NeedTargeting()
    targetPositionValid: bool,     // ValidateTargetPosition(point, out rangeDif)
    rangeDif: real,                //   and its out value
    targetingType: TargetingType,
    targetTeamValid: bool,         // ValidateTargetTeam(target)
    isOnCooldown: bool,            // IsOnCooldown()
    cooldown: real,                // GetParameters().cooldown
    cooldownTimeLeft: real,
    costCheck: bool,               // CostCheck()
    mana: real,                    // statController.mana.value
    costMp: real)                  // GetParameters().costMp

  /** The three sub-results of one check, and their conjunction; `cheatDetected` is the cheat signal. */
  datatype CheckReport = CheckReport(
    validTargeting: bool,
    validCooldown: bool,
    validCost: bool,
    validAbilityUse: bool,
    cheatDetected: bool)

  /**
    Targeting is valid when the ability needs none; otherwise the range must
    pass or miss by less than the tolerance, and a unit-targeted ability
    must also accept the target's team.
  */
  function TargetCheck(a: Ability): (ok: bool)
    ensures !a.needTargeting ==> ok
    ensures a.needTargeting && !a.targetPositionValid && a.rangeDif <= RANGE_TRESHOLD ==> !ok
    ensures a.needTargeting && a.targetingType == Unit && !a.targetTeamValid ==> !ok
  {
    if !a.needTargeting then true
    else
      var validRange := a.targetPositionValid || a.rangeDif > RANGE_TRESHOLD;
      var validTarget := if a.targetingType == Unit then a.targetTeamValid else true;
      validRange && validTarget
  }

  /** Cooldown is valid when the ability is off cooldown or the cooldown left is within the tolerance (1 time unit). */
  function CooldownCheck(a: Ability): (ok: bool)
    ensures ok <==> !a.isOnCooldown || a.cooldownTimeLeft <= COOLDOWN_THRESHOLD
  {
    var validCooldown := !a.isOnCooldown;
    validCooldown || a.cooldown - a.cooldownTimeLeft + COOLDOWN_THRESHOLD >= a.cooldown
  }

  /** Cost is valid when the ability's own check passes or the mana falls short by at most the tolerance (2 mana). */
  function CostCheck(a: Ability): (ok: bool)
    ensures a.costCheck ==> ok
    ensures !a.costCheck ==> (ok <==> a.costMp - a.mana <= COST_TRESHOLD)
  {
    var validCost := a.costCheck;
    validCost || a.mana + COST_TRESHOLD >= a.costMp
  }

  /** `DoCheck`: all three checks are made; the use is valid iff all pass, and a cheat is signalled iff it is not. */
  function DoCheck(a: Ability): (r: CheckReport)
    ensures r.validAbilityUse <==> r.validTargeting && r.validCooldown && r.validCost
    ensures r.cheatDetected <==> !r.validAbilityUse
    ensures r.validTargeting == TargetCheck(a) && r.validCooldown == CooldownCheck(a) && r.validCost == CostCheck(a)
  {
    var validTargeting := TargetCheck(a);
    var validCooldown := CooldownCheck(a);
    var validCost := CostCheck(a);
    var validAbilityUse := validTargeting && validCooldown && validCost;
    CheckReport(validTargeting, validCooldown, validCost, validAbilityUse, !validAbilityUse)
  }

  /** The ability's own verdicts, without any tolerance. */
  predicate NominallyValid(a: Ability)
  {
    && (a.needTargeting ==> a.targetPositionValid && (a.targetingType == Unit ==> a.targetTeamValid))
    && !a.isOnCooldown
    && a.costCheck
  }

  /** The tolerances only widen what is accepted: a use the ability itself accepts is never flagged. */
  lemma NominalUseAccepted(a: Ability)
    requires NominallyValid(a)
    ensures DoCheck(a).validAbilityUse && !DoCheck(a).cheatDetected
  {
  }

  /**
    The range tolerance is strict: a failed range check is accepted iff the
    range differential is above -2, so at exactly -2 it is rejected.
  */
  lemma RangeToleranceBoundary(a: Ability)
    requires a.needTargeting && !a.targetPositionValid
    requires a.targetingType == Point || a.targetTeamValid
    ensures TargetCheck(a) <==> a.rangeDif > RANGE_TRESHOLD
  {
  }

  /** The team check of a unit-targeted ability has no tolerance; other targeting ignores it. */
  lemma TeamCheckOnlyForUnits(a: Ability)
    requires a.needTargeting && (a.targetPositionValid || a.rangeDif > RANGE_TRESHOLD)
    ensures TargetCheck(a) <==> (a.targetingType == Unit ==> a.targetTeamValid)
  {
  }

  /** Any failing check flags the use, whichever passes. */
  lemma AnyFailureSignals(a: Ability)
    requires !TargetCheck(a) || !CooldownCheck(a) || !CostCheck(a)
    ensures DoCheck(a).cheatDetected
  {
  }

  /**
    An ability with range 5 cast at a target 6.5 away (differential -1.5)
    is accepted although its own range check fails.
  */
  lemma SlightlyOutOfRangeAccepted(a: Ability)
    requires a == Ability(true, false, -1.5, Point, false, false, 3.0, 0.0, true, 10.0, 5.0)
    ensures DoCheck(a).validAbilityUse
  {
  }
}
