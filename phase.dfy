/**
 * The phase classifier: the signs of the current vector's coordinates,
 * zero counting as positive, looked up in the phase table.
 */
module PhaseClassifier {
  import opened Registry
  import opened Clock

  /** +1 for a value at or above zero, -1 below it. */
  function Sign(x: real): int {
    if x >= 0.0 then 1 else -1
  }

  /** The phase of the first rule with the given signs, Unknown when none has them. */
  function FirstMatch(rules: seq<PhaseRule>, xSign: int, ySign: int): Phase {
    if rules == [] then Unknown
    else if rules[0].xSign == xSign && rules[0].ySign == ySign then rules[0].phase
    else FirstMatch(rules[1..], xSign, ySign)
  }

  /** The program's phase block: start from Unknown and scan the phase table for the
      rule with the vector's signs, stopping at the first. */
  method Classify(v: Vec) returns (phase: Phase)
    ensures phase == FirstMatch(PHASES, Sign(v.x), Sign(v.y))
    ensures phase != Unknown
    ensures phase == Recovery <==> v.x < 0.0 && v.y >= 0.0
    ensures phase == Boom <==> v.x >= 0.0 && v.y >= 0.0
    ensures phase == Slowdown <==> v.x >= 0.0 && v.y < 0.0
    ensures phase == Recession <==> v.x < 0.0 && v.y < 0.0
  {
    phase := Unknown;
    var xSign := if v.x >= 0.0 then 1 else -1;
    var ySign := if v.y >= 0.0 then 1 else -1;
    var i := 0;
    while i < |PHASES|
      invariant 0 <= i <= |PHASES|
      invariant phase == Unknown
      invariant FirstMatch(PHASES, xSign, ySign) == FirstMatch(PHASES[i..], xSign, ySign)
    {
      if PHASES[i].xSign == xSign && PHASES[i].ySign == ySign {
        phase := PHASES[i].phase;
        break;
      }
      assert PHASES[i..][1..] == PHASES[i + 1..];
      i := i + 1;
    }
    QuadrantPhases(v);
  }

  /** Each quadrant, with zero counted as positive, has its phase in the table, so the
      lookup never falls through to Unknown; the origin is a boom. */
  lemma QuadrantPhases(v: Vec)
    ensures FirstMatch(PHASES, Sign(v.x), Sign(v.y)) ==
      if v.x < 0.0 then (if v.y >= 0.0 then Recovery else Recession)
      else (if v.y >= 0.0 then Boom else Slowdown)
    ensures FirstMatch(PHASES, Sign(0.0), Sign(0.0)) == Boom
  {
  }

  /** A table whose rules have pairwise different signs returns the rule for the signs
      asked, wherever that rule stands. */
  lemma {:induction false} FirstMatchFinds(rules: seq<PhaseRule>, k: nat)
    requires k < |rules|
    requires forall i, j :: 0 <= i < j < |rules| ==>
      (rules[i].xSign, rules[i].ySign) != (rules[j].xSign, rules[j].ySign)
    ensures FirstMatch(rules, rules[k].xSign, rules[k].ySign) == rules[k].phase
  {
    if k > 0 {
      assert (rules[0].xSign, rules[0].ySign) != (rules[k].xSign, rules[k].ySign);
      FirstMatchFinds(rules[1..], k - 1);
    }
  }
}
