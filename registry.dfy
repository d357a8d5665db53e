/**
 * The static tables of the cycle vector engine: the twelve sector
 * instruments with their positions on the economic clock, and the
 * quadrant-to-phase table the classifier scans.
 */
module Registry {

  /** A ticker code of the price source, such as "1625.T". */
  type Code = string

  /** One sector instrument: its ticker, display name and clock position (hours, 0 to 12). */
  datatype Sector = Sector(code: Code, name: string, clock: real)

  /** The economic phases; Unknown is the classifier's default label. */
  datatype Phase = Recovery | Boom | Slowdown | Recession | Unknown {
    /** The label the program prints and publishes. */
    function Name(): string {
      match this
      case Recovery => "回復期"
      case Boom => "好況期"
      case Slowdown => "後退期"
      case Recession => "不況期"
      case Unknown => "不明"
    }
  }

  /** One entry of the phase table: the signs of x and y that select the phase. */
  datatype PhaseRule = PhaseRule(phase: Phase, xSign: int, ySign: int)

  /** The sector registry, north-west first and then clockwise, in the program's order. */
  const SECTORS: seq<Sector> := [
    // north-west, recovery, 9 to 12 o'clock
    Sector("1625.T", "電機・精密", 10.5),
    Sector("1626.T", "情報通信", 11.5),
    Sector("1619.T", "建設・資材", 9.5),
    // north-east, boom, 12 to 3 o'clock
    Sector("1622.T", "自動車", 1.5),
    Sector("1624.T", "機械", 0.5),
    Sector("1629.T", "商社・卸売", 2.5),
    // south-east, slowdown, 3 to 6 o'clock
    Sector("1631.T", "銀行", 4.5),
    Sector("1632.T", "金融(除銀)", 3.5),
    Sector("1618.T", "エネルギー", 5.5),
    // south-west, recession, 6 to 9 o'clock
    Sector("1621.T", "医薬品", 7.5),
    Sector("1617.T", "食品", 6.5),
    Sector("1630.T", "小売", 8.5)
  ]

  /** The phase table, in the insertion order the classifier scans it. */
  const PHASES: seq<PhaseRule> := [
    PhaseRule(Recovery, -1, 1),
    PhaseRule(Boom, 1, 1),
    PhaseRule(Slowdown, 1, -1),
    PhaseRule(Recession, -1, -1)
  ]

  /** The quadrant span of the clock face a position lies in. */
  function QuadrantOf(clock: real): Phase
    requires 0.0 <= clock < 12.0
  {
    if clock >= 9.0 then Recovery
    else if clock < 3.0 then Boom
    else if clock < 6.0 then Slowdown
    else Recession
  }

  /** The registry invariant the program relies on: twelve sectors with distinct codes,
      every clock position on the face, and three sectors per quadrant span in the
      order the registry lists them. */
  lemma RegistryShape()
    ensures |SECTORS| == 12
    ensures forall i, j :: 0 <= i < j < |SECTORS| ==> SECTORS[i].code != SECTORS[j].code
    ensures forall i :: 0 <= i < |SECTORS| ==> 0.0 <= SECTORS[i].clock < 12.0
    ensures forall i :: 0 <= i < |SECTORS| ==>
      QuadrantOf(SECTORS[i].clock) == [Recovery, Boom, Slowdown, Recession][i / 3]
  {
    DistinctCodes();
    forall i | 0 <= i < |SECTORS|
      ensures 0.0 <= SECTORS[i].clock < 12.0
      ensures QuadrantOf(SECTORS[i].clock) == [Recovery, Boom, Slowdown, Recession][i / 3]
    {
    }
  }

  /** The ticker codes differ in their third and fourth characters ("1625.T" has "25"). */
  lemma DistinctCodes()
    ensures forall i, j :: 0 <= i < j < |SECTORS| ==> SECTORS[i].code != SECTORS[j].code
  {
    var keys := [['2', '5'], ['2', '6'], ['1', '9'], ['2', '2'], ['2', '4'], ['2', '9'],
                 ['3', '1'], ['3', '2'], ['1', '8'], ['2', '1'], ['1', '7'], ['3', '0']];
    forall i | 0 <= i < |SECTORS| ensures |SECTORS[i].code| == 6 && SECTORS[i].code[2..4] == keys[i] {
    }
    forall i, j | 0 <= i < j < |SECTORS| ensures SECTORS[i].code != SECTORS[j].code {
      assert keys[i] != keys[j];
    }
  }

  /** The phase table names each of the four phases once, with one of the four
      sign pairs each. */
  lemma PhaseTableShape()
    ensures |PHASES| == 4
    ensures forall i, j :: 0 <= i < j < |PHASES| ==>
      PHASES[i].phase != PHASES[j].phase &&
      (PHASES[i].xSign, PHASES[i].ySign) != (PHASES[j].xSign, PHASES[j].ySign)
    ensures forall i :: 0 <= i < |PHASES| ==>
      PHASES[i].phase != Unknown &&
      PHASES[i].xSign in {1, -1} && PHASES[i].ySign in {1, -1}
  {
  }
}
