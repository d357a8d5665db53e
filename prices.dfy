/**
 * The date-indexed price table the engine reads, the filter "rows dated on
 * or before a date", and the alignment of a date to the latest table date
 * at or before it.
 */
module Prices {
  import opened Registry

  datatype Option<+T> = None | Some(value: T)

  /** A calendar date as a day number. */
  type Date = int

  /** One row of closing prices: the price of every instrument on one date. */
  datatype Row = Row(date: Date, prices: map<Code, real>)

  type Table = seq<Row>

  function Last(t: Table): Row
    requires |t| > 0
  {
    t[|t| - 1]
  }

  function Front(t: Table): Table
    requires |t| > 0
  {
    t[..|t| - 1]
  }

  /** Dates are strictly ascending. */
  ghost predicate Ascending(t: Table) {
    forall i, j :: 0 <= i < j < |t| ==> t[i].date < t[j].date
  }

  /** Every row prices the same instruments (the gap filling of the price source). */
  ghost predicate SameColumns(t: Table) {
    forall i :: 0 <= i < |t| ==> t[i].prices.Keys == t[0].prices.Keys
  }

  /** The date index of a table. */
  function Dates(t: Table): (ds: seq<Date>)
    ensures |ds| == |t|
    ensures forall i :: 0 <= i < |t| ==> ds[i] == t[i].date
  {
    seq(|t|, i requires 0 <= i < |t| => t[i].date)
  }

  /** The rows dated on or before d, in table order (a boolean mask over the index). */
  function Until(t: Table, d: Date): Table
  {
    if t == [] then []
    else Until(Front(t), d) + (if Last(t).date <= d then [Last(t)] else [])
  }

  /** The sample date the trajectory uses for a nominal date: the date itself when the
      table has it, otherwise the last table date on or before it, and None when the
      table has no such date. */
  function Align(t: Table, d: Date): Option<Date>
  {
    if d in Dates(t) then Some(d)
    else
      var past := Dates(Until(t, d));
      if |past| == 0 then None else Some(past[|past| - 1])
  }

  /** a is a table date, at most d, and no table date at most d is later. */
  ghost predicate LatestAtOrBefore(t: Table, d: Date, a: Date) {
    && a in Dates(t)
    && a <= d
    && forall i :: 0 <= i < |t| && t[i].date <= d ==> t[i].date <= a
  }

  /** Every row kept by the filter is dated on or before d, and every such row is kept. */
  lemma {:induction false} UntilMembers(t: Table, d: Date)
    ensures forall r :: r in Until(t, d) <==> r in t && r.date <= d
  {
    if t != [] {
      UntilMembers(Front(t), d);
      assert t == Front(t) + [Last(t)];
    }
  }

  /** On an ascending table the filter keeps a prefix: exactly the rows before
      index |Until(t, d)| are those dated on or before d. */
  lemma {:induction false} UntilPrefix(t: Table, d: Date)
    requires Ascending(t)
    ensures |Until(t, d)| <= |t|
    ensures Until(t, d) == t[..|Until(t, d)|]
    ensures forall i :: 0 <= i < |t| ==> (i < |Until(t, d)| <==> t[i].date <= d)
  {
    if t != [] {
      var f := Front(t);
      assert Ascending(f);
      UntilPrefix(f, d);
      if Last(t).date <= d {
        UntilPrefixKeep(t, d);
      } else {
        UntilPrefixDrop(t, d);
      }
    }
  }

  /** The step of UntilPrefix when the last row is kept: every row is. */
  lemma UntilPrefixKeep(t: Table, d: Date)
    requires Ascending(t) && |t| > 0 && Last(t).date <= d
    requires |Until(Front(t), d)| <= |t| - 1
    requires Until(Front(t), d) == Front(t)[..|Until(Front(t), d)|]
    requires forall i :: 0 <= i < |t| - 1 ==> (i < |Until(Front(t), d)| <==> t[i].date <= d)
    ensures Until(t, d) == t
    ensures forall i :: 0 <= i < |t| ==> t[i].date <= d
  {
    var f, k := Front(t), |Until(Front(t), d)|;
    forall i | 0 <= i < |t| ensures t[i].date <= d {
      if i < |t| - 1 {
        assert t[i].date < t[|t| - 1].date;
      }
    }
    assert k == |f| by {
      if |f| > 0 {
        assert t[|f| - 1].date <= d;
      }
    }
    assert Until(t, d) == f + [Last(t)];
  }

  /** The step of UntilPrefix when the last row is dropped. */
  lemma UntilPrefixDrop(t: Table, d: Date)
    requires |t| > 0 && Last(t).date > d
    requires |Until(Front(t), d)| <= |t| - 1
    requires Until(Front(t), d) == Front(t)[..|Until(Front(t), d)|]
    requires forall i :: 0 <= i < |t| - 1 ==> (i < |Until(Front(t), d)| <==> t[i].date <= d)
    ensures Until(t, d) == Until(Front(t), d)
    ensures Until(t, d) == t[..|Until(t, d)|]
    ensures forall i :: 0 <= i < |t| ==> (i < |Until(t, d)| <==> t[i].date <= d)
  {
    var k := |Until(Front(t), d)|;
    assert t[..k] == Front(t)[..k];
  }

  /** Alignment picks exactly the latest table date on or before d, and fails exactly
      when the table has no date on or before d. */
  lemma AlignIsLatestPrior(t: Table, d: Date)
    requires Ascending(t)
    ensures Align(t, d).None? <==> forall i :: 0 <= i < |t| ==> t[i].date > d
    ensures Align(t, d).Some? ==> LatestAtOrBefore(t, d, Align(t, d).value)
  {
    UntilPrefix(t, d);
    var k := |Until(t, d)|;
    var past := Dates(Until(t, d));
    if d in Dates(t) {
      var j :| 0 <= j < |t| && t[j].date == d;
      assert j < k;
    } else if k > 0 {
      assert past[k - 1] == t[k - 1].date;
      forall i | 0 <= i < |t| && t[i].date <= d ensures t[i].date <= t[k - 1].date {
        assert i < k;
        if i < k - 1 { assert t[i].date < t[k - 1].date; }
      }
      assert Dates(t)[k - 1] == t[k - 1].date;
    } else {
      forall i | 0 <= i < |t| ensures t[i].date > d {
        assert !(i < k);
      }
    }
  }

  /** A later nominal date never aligns to an earlier table date. */
  lemma AlignMonotone(t: Table, d1: Date, d2: Date)
    requires Ascending(t)
    requires d1 <= d2
    requires Align(t, d1).Some?
    ensures Align(t, d2).Some?
    ensures Align(t, d1).value <= Align(t, d2).value
  {
    AlignIsLatestPrior(t, d1);
    AlignIsLatestPrior(t, d2);
    var a1 := Align(t, d1).value;
    var i :| 0 <= i < |t| && t[i].date == a1;
    assert t[i].date <= d2;
  }

  /** Alignment does not change which rows are dated on or before the sample date. */
  lemma AlignKeepsHistory(t: Table, d: Date)
    requires Ascending(t)
    requires Align(t, d).Some?
    ensures Until(t, Align(t, d).value) == Until(t, d)
  {
    var a := Align(t, d).value;
    AlignIsLatestPrior(t, d);
    UntilPrefix(t, d);
    UntilPrefix(t, a);
    var ka, kd := |Until(t, a)|, |Until(t, d)|;
    var m := if ka < kd then ka else kd;
    assert m < |t| ==> (t[m].date <= a <==> t[m].date <= d);
  }

  /** A prefix of a table with uniform columns has uniform columns. */
  lemma SameColumnsPrefix(t: Table, k: nat)
    requires SameColumns(t)
    requires k <= |t|
    ensures SameColumns(t[..k])
  {
  }
}
