/**
 * Heating degree days: each day contributes how far its mean temperature falls below the
 * reference temperature of 20 degrees, and the period total is the sum of the days.
 */
module DegreeDays {
  import opened Validation

  /** `T_rif`. */
  const REFERENCE_TEMPERATURE: real := 20.0

  /** `(T_rif - TMEDIA).clip(lower=0)` for one day. */
  function DailyDegreeDays(tmedia: real): (gg: real)
    ensures gg >= 0.0 && gg >= REFERENCE_TEMPERATURE - tmedia
    ensures gg == 0.0 || gg == REFERENCE_TEMPERATURE - tmedia
    ensures gg == 0.0 <==> tmedia >= REFERENCE_TEMPERATURE
  {
    if REFERENCE_TEMPERATURE - tmedia < 0.0 then 0.0 else REFERENCE_TEMPERATURE - tmedia
  }

  /**
   * The `GG` column added to the filtered table. Each entry's value is stated by
   * Pipeline.Analyse, which relates every row of the report to its degree-days.
   */
  function GGColumn(rows: seq<Row>): (gg: seq<real>)
    ensures |gg| == |rows|
  {
    seq(|rows|, i requires 0 <= i < |rows| => DailyDegreeDays(rows[i].tmedia))
  }

  /** `Series.sum()`, exactly, with 0 for no rows. */
  function Sum(xs: seq<real>): (s: real)
    ensures (forall i :: 0 <= i < |xs| ==> xs[i] >= 0.0) ==> forall i :: 0 <= i < |xs| ==> xs[i] <= s
  {
    if xs == [] then 0.0
    else
      assert forall i :: 1 <= i < |xs| ==> xs[i] == xs[1..][i - 1];
      xs[0] + Sum(xs[1..])
  }

  lemma {:induction false} SumAppend(a: seq<real>, b: seq<real>)
    ensures Sum(a + b) == Sum(a) + Sum(b)
  {
    if a == [] {
      assert a + b == b;
    } else {
      assert (a + b)[1..] == a[1..] + b;
      SumAppend(a[1..], b);
    }
  }

  lemma {:induction false} SumNonNegative(xs: seq<real>)
    requires forall i :: 0 <= i < |xs| ==> xs[i] >= 0.0
    ensures Sum(xs) >= 0.0
    ensures Sum(xs) == 0.0 <==> forall i :: 0 <= i < |xs| ==> xs[i] == 0.0
  {
    if xs != [] {
      assert forall i :: 1 <= i < |xs| ==> xs[1..][i - 1] == xs[i];
      SumNonNegative(xs[1..]);
    }
  }

  /** The first element of `xs` sits at some position `k` of a permutation `ys`; the rests are permutations too. */
  lemma MatchFirst<T>(xs: seq<T>, ys: seq<T>) returns (k: nat)
    requires xs != [] && multiset(xs) == multiset(ys)
    ensures k < |ys| && ys[k] == xs[0]
    ensures ys == ys[..k] + [xs[0]] + ys[k + 1..]
    ensures multiset(xs[1..]) == multiset(ys[..k] + ys[k + 1..])
  {
    var x := xs[0];
    assert x in multiset(ys);
    k :| 0 <= k < |ys| && ys[k] == x;
    assert ys == ys[..k] + [x] + ys[k + 1..];
    var rest := ys[..k] + ys[k + 1..];
    assert xs == [x] + xs[1..];
    assert multiset(ys) == multiset(ys[..k]) + multiset{x} + multiset(ys[k + 1..]);
    assert multiset(xs) == multiset{x} + multiset(xs[1..]);
    assert multiset(rest) == multiset(ys[..k]) + multiset(ys[k + 1..]);
    assert multiset(xs[1..]) == multiset(xs) - multiset{x};
    assert multiset(rest) == multiset(ys) - multiset{x};
  }

  /** The order of the terms does not matter. */
  lemma {:induction false} SumPermutation(xs: seq<real>, ys: seq<real>)
    requires multiset(xs) == multiset(ys)
    ensures Sum(xs) == Sum(ys)
    decreases |xs|
  {
    if xs == [] {
      assert |multiset(ys)| == 0;
    } else {
      var k := MatchFirst(xs, ys);
      SumPermutation(xs[1..], ys[..k] + ys[k + 1..]);
      SumAppend(ys[..k] + [xs[0]], ys[k + 1..]);
      SumAppend(ys[..k], [xs[0]]);
      SumAppend(ys[..k], ys[k + 1..]);
      assert Sum([xs[0]]) == xs[0];
    }
  }

  /** `df_filtrato['GG'].sum()`: never negative. */
  function TotalDegreeDays(rows: seq<Row>): (total: real)
    ensures total >= 0.0
  {
    SumNonNegative(GGColumn(rows));
    Sum(GGColumn(rows))
  }

  /** The total is zero exactly when no day is colder than the reference temperature. */
  lemma TotalZeroIffNoHeating(rows: seq<Row>)
    ensures TotalDegreeDays(rows) == 0.0 <==> forall i :: 0 <= i < |rows| ==> rows[i].tmedia >= REFERENCE_TEMPERATURE
  {
    var gg := GGColumn(rows);
    assert forall i :: 0 <= i < |rows| ==> gg[i] == DailyDegreeDays(rows[i].tmedia);
    SumNonNegative(gg);
  }

  lemma GGColumnAppend(a: seq<Row>, b: seq<Row>)
    ensures GGColumn(a + b) == GGColumn(a) + GGColumn(b)
  {
  }

  /** Totals over consecutive stretches of days add up. */
  lemma TotalAppend(a: seq<Row>, b: seq<Row>)
    ensures TotalDegreeDays(a + b) == TotalDegreeDays(a) + TotalDegreeDays(b)
  {
    GGColumnAppend(a, b);
    SumAppend(GGColumn(a), GGColumn(b));
  }

  lemma {:induction false} GGColumnPermutation(a: seq<Row>, b: seq<Row>)
    requires multiset(a) == multiset(b)
    ensures multiset(GGColumn(a)) == multiset(GGColumn(b))
    decreases |a|
  {
    if a == [] {
      assert |multiset(b)| == 0;
    } else {
      var k := MatchFirst(a, b);
      var x := a[0];
      assert a == [x] + a[1..];
      GGColumnPermutation(a[1..], b[..k] + b[k + 1..]);
      GGColumnAppend([x], a[1..]);
      GGColumnAppend(b[..k] + [x], b[k + 1..]);
      GGColumnAppend(b[..k], [x]);
      GGColumnAppend(b[..k], b[k + 1..]);
    }
  }

  /** Reordering the rows of the table does not change the total. */
  lemma TotalPermutation(a: seq<Row>, b: seq<Row>)
    requires multiset(a) == multiset(b)
    ensures TotalDegreeDays(a) == TotalDegreeDays(b)
  {
    GGColumnPermutation(a, b);
    SumPermutation(GGColumn(a), GGColumn(b));
  }
}
