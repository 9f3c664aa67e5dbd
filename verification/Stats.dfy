/**
  printStats of examples/go-internal-txs-bench/main.go: minimum, maximum and average of the
  latency differences, with the 64-bit arithmetic of the program made explicit.
 */
module Stats {
  import opened Basics

  const TWO_63 := 0x8000_0000_0000_0000
  const TWO_64 := 0x1_0000_0000_0000_0000

  predicate FitsInt64(x: int) {
    -TWO_63 <= x < TWO_63
  }

  /** The int64 with the same last 64 bits. */
  function Wrap(x: int): (w: int)
    ensures FitsInt64(w) && (FitsInt64(x) <==> w == x)
  {
    (x + TWO_63) % TWO_64 - TWO_63
  }

  lemma WrapAdd(a: int, b: int)
    ensures Wrap(Wrap(a) + b) == Wrap(a + b)
  {
    var k := (a + TWO_63) / TWO_64;
    assert Wrap(a) == a - k * TWO_64;
    SameWrap(a + b, k);
  }

  lemma SameWrap(x: int, k: int)
    ensures Wrap(x - k * TWO_64) == Wrap(x)
  {
    var q := (x + TWO_63) / TWO_64;
    var r := (x + TWO_63) % TWO_64;
    assert x - k * TWO_64 + TWO_63 == (q - k) * TWO_64 + r;
    Remainder(q - k, r);
  }

  lemma Remainder(q: int, r: int)
    requires 0 <= r < TWO_64
    ensures (q * TWO_64 + r) % TWO_64 == r
  {
  }

  /** Division of Go, which rounds toward zero. */
  function Quotient(a: int, n: int): int
    requires n > 0
  {
    if a >= 0 then a / n else -(-a / n)
  }

  lemma QuotientTruncates(a: int, n: int)
    requires n > 0
    ensures a >= 0 ==> Quotient(a, n) * n <= a < Quotient(a, n) * n + n
    ensures a < 0 ==> Quotient(a, n) * n - n < a <= Quotient(a, n) * n
  {
    if a < 0 {
      assert -Quotient(a, n) * n <= -a < -Quotient(a, n) * n + n;
    }
  }

  function Total(ds: seq<int>): int {
    if |ds| == 0 then 0 else Total(ds[..|ds| - 1]) + ds[|ds| - 1]
  }

  // ---- the total is the sum: of one difference it is that difference, and it adds up over concatenation

  lemma {:induction false} TotalConcat(a: seq<int>, b: seq<int>)
    ensures Total(a + b) == Total(a) + Total(b)
  {
    if |b| == 0 {
      assert a + b == a;
    } else {
      var init := b[..|b| - 1];
      TotalConcat(a, init);
      assert (a + b)[..|a + b| - 1] == a + init;
    }
  }

  lemma TotalOne(d: int)
    ensures Total([d]) == d
  {
    assert Total([]) == 0;
    assert [d][..0] == [];
  }

  /** Replacing one difference moves the total by as much as that difference moves. */
  lemma TotalReplaced(ds: seq<int>, i: nat, d: int)
    requires i < |ds|
    ensures Total(ds[i := d]) - Total(ds) == d - ds[i]
  {
    var a, b := ds[..i], ds[i + 1..];
    assert ds == a + ([ds[i]] + b) && ds[i := d] == a + ([d] + b);
    TotalConcat(a, [ds[i]] + b);
    TotalConcat(a, [d] + b);
    TotalConcat([ds[i]], b);
    TotalConcat([d], b);
    TotalOne(ds[i]);
    TotalOne(d);
  }

  /** The order of the differences does not matter to their total. */
  lemma {:induction false} TotalOfPermutation(a: seq<int>, b: seq<int>)
    requires multiset(a) == multiset(b)
    ensures Total(a) == Total(b)
  {
    hide Total;
    if |a| == 0 {
      assert |b| == |multiset(b)|;
    } else {
      var init, last := a[..|a| - 1], a[|a| - 1];
      var b1, b2 := WithoutLast(a, b);
      assert a == init + [last] && b == b1 + ([last] + b2);
      TotalOfPermutation(init, b1 + b2);
      TotalConcat(init, [last]);
      TotalConcat(b1, [last] + b2);
      TotalConcat([last], b2);
      TotalConcat(b1, b2);
    }
  }

  datatype Summary = NoData | Data(min: int, max: int, avg: int)

  /** No data for no differences; otherwise their extremes, and their 64-bit sum divided by their number. */
  ghost predicate Summarises(summary: Summary, deltas: seq<int>) {
    match summary
    case NoData => deltas == []
    case Data(min, max, avg) =>
      && deltas != []
      && min in deltas && max in deltas
      && (forall d :: d in deltas ==> min <= d <= max)
      && avg == Quotient(Wrap(Total(deltas)), |deltas|)
  }

  method PrintStats(deltas: seq<int>) returns (summary: Summary)
    ensures Summarises(summary, deltas)
  {
    if |deltas| == 0 {
      return NoData;
    }
    var sum, minD, maxD := 0, deltas[0], deltas[0];
    var i := 0;
    while i < |deltas|
      invariant i <= |deltas|
      invariant sum == Wrap(Total(deltas[..i]))
      invariant minD in deltas && maxD in deltas && minD <= maxD
      invariant forall j :: 0 <= j < i ==> minD <= deltas[j] <= maxD
    {
      var d := deltas[i];
      WrapAdd(Total(deltas[..i]), d);
      assert deltas[..i + 1][..i] == deltas[..i];
      sum := Wrap(sum + d);
      if d < minD {
        minD := d;
      }
      if d > maxD {
        maxD := d;
      }
      i := i + 1;
    }
    assert deltas[..|deltas|] == deltas;
    summary := Data(minD, maxD, Quotient(sum, |deltas|));
  }

  /** The printed summary depends on which differences there were, not on their order. */
  lemma SummaryOfPermutation(s: Summary, a: seq<int>, t: Summary, b: seq<int>)
    requires Summarises(s, a) && Summarises(t, b) && multiset(a) == multiset(b)
    ensures s == t
  {
    TotalOfPermutation(a, b);
    assert |a| == |multiset(a)| == |multiset(b)| == |b|;
    forall d
      ensures d in a <==> d in b
    {
      assert d in a <==> d in multiset(a);
      assert d in b <==> d in multiset(b);
    }
    hide Total, Quotient, Wrap;
    assert s.NoData? <==> t.NoData?;
  }

  lemma OneMore(n: int, x: int)
    ensures (n + 1) * x == n * x + x
  {
  }

  lemma {:induction false} TotalBounds(ds: seq<int>, lo: int, hi: int)
    requires forall d :: d in ds ==> lo <= d <= hi
    ensures |ds| * lo <= Total(ds) <= |ds| * hi
  {
    if |ds| == 0 {
    } else {
      var init, last := ds[..|ds| - 1], ds[|ds| - 1];
      assert last in ds && forall d :: d in init ==> d in ds;
      TotalBounds(init, lo, hi);
      OneMore(|init|, lo);
      OneMore(|init|, hi);
    }
  }

  lemma Scale(x: int, y: int, n: int)
    requires x <= y && n > 0
    ensures x * n <= y * n
  {
  }

  lemma QuotientBounds(a: int, n: int, lo: int, hi: int)
    requires n > 0 && n * lo <= a <= n * hi
    ensures lo <= Quotient(a, n) <= hi
  {
    var q := Quotient(a, n);
    assert q * n - n < a < q * n + n;
    if q > hi {
      Scale(hi + 1, q, n);
    }
    if q < lo {
      Scale(q, lo - 1, n);
    }
  }

  lemma QuotientDistance(a: int, b: int, n: int)
    requires n > 0 && Quotient(a, n) == Quotient(b, n)
    ensures -2 * n < a - b < 2 * n
  {
    var q := Quotient(a, n);
    assert q * n - n < a < q * n + n;
    assert q * n - n < b < q * n + n;
  }

  /** The printed average is the average, rounded toward zero, exactly when the sum fits in 64 bits. */
  lemma AverageExactIff(deltas: seq<int>)
    requires 0 < |deltas| < TWO_63
    ensures Quotient(Wrap(Total(deltas)), |deltas|) == Quotient(Total(deltas), |deltas|) <==> FitsInt64(Total(deltas))
  {
    var s, n := Total(deltas), |deltas|;
    if Quotient(Wrap(s), n) == Quotient(s, n) {
      QuotientDistance(s, Wrap(s), n);
      var k := (s + TWO_63) / TWO_64;
      assert Wrap(s) == s - k * TWO_64;
      assert -TWO_64 < k * TWO_64 < TWO_64;
      assert k == 0;
    }
  }

  lemma AverageBetweenExtremes(deltas: seq<int>, lo: int, hi: int)
    requires deltas != [] && forall d :: d in deltas ==> lo <= d <= hi
    requires FitsInt64(Total(deltas))
    ensures lo <= Quotient(Wrap(Total(deltas)), |deltas|) <= hi
  {
    TotalBounds(deltas, lo, hi);
    QuotientBounds(Total(deltas), |deltas|, lo, hi);
  }

  /** Two in-range differences whose sum overflows: the printed average lies below the minimum. */
  lemma AverageCanOverflow()
    ensures var ds := [TWO_63 - 1, 1];
            && FitsInt64(ds[0]) && FitsInt64(ds[1])
            && Quotient(Wrap(Total(ds)), 2) < 1
  {
    var ds := [TWO_63 - 1, 1];
    var first := ds[..1];
    assert Total(first) == Total(first[..0]) + (TWO_63 - 1) == TWO_63 - 1;
    assert Total(ds) == Total(first) + 1;
  }
}
