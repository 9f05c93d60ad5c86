/** The `stockdata` price-bar table and the queries the routes run over it:
    the latest close of a symbol, whether two symbols share a trading date,
    the string order SQL uses for `s1.stock < s2.stock`, and the set of
    symbol pairs for which a correlation row is produced. */
module Market {
  import opened Util

  /** One daily bar; only the columns the core reads are kept. */
  datatype Bar = Bar(stock: string, date: int, close: real)

  /** The benchmark symbol that beta is computed against. */
  const Benchmark: string := "SPY"

  /** (stock, date) is the key of the price table. */
  predicate KeysUnique(bars: seq<Bar>)
  {
    forall i, j :: 0 <= i < j < |bars| ==> bars[i].stock != bars[j].stock || bars[i].date != bars[j].date
  }

  /** `ORDER BY date DESC LIMIT 1` for one symbol: a bar of `sym` carrying
      that symbol's greatest date, or None when the symbol has no bar. */
  function LatestBar(bars: seq<Bar>, sym: string): (r: Option<Bar>)
    ensures r.None? <==> forall k :: 0 <= k < |bars| ==> bars[k].stock != sym
    ensures r.Some? ==> r.value in bars && r.value.stock == sym
    ensures r.Some? ==> forall k :: 0 <= k < |bars| && bars[k].stock == sym ==> bars[k].date <= r.value.date
  {
    if bars == [] then None
    else
      var init := bars[..|bars| - 1];
      var last := bars[|bars| - 1];
      var r := LatestBar(init, sym);
      assert forall k :: 0 <= k < |init| ==> bars[k] == init[k];
      if last.stock != sym then r
      else if r.None? || r.value.date <= last.date then Some(last)
      else r
  }

  /** The inner join `s1.date = s2.date` of the bars of `a` with those of `b`
      is not empty. */
  predicate CommonDate(bars: seq<Bar>, a: string, b: string)
  {
    exists i, j :: 0 <= i < |bars| && 0 <= j < |bars| && bars[i].stock == a && bars[j].stock == b && bars[i].date == bars[j].date
  }

  lemma CommonDateSymmetric(bars: seq<Bar>, a: string, b: string)
    requires CommonDate(bars, a, b)
    ensures CommonDate(bars, b, a)
  {
    var i, j :| 0 <= i < |bars| && 0 <= j < |bars| && bars[i].stock == a && bars[j].stock == b && bars[i].date == bars[j].date;
    assert bars[j].stock == b && bars[i].stock == a && bars[j].date == bars[i].date;
  }

  /** Strict lexicographic order on code points: the order of a database with
      a byte-wise ("C") collation. */
  predicate LexLess(a: string, b: string)
    decreases |a|
  {
    if |b| == 0 then false
    else if |a| == 0 then true
    else if a[0] != b[0] then a[0] < b[0]
    else LexLess(a[1..], b[1..])
  }

  lemma {:induction false} LexIrreflexive(a: string)
    ensures !LexLess(a, a)
    decreases |a|
  {
    if |a| > 0 {
      LexIrreflexive(a[1..]);
    }
  }

  lemma {:induction false} LexAsymmetric(a: string, b: string)
    requires LexLess(a, b)
    ensures !LexLess(b, a)
    decreases |a|
  {
    if |a| > 0 && |b| > 0 && a[0] == b[0] {
      LexAsymmetric(a[1..], b[1..]);
    }
  }

  lemma {:induction false} LexTotal(a: string, b: string)
    requires a != b
    ensures LexLess(a, b) || LexLess(b, a)
    decreases |a|
  {
    if |a| > 0 && |b| > 0 && a[0] == b[0] {
      assert a == [a[0]] + a[1..] && b == [b[0]] + b[1..];
      LexTotal(a[1..], b[1..]);
    }
  }

  /** The (stock1, stock2) keys of the correlation query: both symbols drawn
      from `syms`, stock1 < stock2, and at least one date on which both have
      a bar (otherwise the join yields no group). */
  function CorrelationPairs(bars: seq<Bar>, syms: set<string>): (r: set<(string, string)>)
    ensures forall p :: p in r <==> p.0 in syms && p.1 in syms && LexLess(p.0, p.1) && CommonDate(bars, p.0, p.1)
  {
    set a, b | a in syms && b in syms && LexLess(a, b) && CommonDate(bars, a, b) :: (a, b)
  }

  /** Every pair is reported in one orientation only, and never pairs a
      symbol with itself. */
  lemma PairsOrientedOnce(bars: seq<Bar>, syms: set<string>)
    ensures forall a, b :: (a, b) in CorrelationPairs(bars, syms) ==> a != b && (b, a) !in CorrelationPairs(bars, syms)
  {
    forall a, b | (a, b) in CorrelationPairs(bars, syms)
      ensures a != b && (b, a) !in CorrelationPairs(bars, syms)
    {
      LexIrreflexive(a);
      LexAsymmetric(a, b);
    }
  }

  /** Every two distinct symbols of the set that share a date are reported,
      in one orientation or the other. */
  lemma PairsCoverCoDated(bars: seq<Bar>, syms: set<string>, a: string, b: string)
    requires a in syms && b in syms && a != b
    requires CommonDate(bars, a, b)
    ensures (a, b) in CorrelationPairs(bars, syms) || (b, a) in CorrelationPairs(bars, syms)
  {
    LexTotal(a, b);
    CommonDateSymmetric(bars, a, b);
  }

  /** A set of at most one symbol has an empty correlation matrix. */
  lemma PairsOfSingleton(bars: seq<Bar>, syms: set<string>)
    requires |syms| <= 1
    ensures CorrelationPairs(bars, syms) == {}
  {
    if p :| p in CorrelationPairs(bars, syms) {
      LexIrreflexive(p.0);
      assert p.0 != p.1;
      assert {p.0, p.1} <= syms;
      assert |{p.0, p.1}| == 2;
      SubsetCard({p.0, p.1}, syms);
      assert false;
    }
  }

  lemma SubsetCard<T>(a: set<T>, b: set<T>)
    requires a <= b
    ensures |a| <= |b|
  {
    assert b == a + (b - a);
  }
}
