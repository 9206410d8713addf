/**
 * Comparative sentiment analysis over an ordered batch of scored articles:
 * a count of articles per sentiment label, and one coverage difference for
 * every pair of positions i < j whose labels differ, in ascending (i, j) order.
 */
module Comparative {
  import opened Text

  /** The part of an article record the analysis reads: its sentiment label and its topic list. */
  datatype Article = Article(sentiment: string, topics: seq<string>)

  /** The key under which the topics of the article at a 1-based position are listed. */
  function TopicsKey(position: nat): (key: string) {
    "Article " + NatToString(position) + " Topics"
  }

  lemma TopicsKeyInjective(p: nat, q: nat)
    ensures TopicsKey(p) == TopicsKey(q) <==> p == q
  {
    if TopicsKey(p) == TopicsKey(q) {
      var k := TopicsKey(p);
      assert k[8..|k| - 7] == NatToString(p);
      assert TopicsKey(q)[8..|k| - 7] == NatToString(q);
      NatToStringInjective(p, q);
    }
  }

  /**
   * One coverage difference: the 1-based positions of the two articles, their
   * labels and their topic lists. The three texts of the emitted record are
   * derived from these fields.
   */
  datatype CoverageDifference = CoverageDifference(
    first: nat, second: nat,
    firstSentiment: string, secondSentiment: string,
    firstTopics: seq<string>, secondTopics: seq<string>)
  {
    /** The "Comparison" text naming both positions and both labels. */
    function Comparison(): (text: string) {
      "Article " + NatToString(first) + " (" + firstSentiment + ") vs Article "
        + NatToString(second) + " (" + secondSentiment + ")"
    }

    /** The "Impact" text: a fixed template over the two positions only. */
    function Impact(): (text: string) {
      "Article " + NatToString(first) + " focuses on positive aspects, while Article "
        + NatToString(second) + " highlights challenges or risks."
    }

    /** The "Key Themes" table from each position's key to that article's topics. */
    function KeyThemes(): (themes: map<string, seq<string>>) {
      map[TopicsKey(first) := firstTopics, TopicsKey(second) := secondTopics]
    }
  }

  /** The record emitted for positions i and j (0-based). */
  function Difference(a: seq<Article>, i: nat, j: nat): (d: CoverageDifference)
    requires i < j < |a|
  {
    CoverageDifference(i + 1, j + 1, a[i].sentiment, a[j].sentiment, a[i].topics, a[j].topics)
  }

  predicate Differ(a: seq<Article>, i: nat, j: nat)
    requires i < |a| && j < |a|
  {
    a[i].sentiment != a[j].sentiment
  }

  /** Strict lexicographic order on the (first, second) positions. */
  predicate Precedes(d: CoverageDifference, e: CoverageDifference) {
    d.first < e.first || (d.first == e.first && d.second < e.second)
  }

  /** Differences of position i with positions i+1 .. j-1, in ascending order. */
  function Row(a: seq<Article>, i: nat, j: nat): (row: seq<CoverageDifference>)
    requires i < j <= |a|
    decreases j
  {
    if j == i + 1 then []
    else Row(a, i, j - 1) + (if Differ(a, i, j - 1) then [Difference(a, i, j - 1)] else [])
  }

  /** Differences whose earlier position is below n, in ascending order. */
  function Before(a: seq<Article>, n: nat): (ds: seq<CoverageDifference>)
    requires n <= |a|
  {
    if n == 0 then [] else Before(a, n - 1) + Row(a, n - 1, |a|)
  }

  /** The coverage differences of a batch. */
  function Differences(a: seq<Article>): (ds: seq<CoverageDifference>) {
    Before(a, |a|)
  }

  /** Every entry of a row is the record of a differing pair (i, k) with i < k < j. */
  lemma {:induction false} RowSound(a: seq<Article>, i: nat, j: nat)
    requires i < j <= |a|
    ensures forall d :: d in Row(a, i, j) ==>
      d.first == i + 1 && i + 1 < d.second <= j
      && Differ(a, i, d.second - 1) && d == Difference(a, i, d.second - 1)
    decreases j
  {
    if j > i + 1 {
      RowSound(a, i, j - 1);
    }
  }

  /** Every differing pair (i, k) with i < k < j has its record in the row. */
  lemma {:induction false} RowComplete(a: seq<Article>, i: nat, j: nat, k: nat)
    requires i < k < j <= |a|
    requires Differ(a, i, k)
    ensures Difference(a, i, k) in Row(a, i, j)
    decreases j
  {
    if k < j - 1 {
      RowComplete(a, i, j - 1, k);
    }
  }

  /** Strictly ascending in (first, second) order. */
  predicate Ordered(s: seq<CoverageDifference>) {
    forall p, q :: 0 <= p < q < |s| ==> Precedes(s[p], s[q])
  }

  lemma ConcatOrdered(b: seq<CoverageDifference>, r: seq<CoverageDifference>)
    requires Ordered(b) && Ordered(r)
    requires forall p, q :: 0 <= p < |b| && 0 <= q < |r| ==> Precedes(b[p], r[q])
    ensures Ordered(b + r)
  {
  }

  lemma {:induction false} RowOrdered(a: seq<Article>, i: nat, j: nat)
    requires i < j <= |a|
    ensures Ordered(Row(a, i, j))
    decreases j
  {
    if j > i + 1 {
      var r := Row(a, i, j - 1);
      var t: seq<CoverageDifference> := if Differ(a, i, j - 1) then [Difference(a, i, j - 1)] else [];
      RowOrdered(a, i, j - 1);
      RowSound(a, i, j - 1);
      forall p, q | 0 <= p < |r| && 0 <= q < |t| ensures Precedes(r[p], t[q]) {
        assert r[p] in r;
      }
      ConcatOrdered(r, t);
    }
  }

  lemma {:induction false} BeforeSound(a: seq<Article>, n: nat)
    requires n <= |a|
    ensures forall d :: d in Before(a, n) ==>
      1 <= d.first <= n && d.first < d.second <= |a|
      && Differ(a, d.first - 1, d.second - 1) && d == Difference(a, d.first - 1, d.second - 1)
  {
    if n > 0 {
      var b, r := Before(a, n - 1), Row(a, n - 1, |a|);
      assert Before(a, n) == b + r;
      BeforeSound(a, n - 1);
      RowSound(a, n - 1, |a|);
      forall d: CoverageDifference | d in b + r
        ensures 1 <= d.first <= n && d.first < d.second <= |a|
        ensures Differ(a, d.first - 1, d.second - 1) && d == Difference(a, d.first - 1, d.second - 1)
      {
        if d !in b {
          assert d in r;
        }
      }
    }
  }

  lemma {:induction false} BeforeComplete(a: seq<Article>, n: nat, i: nat, j: nat)
    requires i < n <= |a| && i < j < |a|
    requires Differ(a, i, j)
    ensures Difference(a, i, j) in Before(a, n)
  {
    var b, r := Before(a, n - 1), Row(a, n - 1, |a|);
    var d := Difference(a, i, j);
    if i < n - 1 {
      BeforeComplete(a, n - 1, i, j);
      InConcat(d, b, r);
    } else {
      RowComplete(a, i, |a|, j);
      InConcat(d, b, r);
    }
  }

  lemma InConcat<T>(x: T, b: seq<T>, r: seq<T>)
    requires x in b || x in r
    ensures x in b + r
  {
  }

  lemma {:induction false} RowFirsts(a: seq<Article>, i: nat, j: nat)
    requires i < j <= |a|
    ensures forall q :: 0 <= q < |Row(a, i, j)| ==> Row(a, i, j)[q].first == i + 1
    decreases j
  {
    if j > i + 1 {
      RowFirsts(a, i, j - 1);
    }
  }

  lemma {:induction false} BeforeFirsts(a: seq<Article>, n: nat)
    requires n <= |a|
    ensures forall p :: 0 <= p < |Before(a, n)| ==> Before(a, n)[p].first <= n
  {
    if n > 0 {
      var b, r := Before(a, n - 1), Row(a, n - 1, |a|);
      BeforeFirsts(a, n - 1);
      RowFirsts(a, n - 1, |a|);
      var s := b + r;
      forall p | 0 <= p < |s| ensures s[p].first <= n {
        if p < |b| {
          assert s[p] == b[p];
        } else {
          assert s[p] == r[p - |b|];
        }
      }
    }
  }

  lemma {:induction false} BeforeOrdered(a: seq<Article>, n: nat)
    requires n <= |a|
    ensures Ordered(Before(a, n))
  {
    if n > 0 {
      var b, r := Before(a, n - 1), Row(a, n - 1, |a|);
      BeforeOrdered(a, n - 1);
      RowOrdered(a, n - 1, |a|);
      BeforeFirsts(a, n - 1);
      RowFirsts(a, n - 1, |a|);
      ConcatOrdered(b, r);
    }
  }

  /** A pair of positions i < j has a coverage difference exactly when the two labels differ. */
  lemma DifferencePresentIffLabelsDiffer(a: seq<Article>, i: nat, j: nat)
    requires i < j < |a|
    ensures Difference(a, i, j) in Differences(a) <==> a[i].sentiment != a[j].sentiment
  {
    BeforeSound(a, |a|);
    if a[i].sentiment != a[j].sentiment {
      BeforeComplete(a, |a|, i, j);
    }
  }

  /** Every coverage difference is the record of an in-range pair with differing labels. */
  lemma DifferencesSound(a: seq<Article>)
    ensures forall d :: d in Differences(a) ==>
      1 <= d.first < d.second <= |a|
      && a[d.first - 1].sentiment != a[d.second - 1].sentiment
      && d == Difference(a, d.first - 1, d.second - 1)
  {
    BeforeSound(a, |a|);
  }

  /** Coverage differences come in ascending first position, then ascending second position. */
  lemma DifferencesOrdered(a: seq<Article>)
    ensures forall p, q :: 0 <= p < q < |Differences(a)| ==> Precedes(Differences(a)[p], Differences(a)[q])
  {
    BeforeOrdered(a, |a|);
  }

  /** The 0-based pairs (i, j), i < j, whose labels differ. */
  function DifferingPairs(a: seq<Article>): set<(int, int)> {
    set i, j | 0 <= i < j < |a| && a[i].sentiment != a[j].sentiment :: (i, j)
  }

  function Positions(ds: seq<CoverageDifference>): (ps: seq<(int, int)>) {
    seq(|ds|, k requires 0 <= k < |ds| => (ds[k].first - 1, ds[k].second - 1))
  }

  lemma {:induction false} DistinctCardinality<T>(s: seq<T>)
    requires forall p, q :: 0 <= p < q < |s| ==> s[p] != s[q]
    ensures |set x | x in s| == |s|
  {
    if s != [] {
      var init := s[..|s| - 1];
      DistinctCardinality(init);
      assert s == init + [s[|s| - 1]];
      assert (set x | x in s) == (set x | x in init) + {s[|s| - 1]};
      assert s[|s| - 1] !in init;
    }
  }

  lemma PositionsDistinct(a: seq<Article>)
    ensures forall p, q :: 0 <= p < q < |Differences(a)| ==> Positions(Differences(a))[p] != Positions(Differences(a))[q]
  {
    var ds := Differences(a);
    DifferencesOrdered(a);
    forall p, q | 0 <= p < q < |ds| ensures Positions(ds)[p] != Positions(ds)[q] {
      assert Precedes(ds[p], ds[q]);
    }
  }

  lemma PositionsAreDifferingPairs(a: seq<Article>)
    ensures (set x | x in Positions(Differences(a))) == DifferingPairs(a)
  {
    var ds := Differences(a);
    var ps := Positions(ds);
    forall x | x in DifferingPairs(a) ensures x in ps {
      var (i, j) := x;
      DifferencePresentIffLabelsDiffer(a, i, j);
      var k :| 0 <= k < |ds| && ds[k] == Difference(a, i, j);
      assert ps[k] == x;
    }
    forall x | x in ps ensures x in DifferingPairs(a) {
      var k :| 0 <= k < |ps| && ps[k] == x;
      DifferencesSound(a);
      assert ds[k] in ds;
    }
  }

  /** The number of coverage differences is the number of pairs i < j with differing labels. */
  lemma DifferencesCount(a: seq<Article>)
    ensures |Differences(a)| == |DifferingPairs(a)|
  {
    PositionsDistinct(a);
    DistinctCardinality(Positions(Differences(a)));
    PositionsAreDifferingPairs(a);
  }

  /** With no two articles of different labels, in particular with fewer than two articles, there are no differences. */
  lemma NoDifferencesWhenUnanimous(a: seq<Article>)
    requires forall i, j :: 0 <= i < j < |a| ==> a[i].sentiment == a[j].sentiment
    ensures Differences(a) == []
  {
    DifferencesCount(a);
    assert DifferingPairs(a) == {};
  }

  lemma NoDifferencesWhenShort(a: seq<Article>)
    requires |a| <= 1
    ensures Differences(a) == []
  {
    NoDifferencesWhenUnanimous(a);
  }

  /** The key-themes table of a difference has exactly the two position keys, each with its article's topics. */
  lemma KeyThemesOfDifference(a: seq<Article>, i: nat, j: nat)
    requires i < j < |a|
    ensures Difference(a, i, j).KeyThemes().Keys == {TopicsKey(i + 1), TopicsKey(j + 1)}
    ensures |Difference(a, i, j).KeyThemes()| == 2
    ensures Difference(a, i, j).KeyThemes()[TopicsKey(i + 1)] == a[i].topics
    ensures Difference(a, i, j).KeyThemes()[TopicsKey(j + 1)] == a[j].topics
  {
    TopicsKeyInjective(i + 1, j + 1);
  }

  /** The impact text depends on the two positions alone, not on either label or topic list. */
  lemma ImpactIgnoresLabels(d: CoverageDifference, e: CoverageDifference)
    requires d.first == e.first && d.second == e.second
    ensures d.Impact() == e.Impact()
  {
  }

  // ---------------------------------------------------------------- distribution

  /** Number of articles carrying a label. */
  function Count(a: seq<Article>, sentiment: string): (c: nat)
    ensures c <= |a|
  {
    if a == [] then 0
    else Count(a[..|a| - 1], sentiment) + (if a[|a| - 1].sentiment == sentiment then 1 else 0)
  }

  /** Extending a prefix by one article adds one to its label's count only. */
  lemma CountPrefixStep(a: seq<Article>, i: nat, sentiment: string)
    requires i < |a|
    ensures Count(a[..i + 1], sentiment) == Count(a[..i], sentiment) + (if a[i].sentiment == sentiment then 1 else 0)
  {
    assert a[..i + 1][..i] == a[..i];
  }

  lemma {:induction false} CountPositive(a: seq<Article>, sentiment: string)
    ensures Count(a, sentiment) > 0 <==> exists k :: 0 <= k < |a| && a[k].sentiment == sentiment
  {
    if a != [] {
      var init := a[..|a| - 1];
      CountPositive(init, sentiment);
      if exists k :: 0 <= k < |a| && a[k].sentiment == sentiment {
        var k :| 0 <= k < |a| && a[k].sentiment == sentiment;
        if k < |a| - 1 {
          assert init[k] == a[k];
        }
      }
      if exists k :: 0 <= k < |init| && init[k].sentiment == sentiment {
        var k :| 0 <= k < |init| && init[k].sentiment == sentiment;
        assert a[k] == init[k];
      }
    }
  }

  /** The labels that occur in the batch. */
  function Labels(a: seq<Article>): (labels: set<string>) {
    set k | 0 <= k < |a| :: a[k].sentiment
  }

  /** Label counts of the batch, for the labels that occur. */
  function Distribution(a: seq<Article>): (m: map<string, nat>)
    ensures forall l :: l in m <==> Count(a, l) > 0
    ensures forall l :: l in m ==> m[l] == Count(a, l)
  {
    forall l ensures l in Labels(a) <==> Count(a, l) > 0 {
      CountPositive(a, l);
    }
    map l | l in Labels(a) :: Count(a, l)
  }

  /** Sum of the values of a table. */
  ghost function SumValues(m: map<string, nat>): nat
    decreases |m|
  {
    if m == map[] then 0
    else
      var k :| k in m;
      m[k] + SumValues(m - {k})
  }

  lemma {:induction false} SumValuesRemove(m: map<string, nat>, k: string)
    requires k in m
    ensures SumValues(m) == m[k] + SumValues(m - {k})
    decreases |m|
  {
    var c :| c in m && SumValues(m) == m[c] + SumValues(m - {c});
    if c != k {
      var mc, mk := m - {c}, m - {k};
      assert mc - {k} == mk - {c};
      SumValuesRemove(mc, k);
      SumValuesRemove(mk, c);
    }
  }

  lemma {:induction false} DistributionStep(a: seq<Article>, x: Article)
    ensures var d, e := Distribution(a), Distribution(a + [x]);
      e == d[x.sentiment := if x.sentiment in d then d[x.sentiment] + 1 else 1]
  {
  }

  lemma SumValuesUpdate(m: map<string, nat>, k: string, v: nat)
    ensures SumValues(m[k := v]) == v + SumValues(m - {k})
  {
    SumValuesRemove(m[k := v], k);
    assert m[k := v] - {k} == m - {k};
  }

  /** The counts of the distribution add up to the number of articles. */
  lemma {:induction false} DistributionSumsToLength(a: seq<Article>)
    ensures SumValues(Distribution(a)) == |a|
    decreases |a|
  {
    if a == [] {
      assert Distribution(a) == map[];
    } else {
      var init, x := a[..|a| - 1], a[|a| - 1];
      assert a == init + [x];
      DistributionSumsToLength(init);
      DistributionStep(init, x);
      var d := Distribution(init);
      var c := if x.sentiment in d then d[x.sentiment] + 1 else 1;
      SumValuesUpdate(d, x.sentiment, c);
      if x.sentiment in d {
        SumValuesRemove(d, x.sentiment);
      } else {
        assert d - {x.sentiment} == d;
      }
    }
  }

  // ---------------------------------------------------------------- the analysis

  datatype Analysis = Analysis(distribution: map<string, nat>, differences: seq<CoverageDifference>)

  /** The comparative analysis of a batch, as the nested loops over positions compute it. */
  method CompareSentiment(a: seq<Article>) returns (r: Analysis)
    ensures r.distribution == Distribution(a)
    ensures r.differences == Differences(a)
  {
    var counts := Distribution(a);
    var diffs: seq<CoverageDifference> := [];
    var n := |a|;
    var i := 0;
    while i < n
      invariant 0 <= i <= n
      invariant diffs == Before(a, i)
    {
      var j := i + 1;
      while j < n
        invariant i + 1 <= j <= n
        invariant diffs == Before(a, i) + Row(a, i, j)
      {
        if a[i].sentiment != a[j].sentiment {
          diffs := diffs + [Difference(a, i, j)];
        }
        j := j + 1;
      }
      i := i + 1;
    }
    r := Analysis(counts, diffs);
  }

  /** Three articles labelled Positive, Negative, Positive. */
  function ExampleBatch(): seq<Article> {
    [Article("Positive", ["ev", "growth"]), Article("Negative", ["recall", "risk"]),
     Article("Positive", ["stock", "rally"])]
  }

  /** The example batch counts two Positive and one Negative article. */
  lemma ExampleDistribution()
    ensures Distribution(ExampleBatch()) == map["Positive" := 2, "Negative" := 1]
  {
    var a := ExampleBatch();
    assert a[..2][..1] == a[..1];
    assert a[..1][..0] == [];
    assert Count(a, "Positive") == 2;
    assert Count(a, "Negative") == 1;
    var d := Distribution(a);
    forall l | l in d ensures l == "Positive" || l == "Negative" {
      CountPositive(a, l);
    }
  }

  /** The example batch yields exactly the differences (1, 2) and (2, 3). */
  lemma ExampleDifferences()
    ensures Differences(ExampleBatch()) == [Difference(ExampleBatch(), 0, 1), Difference(ExampleBatch(), 1, 2)]
  {
  }
}
