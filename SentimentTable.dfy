/**
 * The fixed three-key sentiment table: a counting pass that starts from
 * Positive, Negative and Neutral at zero and increments the entry of each
 * article's label, failing with a key error on a label outside the table.
 */
module SentimentTable {
  import opened Sentiment
  import opened Comparative

  datatype KeyError = KeyError(key: string)

  datatype Result<T> = Ok(value: T) | Err(error: KeyError)

  datatype Option<T> = None | Some(value: T)

  /** The table before any article is counted. */
  const INITIAL: map<string, nat> := map["Positive" := 0, "Negative" := 0, "Neutral" := 0]

  /** The first position at or after `from` whose label is not a table key, if any. */
  function FirstUnknown(a: seq<Article>, from: nat): (r: Option<nat>)
    requires from <= |a|
    ensures r.Some? ==> from <= r.value < |a| && a[r.value].sentiment !in LABELS
    ensures forall k :: from <= k < |a| && (r.None? || k < r.value) ==> a[k].sentiment in LABELS
    decreases |a| - from
  {
    if from == |a| then None
    else if a[from].sentiment !in LABELS then Some(from)
    else FirstUnknown(a, from + 1)
  }

  /** What the counting pass yields: the full table, or the key error of the first unknown label. */
  function Table(a: seq<Article>): (r: Result<map<string, nat>>) {
    match FirstUnknown(a, 0)
    case None => Ok(map l | l in LABELS :: Count(a, l))
    case Some(k) => Err(KeyError(a[k].sentiment))
  }

  lemma TableAtFirstUnknown(a: seq<Article>, i: nat)
    requires i < |a| && a[i].sentiment !in LABELS
    requires forall k :: 0 <= k < i ==> a[k].sentiment in LABELS
    ensures Table(a) == Err(KeyError(a[i].sentiment))
  {
  }

  /** The counts of the three table keys within the articles. */
  predicate CountsOf(a: seq<Article>, counts: map<string, nat>) {
    && counts.Keys == LABELS
    && counts["Positive"] == Count(a, "Positive")
    && counts["Negative"] == Count(a, "Negative")
    && counts["Neutral"] == Count(a, "Neutral")
  }

  lemma NoUnknownLabel(a: seq<Article>)
    requires forall k :: 0 <= k < |a| ==> a[k].sentiment in LABELS
    ensures FirstUnknown(a, 0).None?
  {
  }

  lemma TableOfCounts(a: seq<Article>, counts: map<string, nat>)
    requires FirstUnknown(a, 0).None?
    requires CountsOf(a, counts)
    ensures Table(a) == Ok(counts)
  {
    var m := map l | l in LABELS :: Count(a, l);
    assert m == counts;
  }

  lemma CountsStep(a: seq<Article>, i: nat, counts: map<string, nat>)
    requires i < |a| && a[i].sentiment in LABELS
    requires CountsOf(a[..i], counts)
    ensures CountsOf(a[..i + 1], counts[a[i].sentiment := counts[a[i].sentiment] + 1])
  {
    CountPrefixStep(a, i, "Positive");
    CountPrefixStep(a, i, "Negative");
    CountPrefixStep(a, i, "Neutral");
  }

  /** The counting pass, incrementing the table entry of each article's label in turn. */
  method GetSentimentDistribution(a: seq<Article>) returns (r: Result<map<string, nat>>)
    ensures r == Table(a)
  {
    var counts := INITIAL;
    var i := 0;
    while i < |a|
      invariant 0 <= i <= |a|
      invariant forall k :: 0 <= k < i ==> a[k].sentiment in LABELS
      invariant CountsOf(a[..i], counts)
    {
      var s := a[i].sentiment;
      if s !in counts {
        TableAtFirstUnknown(a, i);
        return Err(KeyError(s));
      }
      CountsStep(a, i, counts);
      counts := counts[s := counts[s] + 1];
      i := i + 1;
    }
    assert a[..i] == a;
    NoUnknownLabel(a);
    TableOfCounts(a, counts);
    r := Ok(counts);
  }

  /** The pass succeeds exactly when every label is a table key, and then has exactly the three keys. */
  lemma TableOkIffAllKnown(a: seq<Article>)
    ensures Table(a).Ok? <==> forall k :: 0 <= k < |a| ==> a[k].sentiment in LABELS
    ensures Table(a).Ok? ==> Table(a).value.Keys == LABELS
  {
  }

  /** A failure names the label of the first article whose label is not a table key. */
  lemma TableErrNamesFirstUnknown(a: seq<Article>)
    requires Table(a).Err?
    ensures exists k :: (0 <= k < |a| && a[k].sentiment !in LABELS
                         && (forall m :: 0 <= m < k ==> a[m].sentiment in LABELS)
                         && Table(a).error == KeyError(a[k].sentiment))
  {
  }

  lemma {:induction false} CountsOfKnownLabels(a: seq<Article>)
    requires forall k :: 0 <= k < |a| ==> a[k].sentiment in LABELS
    ensures Count(a, "Positive") + Count(a, "Negative") + Count(a, "Neutral") == |a|
  {
    if a != [] {
      var init := a[..|a| - 1];
      assert forall k :: 0 <= k < |init| ==> init[k] == a[k];
      CountsOfKnownLabels(init);
    }
  }

  /** On success the three counts add up to the number of articles. */
  lemma TableSumsToLength(a: seq<Article>)
    requires Table(a).Ok?
    ensures Table(a).value["Positive"] + Table(a).value["Negative"] + Table(a).value["Neutral"] == |a|
  {
    TableOkIffAllKnown(a);
    CountsOfKnownLabels(a);
  }

  /** On success each entry equals the comparative distribution's count, or 0 for a label that does not occur. */
  lemma TableAgreesWithDistribution(a: seq<Article>)
    requires Table(a).Ok?
    ensures forall l :: l in Table(a).value ==>
      Table(a).value[l] == if l in Distribution(a) then Distribution(a)[l] else 0
    ensures Distribution(a).Keys <= Table(a).value.Keys
  {
  }

  /** Articles labelled by the threshold classifier never make the pass fail. */
  lemma ClassifiedArticlesTabulate(a: seq<Article>, scores: seq<real>)
    requires |scores| == |a|
    requires forall k :: 0 <= k < |a| ==> a[k].sentiment == Classify(scores[k]).Name()
    ensures Table(a).Ok?
  {
  }
}
