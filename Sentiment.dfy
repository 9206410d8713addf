/**
 * The three sentiment labels and the threshold rule that turns a compound
 * polarity score into one of them. The score itself comes from an external
 * scorer and is a parameter here.
 */
module Sentiment {

  /** The keys of the fixed sentiment table, which are also the labels the classifier emits. */
  const LABELS: set<string> := {"Positive", "Negative", "Neutral"}

  const POSITIVE_THRESHOLD: real := 0.05
  const NEGATIVE_THRESHOLD: real := -0.05

  datatype Sentiment = Positive | Negative | Neutral {

    /** The label string stored in an article record. */
    function Name(): (s: string)
      ensures s in LABELS
    {
      match this
      case Positive => "Positive"
      case Negative => "Negative"
      case Neutral => "Neutral"
    }

    /** Position on the negative-to-positive scale. */
    function Rank(): (r: nat)
      ensures r <= 2
    {
      match this
      case Negative => 0
      case Neutral => 1
      case Positive => 2
    }
  }

  /** Category of a compound score: Positive from 0.05 up, Negative from -0.05 down, Neutral strictly between. */
  function Classify(compound: real): (r: Sentiment)
    ensures r == Positive <==> compound >= POSITIVE_THRESHOLD
    ensures r == Negative <==> compound <= NEGATIVE_THRESHOLD
    ensures r == Neutral <==> NEGATIVE_THRESHOLD < compound < POSITIVE_THRESHOLD
  {
    if compound >= POSITIVE_THRESHOLD then Positive
    else if compound <= NEGATIVE_THRESHOLD then Negative
    else Neutral
  }

  /** A higher score never gets a more negative label. */
  lemma ClassifyMonotone(low: real, high: real)
    requires low <= high
    ensures Classify(low).Rank() <= Classify(high).Rank()
  {
  }

  /** Every label the classifier can produce is a key of the fixed table, and each key is produced by some score. */
  lemma ClassifyCoversLabels()
    ensures forall c: real :: Classify(c).Name() in LABELS
    ensures Classify(1.0).Name() == "Positive"
    ensures Classify(-1.0).Name() == "Negative"
    ensures Classify(0.0).Name() == "Neutral"
  {
  }
}
