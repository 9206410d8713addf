# Comparative sentiment analysis of company news, in Dafny

This project models the analysis core of a small news-sentiment service. The service fetches
news items about a company and labels each item Positive, Negative or Neutral. It also tags
each item with keyword topics. It then compares the labelled items. The model covers the
parts of `utils.py` that compute on the labelled items:

- **The threshold rule** of `analyze_sentiment` (module `Sentiment`). It maps a compound
  polarity score to a label: `>= 0.05` is Positive, `<= -0.05` is Negative, anything else
  is Neutral. The score is a `real` parameter because the scorer itself is external.
- **`compare_sentiment`** (module `Comparative`). It counts the articles per label, as the
  `Counter` does. It also lists one *coverage difference* for each pair of positions
  `i < j` whose labels differ. The method `CompareSentiment` keeps the nested loops and the
  append. It is proved equal to the functional specification `Differences`. Lemmas then say
  what `Differences` contains, in what order, and how many entries it has.
- **`get_sentiment_distribution`** (module `SentimentTable`). It starts from the fixed table
  `{Positive: 0, Negative: 0, Neutral: 0}` and increments the entry of each article's label.
  A label outside the table raises a `KeyError`. This is modelled as `Err(KeyError(label))`
  carrying the first such label. The method `GetSentimentDistribution` keeps the loop and
  is proved equal to the specification `Table`.
- **Decimal text of positions** (module `Text`). It formats the 1-based positions that the
  f-strings write into the texts of a coverage difference.

An article keeps only the two fields that these functions read: `sentiment` (a string, as in
the article records) and `topics`. A coverage difference is a record with the two 1-based
positions, the two labels and the two topic lists. Its three emitted fields are derived
functions:
- `Comparison`: "Article {i+1} ({label}) vs Article {j+1} ({label})";
- `Impact`: the fixed template sentence;
- `KeyThemes`: a two-entry map from "Article {n} Topics" to the topic lists.

The `Impact` sentence always calls the earlier article the one that "focuses on positive
aspects". It does so whatever the two labels are. The model keeps this template as it is, and
`ImpactIgnoresLabels` states it.

## Model

| member | source | states |
|---|---|---|
| `Sentiment.Classify` | utils.py:20-26 | The label is Positive exactly when the score is at least 0.05, Negative exactly when it is at most -0.05, and Neutral exactly when it lies strictly between. The rule is total. |
| `Sentiment.ClassifyMonotone` | utils.py:21-26 | A higher score never gets a more negative label (Negative < Neutral < Positive). |
| `Sentiment.ClassifyCoversLabels` | utils.py:21-26 | Every label the rule produces is one of the three keys of the fixed table, and each of the three keys is produced by some score. |
| `Sentiment.Sentiment.Name` | utils.py:22-26 | The string the rule returns for each label is one of "Positive", "Negative", "Neutral". |
| `Text.NatToString` | utils.py:138-142 | The decimal text of a position is non-empty and made only of digits. It starts with '0' only when it is the one-character text "0" of the number 0, so no number is written with a leading zero. Together with `ParseNatToString`, this makes it the canonical decimal text. |
| `Text.ParseNatToString` | utils.py:138-142 | Reading the decimal text of a position back gives the position. |
| `Text.NatToStringInjective` | utils.py:138-142 | Two positions have the same decimal text only if they are equal. |
| `Comparative.TopicsKeyInjective` | utils.py:141-142 | "Article {p} Topics" and "Article {q} Topics" are the same key only when p = q. |
| `Comparative.KeyThemesOfDifference` | utils.py:137-144 | The Key Themes map of the record built for 0-based positions i < j has exactly two distinct keys, "Article {i+1} Topics" and "Article {j+1} Topics". They map to the two articles' topic lists unchanged. |
| `Comparative.ImpactIgnoresLabels` | utils.py:139 | The Impact text depends only on the two positions, never on the labels or topics. |
| `Comparative.RowSound` | utils.py:130-145 | Every entry the inner loop emits for row i pairs i with a later position whose label differs, and is that pair's record. |
| `Comparative.RowComplete` | utils.py:130-135 | The inner loop for row i emits the record of every later position whose label differs from i's. |
| `Comparative.RowOrdered` | utils.py:130 | Within one row, the entries come in strictly ascending second position. |
| `Comparative.BeforeSound` | utils.py:129-145 | After the rows below n, every emitted entry is the record of an in-range pair with differing labels whose first position is at most n. |
| `Comparative.BeforeComplete` | utils.py:129-135 | After the rows below n, the record of every differing pair whose earlier position is below n has been emitted. |
| `Comparative.BeforeOrdered` | utils.py:129-130 | After the rows below n, the entries are in strictly ascending (first, second) order. |
| `Comparative.DifferencePresentIffLabelsDiffer` | utils.py:129-135 | For positions i < j, the record of (i, j) is among the coverage differences exactly when the two labels differ. |
| `Comparative.DifferencesSound` | utils.py:129-145 | Each coverage difference is the record of some pair 1 <= i+1 < j+1 <= n whose labels differ. |
| `Comparative.DifferencesOrdered` | utils.py:129-130 | Coverage differences appear in strictly ascending order of first position, then second position. |
| `Comparative.DifferencesCount` | utils.py:128-145 | The number of coverage differences equals the number of pairs i < j whose labels differ. |
| `Comparative.NoDifferencesWhenUnanimous` | utils.py:128-145 | When all articles share one label, there are no coverage differences. |
| `Comparative.NoDifferencesWhenShort` | utils.py:128-145 | With zero or one article, there are no coverage differences. |
| `Comparative.Count` | utils.py:119 | The number of articles with a given label never exceeds the number of articles. |
| `Comparative.CountPositive` | utils.py:119 | A label has a non-zero count exactly when some article carries it. |
| `Comparative.Distribution` | utils.py:119 | The distribution's keys are exactly the labels that occur. Labels that never occur are absent. Each key maps to its number of occurrences. |
| `Comparative.DistributionSumsToLength` | utils.py:147 | The values of the distribution add up to the number of articles. |
| `Comparative.CompareSentiment` | utils.py:118-152 | The distribution is `Distribution(a)`, taken in one step as the source's `Counter` call is. The nested loops return exactly the coverage-difference list `Differences`, so the properties above hold of the method's output. |
| `Comparative.ExampleDistribution` | utils.py:119 | For the batch Positive, Negative, Positive, the distribution is {Positive: 2, Negative: 1}. |
| `Comparative.ExampleDifferences` | utils.py:128-145 | For the same batch, the differences are exactly the pairs (1, 2) and (2, 3), in that order. |
| `SentimentTable.FirstUnknown` | utils.py:185-187 | Finds the first position whose label is not a key of the fixed table; every earlier position has a known label, and None means all labels are known. |
| `SentimentTable.GetSentimentDistribution` | utils.py:177-189 | The counting loop returns exactly `Table`: the three counts, or the key error of the first unknown label. |
| `SentimentTable.TableOkIffAllKnown` | utils.py:183-189 | The counting pass succeeds exactly when every label is Positive, Negative or Neutral. It then returns exactly those three keys. |
| `SentimentTable.TableErrNamesFirstUnknown` | utils.py:185-187 | A failure is a key error naming the label of the first article whose label is outside the table. |
| `SentimentTable.TableSumsToLength` | utils.py:183-189 | On success, the three counts add up to the number of articles. |
| `SentimentTable.TableAgreesWithDistribution` | utils.py:183-189 | On success, each table entry equals the comparative distribution's count for that label, or 0 when the label does not occur. Every label of the distribution is a table key. |
| `SentimentTable.ClassifiedArticlesTabulate` | utils.py:183-187 | Articles labelled by the threshold rule never make the counting pass fail. |

## Left out

- Fetching the news feed and parsing RSS and HTML (`fetch_news_with_sentiment`, utils.py:28-85) are left out. They are network I/O and a foreign parser.
- The VADER polarity scorer (utils.py:17-18) is left out. It is a foreign library computing floats. The compound score is an abstract `real` parameter of `Classify`.
- `Classify` compares exact reals. The source compares IEEE doubles against the literals 0.05 and -0.05, and rounding at the boundary is not modelled.
- Topic extraction (`extract_topics`, utils.py:87-114) is left out. It is TF-IDF weighting with floating-point scores and numpy tie-breaking. Topic lists are given as input.
- Translation and speech synthesis (`generate_hindi_tts`, utils.py:159-175) are left out. They are external services plus file-system writes.
- Chart rendering (`plot_sentiment_distribution`, utils.py:191-202) is left out. It only draws with the plotting library.
- The orchestration in `fetch_news_complete` (utils.py:207-225) is left out, and so are `app.py` and `api.py`. They are I/O glue, a JSON round-trip and user-interface code.
- Python dictionaries keep insertion order. The model uses maps, so it does not capture key order. This covers the `Counter`, which lists labels by first occurrence. It also covers the fixed table order Positive, Negative, Neutral and the two-key Key Themes dictionary.
- Article records also carry title, link, publication date and summary. The analysed functions never read these fields, so the model's articles omit them. Records missing a field cannot be expressed, because every model article has both `sentiment` and `topics`. In the source, a record without a `sentiment` key raises a KeyError. A record without a `topics` key raises a KeyError in `compare_sentiment` (utils.py:141-142), but only when that article belongs to a pair whose labels differ.
- The `Counter` accepts any hashable label. Here labels are strings, which is what the article records hold.
- The Comparison text is defined literally, but no lemma parses it back. Arbitrary label strings can contain the separator text, so the text alone does not always determine the pair.
