/**
 * The lexical feature extractors of src/features.py. Each scans the 'text_' column
 * of a frame of reviews and writes one new integer column into that same frame.
 */
module Features {
  import opened Text
  import opened Results

  /** The default keyword list of src/features.py. */
  const SusWords: seq<string> := ["free", "amazing", "best", "buy now", "limited", "guaranteed"]

  const TextKey := "text_"
  const SusKey := "count_sus"
  const CapsKey := "count_caps"
  const LengthKey := "len_reviews"

  /** `sum(lowered.count(word) for word in words)`. */
  function Hits(lowered: string, words: seq<string>): (n: nat)
    ensures words == [] ==> n == 0
    ensures |words| == 1 ==> n == Count(lowered, words[0])
    ensures forall k :: 0 <= k < |words| ==> Count(lowered, words[k]) <= n
    decreases |words|
  {
    if words == [] then 0 else Count(lowered, words[0]) + Hits(lowered, words[1..])
  }

  /** The 'count_sus' value of one review: keyword occurrences in the lower-cased text. */
  function SusCount(text: string, words: seq<string>): (n: nat)
    ensures words == [] ==> n == 0
    ensures |words| == 1 ==> n == Count(Lower(text), words[0])
    ensures forall k :: 0 <= k < |words| ==> Count(Lower(text), words[k]) <= n
  {
    Hits(Lower(text), words)
  }

  lemma {:induction false} HitsAppend(lowered: string, l1: seq<string>, l2: seq<string>)
    ensures Hits(lowered, l1 + l2) == Hits(lowered, l1) + Hits(lowered, l2)
    decreases |l1|
  {
    if l1 == [] {
      assert l1 + l2 == l2;
    } else {
      assert (l1 + l2)[0] == l1[0];
      assert (l1 + l2)[1..] == l1[1..] + l2;
      HitsAppend(lowered, l1[1..], l2);
    }
  }

  /** The count is additive over the keyword list. */
  lemma SusCountAppend(text: string, l1: seq<string>, l2: seq<string>)
    ensures SusCount(text, l1 + l2) == SusCount(text, l1) + SusCount(text, l2)
  {
    HitsAppend(Lower(text), l1, l2);
  }

  /** Texts that differ only in the case of ASCII letters get the same count. */
  lemma SusCountCaseInsensitive(t1: string, t2: string, words: seq<string>)
    requires |t1| == |t2|
    requires forall i :: 0 <= i < |t1| ==> LowerChar(t1[i]) == LowerChar(t2[i])
    ensures SusCount(t1, words) == SusCount(t2, words)
  {
    assert Lower(t1) == Lower(t2);
  }

  /** Occurrences of one non-empty keyword never overlap, so they fit in the text. */
  lemma SusCountOneWordBound(text: string, word: string)
    requires |word| > 0
    ensures SusCount(text, [word]) * |word| <= |text|
  {
    CountBound(Lower(text), word);
  }

  /**
   * The text is lower-cased but the keywords are not, so a keyword holding an
   * upper-case letter is never found.
   */
  lemma UpperCaseKeywordNeverFound(text: string, word: string, k: nat)
    requires k < |word| && IsAsciiUpper(word[k])
    ensures SusCount(text, [word]) == 0
  {
    var lowered := Lower(text);
    forall i | 0 <= i && i + |word| <= |lowered| ensures !OccursAt(lowered, word, i) {
      assert lowered[i..i + |word|][k] == lowered[i + k];
    }
    CountFindsOccurrence(lowered, word);
  }

  /**
   * The 'len_reviews' value of one review: `len(text.split())`, the number of
   * maximal runs of non-whitespace characters.
   */
  function ReviewLength(text: string): (n: nat)
    ensures n == RunsFrom(text, 0)
  {
    SplitCountsRuns(text);
    |Split(text)|
  }

  /** A whitespace character splits a review into two whose lengths add up. */
  lemma ReviewLengthSeparated(a: string, c: char, b: string)
    requires IsSpace(c)
    ensures ReviewLength(a + [c] + b) == ReviewLength(a) + ReviewLength(b)
  {
    SplitSeparated(a, c, b);
  }

  /** An empty or all-whitespace review has length 0. */
  lemma ReviewLengthBlank(text: string)
    requires forall i :: 0 <= i < |text| ==> IsSpace(text[i])
    ensures ReviewLength(text) == 0
  {
    SplitBlank(text);
  }

  /** `[word for word in words if word.isupper()]`. */
  function UpperWords(words: seq<string>): (r: seq<string>)
    ensures |r| <= |words|
    decreases |words|
  {
    if words == [] then []
    else if IsUpper(words[0]) then [words[0]] + UpperWords(words[1..])
    else UpperWords(words[1..])
  }

  /** Every upper-case word is kept as often as it occurs, every other word never. */
  lemma {:induction false} UpperWordsCounts(words: seq<string>)
    ensures forall v :: multiset(UpperWords(words))[v] == if IsUpper(v) then multiset(words)[v] else 0
    decreases |words|
  {
    if words != [] {
      UpperWordsCounts(words[1..]);
      assert words == [words[0]] + words[1..];
    }
  }

  /** Every word is kept exactly when all of them are upper case. */
  lemma {:induction false} UpperWordsAll(words: seq<string>)
    ensures |UpperWords(words)| == |words| <==> forall k :: 0 <= k < |words| ==> IsUpper(words[k])
    decreases |words|
  {
    if words != [] {
      UpperWordsAll(words[1..]);
      assert forall k :: 1 <= k < |words| ==> words[k] == words[1..][k - 1];
    }
  }

  /** No word is kept exactly when none of them is upper case. */
  lemma {:induction false} UpperWordsNone(words: seq<string>)
    ensures |UpperWords(words)| == 0 <==> forall k :: 0 <= k < |words| ==> !IsUpper(words[k])
    decreases |words|
  {
    if words != [] {
      UpperWordsNone(words[1..]);
      assert forall k :: 1 <= k < |words| ==> words[k] == words[1..][k - 1];
    }
  }

  /** The filter distributes over concatenation, keeping the order of the words. */
  lemma {:induction false} UpperWordsAppend(u: seq<string>, v: seq<string>)
    ensures UpperWords(u + v) == UpperWords(u) + UpperWords(v)
    decreases |u|
  {
    if u == [] {
      assert u + v == v;
    } else {
      assert (u + v)[0] == u[0];
      assert (u + v)[1..] == u[1..] + v;
      UpperWordsAppend(u[1..], v);
    }
  }

  /** The 'count_caps' value of one review: how many of its words are upper case. */
  function CapsCount(text: string): (n: nat)
    ensures n <= ReviewLength(text)
  {
    |UpperWords(Split(text))|
  }

  /** A review scores 0 exactly when none of its words is upper case. */
  lemma CapsCountZero(text: string)
    ensures CapsCount(text) == 0 <==> forall k :: 0 <= k < |Split(text)| ==> !IsUpper(Split(text)[k])
  {
    UpperWordsNone(Split(text));
  }

  /** A review scores its length exactly when every one of its words is upper case. */
  lemma CapsCountAll(text: string)
    ensures CapsCount(text) == ReviewLength(text) <==> forall k :: 0 <= k < |Split(text)| ==> IsUpper(Split(text)[k])
  {
    UpperWordsAll(Split(text));
  }

  /** A whitespace character splits a review into two whose upper-case word counts add up. */
  lemma CapsCountSeparated(a: string, c: char, b: string)
    requires IsSpace(c)
    ensures CapsCount(a + [c] + b) == CapsCount(a) + CapsCount(b)
  {
    SplitSeparated(a, c, b);
    UpperWordsAppend(Split(a), Split(b));
  }

  /** A review that is a single word counts 1 exactly when that word is upper case. */
  lemma CapsCountOneWord(w: string)
    requires |w| > 0
    requires forall k :: 0 <= k < |w| ==> !IsSpace(w[k])
    ensures CapsCount(w) == if IsUpper(w) then 1 else 0
  {
    SplitOneWord(w);
    assert UpperWords([w]) == if IsUpper(w) then [w] else [];
  }

  /** A word without an upper-case letter (digits, punctuation) is not counted. */
  lemma CapsSkipsUncasedWords(text: string, word: string)
    requires forall i :: 0 <= i < |word| ==> !IsAsciiUpper(word[i])
    ensures word !in UpperWords(Split(text))
  {
    assert !IsUpper(word);
    UpperWordsCounts(Split(text));
    assert multiset(UpperWords(Split(text)))[word] == 0;
  }

  /** The 'count_sus' column for the given review texts. */
  function SusColumn(texts: seq<string>, words: seq<string>): seq<int>
  {
    seq(|texts|, i requires 0 <= i < |texts| => SusCount(texts[i], words))
  }

  /** The 'count_caps' column for the given review texts. */
  function CapsColumn(texts: seq<string>): seq<int>
  {
    seq(|texts|, i requires 0 <= i < |texts| => CapsCount(texts[i]))
  }

  /** The 'len_reviews' column for the given review texts. */
  function LengthColumn(texts: seq<string>): seq<int>
  {
    seq(|texts|, i requires 0 <= i < |texts| => ReviewLength(texts[i]))
  }

  /** One column of a DataFrame. */
  datatype Column = Texts(texts: seq<string>) | Ints(ints: seq<int>)

  function Length(c: Column): nat
  {
    match c
    case Texts(ts) => |ts|
    case Ints(xs) => |xs|
  }

  datatype FrameError =
    | KeyError(key: string)   // the frame has no such column
    | AttributeError          // a cell of 'text_' is not a string, so `.lower()`/`.split()` fails

  /** A DataFrame: named columns, each holding one value per row. */
  class Frame {
    var rows: nat
    var columns: map<string, Column>

    ghost predicate Valid()
      reads this
    {
      forall name :: name in columns ==> Length(columns[name]) == rows
    }

    constructor (rows: nat, columns: map<string, Column>)
      requires forall name :: name in columns ==> Length(columns[name]) == rows
      ensures Valid() && this.rows == rows && this.columns == columns
    {
      this.rows := rows;
      this.columns := columns;
    }

    /** `reviews['text_']`, iterated: the review texts, or why iterating them fails. */
    function ReviewTexts(): (r: Result<seq<string>, FrameError>)
      reads this
      ensures TextKey !in columns ==> r == Err(KeyError(TextKey))
      ensures TextKey in columns && Length(columns[TextKey]) == 0 ==> r == Ok([])
      ensures r.Ok? ==> TextKey in columns && |r.value| == Length(columns[TextKey])
      ensures TextKey in columns && columns[TextKey].Texts? ==> r == Ok(columns[TextKey].texts)
      ensures TextKey in columns && columns[TextKey].Ints? && columns[TextKey].ints != [] ==> r == Err(AttributeError)
    {
      if TextKey !in columns then Err(KeyError(TextKey))
      else match columns[TextKey]
        case Texts(ts) => Ok(ts)
        case Ints(xs) => if xs == [] then Ok([]) else Err(AttributeError)
    }
  }

  /** The loop of `count_sus_words`: one keyword count per review, in review order. */
  method SusCounts(texts: seq<string>, suspicious: seq<string>) returns (counts: seq<int>)
    ensures |counts| == |texts|
    ensures forall i :: 0 <= i < |texts| ==> counts[i] == SusCount(texts[i], suspicious)
  {
    counts := [];
    for i := 0 to |texts|
      invariant |counts| == i
      invariant forall k :: 0 <= k < i ==> counts[k] == SusCount(texts[k], suspicious)
    {
      var textLower := Lower(texts[i]);
      var count := Hits(textLower, suspicious);
      counts := counts + [count];
    }
  }

  /** The loop of `count_capital_words`: one upper-case word count per review, in review order. */
  method CapsCounts(texts: seq<string>) returns (counts: seq<int>)
    ensures |counts| == |texts|
    ensures forall i :: 0 <= i < |texts| ==> counts[i] == CapsCount(texts[i])
  {
    counts := [];
    for i := 0 to |texts|
      invariant |counts| == i
      invariant forall k :: 0 <= k < i ==> counts[k] == CapsCount(texts[k])
    {
      var count := |UpperWords(Split(texts[i]))|;
      counts := counts + [count];
    }
  }

  /** Adds or replaces the 'count_sus' column and returns the same frame. */
  method CountSusWords(reviews: Frame, suspicious: seq<string>) returns (r: Result<Frame, FrameError>)
    requires reviews.Valid()
    modifies reviews`columns
    ensures reviews.Valid()
    ensures old(reviews.ReviewTexts()).Err? ==>
      r == Err(old(reviews.ReviewTexts()).error) && reviews.columns == old(reviews.columns)
    ensures old(reviews.ReviewTexts()).Ok? ==>
      var texts := old(reviews.ReviewTexts()).value;
      && r == Ok(reviews)
      && reviews.columns == old(reviews.columns)[SusKey := Ints(SusColumn(texts, suspicious))]
  {
    var texts := reviews.ReviewTexts();
    if texts.Err? {
      return Err(texts.error);
    }
    var counts := SusCounts(texts.value, suspicious);
    assert counts == SusColumn(texts.value, suspicious);
    reviews.columns := reviews.columns[SusKey := Ints(counts)];
    return Ok(reviews);
  }

  /** Adds or replaces the 'count_caps' column and returns the same frame. */
  method CountCapitalWords(reviews: Frame) returns (r: Result<Frame, FrameError>)
    requires reviews.Valid()
    modifies reviews`columns
    ensures reviews.Valid()
    ensures old(reviews.ReviewTexts()).Err? ==>
      r == Err(old(reviews.ReviewTexts()).error) && reviews.columns == old(reviews.columns)
    ensures old(reviews.ReviewTexts()).Ok? ==>
      var texts := old(reviews.ReviewTexts()).value;
      && r == Ok(reviews)
      && reviews.columns == old(reviews.columns)[CapsKey := Ints(CapsColumn(texts))]
  {
    var texts := reviews.ReviewTexts();
    if texts.Err? {
      return Err(texts.error);
    }
    var counts := CapsCounts(texts.value);
    assert counts == CapsColumn(texts.value);
    reviews.columns := reviews.columns[CapsKey := Ints(counts)];
    return Ok(reviews);
  }

  /** Adds or replaces the 'len_reviews' column and returns the same frame. */
  method CountReviewLength(reviews: Frame) returns (r: Result<Frame, FrameError>)
    requires reviews.Valid()
    modifies reviews`columns
    ensures reviews.Valid()
    ensures old(reviews.ReviewTexts()).Err? ==>
      r == Err(old(reviews.ReviewTexts()).error) && reviews.columns == old(reviews.columns)
    ensures old(reviews.ReviewTexts()).Ok? ==>
      var texts := old(reviews.ReviewTexts()).value;
      && r == Ok(reviews)
      && reviews.columns == old(reviews.columns)[LengthKey := Ints(LengthColumn(texts))]
  {
    var texts := reviews.ReviewTexts();
    if texts.Err? {
      return Err(texts.error);
    }
    var ts := texts.value;
    var lengths := seq(|ts|, i requires 0 <= i < |ts| => |Split(ts[i])|);
    assert lengths == LengthColumn(ts);
    reviews.columns := reviews.columns[LengthKey := Ints(lengths)];
    return Ok(reviews);
  }
}
