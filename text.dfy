/**
 * The Python string operations the feature extractors of src/features.py rely on:
 * `str.lower`, `str.count`, `str.split()` with no separator and `str.isupper`.
 * Letter case is ASCII-only; whitespace is exactly the set `str.isspace` accepts.
 */
module Text {

  /** The characters `str.isspace()` accepts, which `str.split()` separates on. */
  predicate IsSpace(c: char)
  {
    || '\t' <= c <= '\r'
    || '\U{1c}' <= c <= ' '
    || c == '\U{85}' || c == '\U{a0}' || c == '\U{1680}'
    || '\U{2000}' <= c <= '\U{200a}'
    || c == '\U{2028}' || c == '\U{2029}' || c == '\U{202f}' || c == '\U{205f}' || c == '\U{3000}'
  }

  predicate IsAsciiUpper(c: char)
  {
    'A' <= c <= 'Z'
  }

  predicate IsAsciiLower(c: char)
  {
    'a' <= c <= 'z'
  }

  function LowerChar(c: char): char
  {
    if IsAsciiUpper(c) then (c as int + 32) as char else c
  }

  /** `str.lower()`, character by character. */
  function Lower(s: string): (r: string)
    ensures |r| == |s|
    ensures forall i :: 0 <= i < |s| ==> r[i] == LowerChar(s[i])
    ensures forall i :: 0 <= i < |s| ==> !IsAsciiUpper(r[i])
    decreases |s|
  {
    if s == [] then [] else [LowerChar(s[0])] + Lower(s[1..])
  }

  /** Lowering is idempotent. */
  lemma LowerIdempotent(s: string)
    ensures Lower(Lower(s)) == Lower(s)
  {
    var once := Lower(s);
    forall i | 0 <= i < |s| ensures Lower(once)[i] == once[i] {
    }
  }

  /** `sub` appears in `s` starting at position `i`. */
  predicate OccursAt(s: string, sub: string, i: int)
  {
    0 <= i && i + |sub| <= |s| && s[i..i + |sub|] == sub
  }

  /**
   * `s.count(sub)`: occurrences found scanning left to right, each search resuming
   * after the previous match, so matches never overlap. The empty string is found
   * at every one of the `|s| + 1` positions.
   */
  function Count(s: string, sub: string): (n: nat)
    ensures |sub| == 0 ==> n == |s| + 1
    decreases |s|
  {
    if |sub| == 0 then |s| + 1
    else if |s| < |sub| then 0
    else if s[..|sub|] == sub then 1 + Count(s[|sub|..], sub)
    else Count(s[1..], sub)
  }

  /** Matches of a non-empty `sub` do not overlap, so they fit in the text. */
  lemma {:induction false} CountBound(s: string, sub: string)
    requires |sub| > 0
    ensures Count(s, sub) * |sub| <= |s|
    decreases |s|
  {
    if |s| >= |sub| {
      if s[..|sub|] == sub {
        CountBound(s[|sub|..], sub);
        MatchesFit(Count(s[|sub|..], sub), |sub|, |s|);
      } else {
        CountBound(s[1..], sub);
      }
    }
  }

  /** Dropping the first character moves every occurrence one position to the left. */
  lemma OccursAfterFirst(s: string, sub: string, i: nat)
    requires |s| > 0
    ensures OccursAt(s[1..], sub, i) <==> OccursAt(s, sub, i + 1)
  {
    if i + 1 + |sub| <= |s| {
      assert s[1..][i..i + |sub|] == s[i + 1..i + 1 + |sub|];
    }
  }

  /** One more match of length `m` still fits when the matches after it fit in the rest. */
  lemma MatchesFit(rest: nat, m: nat, len: nat)
    requires m <= len && rest * m <= len - m
    ensures (1 + rest) * m <= len
  {
    assert (1 + rest) * m == m + rest * m;
  }

  /** A non-empty `sub` is counted at least once exactly when it occurs somewhere in `s`. */
  lemma {:induction false} CountFindsOccurrence(s: string, sub: string)
    requires |sub| > 0
    ensures Count(s, sub) > 0 <==> exists i :: OccursAt(s, sub, i)
    decreases |s|
  {
    if |s| < |sub| {
    } else if s[..|sub|] == sub {
      assert OccursAt(s, sub, 0) by {
        assert s[0..|sub|] == s[..|sub|];
      }
    } else {
      var t := s[1..];
      assert Count(s, sub) == Count(t, sub);
      CountFindsOccurrence(t, sub);
      if exists i :: OccursAt(t, sub, i) {
        var i :| OccursAt(t, sub, i);
        OccursAfterFirst(s, sub, i);
      }
      if exists i :: OccursAt(s, sub, i) {
        var i :| OccursAt(s, sub, i);
        assert i != 0 by {
          assert s[0..|sub|] == s[..|sub|];
        }
        OccursAfterFirst(s, sub, i - 1);
      }
    }
  }

  /**
   * The count resumes after the leftmost match: when `p` is the first position where
   * `sub` occurs, the count is one more than the count in the text after that match.
   */
  lemma {:induction false} CountLeftmost(s: string, sub: string, p: nat)
    requires |sub| > 0 && OccursAt(s, sub, p)
    requires forall i :: 0 <= i < p ==> !OccursAt(s, sub, i)
    ensures Count(s, sub) == 1 + Count(s[p + |sub|..], sub)
    decreases |s|
  {
    if OccursAt(s, sub, 0) {
      assert p == 0;
      CountAtMatch(s, sub);
    } else {
      var t, q := s[1..], p - 1;
      LeftmostAfterFirst(s, sub, p);
      CountLeftmost(t, sub, q);
      CountPastMismatch(s, t, sub, p, q);
    }
  }

  /** A match at the front is counted, and the search resumes after it. */
  lemma CountAtMatch(s: string, sub: string)
    requires |sub| > 0 && OccursAt(s, sub, 0)
    ensures Count(s, sub) == 1 + Count(s[|sub|..], sub)
  {
    assert s[0..|sub|] == s[..|sub|];
  }

  /** Dropping a first character that begins no match keeps the leftmost match leftmost. */
  lemma LeftmostAfterFirst(s: string, sub: string, p: nat)
    requires OccursAt(s, sub, p) && !OccursAt(s, sub, 0)
    requires forall i :: 0 <= i < p ==> !OccursAt(s, sub, i)
    ensures 1 <= p && OccursAt(s[1..], sub, p - 1)
    ensures forall i :: 0 <= i < p - 1 ==> !OccursAt(s[1..], sub, i)
  {
    OccursAfterFirst(s, sub, p - 1);
    forall i | 0 <= i < p - 1 ensures !OccursAt(s[1..], sub, i) {
      OccursAfterFirst(s, sub, i);
    }
  }

  /**
   * Past a first character that begins no match, the count is the count of the rest
   * `t`, in which the next match begins at `q`, one position earlier.
   */
  lemma CountPastMismatch(s: string, t: string, sub: string, p: nat, q: nat)
    requires |sub| > 0 && !OccursAt(s, sub, 0) && p + |sub| <= |s|
    requires t == s[1..] && q + 1 == p
    requires Count(t, sub) == 1 + Count(t[q + |sub|..], sub)
    ensures Count(s, sub) == 1 + Count(s[p + |sub|..], sub)
  {
    assert s[0..|sub|] == s[..|sub|];
    assert Count(s, sub) == Count(t, sub);
    assert t[q + |sub|..] == s[p + |sub|..];
  }

  /** A text shorter than a non-empty `sub` contains it zero times. */
  lemma CountShortText(s: string, sub: string)
    requires |s| < |sub|
    ensures Count(s, sub) == 0
  {
  }

  /** The first position at or after `i` that holds no whitespace, or `|s|`. */
  function SkipSpace(s: string, i: nat): (j: nat)
    requires i <= |s|
    ensures i <= j <= |s|
    ensures j == |s| || !IsSpace(s[j])
    decreases |s| - i
  {
    if i < |s| && IsSpace(s[i]) then SkipSpace(s, i + 1) else i
  }

  /** The first position at or after `i` that holds whitespace, or `|s|`. */
  function SkipWord(s: string, i: nat): (j: nat)
    requires i <= |s|
    ensures i <= j <= |s|
    ensures j == |s| || IsSpace(s[j])
    decreases |s| - i
  {
    if i < |s| && !IsSpace(s[i]) then SkipWord(s, i + 1) else i
  }

  /** Everything `SkipSpace` passes over is whitespace. */
  lemma {:induction false} SkipSpaceSpans(s: string, i: nat)
    requires i <= |s|
    ensures forall k :: i <= k < SkipSpace(s, i) ==> IsSpace(s[k])
    decreases |s| - i
  {
    if i < |s| && IsSpace(s[i]) {
      SkipSpaceSpans(s, i + 1);
    }
  }

  /** Everything `SkipWord` passes over is non-whitespace. */
  lemma {:induction false} SkipWordSpans(s: string, i: nat)
    requires i <= |s|
    ensures forall k :: i <= k < SkipWord(s, i) ==> !IsSpace(s[k])
    decreases |s| - i
  {
    if i < |s| && !IsSpace(s[i]) {
      SkipWordSpans(s, i + 1);
    }
  }

  /** The words of `s` that begin at position `i` or later, scanning as CPython does. */
  function SplitFrom(s: string, i: nat): seq<string>
    requires i <= |s|
    decreases |s| - i
  {
    var j := SkipSpace(s, i);
    if j == |s| then []
    else
      var e := SkipWord(s, j);
      [s[j..e]] + SplitFrom(s, e)
  }

  /** Every word found from position `i` on is non-empty and holds no whitespace. */
  lemma {:induction false} SplitFromWords(s: string, i: nat)
    requires i <= |s|
    ensures forall k :: 0 <= k < |SplitFrom(s, i)| ==> |SplitFrom(s, i)[k]| > 0
    ensures forall k, c :: 0 <= k < |SplitFrom(s, i)| && 0 <= c < |SplitFrom(s, i)[k]| ==>
      !IsSpace(SplitFrom(s, i)[k][c])
    decreases |s| - i
  {
    var j := SkipSpace(s, i);
    if j < |s| {
      var e := SkipWord(s, j);
      SkipWordSpans(s, j);
      SplitFromWords(s, e);
      var words := SplitFrom(s, i);
      assert words[0] == s[j..e] && words[1..] == SplitFrom(s, e);
    }
  }

  /**
   * `s.split()` with no separator: the runs of non-whitespace characters, in order;
   * leading, trailing and repeated whitespace produce no empty strings.
   */
  function Split(s: string): (words: seq<string>)
    ensures forall k :: 0 <= k < |words| ==> |words[k]| > 0
    ensures forall k, c :: 0 <= k < |words| && 0 <= c < |words[k]| ==> !IsSpace(words[k][c])
  {
    SplitFromWords(s, 0);
    SplitFrom(s, 0)
  }

  /** Position `i` of `s` begins a maximal run of non-whitespace characters. */
  predicate StartsWord(s: string, i: nat)
    requires i < |s|
  {
    !IsSpace(s[i]) && (i == 0 || IsSpace(s[i - 1]))
  }

  /** The number of maximal non-whitespace runs that begin at position `i` or later. */
  function RunsFrom(s: string, i: nat): nat
    requires i <= |s|
    decreases |s| - i
  {
    if i == |s| then 0 else (if StartsWord(s, i) then 1 else 0) + RunsFrom(s, i + 1)
  }

  lemma {:induction false} NoRunStartsBetween(s: string, i: nat, j: nat)
    requires i <= j <= |s|
    requires forall k :: i <= k < j ==> !StartsWord(s, k)
    ensures RunsFrom(s, i) == RunsFrom(s, j)
    decreases j - i
  {
    if i < j {
      NoRunStartsBetween(s, i + 1, j);
    }
  }

  /** Whitespace begins no run. */
  lemma SpaceHasNoRuns(s: string, i: nat, j: nat)
    requires i <= j <= |s|
    requires forall k :: i <= k < j ==> IsSpace(s[k])
    ensures RunsFrom(s, i) == RunsFrom(s, j)
  {
    NoRunStartsBetween(s, i, j);
  }

  /** A word `s[j..e]` that begins a run contributes exactly that one run. */
  lemma WordIsOneRun(s: string, j: nat, e: nat)
    requires j < e <= |s|
    requires StartsWord(s, j)
    requires forall k :: j <= k < e ==> !IsSpace(s[k])
    ensures RunsFrom(s, j) == 1 + RunsFrom(s, e)
  {
    NoRunStartsBetween(s, j + 1, e);
  }

  /**
   * Scanning from a position that is not inside a word yields one word per run
   * that begins there or later.
   */
  lemma {:induction false} SplitFromCountsRuns(s: string, i: nat)
    requires i <= |s|
    requires i == 0 || i == |s| || IsSpace(s[i - 1]) || IsSpace(s[i])
    ensures |SplitFrom(s, i)| == RunsFrom(s, i)
    decreases |s| - i
  {
    var j := SkipSpace(s, i);
    SkipSpaceSpans(s, i);
    SpaceHasNoRuns(s, i, j);
    if j < |s| {
      var e := SkipWord(s, j);
      SkipWordSpans(s, j);
      assert StartsWord(s, j);
      WordIsOneRun(s, j, e);
      SplitFromStep(s, i, j, e);
      SplitFromCountsRuns(s, e);
    } else {
      NoWordsLeft(s, i);
    }
  }

  /** `len(s.split())` is the number of maximal runs of non-whitespace characters in `s`. */
  lemma SplitCountsRuns(s: string)
    ensures |Split(s)| == RunsFrom(s, 0)
  {
    SplitFromCountsRuns(s, 0);
  }

  /** The non-whitespace characters of `s` from position `i` on, in order. */
  function NonSpaceFrom(s: string, i: nat): string
    requires i <= |s|
    decreases |s| - i
  {
    if i == |s| then [] else (if IsSpace(s[i]) then [] else [s[i]]) + NonSpaceFrom(s, i + 1)
  }

  /** `"".join(words)`. */
  function Concat(words: seq<string>): string
    decreases |words|
  {
    if words == [] then [] else words[0] + Concat(words[1..])
  }

  lemma {:induction false} NonSpaceSkipsSpaces(s: string, i: nat, j: nat)
    requires i <= j <= |s|
    requires forall k :: i <= k < j ==> IsSpace(s[k])
    ensures NonSpaceFrom(s, i) == NonSpaceFrom(s, j)
    decreases j - i
  {
    if i < j {
      NonSpaceSkipsSpaces(s, i + 1, j);
    }
  }

  lemma {:induction false} NonSpaceKeepsWord(s: string, j: nat, e: nat)
    requires j <= e <= |s|
    requires forall k :: j <= k < e ==> !IsSpace(s[k])
    ensures NonSpaceFrom(s, j) == s[j..e] + NonSpaceFrom(s, e)
    decreases e - j
  {
    if j < e {
      NonSpaceKeepsWord(s, j + 1, e);
      calc {
        NonSpaceFrom(s, j);
        [s[j]] + NonSpaceFrom(s, j + 1);
        [s[j]] + (s[j + 1..e] + NonSpaceFrom(s, e));
        ([s[j]] + s[j + 1..e]) + NonSpaceFrom(s, e);
        { assert [s[j]] + s[j + 1..e] == s[j..e]; }
        s[j..e] + NonSpaceFrom(s, e);
      }
    }
  }

  /** Joining the words from position `i` gives back the text from `i` with its whitespace removed. */
  lemma {:induction false} SplitFromKeepsCharacters(s: string, i: nat)
    requires i <= |s|
    ensures Concat(SplitFrom(s, i)) == NonSpaceFrom(s, i)
    decreases |s| - i
  {
    var j := SkipSpace(s, i);
    SkipSpaceSpans(s, i);
    NonSpaceSkipsSpaces(s, i, j);
    if j < |s| {
      var e := SkipWord(s, j);
      SkipWordSpans(s, j);
      NonSpaceKeepsWord(s, j, e);
      SplitFromKeepsCharacters(s, e);
      var words := SplitFrom(s, i);
      assert words[0] == s[j..e] && words[1..] == SplitFrom(s, e);
    }
  }

  /** `"".join(s.split())` is `s` with every whitespace character removed. */
  lemma SplitKeepsCharacters(s: string)
    ensures Concat(Split(s)) == NonSpaceFrom(s, 0)
  {
    SplitFromKeepsCharacters(s, 0);
  }

  /** `SkipSpace` stops at the one position that ends the stretch of whitespace. */
  lemma {:induction false} SkipSpaceAt(s: string, i: nat, j: nat)
    requires i <= j <= |s|
    requires forall k :: i <= k < j ==> IsSpace(s[k])
    requires j == |s| || !IsSpace(s[j])
    ensures SkipSpace(s, i) == j
    decreases j - i
  {
    if i < j {
      SkipSpaceAt(s, i + 1, j);
    }
  }

  /** `SkipWord` stops at the one position that ends the word. */
  lemma {:induction false} SkipWordAt(s: string, i: nat, j: nat)
    requires i <= j <= |s|
    requires forall k :: i <= k < j ==> !IsSpace(s[k])
    requires j == |s| || IsSpace(s[j])
    ensures SkipWord(s, i) == j
    decreases j - i
  {
    if i < j {
      SkipWordAt(s, i + 1, j);
    }
  }

  /** One step of the scan: the first word from `i` on, then the words after it. */
  lemma SplitFromStep(s: string, i: nat, j: nat, e: nat)
    requires i <= |s| && SkipSpace(s, i) == j < |s| && SkipWord(s, j) == e
    ensures SplitFrom(s, i) == [s[j..e]] + SplitFrom(s, e)
  {
  }

  /**
   * Scanning `p + t` for whitespace from inside `t` stops where scanning `t` stops;
   * `j` is that stop in `t`.
   */
  lemma {:induction false} SkipSpaceShift(p: string, t: string, k: nat) returns (j: nat)
    requires k <= |t|
    ensures j == SkipSpace(t, k)
    ensures SkipSpace(p + t, |p| + k) == |p| + j
    decreases |t| - k
  {
    j := SkipSpace(t, k);
    if k < |t| {
      assert (p + t)[|p| + k] == t[k];
      if IsSpace(t[k]) {
        var _ := SkipSpaceShift(p, t, k + 1);
      }
    }
  }

  /**
   * Scanning `p + t` for a word from inside `t` stops where scanning `t` stops;
   * `e` is that stop in `t`.
   */
  lemma {:induction false} SkipWordShift(p: string, t: string, k: nat) returns (e: nat)
    requires k <= |t|
    ensures e == SkipWord(t, k)
    ensures SkipWord(p + t, |p| + k) == |p| + e
    decreases |t| - k
  {
    e := SkipWord(t, k);
    if k < |t| {
      assert (p + t)[|p| + k] == t[k];
      if !IsSpace(t[k]) {
        var _ := SkipWordShift(p, t, k + 1);
      }
    }
  }

  /** A scan that finds only whitespace left finds no words. */
  lemma NoWordsLeft(s: string, i: nat)
    requires i <= |s| && SkipSpace(s, i) == |s|
    ensures SplitFrom(s, i) == []
  {
  }

  /** The words found in `p + t` from position `|p| + k` are those found in `t` from `k`. */
  lemma {:induction false} SplitFromSuffix(p: string, t: string, k: nat)
    requires k <= |t|
    ensures SplitFrom(p + t, |p| + k) == SplitFrom(t, k)
    decreases |t| - k
  {
    var j := SkipSpaceShift(p, t, k);
    if j < |t| {
      var e := SkipWordShift(p, t, j);
      SplitFromSuffix(p, t, e);
      SuffixFirstWord(p, t, k, j, e);
    } else {
      NoWordsLeft(p + t, |p| + k);
      NoWordsLeft(t, k);
    }
  }

  /** One step of `SplitFromSuffix`: both scans find the same first word. */
  lemma SuffixFirstWord(p: string, t: string, k: nat, j: nat, e: nat)
    requires k <= |t| && SkipSpace(t, k) == j < |t| && SkipWord(t, j) == e
    requires SkipSpace(p + t, |p| + k) == |p| + j && SkipWord(p + t, |p| + j) == |p| + e
    requires SplitFrom(p + t, |p| + e) == SplitFrom(t, e)
    ensures SplitFrom(p + t, |p| + k) == SplitFrom(t, k)
  {
    var s, i, j', e' := p + t, |p| + k, |p| + j, |p| + e;
    SliceShift(p, t, j, e);
    SameFirstWord(s, i, j', e', t, k, j, e);
  }

  /** A slice of `t` is the same slice of `p + t`, shifted by `|p|`. */
  lemma SliceShift(p: string, t: string, j: nat, e: nat)
    requires j <= e <= |t|
    ensures (p + t)[|p| + j..|p| + e] == t[j..e]
  {
    assert (p + t)[|p|..] == t;
  }

  /**
   * Two scans that each skip to a word, where the two words have the same text and the
   * words after them are the same, find the same words.
   */
  lemma SameFirstWord(s: string, i: nat, j: nat, e: nat, t: string, i': nat, j': nat, e': nat)
    requires i <= |s| && SkipSpace(s, i) == j < |s| && SkipWord(s, j) == e
    requires i' <= |t| && SkipSpace(t, i') == j' < |t| && SkipWord(t, j') == e'
    requires s[j..e] == t[j'..e'] && SplitFrom(s, e) == SplitFrom(t, e')
    ensures SplitFrom(s, i) == SplitFrom(t, i')
  {
    SplitFromStep(s, i, j, e);
    SplitFromStep(t, i', j', e');
  }

  /**
   * When `r` starts with whitespace, scanning `a + r` for whitespace from `i <= |a|`
   * stops where scanning `a` stops, if that is inside `a`; otherwise it skips that first
   * character of `r` as well.
   */
  lemma {:induction false} SkipSpacePrefix(a: string, r: string, i: nat)
    requires i <= |a| && |r| > 0 && IsSpace(r[0])
    ensures SkipSpace(a, i) < |a| ==> SkipSpace(a + r, i) == SkipSpace(a, i)
    ensures SkipSpace(a, i) == |a| ==> SkipSpace(a + r, i) == SkipSpace(a + r, |a| + 1)
    decreases |a| - i
  {
    if i < |a| {
      assert (a + r)[i] == a[i];
      if IsSpace(a[i]) {
        SkipSpacePrefix(a, r, i + 1);
      }
    } else {
      assert (a + r)[|a|] == r[0];
    }
  }

  /** When `r` starts with whitespace, a word of `a` ends at the same position in `a + r`. */
  lemma {:induction false} SkipWordPrefix(a: string, r: string, j: nat)
    requires j <= |a| && |r| > 0 && IsSpace(r[0])
    ensures SkipWord(a + r, j) == SkipWord(a, j)
    decreases |a| - j
  {
    if j < |a| {
      assert (a + r)[j] == a[j];
      if !IsSpace(a[j]) {
        SkipWordPrefix(a, r, j + 1);
      }
    } else {
      assert (a + r)[|a|] == r[0];
    }
  }

  lemma ConcatAssoc(x: seq<string>, y: seq<string>, z: seq<string>)
    ensures x + (y + z) == (x + y) + z
  {
  }

  /**
   * When `r` starts with whitespace, the words found in `a + r` from position `i <= |a|`
   * are those found in `a` from `i`, followed by those found after that first character.
   */
  lemma {:induction false} SplitFromPrefix(a: string, r: string, i: nat)
    requires i <= |a| && |r| > 0 && IsSpace(r[0])
    ensures SplitFrom(a + r, i) == SplitFrom(a, i) + SplitFrom(a + r, |a| + 1)
    decreases |a| - i
  {
    var s := a + r;
    var j := SkipSpace(a, i);
    SkipSpacePrefix(a, r, i);
    if j < |a| {
      var e := SkipWord(a, j);
      SkipWordPrefix(a, r, j);
      assert s[j..e] == a[j..e];
      SplitFromStep(s, i, j, e);
      SplitFromPrefix(a, r, e);
      ConcatAssoc([a[j..e]], SplitFrom(a, e), SplitFrom(s, |a| + 1));
    }
  }

  /** A whitespace character separates words: `(a + c + b).split() == a.split() + b.split()`. */
  lemma SplitSeparated(a: string, c: char, b: string)
    requires IsSpace(c)
    ensures Split(a + [c] + b) == Split(a) + Split(b)
  {
    var s, r, a' := a + [c] + b, [c] + b, a + [c];
    assert s == a + r && s == a' + b && |a'| == |a| + 1;
    SplitFromPrefix(a, r, 0);
    SplitFromSuffix(a', b, 0);
    assert SplitFrom(s, 0) == SplitFrom(a, 0) + SplitFrom(b, 0);
  }

  /** A non-empty text without whitespace is one word. */
  lemma SplitOneWord(w: string)
    requires |w| > 0
    requires forall k :: 0 <= k < |w| ==> !IsSpace(w[k])
    ensures Split(w) == [w]
  {
    SkipSpaceAt(w, 0, 0);
    SkipWordAt(w, 0, |w|);
    assert w[0..|w|] == w;
    assert SplitFrom(w, |w|) == [];
  }

  /** An empty or all-whitespace text has no words. */
  lemma SplitBlank(s: string)
    requires forall i :: 0 <= i < |s| ==> IsSpace(s[i])
    ensures Split(s) == []
  {
  }

  /**
   * CPython's scan behind `str.isupper()`: false at the first lower-case character,
   * otherwise true when some cased (upper-case) character was seen.
   */
  function UpperScan(w: string, cased: bool): (r: bool)
    ensures r <==> (cased || exists i :: 0 <= i < |w| && IsAsciiUpper(w[i]))
                   && forall i :: 0 <= i < |w| ==> !IsAsciiLower(w[i])
    decreases |w|
  {
    if w == [] then cased
    else if IsAsciiLower(w[0]) then false
    else UpperScan(w[1..], cased || IsAsciiUpper(w[0]))
  }

  /** `w.isupper()`: at least one cased character and no lower-case one. */
  function IsUpper(w: string): (r: bool)
    ensures r <==> (exists i :: 0 <= i < |w| && IsAsciiUpper(w[i]))
                   && forall i :: 0 <= i < |w| ==> !IsAsciiLower(w[i])
  {
    UpperScan(w, false)
  }
}
