/** Matching the extracted keywords against the resume text and the keyword
    score (ats_checker/services.py, `calculate_keyword_match`). */
module KeywordMatching {
  import opened Collections
  import opened Text
  import opened Keywords

  /** The regex anchor `\b` holds at position `p` of `text`: exactly one of
      the characters around `p` is a word character. */
  predicate Boundary(text: string, p: int)
    requires 0 <= p <= |text|
  {
    (p > 0 && IsWordChar(text[p - 1])) != (p < |text| && IsWordChar(text[p]))
  }

  /** `\b<keyword>\b` matches `text` at index `i`, ignoring case. */
  predicate WordAt(text: string, keyword: string, i: int)
  {
    && 0 <= i && i + |keyword| <= |text|
    && Boundary(text, i) && Boundary(text, i + |keyword|)
    && forall k :: 0 <= k < |keyword| ==> SameLetter(text[i + k], keyword[k])
  }

  /** The keyword occurs in the text as a whole word, ignoring case. */
  predicate ContainsWord(text: string, keyword: string)
  {
    exists i :: 0 <= i <= |text| && WordAt(text, keyword, i)
  }

  /** The leftmost whole-word occurrence at or after `from`
      (`re.search`). */
  function FindWord(text: string, keyword: string, from: nat): (r: Option<nat>)
    ensures r.Some? ==> from <= r.value && WordAt(text, keyword, r.value)
    ensures r.Some? ==> forall j :: from <= j < r.value ==> !WordAt(text, keyword, j)
    ensures r.None? ==> forall j :: from <= j ==> !WordAt(text, keyword, j)
    decreases |text| - from
  {
    if from + |keyword| > |text| then None
    else if WordAt(text, keyword, from) then Some(from)
    else FindWord(text, keyword, from + 1)
  }

  /** Start of the period-free stretch of `text` around index `m`. */
  function SegmentStart(text: string, m: nat): (lo: nat)
    requires m <= |text|
    ensures lo <= m
    ensures forall i :: lo <= i < m ==> text[i] != '.'
    ensures lo == 0 || text[lo - 1] == '.'
    decreases m
  {
    if m == 0 || text[m - 1] == '.' then m else SegmentStart(text, m - 1)
  }

  /** End of the period-free stretch of `text` from index `m` on. */
  function SegmentEnd(text: string, m: nat): (hi: nat)
    requires m <= |text|
    ensures m <= hi <= |text|
    ensures forall i :: m <= i < hi ==> text[i] != '.'
    ensures hi == |text| || text[hi] == '.'
    decreases |text| - m
  {
    if m == |text| || text[m] == '.' then m else SegmentEnd(text, m + 1)
  }

  /** One row of the keyword analysis: the keyword, whether the resume has
      it, and the sentence-like fragment it was found in. */
  datatype KeywordMatch = KeywordMatch(keyword: Keyword, found: bool, context: string)

  /** Searches one keyword.  On a hit the context is
      `re.search(r'[^.]*\b' + keyword + r'\b[^.]*', text).group(0).strip()`:
      the leftmost match of that pattern starts right after the last period
      before the first occurrence and runs to the next period, so it is the
      whole period-free stretch around the first occurrence. */
  function MatchKeyword(k: Keyword, text: string): (r: KeywordMatch)
    ensures r.keyword == k
    ensures r.found <==> ContainsWord(text, k.word)
    ensures !r.found ==> r.context == ""
  {
    match FindWord(text, k.word, 0)
    case None => KeywordMatch(k, false, "")
    case Some(m) =>
      var hi := SegmentEnd(text, m);
      KeywordMatch(k, true, Strip(text[SegmentStart(text, m)..hi]))
  }

  /** An occurrence of a word is made of word characters. */
  lemma OccurrenceIsWordChars(text: string, w: string, m: int)
    requires IsWord(w)
    requires WordAt(text, w, m)
    ensures forall i :: m <= i < m + |w| ==> IsWordChar(text[i])
  {
    forall i | m <= i < m + |w|
      ensures IsWordChar(text[i])
    {
      assert w[i - m] in w;
      assert SameLetter(text[m + (i - m)], w[i - m]);
    }
  }

  /** A whole-word occurrence stays one in any piece of the text that
      contains it. */
  lemma WordInSlice(text: string, w: string, m: int, lo: int, hi: int)
    requires IsWord(w)
    requires WordAt(text, w, m)
    requires 0 <= lo <= m && m + |w| <= hi <= |text|
    ensures WordAt(text[lo..hi], w, m - lo)
    ensures ContainsWord(text[lo..hi], w)
  {
    OccurrenceIsWordChars(text, w, m);
    var piece := text[lo..hi];
    var q := m - lo;
    assert forall i :: 0 <= i < |piece| ==> piece[i] == text[lo + i];
    assert Boundary(piece, q) by {
      if q > 0 {
        assert piece[q - 1] == text[m - 1];
      }
      assert piece[q] == text[m];
    }
    assert Boundary(piece, q + |w|) by {
      assert piece[q + |w| - 1] == text[m + |w| - 1];
      if q + |w| < |piece| {
        assert piece[q + |w|] == text[m + |w|];
      }
    }
    assert WordAt(piece, w, q) && 0 <= q <= |piece|;
  }

  /** The period-free stretch around an occurrence contains all of it. */
  lemma SegmentHoldsOccurrence(text: string, w: string, m: nat)
    requires IsWord(w)
    requires WordAt(text, w, m)
    ensures m + |w| <= SegmentEnd(text, m)
  {
    OccurrenceIsWordChars(text, w, m);
    var hi := SegmentEnd(text, m);
    assert forall i :: m <= i < m + |w| ==> text[i] != '.';
  }

  /** Stripping a piece of `text` keeps any run of word characters in it. */
  lemma StripKeepsWord(text: string, s: int, e: int, m: int, n: int)
    requires 0 <= s <= m && 0 < n && m + n <= e <= |text|
    requires forall i :: m <= i < m + n ==> IsWordChar(text[i])
    ensures exists a, b ::
              (&& s <= a <= m && m + n <= b <= e && Strip(text[s..e]) == text[a..b])
  {
    var seg := text[s..e];
    var a, b :| && 0 <= a <= b <= |seg| && Strip(seg) == seg[a..b]
                && (forall i :: 0 <= i < a ==> IsSpace(seg[i]))
                && (forall i :: b <= i < |seg| ==> IsSpace(seg[i]));
    assert seg[m - s] == text[m] && seg[m + n - 1 - s] == text[m + n - 1];
    assert !IsSpace(seg[m - s]) && !IsSpace(seg[m + n - 1 - s]);
    SliceOfSlice(text, s, e, a, b);
  }

  /** A piece of text without periods is a period-free infix of `text`. */
  lemma PeriodFreePiece(text: string, lo: int, hi: int)
    requires 0 <= lo <= hi <= |text|
    requires forall i :: lo <= i < hi ==> text[i] != '.'
    ensures '.' !in text[lo..hi]
    ensures IsInfix(text[lo..hi], text)
  {
    var piece := text[lo..hi];
    forall i | 0 <= i < |piece|
      ensures piece[i] != '.'
    {
      assert piece[i] == text[lo + i];
    }
    assert OccursAt(piece, text, lo);
  }

  /** Where the context of a found keyword lies in the text: inside the
      period-free stretch around the first occurrence, and around that
      occurrence. */
  lemma ContextPlace(k: Keyword, text: string) returns (m: nat, lo: nat, hi: nat)
    requires IsWord(k.word)
    requires MatchKeyword(k, text).found
    ensures WordAt(text, k.word, m)
    ensures lo <= m && m + |k.word| <= hi <= |text|
    ensures forall i :: lo <= i < hi ==> text[i] != '.'
    ensures MatchKeyword(k, text).context == text[lo..hi]
  {
    var w := k.word;
    m := FindWord(text, w, 0).value;
    var s := SegmentStart(text, m);
    var e := SegmentEnd(text, m);
    SegmentHoldsOccurrence(text, w, m);
    OccurrenceIsWordChars(text, w, m);
    assert MatchKeyword(k, text).context == Strip(text[s..e]);
    StripKeepsWord(text, s, e, m, |w|);
    lo, hi :| s <= lo <= m && m + |w| <= hi <= e && Strip(text[s..e]) == text[lo..hi];
  }

  /** A found keyword's context is the whole stretch of text between the
      period before its first whole-word occurrence (or the start) and the
      period after it (or the end), stripped of surrounding whitespace.  It
      is a piece of the resume text without any period that still contains
      the keyword as a whole word. */
  lemma ContextHoldsKeyword(k: Keyword, text: string)
    requires IsWord(k.word)
    requires MatchKeyword(k, text).found
    ensures FindWord(text, k.word, 0).Some?
    ensures var m := FindWord(text, k.word, 0).value;
            exists lo, hi ::
              && 0 <= lo <= m < hi <= |text|
              && (lo == 0 || text[lo - 1] == '.')
              && (hi == |text| || text[hi] == '.')
              && (forall i :: lo <= i < hi ==> text[i] != '.')
              && MatchKeyword(k, text).context == Strip(text[lo..hi])
    ensures '.' !in MatchKeyword(k, text).context
    ensures IsInfix(MatchKeyword(k, text).context, text)
    ensures ContainsWord(MatchKeyword(k, text).context, k.word)
  {
    ContextSegment(k, text);
    var m, lo, hi := ContextPlace(k, text);
    PeriodFreePiece(text, lo, hi);
    WordInSlice(text, k.word, m, lo, hi);
  }

  /** The stretch the context is cut from, with its ends. */
  lemma ContextSegment(k: Keyword, text: string)
    requires IsWord(k.word)
    requires MatchKeyword(k, text).found
    ensures FindWord(text, k.word, 0).Some?
    ensures var m := FindWord(text, k.word, 0).value;
            exists lo, hi ::
              && 0 <= lo <= m < hi <= |text|
              && (lo == 0 || text[lo - 1] == '.')
              && (hi == |text| || text[hi] == '.')
              && (forall i :: lo <= i < hi ==> text[i] != '.')
              && MatchKeyword(k, text).context == Strip(text[lo..hi])
  {
    var m := FindWord(text, k.word, 0).value;
    var s := SegmentStart(text, m);
    var e := SegmentEnd(text, m);
    SegmentHoldsOccurrence(text, k.word, m);
    assert MatchKeyword(k, text).context == Strip(text[s..e]);
  }

  /** Searches every keyword, in keyword order: each row reports its own
      keyword, found exactly when the text holds it as a whole word. */
  function MatchAll(keywords: seq<Keyword>, text: string): (r: seq<KeywordMatch>)
    ensures |r| == |keywords|
    ensures forall i :: 0 <= i < |r| ==>
              && r[i].keyword == keywords[i]
              && (r[i].found <==> ContainsWord(text, keywords[i].word))
              && (!r[i].found ==> r[i].context == "")
    ensures forall i :: 0 <= i < |r| ==> r[i] == MatchKeyword(keywords[i], text)
  {
    seq(|keywords|, i requires 0 <= i < |keywords| => MatchKeyword(keywords[i], text))
  }

  /** Sum of the weights of all keywords. */
  function TotalWeight(ms: seq<KeywordMatch>): nat
    decreases |ms|
  {
    if |ms| == 0 then 0 else Weight(ms[0].keyword.importance) + TotalWeight(ms[1..])
  }

  /** Sum of the weights of the keywords found. */
  function MatchedWeight(ms: seq<KeywordMatch>): nat
    decreases |ms|
  {
    if |ms| == 0 then 0
    else (if ms[0].found then Weight(ms[0].keyword.importance) else 0) + MatchedWeight(ms[1..])
  }

  /** `matched_keywords`: how many keywords were found. */
  function FoundCount(ms: seq<KeywordMatch>): (n: nat)
    ensures n <= |ms|
    ensures n == |ms| <==> forall i :: 0 <= i < |ms| ==> ms[i].found
    ensures n == 0 <==> forall i :: 0 <= i < |ms| ==> !ms[i].found
    decreases |ms|
  {
    if |ms| == 0 then 0
    else
      var rest := FoundCount(ms[1..]);
      assert forall i :: 1 <= i < |ms| ==> ms[i] == ms[1..][i - 1];
      (if ms[0].found then 1 else 0) + rest
  }

  /** The found weight never exceeds the total; it equals the total exactly
      when every keyword is found and is zero exactly when none is. */
  lemma {:induction false} WeightFacts(ms: seq<KeywordMatch>)
    ensures MatchedWeight(ms) <= TotalWeight(ms)
    ensures |ms| > 0 ==> TotalWeight(ms) > 0
    ensures MatchedWeight(ms) == TotalWeight(ms) <==> forall i :: 0 <= i < |ms| ==> ms[i].found
    ensures MatchedWeight(ms) == 0 <==> forall i :: 0 <= i < |ms| ==> !ms[i].found
    decreases |ms|
  {
    if |ms| > 0 {
      WeightFacts(ms[1..]);
      assert forall i :: 1 <= i < |ms| ==> ms[i] == ms[1..][i - 1];
    }
  }

  /** The keyword score: the found weight as a percentage of the total, 0
      when there are no keywords.  It lies between 0 and 100, is 100 exactly
      when there are keywords and all are found, and is 0 exactly when none
      is found. */
  function KeywordScore(ms: seq<KeywordMatch>): (score: real)
    ensures 0.0 <= score <= 100.0
    ensures score == 100.0 <==> |ms| > 0 && forall i :: 0 <= i < |ms| ==> ms[i].found
    ensures score == 0.0 <==> forall i :: 0 <= i < |ms| ==> !ms[i].found
  {
    if |ms| == 0 then 0.0
    else
      WeightFacts(ms);
      var matched := MatchedWeight(ms) as real;
      var total := TotalWeight(ms) as real;
      PercentFacts(matched, total);
      matched / total * 100.0
  }

  /** `matched / total * 100` for `0 <= matched <= total`, `total > 0`. */
  lemma PercentFacts(matched: real, total: real)
    requires 0.0 <= matched <= total && total > 0.0
    ensures 0.0 <= matched / total * 100.0 <= 100.0
    ensures matched / total * 100.0 == 100.0 <==> matched == total
    ensures matched / total * 100.0 == 0.0 <==> matched == 0.0
  {
    assert matched / total * total == matched;
    DivMonotone(matched, total, total);
    assert total / total == 1.0;
  }

  lemma DivMonotone(x: real, y: real, z: real)
    requires x <= y && z > 0.0
    ensures x / z <= y / z
  {
    assert x / z * z == x;
    assert y / z * z == y;
  }
}
