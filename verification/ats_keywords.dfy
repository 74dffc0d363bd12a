/** Keyword extraction from a job description: tokenise, count, drop common
    and short words, order by frequency with a stable sort, keep the top
    twenty and grade each keyword's importance
    (ats_checker/services.py, `extract_keywords`). */
module Keywords {
  import opened Collections
  import opened Text

  /** Words that never become keywords. */
  const CommonWords: set<string> :=
    {"the", "and", "a", "to", "of", "in", "for", "with", "on", "at", "from", "by"}

  /** How many keywords are kept. */
  const MaxKeywords: nat := 20

  datatype Importance = High | Medium | Low

  /** More than five occurrences is high, more than two medium, else low. */
  function ImportanceOf(count: nat): Importance
  {
    if count > 5 then High else if count > 2 then Medium else Low
  }

  /** The weight of a keyword in the keyword score: 3 for high, 2 for
      medium and 1 for low importance. */
  function Weight(i: Importance): (w: nat)
    ensures 1 <= w <= 3
    ensures w == 3 <==> i == High
    ensures w == 2 <==> i == Medium
    ensures w == 1 <==> i == Low
  {
    match i
    case High => 3
    case Medium => 2
    case Low => 1
  }

  /** A more frequent word never weighs less: the weight of a count is 3
      above five occurrences, 2 above two and 1 otherwise. */
  lemma WeightOfCount(a: nat, b: nat)
    requires a <= b
    ensures Weight(ImportanceOf(a)) <= Weight(ImportanceOf(b))
    ensures Weight(ImportanceOf(a)) == (if a > 5 then 3 else if a > 2 then 2 else 1)
  {
  }

  datatype Keyword = Keyword(word: string, count: nat, importance: Importance)

  /** A word that may be counted: non-empty, only lower-case word characters. */
  predicate IsWord(w: string)
  {
    |w| > 0 && forall c :: c in w ==> IsWordChar(c) && !IsUpper(c)
  }

  /** A word that survives the filter: longer than two characters and not a
      common word. */
  predicate Eligible(w: string)
  {
    |w| > 2 && w !in CommonWords
  }

  /** The characters `re.sub(r'[^\w\s]', '', ...)` keeps. */
  predicate KeptChar(c: char)
  {
    IsWordChar(c) || IsSpace(c)
  }

  /** Drops every character that is neither a word character nor
      whitespace: the word and whitespace characters of `s`, all of them
      and in order. */
  function DropPunctuation(s: string): (r: string)
    ensures forall c :: c in r ==> c in s && KeptChar(c)
    ensures r == Filter(s, KeptChar)
    decreases |s|
  {
    if |s| == 0 then []
    else (if IsWordChar(s[0]) || IsSpace(s[0]) then [s[0]] else []) + DropPunctuation(s[1..])
  }

  /** The words of a job description: lower-cased, punctuation removed,
      split on whitespace.  `TokensOfWords` shows these are the words
      themselves, in order. */
  function Tokens(description: string): (r: seq<string>)
    ensures forall w :: w in r ==> IsWord(w)
  {
    var cleaned := DropPunctuation(LowerStr(description));
    var r := Split(cleaned);
    assert forall w :: w in r ==> IsWord(w) by {
      forall w | w in r
        ensures IsWord(w)
      {
        forall c | c in w
          ensures IsWordChar(c) && !IsUpper(c)
        {
          assert c in cleaned;
          assert !IsSpace(c);
          var k :| 0 <= k < |description| && LowerStr(description)[k] == c;
        }
      }
    }
    r
  }

  /** Lower-case words laid out with whitespace contain nothing but
      whitespace and lower-case word characters. */
  lemma {:induction false} InterleaveClean(gaps: seq<string>, ws: seq<string>)
    requires |gaps| == |ws| + 1 && Separators(gaps)
    requires forall w :: w in ws ==> IsWord(w)
    ensures forall c :: c in Interleave(gaps, ws) ==> IsSpace(c) || (IsWordChar(c) && !IsUpper(c))
    decreases |ws|
  {
    if |ws| > 0 {
      SeparatorsTail(gaps);
      assert forall w :: w in ws[1..] ==> w in ws;
      InterleaveClean(gaps[1..], ws[1..]);
      assert ws[0] in ws && AllSpace(gaps[0]);
    } else {
      assert AllSpace(gaps[0]);
    }
  }

  /** Tokenising undoes laying out lower-case words with whitespace: the
      tokens of such a description are its words, in order. */
  lemma TokensOfWords(gaps: seq<string>, ws: seq<string>)
    requires |gaps| == |ws| + 1 && Separators(gaps)
    requires forall w :: w in ws ==> IsWord(w)
    ensures Tokens(Interleave(gaps, ws)) == ws
  {
    var d := Interleave(gaps, ws);
    InterleaveClean(gaps, ws);
    assert LowerStr(d) == d by {
      forall k | 0 <= k < |d|
        ensures LowerStr(d)[k] == d[k]
      {
        assert d[k] in d;
      }
    }
    FilterAll(d, KeptChar);
    SplitInterleave(gaps, ws);
  }

  /** Index of the first occurrence of `w` in `s`. */
  function FirstIndex(s: seq<string>, w: string): (i: nat)
    requires w in s
    ensures i < |s| && s[i] == w
    ensures forall j :: 0 <= j < i ==> s[j] != w
    decreases |s|
  {
    if s[0] == w then 0 else 1 + FirstIndex(s[1..], w)
  }

  /** Appending an element leaves the first occurrences of earlier words
      where they were. */
  lemma FirstIndexSnoc(s: seq<string>, x: string)
    ensures forall w :: w in s ==> FirstIndex(s + [x], w) == FirstIndex(s, w)
    ensures x !in s ==> FirstIndex(s + [x], x) == |s|
  {
    forall w | w in s
      ensures FirstIndex(s + [x], w) == FirstIndex(s, w)
    {
      var i := FirstIndex(s, w);
      var k := FirstIndex(s + [x], w);
      assert (s + [x])[i] == w;
    }
  }

  /** The distinct words of `s` in the order they first occur: the key order
      of `Counter(s)`. */
  function Distinct(s: seq<string>): (r: seq<string>)
    ensures forall w :: w in r <==> w in s
    ensures forall i, j :: 0 <= i < j < |r| ==> FirstIndex(s, r[i]) < FirstIndex(s, r[j])
    decreases |s|
  {
    if |s| == 0 then []
    else
      var p := s[..|s| - 1];
      var x := s[|s| - 1];
      assert s == p + [x];
      var d := Distinct(p);
      FirstIndexSnoc(p, x);
      if x in d then d else d + [x]
  }

  /** A counted word: its text, its number of occurrences and the position
      of its first occurrence (which fixes its place in the counter's
      iteration order). */
  datatype Candidate = Candidate(word: string, count: nat, first: nat)

  predicate FirstIncreasing(s: seq<Candidate>)
  {
    forall i, j :: 0 <= i < j < |s| ==> s[i].first < s[j].first
  }

  /** Higher counts first; equal counts in first-occurrence order. */
  predicate RankOrdered(s: seq<Candidate>)
  {
    forall i, j :: 0 <= i < j < |s| ==>
      s[i].count > s[j].count || (s[i].count == s[j].count && s[i].first < s[j].first)
  }

  /** A candidate that describes word `c.word` of `tokens` truthfully. */
  predicate Describes(tokens: seq<string>, c: Candidate)
  {
    c.word in tokens && c.count == multiset(tokens)[c.word] && c.first == FirstIndex(tokens, c.word)
  }

  /** The `(word, count)` pairs of the counter over `tokens`, restricted to
      the eligible words of `d`, in the order of `d`. */
  function CandidatesFrom(tokens: seq<string>, d: seq<string>): (r: seq<Candidate>)
    requires forall w :: w in d ==> w in tokens
    ensures |r| <= |d|
    decreases |d|
  {
    if |d| == 0 then []
    else if Eligible(d[0]) then
      [Candidate(d[0], multiset(tokens)[d[0]], FirstIndex(tokens, d[0]))] + CandidatesFrom(tokens, d[1..])
    else CandidatesFrom(tokens, d[1..])
  }

  lemma {:induction false} CandidatesDescribe(tokens: seq<string>, d: seq<string>)
    requires forall w :: w in d ==> w in tokens
    ensures forall c :: c in CandidatesFrom(tokens, d) ==> c.word in d && Eligible(c.word) && Describes(tokens, c)
    decreases |d|
  {
    if |d| > 0 {
      CandidatesDescribe(tokens, d[1..]);
    }
  }

  lemma {:induction false} CandidatesCover(tokens: seq<string>, d: seq<string>)
    requires forall w :: w in d ==> w in tokens
    ensures forall w :: w in d && Eligible(w) ==> exists c :: c in CandidatesFrom(tokens, d) && c.word == w
    decreases |d|
  {
    if |d| > 0 {
      CandidatesCover(tokens, d[1..]);
      forall w | w in d && Eligible(w)
        ensures exists c :: c in CandidatesFrom(tokens, d) && c.word == w
      {
        if w != d[0] {
          assert w in d[1..];
          var c :| c in CandidatesFrom(tokens, d[1..]) && c.word == w;
          assert c in CandidatesFrom(tokens, d);
        } else {
          assert CandidatesFrom(tokens, d)[0].word == w;
        }
      }
    }
  }

  lemma {:induction false} CandidatesFirst(tokens: seq<string>, d: seq<string>)
    requires forall w :: w in d ==> w in tokens
    ensures forall i :: 0 <= i < |CandidatesFrom(tokens, d)| ==>
              && CandidatesFrom(tokens, d)[i].word in d
              && CandidatesFrom(tokens, d)[i].word in tokens
              && CandidatesFrom(tokens, d)[i].first == FirstIndex(tokens, CandidatesFrom(tokens, d)[i].word)
    decreases |d|
  {
    if |d| > 0 {
      CandidatesFirst(tokens, d[1..]);
    }
  }

  /** Words after the head of `d` first occur after the head does. */
  lemma LaterWordsLaterFirst(tokens: seq<string>, d: seq<string>)
    requires |d| > 0
    requires forall w :: w in d ==> w in tokens
    requires forall i, j :: 0 <= i < j < |d| ==> FirstIndex(tokens, d[i]) < FirstIndex(tokens, d[j])
    ensures forall w :: w in d[1..] ==> FirstIndex(tokens, d[0]) < FirstIndex(tokens, w)
  {
    forall w | w in d[1..]
      ensures FirstIndex(tokens, d[0]) < FirstIndex(tokens, w)
    {
      var k :| 0 <= k < |d[1..]| && d[1..][k] == w;
      assert d[k + 1] == w;
    }
  }

  /** Candidates of words that first occur after `b` have `first` after `b`. */
  lemma CandidatesAbove(tokens: seq<string>, d: seq<string>, b: nat)
    requires forall w :: w in d ==> w in tokens && b < FirstIndex(tokens, w)
    ensures forall c :: c in CandidatesFrom(tokens, d) ==> b < c.first
  {
    CandidatesDescribe(tokens, d);
  }

  lemma {:induction false} CandidatesOrdered(tokens: seq<string>, d: seq<string>)
    requires forall w :: w in d ==> w in tokens
    requires forall i, j :: 0 <= i < j < |d| ==> FirstIndex(tokens, d[i]) < FirstIndex(tokens, d[j])
    ensures FirstIncreasing(CandidatesFrom(tokens, d))
    decreases |d|
  {
    if |d| > 0 {
      var rest := CandidatesFrom(tokens, d[1..]);
      CandidatesOrdered(tokens, d[1..]);
      if Eligible(d[0]) {
        LaterWordsLaterFirst(tokens, d);
        CandidatesAbove(tokens, d[1..], FirstIndex(tokens, d[0]));
        var r := CandidatesFrom(tokens, d);
        assert r == [Candidate(d[0], multiset(tokens)[d[0]], FirstIndex(tokens, d[0]))] + rest;
        forall i, j | 0 <= i < j < |r|
          ensures r[i].first < r[j].first
        {
          assert r[j] == rest[j - 1];
          assert rest[j - 1] in rest;
          if i > 0 {
            assert r[i] == rest[i - 1];
          }
        }
      }
    }
  }

  /** The eligible words of `tokens` with their counts, in counter order. */
  function Candidates(tokens: seq<string>): (r: seq<Candidate>)
    ensures forall c :: c in r ==> Eligible(c.word) && Describes(tokens, c)
    ensures forall w :: w in tokens && Eligible(w) ==> exists c :: c in r && c.word == w
    ensures FirstIncreasing(r)
  {
    var d := Distinct(tokens);
    CandidatesDescribe(tokens, d);
    CandidatesCover(tokens, d);
    CandidatesOrdered(tokens, d);
    CandidatesFrom(tokens, d)
  }

  /** Inserts `x` in front of the first element whose count is not larger
      than its own: one step of a stable descending sort on counts. */
  function Insert(x: Candidate, s: seq<Candidate>): (r: seq<Candidate>)
    ensures |r| == |s| + 1
    ensures forall c :: c in r <==> c == x || c in s
    decreases |s|
  {
    if |s| == 0 || s[0].count <= x.count then [x] + s
    else [s[0]] + Insert(x, s[1..])
  }

  lemma {:induction false} InsertRanked(x: Candidate, s: seq<Candidate>)
    requires RankOrdered(s)
    requires forall k :: 0 <= k < |s| ==> x.first < s[k].first
    ensures RankOrdered(Insert(x, s))
    decreases |s|
  {
    if |s| == 0 || s[0].count <= x.count {
    } else {
      InsertRanked(x, s[1..]);
      var rest := Insert(x, s[1..]);
      var r := Insert(x, s);
      assert r == [s[0]] + rest;
      forall i, j | 0 <= i < j < |r|
        ensures r[i].count > r[j].count || (r[i].count == r[j].count && r[i].first < r[j].first)
      {
        if i > 0 {
          assert r[i] == rest[i - 1] && r[j] == rest[j - 1];
        } else if r[j] != x {
          assert r[j] in rest;
          var m :| 0 <= m < |s[1..]| && s[1..][m] == r[j];
          assert s[m + 1] == r[j];
        }
      }
    }
  }

  lemma {:induction false} InsertPermutes(x: Candidate, s: seq<Candidate>)
    ensures multiset(Insert(x, s)) == multiset(s) + multiset{x}
    decreases |s|
  {
    if |s| == 0 || s[0].count <= x.count {
    } else {
      InsertPermutes(x, s[1..]);
      assert s == [s[0]] + s[1..];
    }
  }

  /** `list.sort(key=count, reverse=True)`: Python's sort is stable, so
      candidates with equal counts keep their relative order. */
  function SortByCount(s: seq<Candidate>): (r: seq<Candidate>)
    ensures |r| == |s|
    ensures forall c :: c in r <==> c in s
    decreases |s|
  {
    if |s| == 0 then [] else Insert(s[0], SortByCount(s[1..]))
  }

  /** Sorting a counter-ordered list yields: higher counts first, equal
      counts in first-occurrence order. */
  lemma {:induction false} SortRanked(s: seq<Candidate>)
    requires FirstIncreasing(s)
    ensures RankOrdered(SortByCount(s))
    decreases |s|
  {
    if |s| > 0 {
      var sorted := SortByCount(s[1..]);
      SortRanked(s[1..]);
      forall k | 0 <= k < |sorted|
        ensures s[0].first < sorted[k].first
      {
        assert sorted[k] in s[1..];
        var m :| 0 <= m < |s[1..]| && s[1..][m] == sorted[k];
        assert s[m + 1] == sorted[k];
      }
      InsertRanked(s[0], sorted);
    }
  }

  /** The sort is a permutation. */
  lemma {:induction false} SortPermutes(s: seq<Candidate>)
    ensures multiset(SortByCount(s)) == multiset(s)
    decreases |s|
  {
    if |s| > 0 {
      SortPermutes(s[1..]);
      InsertPermutes(s[0], SortByCount(s[1..]));
      assert s == [s[0]] + s[1..];
    }
  }

  /** Python's `min`. */
  function Min(a: nat, b: nat): nat
  {
    if a <= b then a else b
  }

  /** The candidates that make the cut: the first twenty of the sorted
      list (`keywords[:20]`).  Twenty are kept, or all when there are
      fewer, and no candidate left out occurs more often than any kept
      one. */
  function TopCandidates(tokens: seq<string>): (top: seq<Candidate>)
    ensures |top| == Min(MaxKeywords, |Candidates(tokens)|)
    ensures forall t :: t in top ==> t in Candidates(tokens)
    ensures forall c, t :: c in Candidates(tokens) && c !in top && t in top ==> c.count <= t.count
    ensures forall i :: 0 <= i < |top| ==> top[i] == SortByCount(Candidates(tokens))[i]
  {
    var sorted := SortByCount(Candidates(tokens));
    SortRanked(Candidates(tokens));
    PrefixHoldsBest(sorted, Min(MaxKeywords, |sorted|));
    sorted[..Min(MaxKeywords, |sorted|)]
  }

  /** In a ranked list, an element outside a prefix occurs at most as often
      as every element inside it. */
  lemma PrefixHoldsBest(sorted: seq<Candidate>, n: nat)
    requires RankOrdered(sorted) && n <= |sorted|
    ensures forall c, t :: c in sorted && c !in sorted[..n] && t in sorted[..n] ==> c.count <= t.count
  {
    forall c, t | c in sorted && c !in sorted[..n] && t in sorted[..n]
      ensures c.count <= t.count
    {
      var p :| 0 <= p < |sorted| && sorted[p] == c;
      var i :| 0 <= i < n && sorted[..n][i] == t;
      assert p >= n;
      assert sorted[i] == t;
    }
  }

  /** Each kept candidate becomes a keyword graded by its count. */
  function Graded(top: seq<Candidate>): (r: seq<Keyword>)
    ensures |r| == |top|
    ensures forall i :: 0 <= i < |r| ==>
              r[i].word == top[i].word && r[i].count == top[i].count && r[i].importance == ImportanceOf(top[i].count)
  {
    seq(|top|, i requires 0 <= i < |top| => Keyword(top[i].word, top[i].count, ImportanceOf(top[i].count)))
  }

  /** `extract_keywords`: at most twenty eligible words of the description,
      each with its number of occurrences and the importance graded from
      that number.  Their order and the choice of the twenty are stated by
      `KeywordsRanked` and `KeywordsComplete`. */
  function ExtractKeywords(description: string): (r: seq<Keyword>)
    ensures |r| <= MaxKeywords
    ensures forall i :: 0 <= i < |r| ==>
              && IsWord(r[i].word) && Eligible(r[i].word)
              && r[i].count == multiset(Tokens(description))[r[i].word] > 0
              && r[i].importance == ImportanceOf(r[i].count)
  {
    var tokens := Tokens(description);
    var top := TopCandidates(tokens);
    TopDescribed(tokens, |top|);
    Graded(top)
  }

  /** The keywords are distinct, most frequent first, and keywords with
      equal counts appear in the order their words first occur in the
      description (the sort is stable and the counter iterates in
      first-occurrence order). */
  lemma KeywordsRanked(description: string)
    ensures forall i, j :: 0 <= i < j < |ExtractKeywords(description)| ==>
              var a := ExtractKeywords(description)[i];
              var b := ExtractKeywords(description)[j];
              && a.word != b.word
              && a.word in Tokens(description) && b.word in Tokens(description)
              && (a.count > b.count
                  || (a.count == b.count
                      && FirstIndex(Tokens(description), a.word) < FirstIndex(Tokens(description), b.word)))
  {
    var tokens := Tokens(description);
    var top := TopCandidates(tokens);
    var r := ExtractKeywords(description);
    assert r == Graded(top);
    TopRanked(tokens, |top|);
    forall i, j | 0 <= i < j < |r|
      ensures && r[i].word != r[j].word
              && r[i].word in tokens && r[j].word in tokens
              && (r[i].count > r[j].count
                  || (r[i].count == r[j].count && FirstIndex(tokens, r[i].word) < FirstIndex(tokens, r[j].word)))
    {
      assert r[i].word == top[i].word && r[i].count == top[i].count;
      assert r[j].word == top[j].word && r[j].count == top[j].count;
    }
  }

  /** Only the top twenty are kept: an eligible word of the description that
      is not a keyword occurs at most as often as every keyword, and is left
      out only when all twenty places are taken. */
  lemma KeywordsComplete(description: string, w: string)
    requires w in Tokens(description) && Eligible(w)
    requires !Mentions(ExtractKeywords(description), w)
    ensures |ExtractKeywords(description)| == MaxKeywords
    ensures forall k :: k in ExtractKeywords(description) ==> multiset(Tokens(description))[w] <= k.count
  {
    var tokens := Tokens(description);
    var top := TopCandidates(tokens);
    var r := ExtractKeywords(description);
    assert r == Graded(top);
    forall i | 0 <= i < |top|
      ensures top[i].word != w
    {
      assert r[i].word == top[i].word;
    }
    TopComplete(tokens, |top|, w);
    forall k | k in r
      ensures multiset(tokens)[w] <= k.count
    {
      var i :| 0 <= i < |r| && r[i] == k;
      assert k.count == top[i].count;
    }
  }

  /** Some keyword of `r` is the word `w`. */
  predicate Mentions(r: seq<Keyword>, w: string)
  {
    exists i :: 0 <= i < |r| && r[i].word == w
  }

  lemma TopDescribed(tokens: seq<string>, n: nat)
    requires forall w :: w in tokens ==> IsWord(w)
    requires n <= |SortByCount(Candidates(tokens))|
    ensures forall i :: 0 <= i < n ==>
              var c := SortByCount(Candidates(tokens))[i];
              IsWord(c.word) && Eligible(c.word) && Describes(tokens, c) && c.count > 0
  {
    var sorted := SortByCount(Candidates(tokens));
    forall i | 0 <= i < n
      ensures IsWord(sorted[i].word) && Eligible(sorted[i].word) && Describes(tokens, sorted[i]) && sorted[i].count > 0
    {
      assert sorted[i] in Candidates(tokens);
      assert sorted[i].word in multiset(tokens);
    }
  }

  lemma TopRanked(tokens: seq<string>, n: nat)
    requires n <= |SortByCount(Candidates(tokens))|
    ensures forall i, j :: 0 <= i < j < n ==>
              var a := SortByCount(Candidates(tokens))[i];
              var b := SortByCount(Candidates(tokens))[j];
              && a.word in tokens && b.word in tokens
              && a.word != b.word
              && (a.count > b.count
                  || (a.count == b.count && FirstIndex(tokens, a.word) < FirstIndex(tokens, b.word)))
  {
    var sorted := SortByCount(Candidates(tokens));
    SortRanked(Candidates(tokens));
    forall i, j | 0 <= i < j < n
      ensures && sorted[i].word in tokens && sorted[j].word in tokens
              && sorted[i].word != sorted[j].word
              && (sorted[i].count > sorted[j].count
                  || (sorted[i].count == sorted[j].count
                      && FirstIndex(tokens, sorted[i].word) < FirstIndex(tokens, sorted[j].word)))
    {
      assert sorted[i] in Candidates(tokens) && sorted[j] in Candidates(tokens);
    }
  }

  lemma TopComplete(tokens: seq<string>, n: nat, w: string)
    requires n == Min(MaxKeywords, |SortByCount(Candidates(tokens))|)
    requires w in tokens && Eligible(w)
    requires forall i :: 0 <= i < n ==> SortByCount(Candidates(tokens))[i].word != w
    ensures n == MaxKeywords
    ensures forall i :: 0 <= i < n ==> multiset(tokens)[w] <= SortByCount(Candidates(tokens))[i].count
  {
    var cands := Candidates(tokens);
    var sorted := SortByCount(cands);
    SortRanked(cands);
    var c :| c in cands && c.word == w;
    assert c in sorted;
    var p :| 0 <= p < |sorted| && sorted[p] == c;
    assert p >= n;
  }
}
