/** Character classes and string operations the scoring code borrows from
    Python's `str` and `re`: lower-casing, the `\w` and `\s` classes,
    whitespace splitting and stripping.  Characters are classified over
    ASCII only. */
module Text {
  import opened Collections

  /** `\w`: letters, digits and the underscore. */
  predicate IsWordChar(c: char)
  {
    ('a' <= c <= 'z') || ('A' <= c <= 'Z') || ('0' <= c <= '9') || c == '_'
  }

  /** `\s` and `str.isspace()`: space, tab, line feed, vertical tab, form
      feed, carriage return and the four ASCII separator characters. */
  predicate IsSpace(c: char)
  {
    c == ' ' || (9 <= c as int <= 13) || (28 <= c as int <= 31)
  }

  predicate IsUpper(c: char)
  {
    'A' <= c <= 'Z'
  }

  /** `str.lower()` on one character. */
  function Lower(c: char): (r: char)
    ensures !IsUpper(r)
    ensures IsWordChar(r) <==> IsWordChar(c)
    ensures IsSpace(r) <==> IsSpace(c)
    ensures !IsUpper(c) ==> r == c
  {
    if IsUpper(c) then (c as int + 32) as char else c
  }

  /** `str.lower()`. */
  function LowerStr(s: string): (r: string)
    ensures |r| == |s|
    ensures forall i :: 0 <= i < |s| ==> r[i] == Lower(s[i])
  {
    seq(|s|, i requires 0 <= i < |s| => Lower(s[i]))
  }

  /** Case-insensitive equality of two characters (`re.IGNORECASE`). */
  predicate SameLetter(a: char, b: char)
  {
    Lower(a) == Lower(b)
  }

  /** The non-whitespace characters of `s`, in order. */
  function NonSpace(s: string): (r: string)
    ensures forall c :: c in r ==> c in s && !IsSpace(c)
    decreases |s|
  {
    if |s| == 0 then []
    else (if IsSpace(s[0]) then [] else [s[0]]) + NonSpace(s[1..])
  }

  /** A non-empty run of non-whitespace characters. */
  predicate IsToken(w: string)
  {
    |w| > 0 && forall c :: c in w ==> !IsSpace(c)
  }

  /** All strings of `ss` concatenated. */
  function Concat(ss: seq<string>): string
    decreases |ss|
  {
    if |ss| == 0 then [] else ss[0] + Concat(ss[1..])
  }

  /** `str.split()` with no argument: the maximal runs of non-whitespace
      characters.  `cur` is the run read so far. */
  function SplitFrom(s: string, cur: string): (r: seq<string>)
    requires forall c :: c in cur ==> !IsSpace(c)
    ensures forall w :: w in r ==> IsToken(w)
    ensures Concat(r) == cur + NonSpace(s)
    decreases |s|
  {
    if |s| == 0 then
      if |cur| > 0 then [cur] else []
    else
      if IsSpace(s[0]) then
        var head := if |cur| > 0 then [cur] else [];
        var tail := SplitFrom(s[1..], []);
        ConcatAppend(head, tail);
        assert Concat(head) == cur;
        head + tail
      else
        var r := SplitFrom(s[1..], cur + [s[0]]);
        assert Concat(r) == cur + NonSpace(s) by {
          var ns := NonSpace(s[1..]);
          assert NonSpace(s) == [s[0]] + ns;
          assert cur + [s[0]] + ns == cur + ([s[0]] + ns);
        }
        r
  }

  /** `str.split()`: the tokens are made of the input's non-whitespace
      characters, in order.  That they are the maximal runs, so that
      splitting undoes laying words out with whitespace, is
      `SplitInterleave`. */
  function Split(s: string): (r: seq<string>)
    ensures forall w :: w in r ==> IsToken(w)
    ensures forall w, c :: w in r && c in w ==> c in s
    ensures Concat(r) == NonSpace(s)
  {
    var r := SplitFrom(s, []);
    InConcat(r);
    r
  }

  /** Every character of a member of `ss` is in their concatenation. */
  lemma {:induction false} InConcat(ss: seq<string>)
    ensures forall w, c :: w in ss && c in w ==> c in Concat(ss)
    decreases |ss|
  {
    if |ss| > 0 {
      InConcat(ss[1..]);
      assert forall w :: w in ss ==> w == ss[0] || w in ss[1..];
    }
  }

  /** Nothing but whitespace. */
  predicate AllSpace(g: string)
  {
    forall c :: c in g ==> IsSpace(c)
  }

  /** `gaps[0] + ws[0] + gaps[1] + ... + ws[n-1] + gaps[n]`: the words laid
      out with the given stretches around and between them. */
  function Interleave(gaps: seq<string>, ws: seq<string>): string
    requires |gaps| == |ws| + 1
    decreases |ws|
  {
    if |ws| == 0 then gaps[0] else gaps[0] + ws[0] + Interleave(gaps[1..], ws[1..])
  }

  /** Stretches that may surround words: whitespace only, and at least one
      character between two words.  The outer two may be empty. */
  predicate Separators(gaps: seq<string>)
  {
    && (forall i :: 0 <= i < |gaps| ==> AllSpace(gaps[i]))
    && (forall i :: 0 < i < |gaps| - 1 ==> |gaps[i]| > 0)
  }

  /** One step of `SplitFrom` over a non-whitespace character. */
  lemma SplitFromStep(s: string, cur: string)
    requires forall c :: c in cur ==> !IsSpace(c)
    requires |s| > 0 && !IsSpace(s[0])
    ensures forall c :: c in cur + [s[0]] ==> !IsSpace(c)
    ensures SplitFrom(s, cur) == SplitFrom(s[1..], cur + [s[0]])
  {
  }

  /** Reading a run of non-whitespace extends the current token. */
  lemma {:induction false} SplitFromRun(w: string, rest: string, cur: string)
    requires forall c :: c in cur ==> !IsSpace(c)
    requires forall c :: c in w ==> !IsSpace(c)
    ensures SplitFrom(w + rest, cur) == SplitFrom(rest, cur + w)
    decreases |w|
  {
    if |w| == 0 {
      assert w + rest == rest;
      assert cur + w == cur;
    } else {
      var x := w + rest;
      assert x[0] == w[0] && w[0] in w;
      SplitFromStep(x, cur);
      assert x[1..] == w[1..] + rest;
      assert forall c :: c in w[1..] ==> c in w;
      SplitFromRun(w[1..], rest, cur + [w[0]]);
      ShiftHead(cur, w);
    }
  }

  lemma ShiftHead(cur: string, w: string)
    requires |w| > 0
    ensures cur + [w[0]] + w[1..] == cur + w
  {
    assert w == [w[0]] + w[1..];
  }

  /** Whitespace between tokens is skipped. */
  lemma {:induction false} SplitFromGap(g: string, rest: string)
    requires AllSpace(g)
    ensures SplitFrom(g + rest, []) == SplitFrom(rest, [])
    decreases |g|
  {
    if |g| == 0 {
      assert g + rest == rest;
    } else {
      assert (g + rest)[0] == g[0];
      assert g[0] in g;
      assert (g + rest)[1..] == g[1..] + rest;
      assert forall c :: c in g[1..] ==> c in g;
      SplitFromGap(g[1..], rest);
    }
  }

  /** Whitespace after a token closes it. */
  lemma SplitFromClose(g: string, rest: string, cur: string)
    requires |cur| > 0 && forall c :: c in cur ==> !IsSpace(c)
    requires |g| > 0 && AllSpace(g)
    ensures SplitFrom(g + rest, cur) == [cur] + SplitFrom(rest, [])
  {
    assert (g + rest)[0] == g[0];
    assert g[0] in g;
    assert (g + rest)[1..] == g[1..] + rest;
    assert forall c :: c in g[1..] ==> c in g;
    SplitFromGap(g[1..], rest);
  }

  /** A token followed by whitespace alone splits into that token. */
  lemma LastWord(w: string, g: string)
    requires IsToken(w) && AllSpace(g)
    ensures SplitFrom(w + g, []) == [w]
  {
    SplitFromRun(w, g, []);
    assert [] + w == w;
    if |g| > 0 {
      SplitFromClose(g, [], w);
      assert g + [] == g;
      assert SplitFrom([], []) == [];
    } else {
      assert w + g == w;
      assert SplitFrom([], w) == [w];
    }
  }

  /** A token, then text that starts with whitespace: the token comes
      first, then the tokens of the rest. */
  lemma SplitPrepend(w: string, t: string)
    requires IsToken(w) && |t| > 0 && IsSpace(t[0])
    ensures SplitFrom(w + t, []) == [w] + SplitFrom(t, [])
  {
    SplitFromRun(w, t, []);
    assert [] + w == w;
    SplitFromSpace(t, w);
    SplitFromSpace(t, []);
    assert [] + SplitFrom(t[1..], []) == SplitFrom(t[1..], []);
  }

  /** One step of `SplitFrom` over a whitespace character: the current
      token, if any, is closed. */
  lemma SplitFromSpace(s: string, cur: string)
    requires forall c :: c in cur ==> !IsSpace(c)
    requires |s| > 0 && IsSpace(s[0])
    ensures SplitFrom(s, cur) == (if |cur| > 0 then [cur] else []) + SplitFrom(s[1..], [])
  {
  }

  lemma InterleaveHead(gaps: seq<string>, ws: seq<string>)
    requires |gaps| == |ws| + 1 && |ws| > 0
    ensures Interleave(gaps, ws) == gaps[0] + (ws[0] + Interleave(gaps[1..], ws[1..]))
  {
  }

  lemma SeparatorsTail(gaps: seq<string>)
    requires |gaps| > 0 && Separators(gaps)
    ensures Separators(gaps[1..])
  {
    assert forall i :: 0 <= i < |gaps[1..]| ==> gaps[1..][i] == gaps[i + 1];
  }

  /** Splitting undoes laying out tokens with whitespace: `str.split()`
      returns exactly the words, in order, however they are spaced. */
  lemma {:induction false} SplitInterleave(gaps: seq<string>, ws: seq<string>)
    requires |gaps| == |ws| + 1 && Separators(gaps)
    requires forall w :: w in ws ==> IsToken(w)
    ensures Split(Interleave(gaps, ws)) == ws
    decreases |ws|
  {
    if |ws| == 0 {
      SplitFromGap(gaps[0], []);
      assert gaps[0] + [] == gaps[0];
    } else {
      var t := Interleave(gaps[1..], ws[1..]);
      InterleaveHead(gaps, ws);
      assert AllSpace(gaps[0]) && ws[0] in ws;
      SplitFromGap(gaps[0], ws[0] + t);
      if |ws| == 1 {
        assert t == gaps[1] && AllSpace(gaps[1]);
        LastWord(ws[0], gaps[1]);
      } else {
        SeparatorsTail(gaps);
        assert forall w :: w in ws[1..] ==> w in ws;
        SplitInterleave(gaps[1..], ws[1..]);
        InterleaveHead(gaps[1..], ws[1..]);
        assert |gaps[1]| > 0 && gaps[1][0] in gaps[1] && AllSpace(gaps[1]);
        SplitPrepend(ws[0], t);
        assert ws == [ws[0]] + ws[1..];
      }
    }
  }

  lemma {:induction false} ConcatAppend(a: seq<string>, b: seq<string>)
    ensures Concat(a + b) == Concat(a) + Concat(b)
    decreases |a|
  {
    if |a| > 0 {
      assert (a + b)[1..] == a[1..] + b;
      ConcatAppend(a[1..], b);
    } else {
      assert a + b == b;
    }
  }

  /** Number of leading whitespace characters. */
  function LeadingSpace(s: string): (n: nat)
    ensures n <= |s|
    ensures forall i :: 0 <= i < n ==> IsSpace(s[i])
    ensures n < |s| ==> !IsSpace(s[n])
    decreases |s|
  {
    if |s| > 0 && IsSpace(s[0]) then 1 + LeadingSpace(s[1..]) else 0
  }

  /** Number of trailing whitespace characters. */
  function TrailingSpace(s: string): (n: nat)
    ensures n <= |s|
    ensures forall i :: |s| - n <= i < |s| ==> IsSpace(s[i])
    ensures n < |s| ==> !IsSpace(s[|s| - n - 1])
    decreases |s|
  {
    if |s| > 0 && IsSpace(s[|s| - 1]) then 1 + TrailingSpace(s[..|s| - 1]) else 0
  }

  /** `str.strip()`: `s` without its leading and trailing whitespace.  The
      result is a contiguous piece `s[lo..hi]` of `s`, everything cut off is
      whitespace, and the result neither starts nor ends with whitespace. */
  function Strip(s: string): (r: string)
    ensures exists lo, hi ::
              (&& 0 <= lo <= hi <= |s| && r == s[lo..hi]
               && (forall i :: 0 <= i < lo ==> IsSpace(s[i]))
               && (forall i :: hi <= i < |s| ==> IsSpace(s[i])))
    ensures |r| > 0 ==> !IsSpace(r[0]) && !IsSpace(r[|r| - 1])
  {
    var lo := LeadingSpace(s);
    if lo == |s| then
      assert s[lo..lo] == [];
      ""
    else
      var hi := |s| - TrailingSpace(s);
      assert lo < hi by {
        assert !IsSpace(s[lo]);
      }
      s[lo..hi]
  }
}
