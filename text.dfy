/** The parts of Rust's `str` that the solvers use, restricted to ASCII text:
    splitting on a character or on a string, `split_whitespace`, `lines`,
    `trim`, and `parse` into fixed-width integers (which fails on overflow). */
module Text {
  import opened Common

  const U32_LIMIT: nat := 0x1_0000_0000
  const U64_LIMIT: nat := 0x1_0000_0000_0000_0000
  const I32_MIN: int := -0x8000_0000
  const I32_MAX: int := 0x7FFF_FFFF

  /** A value an `i32` can hold. */
  predicate FitsI32(x: int) { I32_MIN <= x <= I32_MAX }

  /** Adding the values one by one to an `i32` accumulator never leaves the
      range: every running sum, from the empty one to the total, fits. */
  predicate RunningSumsFit(vs: seq<int>)
  {
    forall j :: 0 <= j <= |vs| ==> FitsI32(Sum(vs[..j]))
  }

  lemma PrefixSum(vs: seq<int>, i: nat)
    requires i < |vs|
    ensures Sum(vs[..i + 1]) == Sum(vs[..i]) + vs[i]
  {
    assert vs[..i + 1] == vs[..i] + [vs[i]];
    SumAppend(vs[..i], vs[i]);
  }

  /** One running sum out of range spoils the whole sequence. */
  lemma OverflowAt(vs: seq<int>, i: nat)
    requires i <= |vs| && !FitsI32(Sum(vs[..i]))
    ensures !RunningSumsFit(vs)
  {
  }

  /** One more value keeps the running sums in range exactly when the new
      total is. */
  lemma RunningSumsSnoc(vs: seq<int>, v: int)
    requires RunningSumsFit(vs)
    ensures RunningSumsFit(vs + [v]) <==> FitsI32(Sum(vs) + v)
  {
    var ws := vs + [v];
    assert ws[..|ws|] == ws;
    SumAppend(vs, v);
    if FitsI32(Sum(vs) + v) {
      RunningSumsExtend(vs, v);
    } else {
      OverflowAt(ws, |ws|);
    }
  }

  /** The running sums of a prefix one value longer: they fit exactly when
      the new total does, and a new total out of range spoils the whole
      sequence. */
  lemma RunningSumsStep(vs: seq<int>, i: nat)
    requires i < |vs| && RunningSumsFit(vs[..i])
    ensures Sum(vs[..i + 1]) == Sum(vs[..i]) + vs[i]
    ensures RunningSumsFit(vs[..i + 1]) <==> FitsI32(Sum(vs[..i]) + vs[i])
    ensures !FitsI32(Sum(vs[..i]) + vs[i]) ==> !RunningSumsFit(vs)
  {
    PrefixSum(vs, i);
    assert vs[..i] + [vs[i]] == vs[..i + 1];
    RunningSumsSnoc(vs[..i], vs[i]);
    if !FitsI32(Sum(vs[..i]) + vs[i]) {
      OverflowAt(vs, i + 1);
    }
  }

  lemma RunningSumsExtend(vs: seq<int>, v: int)
    requires RunningSumsFit(vs) && FitsI32(Sum(vs + [v]))
    ensures RunningSumsFit(vs + [v])
  {
    var ws := vs + [v];
    forall j | 0 <= j <= |ws|
      ensures FitsI32(Sum(ws[..j]))
    {
      if j <= |vs| {
        assert ws[..j] == vs[..j];
      } else {
        assert ws[..j] == ws;
      }
    }
  }

  /** Running sums that fit for a sequence fit for each of its prefixes. */
  lemma RunningSumsPrefix(xs: seq<int>, ys: seq<int>)
    requires RunningSumsFit(xs + ys)
    ensures RunningSumsFit(xs)
  {
    forall j | 0 <= j <= |xs|
      ensures FitsI32(Sum(xs[..j]))
    {
      assert (xs + ys)[..j] == xs[..j];
    }
  }

  /** A prefix whose running sums overflow spoils every extension. */
  lemma OverflowSpoils(xs: seq<int>, whole: seq<int>)
    requires !RunningSumsFit(xs)
    requires exists rest :: whole == xs + rest
    ensures !RunningSumsFit(whole)
  {
    var rest :| whole == xs + rest;
    if RunningSumsFit(whole) {
      RunningSumsPrefix(xs, rest);
    }
  }

  /** Values between 0 and `bound`, at most `I32_MAX / bound` of them,
      never overflow an `i32` running sum. */
  lemma SmallValuesFit(vs: seq<int>, bound: nat)
    requires forall k :: 0 <= k < |vs| ==> 0 <= vs[k] <= bound
    requires |vs| * bound <= I32_MAX
    ensures RunningSumsFit(vs)
  {
    forall j | 0 <= j <= |vs|
      ensures FitsI32(Sum(vs[..j]))
    {
      SumBetween(vs[..j], bound);
      assert j * bound <= |vs| * bound by {
        MulMono(j, |vs|, bound);
      }
    }
  }

  lemma MulMono(a: nat, b: nat, c: nat)
    requires a <= b
    ensures a * c <= b * c
  {
  }

  lemma {:induction false} SumBetween(vs: seq<int>, bound: nat)
    requires forall k :: 0 <= k < |vs| ==> 0 <= vs[k] <= bound
    ensures 0 <= Sum(vs) <= |vs| * bound
  {
    if vs != [] {
      SumBetween(vs[1..], bound);
    }
  }

  predicate IsDigit(c: char) { '0' <= c <= '9' }

  function DigitValue(c: char): (d: nat)
    requires IsDigit(c)
    ensures d <= 9
  {
    c as int - '0' as int
  }

  /** ASCII whitespace as Rust's `char::is_whitespace` sees it. */
  predicate IsWhitespace(c: char)
  {
    c == ' ' || c == '\t' || c == '\n' || c == '\r' || c as int == 11 || c as int == 12
  }

  predicate AllDigits(s: string) { forall i :: 0 <= i < |s| ==> IsDigit(s[i]) }

  predicate NoWhitespace(s: string) { forall i :: 0 <= i < |s| ==> !IsWhitespace(s[i]) }

  predicate EndsWith(s: string, c: char) { |s| > 0 && s[|s| - 1] == c }

  // ---------------------------------------------------------------------
  // Searching and splitting on a single character (`str::split(char)`)

  /** Index of the first `c` in `s`, or `|s|` when there is none. */
  function IndexOf(s: string, c: char): (i: nat)
    ensures i <= |s|
    ensures i < |s| ==> s[i] == c
    ensures c !in s[..i]
  {
    if s == [] then 0 else if s[0] == c then 0 else 1 + IndexOf(s[1..], c)
  }

  /** The pieces of `s` between occurrences of `sep`, empty pieces included. */
  function Split(s: string, sep: char): (pieces: seq<string>)
    ensures |pieces| >= 1
    ensures forall k :: 0 <= k < |pieces| ==> sep !in pieces[k]
    decreases |s|
  {
    var i := IndexOf(s, sep);
    if i == |s| then [s] else [s[..i]] + Split(s[i + 1..], sep)
  }

  /** Joining the pieces again with the separator. */
  function Join(pieces: seq<string>, sep: char): string
    requires |pieces| >= 1
  {
    if |pieces| == 1 then pieces[0] else pieces[0] + [sep] + Join(pieces[1..], sep)
  }

  /** Splitting loses nothing: the pieces joined by the separator give back the text. */
  lemma {:induction false} JoinSplit(s: string, sep: char)
    ensures Join(Split(s, sep), sep) == s
    decreases |s|
  {
    var i := IndexOf(s, sep);
    if i < |s| {
      JoinSplit(s[i + 1..], sep);
      assert s == s[..i] + [sep] + s[i + 1..];
    }
  }

  /** Joining pieces free of the separator and splitting again gives the
      pieces back. */
  lemma {:induction false} SplitJoin(pieces: seq<string>, sep: char)
    requires |pieces| >= 1
    requires forall k :: 0 <= k < |pieces| ==> sep !in pieces[k]
    ensures Split(Join(pieces, sep), sep) == pieces
  {
    var p := pieces[0];
    if |pieces| == 1 {
      SplitWithoutSeparator(p, sep);
    } else {
      var rest := Join(pieces[1..], sep);
      var s := p + ([sep] + rest);
      assert Join(pieces, sep) == s;
      IndexOfAfter(p, [sep] + rest, sep);
      assert IndexOf(s, sep) == |p|;
      assert s[..|p|] == p && s[|p| + 1..] == rest;
      SplitJoin(pieces[1..], sep);
      assert pieces == [p] + pieces[1..];
    }
  }

  /** Splitting a text that does not contain the separator gives it back whole. */
  lemma SplitWithoutSeparator(s: string, sep: char)
    requires sep !in s
    ensures Split(s, sep) == [s]
  {
    assert IndexOf(s, sep) == |s|;
  }

  /** Text free of the separator put in front of `s` joins the first piece. */
  lemma SplitPrefix(p: string, s: string, sep: char)
    requires sep !in p
    ensures Split(p + s, sep) == [p + Split(s, sep)[0]] + Split(s, sep)[1..]
  {
    IndexOfAfter(p, s, sep);
    var i := IndexOf(s, sep);
    if i < |s| {
      SplitAt(s, sep, i);
      SplitPrefixFound(p, s, sep, i);
      PrefixFirstPiece(p, s, sep, i);
    } else {
      assert Split(s, sep) == [s];
      assert Split(p + s, sep) == [p + s];
    }
  }

  /** At the first separator, the first piece ends and the rest is split. */
  lemma SplitAt(s: string, sep: char, i: nat)
    requires IndexOf(s, sep) == i < |s|
    ensures Split(s, sep) == [s[..i]] + Split(s[i + 1..], sep)
  {
  }

  lemma SplitPrefixFound(p: string, s: string, sep: char, i: nat)
    requires IndexOf(p + s, sep) == |p| + i
    requires IndexOf(s, sep) == i < |s|
    ensures Split(p + s, sep) == [p + s[..i]] + Split(s[i + 1..], sep)
  {
    SlicesAfter(p, s, i);
    SplitAtPieces(p + s, sep, |p| + i, p + s[..i], s[i + 1..]);
  }

  lemma SplitAtPieces(t: string, sep: char, j: nat, before: string, after: string)
    requires IndexOf(t, sep) == j < |t|
    requires t[..j] == before && t[j + 1..] == after
    ensures Split(t, sep) == [before] + Split(after, sep)
  {
    SplitAt(t, sep, j);
  }

  lemma SlicesAfter(p: string, s: string, i: nat)
    requires i < |s|
    ensures (p + s)[..|p| + i] == p + s[..i]
    ensures (p + s)[|p| + i + 1..] == s[i + 1..]
  {
  }

  lemma PrefixFirstPiece(p: string, s: string, sep: char, i: nat)
    requires i < |s|
    requires Split(s, sep) == [s[..i]] + Split(s[i + 1..], sep)
    requires Split(p + s, sep) == [p + s[..i]] + Split(s[i + 1..], sep)
    ensures Split(p + s, sep) == [p + Split(s, sep)[0]] + Split(s, sep)[1..]
  {
    assert Split(s, sep)[1..] == Split(s[i + 1..], sep);
  }

  /** There is one more piece than there are separators. */
  lemma {:induction false} SplitCount(s: string, sep: char)
    ensures |Split(s, sep)| == multiset(s)[sep] + 1
    decreases |s|
  {
    var i := IndexOf(s, sep);
    if i < |s| {
      SplitCount(s[i + 1..], sep);
      assert s == s[..i] + [sep] + s[i + 1..];
      assert multiset(s[..i])[sep] == 0;
    } else {
      assert s[..i] == s;
    }
  }

  // ---------------------------------------------------------------------
  // Searching and splitting on a string pattern (`str::split(&str)`)

  predicate OccursAt(s: string, pat: string, j: nat)
  {
    j + |pat| <= |s| && s[j..j + |pat|] == pat
  }

  /** Index of the leftmost occurrence of `pat` in `s`, or `|s|` when there is none. */
  function Find(s: string, pat: string): (i: nat)
    requires pat != []
    ensures i <= |s|
    ensures i < |s| ==> OccursAt(s, pat, i)
    ensures forall j: nat :: j < i ==> !OccursAt(s, pat, j)
    decreases |s|
  {
    if |s| < |pat| then |s|
    else if s[..|pat|] == pat then 0
    else
      var k := Find(s[1..], pat);
      OccursPastFirst(s, pat);
      1 + k
  }

  /** Occurrences in `s` past its first character are those of `s[1..]`,
      one column later. */
  lemma OccursPastFirst(s: string, pat: string)
    requires s != []
    ensures OccursAt(s, pat, 0) <==> |pat| <= |s| && s[..|pat|] == pat
    ensures forall j: nat :: 0 < j ==> (OccursAt(s, pat, j) <==> OccursAt(s[1..], pat, j - 1))
  {
    forall j: nat | 0 < j
      ensures OccursAt(s, pat, j) <==> OccursAt(s[1..], pat, j - 1)
    {
      if j + |pat| <= |s| {
        var here, there := s[j..j + |pat|], s[1..][j - 1..j - 1 + |pat|];
        assert |here| == |there| && forall k :: 0 <= k < |here| ==> here[k] == there[k];
      }
    }
  }

  /** The first piece of `s.split(pat)`. */
  function FirstField(s: string, pat: string): string
    requires pat != []
  {
    s[..Find(s, pat)]
  }

  /** What follows the first occurrence of `pat`, if `pat` occurs. */
  function AfterFirst(s: string, pat: string): Option<string>
    requires pat != []
  {
    var i := Find(s, pat);
    if i == |s| then None else Some(s[i + |pat|..])
  }

  /** The leftmost occurrence is at the end of a prefix whose characters
      cannot start the pattern. */
  lemma {:induction false} FindAfterPrefix(prefix: string, pat: string, rest: string)
    requires pat != [] && pat[0] !in prefix
    ensures Find(prefix + pat + rest, pat) == |prefix|
    decreases |prefix|
  {
    var s := prefix + pat + rest;
    if prefix == [] {
      assert s[..|pat|] == pat;
    } else {
      assert s[0] != pat[0];
      assert s[..|pat|] != pat;
      assert s[1..] == prefix[1..] + pat + rest;
      FindAfterPrefix(prefix[1..], pat, rest);
    }
  }

  /** `pat` does not occur in a text that lacks one of its characters. */
  lemma FindAbsent(s: string, pat: string, k: nat)
    requires k < |pat| && pat[k] !in s
    ensures Find(s, pat) == |s|
  {
    forall j: nat | j < |s| ensures !OccursAt(s, pat, j) {
      if j + |pat| <= |s| {
        assert s[j..j + |pat|][k] == s[j + k];
      }
    }
  }

  /** `str::replace`: every occurrence of `pat`, scanning from the left
      and never overlapping a replaced one, becomes `rep`. */
  function Replace(s: string, pat: string, rep: string): string
    requires pat != []
    decreases |s|
  {
    if |s| < |pat| then s
    else if s[..|pat|] == pat then rep + Replace(s[|pat|..], pat, rep)
    else [s[0]] + Replace(s[1..], pat, rep)
  }

  /** Without an occurrence of `pat` the text is unchanged. */
  lemma {:induction false} ReplaceAbsent(s: string, pat: string, rep: string)
    requires pat != [] && forall j: nat :: !OccursAt(s, pat, j)
    ensures Replace(s, pat, rep) == s
    decreases |s|
  {
    if |s| >= |pat| {
      ReplaceMiss(s, pat, rep);
      OccursShift(s, pat, |s|);
      ReplaceAbsent(s[1..], pat, rep);
      assert [s[0]] + s[1..] == s;
    }
  }

  /** The leftmost occurrence of `pat`, at `i`, is replaced and the scan
      resumes right after it. */
  lemma {:induction false} ReplaceLeftmost(s: string, pat: string, rep: string, i: nat)
    requires pat != [] && OccursAt(s, pat, i)
    requires forall j: nat :: j < i ==> !OccursAt(s, pat, j)
    ensures Replace(s, pat, rep) == s[..i] + rep + Replace(s[i + |pat|..], pat, rep)
    decreases i
  {
    if i == 0 {
      ReplaceHit(s, pat, rep);
      assert s[..0] + rep == rep;
    } else {
      var t := s[1..];
      var rest := Replace(t[i - 1 + |pat|..], pat, rep);
      calc {
        Replace(s, pat, rep);
        { assert !OccursAt(s, pat, 0);
          ReplaceMiss(s, pat, rep); }
        [s[0]] + Replace(t, pat, rep);
        { OccursShift(s, pat, i - 1);
          assert t[i - 1..i - 1 + |pat|] == s[i..i + |pat|];
          ReplaceLeftmost(t, pat, rep, i - 1); }
        [s[0]] + (t[..i - 1] + rep + rest);
        { ConsAroundMatch(s, i, |pat|, rep, rest); }
        s[..i] + rep + Replace(s[i + |pat|..], pat, rep);
      }
    }
  }

  /** Putting back the first character in front of a split of the tail. */
  lemma ConsAroundMatch(s: string, i: nat, n: nat, rep: string, rest: string)
    requires 0 < i && i + n <= |s|
    ensures s[i + n..] == s[1..][i - 1 + n..]
    ensures [s[0]] + (s[1..][..i - 1] + rep + rest) == s[..i] + rep + rest
  {
    assert s[..i] == [s[0]] + s[1..][..i - 1];
  }

  /** A text lacking one of the characters of `pat` is left unchanged. */
  lemma ReplaceWithoutChar(s: string, pat: string, rep: string, k: nat)
    requires k < |pat| && pat[k] !in s
    ensures Replace(s, pat, rep) == s
  {
    forall j: nat
      ensures !OccursAt(s, pat, j)
    {
      if j + |pat| <= |s| {
        assert s[j..j + |pat|][k] == s[j + k];
      }
    }
    ReplaceAbsent(s, pat, rep);
  }

  /** A prefix none of whose characters starts `pat` is kept as it is. */
  lemma {:induction false} ReplaceSkipChunk(a: string, b: string, pat: string, rep: string)
    requires pat != [] && pat[0] !in a
    ensures Replace(a + b, pat, rep) == a + Replace(b, pat, rep)
    decreases |a|
  {
    var s := a + b;
    if a != [] && |s| >= |pat| {
      assert s[..|pat|][0] == a[0];
      assert !OccursAt(s, pat, 0);
      ReplaceMiss(s, pat, rep);
      assert s[1..] == a[1..] + b;
      ReplaceSkipChunk(a[1..], b, pat, rep);
      assert [a[0]] + a[1..] == a;
    } else if a != [] {
      assert Replace(s, pat, rep) == s;
      assert Replace(b, pat, rep) == b;
    } else {
      assert s == b;
    }
  }

  /** A character followed by text that differs from `pat` at offset `k`
      is kept as it is. */
  lemma ReplaceSkip(c: char, b: string, pat: string, rep: string, k: nat)
    requires 0 < k < |pat| && k <= |b| && b[k - 1] != pat[k]
    ensures Replace([c] + b, pat, rep) == [c] + Replace(b, pat, rep)
  {
    var s := [c] + b;
    if |s| >= |pat| {
      assert s[..|pat|][k] == b[k - 1];
      assert !OccursAt(s, pat, 0);
      ReplaceMiss(s, pat, rep);
      assert s[1..] == b;
    }
  }

  /** An occurrence at the front is replaced first. */
  lemma ReplaceHit(s: string, pat: string, rep: string)
    requires pat != [] && OccursAt(s, pat, 0)
    ensures Replace(s, pat, rep) == rep + Replace(s[|pat|..], pat, rep)
  {
    assert s[..|pat|] == pat;
  }

  /** Without an occurrence at the front, the scan moves past the first
      character. */
  lemma ReplaceMiss(s: string, pat: string, rep: string)
    requires pat != [] && |s| >= |pat| && !OccursAt(s, pat, 0)
    ensures Replace(s, pat, rep) == [s[0]] + Replace(s[1..], pat, rep)
  {
    assert s[..|pat|] == s[0..0 + |pat|];
  }

  /** No occurrence of `pat` at `1 ..= n` in `s` means none at `0 .. n` in
      its tail. */
  lemma OccursShift(s: string, pat: string, n: nat)
    requires |s| > 0 && forall j: nat :: 0 < j <= n ==> !OccursAt(s, pat, j)
    ensures forall j: nat :: j < n ==> !OccursAt(s[1..], pat, j)
  {
    forall j: nat | j < n
      ensures !OccursAt(s[1..], pat, j)
    {
      assert !OccursAt(s, pat, j + 1);
      if j + |pat| <= |s| - 1 {
        assert s[1..][j..j + |pat|] == s[j + 1..j + 1 + |pat|];
      }
    }
  }

  // ---------------------------------------------------------------------
  // Trimming (`trim`, `trim_start_matches`, `trim_end_matches`)

  /** How many copies of `c` open `s`. */
  function LeadingCount(s: string, c: char): (n: nat)
    ensures n <= |s|
    ensures forall i :: 0 <= i < n ==> s[i] == c
    ensures n < |s| ==> s[n] != c
  {
    if s != [] && s[0] == c then 1 + LeadingCount(s[1..], c) else 0
  }

  /** How many copies of `c` close `s`. */
  function TrailingCount(s: string, c: char): (n: nat)
    ensures n <= |s|
    ensures forall i :: |s| - n <= i < |s| ==> s[i] == c
    ensures n < |s| ==> s[|s| - n - 1] != c
  {
    if s != [] && s[|s| - 1] == c then 1 + TrailingCount(s[..|s| - 1], c) else 0
  }

  /** `s.trim_start_matches(c)`: every leading `c` removed. */
  function TrimStartChar(s: string, c: char): string
  {
    s[LeadingCount(s, c)..]
  }

  /** `s.trim_end_matches(c)`: every trailing `c` removed. */
  function TrimEndChar(s: string, c: char): string
  {
    s[..|s| - TrailingCount(s, c)]
  }

  function TrimStart(s: string): (r: string)
    ensures r == [] || !IsWhitespace(r[0])
  {
    if s != [] && IsWhitespace(s[0]) then TrimStart(s[1..]) else s
  }

  function TrimEnd(s: string): (r: string)
    ensures r == [] || !IsWhitespace(r[|r| - 1])
  {
    if s != [] && IsWhitespace(s[|s| - 1]) then TrimEnd(s[..|s| - 1]) else s
  }

  function Trim(s: string): string { TrimEnd(TrimStart(s)) }

  // ---------------------------------------------------------------------
  // `split_whitespace` and `lines`

  /** Length of the run of non-whitespace characters that starts `s`. */
  function TokenLength(s: string): (n: nat)
    ensures n <= |s|
    ensures NoWhitespace(s[..n])
    ensures n < |s| ==> IsWhitespace(s[n])
  {
    if s == [] || IsWhitespace(s[0]) then 0
    else
      var n := TokenLength(s[1..]);
      assert s[..n + 1] == [s[0]] + s[1..][..n];
      n + 1
  }

  /** The maximal runs of non-whitespace characters, in order. */
  function SplitWhitespace(s: string): (tokens: seq<string>)
    ensures forall k :: 0 <= k < |tokens| ==> tokens[k] != [] && NoWhitespace(tokens[k])
    decreases |s|
  {
    if s == [] then []
    else if IsWhitespace(s[0]) then SplitWhitespace(s[1..])
    else
      var n := TokenLength(s);
      [s[..n]] + SplitWhitespace(s[n..])
  }

  /** A word followed by whitespace or by nothing is one token long. */
  lemma {:induction false} TokenLengthOfWord(word: string, rest: string)
    requires NoWhitespace(word)
    requires rest == [] || IsWhitespace(rest[0])
    ensures TokenLength(word + rest) == |word|
    decreases |word|
  {
    if word != [] {
      assert (word + rest)[1..] == word[1..] + rest;
      TokenLengthOfWord(word[1..], rest);
    } else {
      assert word + rest == rest;
    }
  }

  /** Words joined by single spaces. */
  function Unwords(words: seq<string>): string
  {
    if words == [] then [] else if |words| == 1 then words[0] else words[0] + " " + Unwords(words[1..])
  }

  /** `split_whitespace` takes space-joined words apart again. */
  lemma {:induction false} SplitUnwords(words: seq<string>)
    requires forall k :: 0 <= k < |words| ==> words[k] != [] && NoWhitespace(words[k])
    ensures SplitWhitespace(Unwords(words)) == words
  {
    if |words| == 1 {
      var w := words[0];
      TokenLengthOfWord(w, []);
      assert w + [] == w && w[..|w|] == w && w[|w|..] == [];
    } else if |words| > 1 {
      var w, tail := words[0], " " + Unwords(words[1..]);
      var s := w + tail;
      assert Unwords(words) == s;
      assert s[0] == w[0] && !IsWhitespace(s[0]);
      TokenLengthOfWord(w, tail);
      assert s[..|w|] == w && s[|w|..] == tail;
      assert SplitWhitespace(s) == [w] + SplitWhitespace(tail);
      assert tail[0] == ' ' && tail[1..] == Unwords(words[1..]);
      assert SplitWhitespace(tail) == SplitWhitespace(Unwords(words[1..]));
      SplitUnwords(words[1..]);
      assert words == [w] + words[1..];
    }
  }

  /** Space-joined words make one line, with no carriage return at its end. */
  lemma {:induction false} UnwordsLine(words: seq<string>)
    requires forall k :: 0 <= k < |words| ==> words[k] != [] && NoWhitespace(words[k])
    ensures NoLineBreak(Unwords(words))
    ensures words != [] ==> Unwords(words) != []
  {
    if |words| > 1 {
      UnwordsLine(words[1..]);
      var w, rest := words[0], Unwords(words[1..]);
      assert w[0] != '\n';
      forall k | 0 <= k < |w + " " + rest|
        ensures (w + " " + rest)[k] != '\n'
      {
        if k < |w| { assert (w + " " + rest)[k] == w[k]; }
      }
    } else if |words| == 1 {
      assert words[0][|words[0]| - 1] != '\r';
    }
  }

  /** A text that `lines` returns whole. */
  predicate NoLineBreak(s: string)
  {
    '\n' !in s && !EndsWith(s, '\r')
  }

  /** Drops one carriage return that ends a line. */
  function StripCarriageReturn(line: string): string
  {
    if EndsWith(line, '\r') then line[..|line| - 1] else line
  }

  /** Rust's `str::lines`: split at `\n`, strip a `\r` before it, and produce
      no empty last line for a text that ends with a line break. */
  function Lines(s: string): (lines: seq<string>)
    ensures forall k :: 0 <= k < |lines| ==> '\n' !in lines[k]
    decreases |s|
  {
    if s == [] then []
    else
      var i := IndexOf(s, '\n');
      if i == |s| then [s] else [StripCarriageReturn(s[..i])] + Lines(s[i + 1..])
  }

  /** Searching past a prefix that does not contain the character. */
  lemma {:induction false} IndexOfAfter(a: string, rest: string, c: char)
    requires c !in a
    ensures IndexOf(a + rest, c) == |a| + IndexOf(rest, c)
  {
    if a != [] {
      assert (a + rest)[1..] == a[1..] + rest;
      IndexOfAfter(a[1..], rest, c);
    } else {
      assert a + rest == rest;
    }
  }

  /** Two lines joined by a line break come apart again. */
  lemma LinesOfTwo(a: string, b: string)
    requires NoLineBreak(a) && NoLineBreak(b) && b != []
    ensures Lines(a + "\n" + b) == [a, b]
  {
    LinesCons(a, b);
    LinesSingle(b);
  }

  /** A line followed by a line break comes off the front of the text. */
  lemma LinesCons(a: string, rest: string)
    requires NoLineBreak(a)
    ensures Lines(a + "\n" + rest) == [a] + Lines(rest)
  {
    var s := a + "\n" + rest;
    IndexOfAfter(a, "\n" + rest, '\n');
    assert s == a + ("\n" + rest);
    assert IndexOf("\n" + rest, '\n') == 0;
    assert IndexOf(s, '\n') == |a|;
    assert s[..|a|] == a && s[|a| + 1..] == rest;
    assert StripCarriageReturn(a) == a;
  }

  /** Text without a line break is one line. */
  lemma LinesSingle(b: string)
    requires '\n' !in b && b != []
    ensures Lines(b) == [b]
  {
    IndexOfAfter(b, [], '\n');
    assert b + [] == b;
  }

  // ---------------------------------------------------------------------
  // Decimal numbers (`str::parse::<u32>()`, `::<u64>()`, `::<i32>()`)

  /** Value of a string of decimal digits, most significant first. */
  function DecimalValue(s: string): nat
    requires AllDigits(s)
  {
    if s == [] then 0 else 10 * DecimalValue(s[..|s| - 1]) + DigitValue(s[|s| - 1])
  }

  function Pow10(n: nat): (p: nat)
    ensures p >= 1
  {
    if n == 0 then 1 else 10 * Pow10(n - 1)
  }

  /** A run of digits is less than 10 to the power of its length. */
  lemma {:induction false} DecimalValueBound(s: string)
    requires AllDigits(s)
    ensures DecimalValue(s) < Pow10(|s|)
  {
    if s != [] { DecimalValueBound(s[..|s| - 1]); }
  }

  /** Concatenating two runs of digits shifts the first by the length of the second. */
  lemma {:induction false} DecimalValueConcat(a: string, b: string)
    requires AllDigits(a) && AllDigits(b)
    ensures AllDigits(a + b)
    ensures DecimalValue(a + b) == DecimalValue(a) * Pow10(|b|) + DecimalValue(b)
    decreases |b|
  {
    if b == [] {
      assert a + b == a;
    } else {
      var b' := b[..|b| - 1];
      assert (a + b)[..|a + b| - 1] == a + b';
      DecimalValueConcat(a, b');
      var x, p, y, d := DecimalValue(a), Pow10(|b'|), DecimalValue(b'), DigitValue(b[|b| - 1]);
      assert DecimalValue(a + b) == 10 * (x * p + y) + d;
      assert Pow10(|b|) == 10 * p;
      assert DecimalValue(b) == 10 * y + d;
      ShiftDigit(x, p, y, d);
    }
  }

  lemma ShiftDigit(x: int, p: int, y: int, d: int)
    ensures 10 * (x * p + y) + d == x * (10 * p) + (10 * y + d)
  {
  }

  /** Rust's unsigned `from_str`: an optional `+`, then at least one digit,
      and a value below the width's limit. */
  function ParseUnsigned(s: string, limit: nat): (r: Option<nat>)
    ensures r.Some? ==> r.value < limit
  {
    var digits := if |s| > 0 && s[0] == '+' then s[1..] else s;
    if digits != [] && AllDigits(digits) && DecimalValue(digits) < limit
    then Some(DecimalValue(digits))
    else None
  }

  /** Rust's `i32::from_str`: an optional `+` or `-`, then at least one digit,
      and a value in range. */
  function ParseI32(s: string): (r: Option<int>)
    ensures r.Some? ==> I32_MIN <= r.value <= I32_MAX
  {
    var negative := |s| > 0 && s[0] == '-';
    var digits := if |s| > 0 && (s[0] == '+' || s[0] == '-') then s[1..] else s;
    if digits == [] || !AllDigits(digits) then None
    else
      var v := if negative then -(DecimalValue(digits) as int) else DecimalValue(digits) as int;
      if I32_MIN <= v <= I32_MAX then Some(v) else None
  }

  function ParseU32(s: string): Option<nat> { ParseUnsigned(s, U32_LIMIT) }

  function ParseU64(s: string): Option<nat> { ParseUnsigned(s, U64_LIMIT) }

  /** Decimal rendering of a natural number, without leading zeros. */
  function ToDecimal(n: nat): (s: string)
    ensures AllDigits(s) && s != []
  {
    if n < 10 then [('0' as int + n) as char] else ToDecimal(n / 10) + [('0' as int + n % 10) as char]
  }

  /** Parsing undoes rendering for every value below the limit. */
  lemma {:induction false} ParseToDecimal(n: nat, limit: nat)
    requires n < limit
    ensures ParseUnsigned(ToDecimal(n), limit) == Some(n)
  {
    DecimalValueOfToDecimal(n);
  }

  lemma {:induction false} DecimalValueOfToDecimal(n: nat)
    ensures DecimalValue(ToDecimal(n)) == n
  {
    var s := ToDecimal(n);
    if n >= 10 {
      DecimalValueOfToDecimal(n / 10);
      assert s[..|s| - 1] == ToDecimal(n / 10);
    }
  }
}
