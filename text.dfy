/** Python's whitespace handling on entry-field text, as the connection code
    uses it: `str.strip()` to blank-check and clean every field, and
    `str.split()` to break the additional-options field into tokens. */
module Text {

  /** Python's `str.isspace()` for one character: the ASCII separators
      TAB..CR, FS..US and SPACE, plus NEL, NBSP and the Unicode space
      separators and line/paragraph separators. */
  predicate IsSpace(c: char) {
    var n := c as int;
    (0x09 <= n <= 0x0D) || (0x1C <= n <= 0x20) || n == 0x85 || n == 0xA0 || n == 0x1680
    || (0x2000 <= n <= 0x200A) || n == 0x2028 || n == 0x2029 || n == 0x202F
    || n == 0x205F || n == 0x3000
  }

  predicate AllSpace(s: string) {
    forall i :: 0 <= i < |s| ==> IsSpace(s[i])
  }

  /** A non-empty run of non-space characters: what `str.split()` yields. */
  predicate IsWord(t: string) {
    t != [] && forall i :: 0 <= i < |t| ==> !IsSpace(t[i])
  }

  /** `s` with its leading whitespace removed (Python's `lstrip()`). */
  function TrimStart(s: string): (r: string)
    ensures |r| <= |s|
    ensures r == [] || !IsSpace(r[0])
  {
    if s != [] && IsSpace(s[0]) then TrimStart(s[1..]) else s
  }

  /** `TrimStart` cuts a run of whitespace off the front of `s`. */
  lemma {:induction false} TrimStartCutsSpace(s: string)
    ensures var r := TrimStart(s); r == s[|s| - |r|..] && AllSpace(s[..|s| - |r|])
  {
    if s != [] && IsSpace(s[0]) {
      var r := TrimStart(s[1..]);
      TrimStartCutsSpace(s[1..]);
      assert s[..|s| - |r|] == [s[0]] + s[1..][..|s| - 1 - |r|];
    }
  }

  /** `s` with its trailing whitespace removed (Python's `rstrip()`). */
  function TrimEnd(s: string): (r: string)
    ensures |r| <= |s|
    ensures r == [] || !IsSpace(r[|r| - 1])
  {
    if s != [] && IsSpace(s[|s| - 1]) then TrimEnd(s[..|s| - 1]) else s
  }

  /** `TrimEnd` cuts a run of whitespace off the back of `s`. */
  lemma {:induction false} TrimEndCutsSpace(s: string)
    ensures var r := TrimEnd(s); r == s[..|r|] && AllSpace(s[|r|..])
  {
    if s != [] && IsSpace(s[|s| - 1]) {
      var r := TrimEnd(s[..|s| - 1]);
      TrimEndCutsSpace(s[..|s| - 1]);
      assert s[|r|..] == s[..|s| - 1][|r|..] + [s[|s| - 1]];
    }
  }

  /** Python's `str.strip()`: `s` without its leading and trailing
      whitespace; when not empty it starts and ends with a non-space
      character. */
  function Strip(s: string): (r: string)
    ensures |r| <= |s|
    ensures r != [] ==> !IsSpace(r[0]) && !IsSpace(r[|r| - 1])
  {
    var t := TrimStart(s);
    TrimEndCutsSpace(t);
    TrimEnd(t)
  }

  /** Python's `not s.strip()`: the field holds nothing but whitespace. */
  predicate IsBlank(s: string) {
    Strip(s) == []
  }

  /** A field is blank (`not s.strip()`) exactly when every character of it
      is whitespace. */
  lemma BlankIffAllSpace(s: string)
    ensures IsBlank(s) <==> AllSpace(s)
  {
    var t := TrimStart(s);
    TrimStartCutsSpace(s);
    TrimEndCutsSpace(t);
    if Strip(s) == [] {
      assert t == [] && s[..|s|] == s;
    } else {
      var i := |s| - |t|;
      assert s[i] == t[0] == Strip(s)[0];
    }
  }

  /** What `Strip` removes is whitespace only: the stripped text sits in
      `s` between a run of whitespace on either side. */
  lemma StripCutsOnlySpace(s: string)
    ensures var i, r := |s| - |TrimStart(s)|, Strip(s);
            && i + |r| <= |s| && s[i..i + |r|] == r
            && AllSpace(s[..i]) && AllSpace(s[i + |r|..])
  {
    var t := TrimStart(s);
    var r := Strip(s);
    var i := |s| - |t|;
    assert r == TrimEnd(t);
    TrimStartCutsSpace(s);
    TrimEndCutsSpace(t);
    SliceOfSuffix(s, t, i, |r|);
    assert s[i + |r|..] == t[|r|..];
    assert AllSpace(s[..i]);
  }

  /** Slices of a suffix `t == s[i..]` are slices of `s`. */
  lemma SliceOfSuffix(s: string, t: string, i: nat, n: nat)
    requires i <= |s| && t == s[i..] && n <= |t|
    ensures s[i..i + n] == t[..n] && s[i + n..] == t[n..]
  {
  }

  /** Length of the run of non-space characters that starts `s`. */
  function WordLength(s: string): (n: nat)
    ensures n <= |s|
    ensures forall i :: 0 <= i < n ==> !IsSpace(s[i])
    ensures n < |s| ==> IsSpace(s[n])
  {
    if s == [] || IsSpace(s[0]) then 0 else 1 + WordLength(s[1..])
  }

  /** The characters of `s` that are not whitespace, in order. */
  function NonSpace(s: string): string {
    if s == [] then [] else (if IsSpace(s[0]) then [] else [s[0]]) + NonSpace(s[1..])
  }

  /** The strings of `ts` written one after the other. */
  function Concat(ts: seq<string>): string {
    if ts == [] then [] else ts[0] + Concat(ts[1..])
  }

  lemma {:induction false} NonSpaceOfWordPrefix(s: string, n: nat)
    requires n <= |s|
    requires forall i :: 0 <= i < n ==> !IsSpace(s[i])
    ensures NonSpace(s) == s[..n] + NonSpace(s[n..])
  {
    if n > 0 {
      NonSpaceOfWordPrefix(s[1..], n - 1);
      assert s[1..][n - 1..] == s[n..];
      assert s[..n] == [s[0]] + s[1..][..n - 1];
    }
  }

  /** Python's `str.split()` with no argument: the maximal runs of
      non-space characters of `s`, in order. Every token is a word, and the
      tokens together hold exactly the non-space characters of `s`. */
  function Split(s: string): (r: seq<string>)
    ensures forall i :: 0 <= i < |r| ==> IsWord(r[i])
    ensures Concat(r) == NonSpace(s)
    decreases |s|
  {
    if s == [] then []
    else if IsSpace(s[0]) then Split(s[1..])
    else
      var n := WordLength(s);
      NonSpaceOfWordPrefix(s, n);
      var rest := Split(s[n..]);
      assert ([s[..n]] + rest)[1..] == rest;
      [s[..n]] + rest
  }

  /** The words of `ts` with the runs of whitespace `gaps` around and
      between them: `gaps[0] + ts[0] + gaps[1] + ... + ts[n-1] + gaps[n]`. */
  function Spaced(ts: seq<string>, gaps: seq<string>): string
    requires |gaps| == |ts| + 1
  {
    if ts == [] then gaps[0] else gaps[0] + ts[0] + Spaced(ts[1..], gaps[1..])
  }

  /** Gaps between words: whitespace only, and at least one character
      between two words; the gaps before the first word and after the last
      may be empty. */
  predicate Separators(gaps: seq<string>) {
    (forall i :: 0 <= i < |gaps| ==> AllSpace(gaps[i]))
    && forall i :: 0 < i < |gaps| - 1 ==> gaps[i] != []
  }

  lemma {:induction false} WordLengthOfJoin(t: string, rest: string)
    requires IsWord(t)
    requires rest == [] || IsSpace(rest[0])
    ensures WordLength(t + rest) == |t|
    decreases |t|
  {
    if |t| > 1 {
      assert IsWord(t[1..]) by {
        forall i | 0 <= i < |t[1..]| ensures !IsSpace(t[1..][i]) { assert t[1..][i] == t[i + 1]; }
      }
      WordLengthOfJoin(t[1..], rest);
      assert (t + rest)[1..] == t[1..] + rest;
    } else {
      assert (t + rest)[1..] == rest;
    }
  }

  /** Whitespace at the start of the text adds no token. */
  lemma {:induction false} SplitLeadingSpace(w: string, s: string)
    requires AllSpace(w)
    ensures Split(w + s) == Split(s)
    decreases |w|
  {
    if w != [] {
      assert (w + s)[0] == w[0] && (w + s)[1..] == w[1..] + s;
      assert AllSpace(w[1..]) by {
        forall i | 0 <= i < |w[1..]| ensures IsSpace(w[1..][i]) { assert w[1..][i] == w[i + 1]; }
      }
      SplitLeadingSpace(w[1..], s);
    } else {
      assert w + s == s;
    }
  }

  /** A word followed by whitespace or by nothing is one whole token. */
  lemma SplitOfWord(t: string, rest: string)
    requires IsWord(t)
    requires rest == [] || IsSpace(rest[0])
    ensures Split(t + rest) == [t] + Split(rest)
  {
    WordLengthOfJoin(t, rest);
    assert (t + rest)[..|t|] == t;
    assert (t + rest)[|t|..] == rest;
  }

  /** `Split` cuts exactly at whitespace and keeps every maximal run of
      non-space characters whole: words separated by any non-empty runs of
      whitespace, with any whitespace before and after, split back into
      exactly those words. */
  lemma {:induction false} SplitSpaced(ts: seq<string>, gaps: seq<string>)
    requires |gaps| == |ts| + 1
    requires forall i :: 0 <= i < |ts| ==> IsWord(ts[i])
    requires Separators(gaps)
    ensures Split(Spaced(ts, gaps)) == ts
  {
    if ts == [] {
      SplitAllSpace(gaps[0]);
    } else {
      var t, rest := ts[0], Spaced(ts[1..], gaps[1..]);
      assert Separators(gaps[1..]) by {
        forall i | 0 <= i < |gaps[1..]| ensures AllSpace(gaps[1..][i]) { assert gaps[1..][i] == gaps[i + 1]; }
        forall i | 0 < i < |gaps[1..]| - 1 ensures gaps[1..][i] != [] { assert gaps[1..][i] == gaps[i + 1]; }
      }
      assert forall i :: 0 <= i < |ts[1..]| ==> IsWord(ts[1..][i]) by {
        forall i | 0 <= i < |ts[1..]| ensures IsWord(ts[1..][i]) { assert ts[1..][i] == ts[i + 1]; }
      }
      SplitSpaced(ts[1..], gaps[1..]);
      if |ts| > 1 {
        assert gaps[1] != [] && AllSpace(gaps[1]);
        assert rest[0] == gaps[1][0];
      }
      assert IsWord(t);
      SplitOfWord(t, rest);
      assert Spaced(ts, gaps) == gaps[0] + (t + rest);
      SplitLeadingSpace(gaps[0], t + rest);
      assert [t] + ts[1..] == ts;
    }
  }

  /** Whitespace at the end of the text adds no token. */
  lemma {:induction false} SplitTrailingSpace(a: string, w: string)
    requires AllSpace(w)
    ensures Split(a + w) == Split(a)
    decreases |a|
  {
    if a == [] {
      SplitAllSpace(w);
      assert a + w == w;
    } else if IsSpace(a[0]) {
      assert (a + w)[1..] == a[1..] + w;
      SplitTrailingSpace(a[1..], w);
    } else {
      var n := WordLength(a);
      if n < |a| {
        assert WordLength(a + w) == n by { WordLengthOfPrefix(a, w); }
      } else {
        assert WordLength(a + w) == n by { WordLengthOfPrefix(a, w); }
      }
      assert (a + w)[..n] == a[..n];
      assert (a + w)[n..] == a[n..] + w;
      SplitTrailingSpace(a[n..], w);
    }
  }

  lemma {:induction false} WordLengthOfPrefix(a: string, w: string)
    requires AllSpace(w)
    ensures WordLength(a + w) == WordLength(a)
    decreases |a|
  {
    if a == [] {
      assert a + w == w;
    } else if !IsSpace(a[0]) {
      assert (a + w)[1..] == a[1..] + w;
      WordLengthOfPrefix(a[1..], w);
    }
  }

  /** A text of nothing but whitespace has no tokens. */
  lemma {:induction false} SplitAllSpace(w: string)
    requires AllSpace(w)
    ensures Split(w) == []
    decreases |w|
  {
    if w != [] {
      assert AllSpace(w[1..]) by {
        forall i | 0 <= i < |w[1..]| ensures IsSpace(w[1..][i]) { assert w[1..][i] == w[i + 1]; }
      }
      SplitAllSpace(w[1..]);
    }
  }

  /** Whitespace at the start of the text adds no token. */
  lemma {:induction false} SplitOfTrimStart(s: string)
    ensures Split(TrimStart(s)) == Split(s)
    decreases |s|
  {
    if s != [] && IsSpace(s[0]) {
      SplitOfTrimStart(s[1..]);
    }
  }

  /** Stripping before splitting changes nothing: the mount command's
      `additional_opts.strip()` followed by `.split()` yields `Split` of the
      raw field. */
  lemma SplitOfStrip(s: string)
    ensures Split(Strip(s)) == Split(s)
  {
    var t := TrimStart(s);
    var r := TrimEnd(t);
    TrimEndCutsSpace(t);
    assert t == r + t[|r|..];
    SplitTrailingSpace(r, t[|r|..]);
    SplitOfTrimStart(s);
  }
}
