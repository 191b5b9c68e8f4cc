/** String helpers the chat session relies on: Python's `in` on strings
    (substring search), `str.strip()` and `str.lower()`, restricted to ASCII. */
module Text {

  /** A character Python's `str.strip()` removes, among the ASCII ones:
      tab, line feed, vertical tab, form feed, carriage return,
      the four information separators 0x1C-0x1F, and space. */
  predicate IsSpace(c: char) {
    (9 <= c as int <= 13) || (28 <= c as int <= 32)
  }

  predicate AllSpace(t: string) {
    forall k :: 0 <= k < |t| ==> IsSpace(t[k])
  }

  // ---------------------------------------------------------------------------
  // Substring search (`pat in s`)
  // ---------------------------------------------------------------------------

  /** `pat` occurs in `s` at some position: the reference meaning of `pat in s`. */
  ghost predicate Occurs(pat: string, s: string) {
    exists i :: OccursAt(pat, s, i)
  }

  /** `pat` occurs in `s` starting at index `i`. */
  predicate OccursAt(pat: string, s: string, i: int) {
    0 <= i <= |s| - |pat| && s[i..i + |pat|] == pat
  }

  /** Stepping past the first character of `s` loses no occurrence of `pat`
      unless `pat` starts right there. */
  lemma {:induction false} OccursStep(pat: string, s: string)
    requires |pat| <= |s| && s[..|pat|] != pat
    ensures Occurs(pat, s) <==> Occurs(pat, s[1..])
  {
    if Occurs(pat, s) {
      var i :| OccursAt(pat, s, i);
      assert s[1..][i - 1..i - 1 + |pat|] == pat;
      assert OccursAt(pat, s[1..], i - 1);
    }
    if Occurs(pat, s[1..]) {
      var j :| OccursAt(pat, s[1..], j);
      assert s[j + 1..j + 1 + |pat|] == pat;
      assert OccursAt(pat, s, j + 1);
    }
  }

  /** Python's `pat in s`, decided by scanning `s` from the left. */
  function Contains(s: string, pat: string): bool
    decreases |s|
  {
    if |s| < |pat| then false
    else if StartsWith(s, pat) then true
    else Contains(s[1..], pat)
  }

  /** `pat` is a prefix of `s`, checked one character at a time. */
  function StartsWith(s: string, pat: string): bool {
    pat == [] || (s != [] && s[0] == pat[0] && StartsWith(s[1..], pat[1..]))
  }

  /** The character-wise check agrees with comparing the first `|pat|`
      characters of `s` with `pat`. */
  lemma {:induction false} StartsWithSpec(s: string, pat: string)
    ensures StartsWith(s, pat) <==> |pat| <= |s| && s[..|pat|] == pat
  {
    if pat != [] && s != [] {
      StartsWithSpec(s[1..], pat[1..]);
      if |pat| <= |s| {
        assert s[..|pat|] == [s[0]] + s[1..][..|pat| - 1];
        assert pat == [pat[0]] + pat[1..];
      }
    }
  }

  /** The scan finds `pat` exactly when it occurs somewhere in `s`. */
  lemma {:induction false} ContainsSpec(s: string, pat: string)
    ensures Contains(s, pat) <==> Occurs(pat, s)
    decreases |s|
  {
    if |s| < |pat| {
    } else if StartsWith(s, pat) {
      StartsWithSpec(s, pat);
      assert OccursAt(pat, s, 0);
    } else {
      StartsWithSpec(s, pat);
      OccursStep(pat, s);
      ContainsSpec(s[1..], pat);
    }
  }

  // ---------------------------------------------------------------------------
  // `str.strip()`
  // ---------------------------------------------------------------------------

  /** Removes leading whitespace. */
  function TrimStart(s: string): string {
    if s != [] && IsSpace(s[0]) then TrimStart(s[1..]) else s
  }

  /** Removes trailing whitespace. */
  function TrimEnd(s: string): string {
    if s != [] && IsSpace(s[|s| - 1]) then TrimEnd(s[..|s| - 1]) else s
  }

  /** `TrimStart` drops a leading run of whitespace and stops at the first
      other character. */
  lemma {:induction false} TrimStartSpec(s: string)
    ensures var r := TrimStart(s);
      |r| <= |s| && r == s[|s| - |r|..] && AllSpace(s[..|s| - |r|]) &&
      (r == [] || !IsSpace(r[0]))
  {
    if s != [] && IsSpace(s[0]) {
      TrimStartSpec(s[1..]);
      var r := TrimStart(s[1..]);
      assert s[..|s| - |r|] == [s[0]] + s[1..][..|s[1..]| - |r|];
    }
  }

  /** `TrimEnd` drops a trailing run of whitespace and stops at the last
      other character. */
  lemma {:induction false} TrimEndSpec(s: string)
    ensures var r := TrimEnd(s);
      |r| <= |s| && r == s[..|r|] && AllSpace(s[|r|..]) &&
      (r == [] || !IsSpace(r[|r| - 1]))
  {
    if s != [] && IsSpace(s[|s| - 1]) {
      TrimEndSpec(s[..|s| - 1]);
      var r := TrimEnd(s[..|s| - 1]);
      assert s[|r|..] == s[..|s| - 1][|r|..] + [s[|s| - 1]];
    }
  }

  /** `r` is what is left of `s` at offset `i` once all leading and trailing
      whitespace is gone: the reference meaning of `s.strip() == r`. */
  ghost predicate StrippedAt(s: string, i: int, r: string) {
    0 <= i && i + |r| <= |s| && s[i..i + |r|] == r &&
    AllSpace(s[..i]) && AllSpace(s[i + |r|..]) &&
    (r == [] || (!IsSpace(r[0]) && !IsSpace(r[|r| - 1])))
  }

  /** Python's `s.strip()` over ASCII whitespace. */
  function Strip(s: string): string {
    TrimEnd(TrimStart(s))
  }

  /** `Strip` removes exactly the surrounding whitespace. */
  lemma {:induction false} StripSpec(s: string)
    ensures StrippedAt(s, |s| - |TrimStart(s)|, Strip(s))
  {
    TrimStartSpec(s);
    TrimEndSpec(TrimStart(s));
    TrimmedBothEnds(s, |s| - |TrimStart(s)|, TrimStart(s), Strip(s));
  }

  /** Cutting a whitespace prefix off `s` to get `t`, then a whitespace suffix
      off `t` to get `r`, leaves `r` stripped out of `s`. */
  lemma {:induction false} TrimmedBothEnds(s: string, i: int, t: string, r: string)
    requires 0 <= i <= |s| && t == s[i..] && AllSpace(s[..i]) && (t == [] || !IsSpace(t[0]))
    requires |r| <= |t| && r == t[..|r|] && AllSpace(t[|r|..]) && (r == [] || !IsSpace(r[|r| - 1]))
    ensures StrippedAt(s, i, r)
  {
    assert s[i..i + |r|] == r;
    assert s[i + |r|..] == t[|r|..];
    assert r == [] || r[0] == t[0];
  }

  /** At most one string is `s` stripped of its surrounding whitespace. */
  lemma {:induction false} StrippedUnique(s: string, i: int, r: string, j: int, q: string)
    requires StrippedAt(s, i, r) && StrippedAt(s, j, q)
    ensures r == q
  {
    if r != [] && q != [] {
      assert i == j;
      assert |r| == |q|;
    }
  }

  /** A string with no surrounding whitespace is its own `strip()`. */
  lemma {:induction false} StripKeepsTrimmed(t: string)
    requires t == [] || (!IsSpace(t[0]) && !IsSpace(t[|t| - 1]))
    ensures Strip(t) == t
  {
    assert StrippedAt(t, 0, t) by {
      assert t[..0] == [] && t[|t|..] == [];
    }
    StripSpec(t);
    StrippedUnique(t, 0, t, |t| - |TrimStart(t)|, Strip(t));
  }

  /** Stripping twice is stripping once. */
  lemma {:induction false} StripIdempotent(s: string)
    ensures Strip(Strip(s)) == Strip(s)
  {
    StripSpec(s);
    StripKeepsTrimmed(Strip(s));
  }

  lemma {:induction false} AllSpaceAppend(a: string, b: string)
    requires AllSpace(a) && AllSpace(b)
    ensures AllSpace(a + b)
  {
    forall k | 0 <= k < |a + b| ensures IsSpace((a + b)[k]) {
      if k >= |a| { assert (a + b)[k] == b[k - |a|]; }
    }
  }

  /** Whitespace added around `s` moves the stripped part but keeps it whole. */
  lemma {:induction false} StrippedAtPadded(pre: string, s: string, post: string, i: int, r: string)
    requires AllSpace(pre) && AllSpace(post) && StrippedAt(s, i, r)
    ensures StrippedAt(pre + s + post, |pre| + i, r)
  {
    var t := pre + s + post;
    var j := |pre| + i;
    assert t[j..j + |r|] == s[i..i + |r|];
    assert t[..j] == pre + s[..i];
    AllSpaceAppend(pre, s[..i]);
    assert t[j + |r|..] == s[i + |r|..] + post;
    AllSpaceAppend(s[i + |r|..], post);
  }

  /** Surrounding whitespace never reaches the result of `strip()`. */
  lemma {:induction false} StripIgnoresPadding(pre: string, s: string, post: string)
    requires AllSpace(pre) && AllSpace(post)
    ensures Strip(pre + s + post) == Strip(s)
  {
    var t := pre + s + post;
    var r, q := Strip(s), Strip(t);
    var i, j := |s| - |TrimStart(s)|, |t| - |TrimStart(t)|;
    StripSpec(s);
    StripSpec(t);
    StrippedAtPadded(pre, s, post, i, r);
    StrippedUnique(t, |pre| + i, r, j, q);
  }

  // ---------------------------------------------------------------------------
  // `str.lower()`
  // ---------------------------------------------------------------------------

  function LowerChar(c: char): char {
    if 'A' <= c <= 'Z' then (c as int - 'A' as int + 'a' as int) as char else c
  }

  /** Python's `s.lower()` over ASCII letters. */
  function Lower(s: string): (r: string)
    ensures |r| == |s|
    ensures forall k :: 0 <= k < |s| ==> r[k] == LowerChar(s[k])
  {
    if s == [] then [] else [LowerChar(s[0])] + Lower(s[1..])
  }
}
