/**
 * Python's `str.strip()` with no argument, as used on the editor's
 * name and code inputs (main.py:99-100).
 */
module Text {

  /** The characters for which Python's `str.isspace()` holds; `strip()` removes exactly these. */
  predicate IsWhitespace(c: char)
  {
    ('\t' <= c <= '\r') || ('\U{1C}' <= c <= '\U{1F}') || c == ' '
    || c == '\U{85}' || c == '\U{A0}' || c == '\U{1680}'
    || ('\U{2000}' <= c <= '\U{200A}') || c == '\U{2028}' || c == '\U{2029}'
    || c == '\U{202F}' || c == '\U{205F}' || c == '\U{3000}'
  }

  predicate AllWhitespace(s: string)
  {
    forall i :: 0 <= i < |s| ==> IsWhitespace(s[i])
  }

  /** A non-empty string with no whitespace at either end. */
  predicate Clean(s: string)
  {
    s != [] && !IsWhitespace(s[0]) && !IsWhitespace(s[|s| - 1])
  }

  /** Drops the leading whitespace: the result is a suffix of `s` and only whitespace was dropped. */
  function TrimStart(s: string): (r: string)
    ensures |r| <= |s| && r == s[|s| - |r|..]
    ensures AllWhitespace(s[..|s| - |r|])
    ensures r == [] || !IsWhitespace(r[0])
  {
    if s != [] && IsWhitespace(s[0]) then
      var r := TrimStart(s[1..]);
      DropWhitespaceHead(s, r);
      r
    else
      s
  }

  /** Drops the trailing whitespace: the result is a prefix of `s` and only whitespace was dropped. */
  function TrimEnd(s: string): (r: string)
    ensures |r| <= |s| && r == s[..|r|]
    ensures AllWhitespace(s[|r|..])
    ensures r == [] || !IsWhitespace(r[|r| - 1])
  {
    if s != [] && IsWhitespace(s[|s| - 1]) then
      var r := TrimEnd(s[..|s| - 1]);
      DropWhitespaceLast(s, r);
      r
    else
      s
  }

  lemma {:induction false} DropWhitespaceHead(s: string, r: string)
    requires s != [] && IsWhitespace(s[0])
    requires |r| <= |s| - 1 && r == s[1..][|s| - 1 - |r|..]
    requires AllWhitespace(s[1..][..|s| - 1 - |r|])
    ensures r == s[|s| - |r|..] && AllWhitespace(s[..|s| - |r|])
  {
    var k := |s| - |r|;
    assert s[..k] == [s[0]] + s[1..][..k - 1];
    WhitespaceSplit([s[0]], s[1..][..k - 1]);
  }

  lemma {:induction false} DropWhitespaceLast(s: string, r: string)
    requires s != [] && IsWhitespace(s[|s| - 1])
    requires |r| <= |s| - 1 && r == s[..|s| - 1][..|r|]
    requires AllWhitespace(s[..|s| - 1][|r|..])
    ensures r == s[..|r|] && AllWhitespace(s[|r|..])
  {
    var p := s[..|s| - 1];
    assert s[|r|..] == p[|r|..] + [s[|s| - 1]];
    WhitespaceSplit(p[|r|..], [s[|s| - 1]]);
  }

  /** `s.strip()`: empty exactly when `s` is all whitespace, otherwise clean. */
  function Strip(s: string): (r: string)
    ensures |r| <= |s|
    ensures r == [] || Clean(r)
    ensures r == [] <==> AllWhitespace(s)
  {
    StripFacts(s);
    TrimEnd(TrimStart(s))
  }

  lemma {:induction false} StripFacts(s: string)
    ensures TrimEnd(TrimStart(s)) == [] <==> AllWhitespace(s)
    ensures TrimEnd(TrimStart(s)) == [] || Clean(TrimEnd(TrimStart(s)))
  {
    var t := TrimStart(s);
    var lead := s[..|s| - |t|];
    assert s == lead + t;
    WhitespaceSplit(lead, t);
    assert AllWhitespace(s) <==> AllWhitespace(t);
    var r := TrimEnd(t);
    if r == [] {
      assert t[|r|..] == t;
      assert AllWhitespace(t);
    } else {
      assert r[0] == t[0];
      assert !AllWhitespace(t) by { assert !IsWhitespace(t[0]); }
      assert Clean(r);
    }
  }

  /** A concatenation is all whitespace exactly when both parts are. */
  lemma {:induction false} WhitespaceSplit(a: string, b: string)
    ensures AllWhitespace(a + b) <==> AllWhitespace(a) && AllWhitespace(b)
  {
    var s := a + b;
    if AllWhitespace(a) && AllWhitespace(b) {
      forall i | 0 <= i < |s| ensures IsWhitespace(s[i]) {
        if i < |a| { assert s[i] == a[i]; } else { assert s[i] == b[i - |a|]; }
      }
    }
    if AllWhitespace(s) {
      forall i | 0 <= i < |b| ensures IsWhitespace(b[i]) { assert b[i] == s[|a| + i]; }
      forall i | 0 <= i < |a| ensures IsWhitespace(a[i]) { assert a[i] == s[i]; }
    }
  }

  /** Only whitespace is removed, and only at the two ends. */
  lemma {:induction false} StripSplits(s: string) returns (lead: string, trail: string)
    ensures s == lead + Strip(s) + trail
    ensures AllWhitespace(lead) && AllWhitespace(trail)
  {
    var t := TrimStart(s);
    var r := TrimEnd(t);
    lead := s[..|s| - |t|];
    trail := t[|r|..];
    Concat3(s, lead, t, r, trail);
  }

  lemma {:induction false} Concat3(s: string, lead: string, t: string, r: string, trail: string)
    requires |lead| <= |s| && lead == s[..|lead|] && t == s[|lead|..]
    requires |r| <= |t| && r == t[..|r|] && trail == t[|r|..]
    ensures s == lead + r + trail
  {
    assert t == r + trail;
    assert s == lead + t;
  }

  lemma {:induction false} TrimStartOfPadded(lead: string, x: string)
    requires AllWhitespace(lead)
    requires x == [] || !IsWhitespace(x[0])
    ensures TrimStart(lead + x) == x
  {
    if lead != [] {
      assert (lead + x)[1..] == lead[1..] + x;
      TrimStartOfPadded(lead[1..], x);
    } else {
      assert lead + x == x;
    }
  }

  lemma {:induction false} TrimEndOfPadded(x: string, trail: string)
    requires AllWhitespace(trail)
    requires x == [] || !IsWhitespace(x[|x| - 1])
    ensures TrimEnd(x + trail) == x
  {
    if trail != [] {
      var n := |trail| - 1;
      assert (x + trail)[..|x + trail| - 1] == x + trail[..n];
      TrimEndOfPadded(x, trail[..n]);
    } else {
      assert x + trail == x;
    }
  }

  /**
   * Strip is determined by the two facts above: whatever clean (or empty)
   * core is surrounded by whitespace, stripping yields exactly that core.
   */
  lemma {:induction false} StripUnique(lead: string, core: string, trail: string)
    requires AllWhitespace(lead) && AllWhitespace(trail)
    requires core == [] || Clean(core)
    ensures Strip(lead + core + trail) == core
  {
    var s := lead + core + trail;
    if core == [] {
      assert s == lead + trail;
      WhitespaceSplit(lead, trail);
    } else {
      assert s == lead + (core + trail);
      TrimStartOfPadded(lead, core + trail);
      TrimEndOfPadded(core, trail);
    }
  }

  lemma {:induction false} StripClean(s: string)
    requires Clean(s)
    ensures Strip(s) == s
  {
    assert [] + s + [] == s;
    StripUnique([], s, []);
  }

  lemma {:induction false} StripIdempotent(s: string)
    ensures Strip(Strip(s)) == Strip(s)
  {
    var r := Strip(s);
    assert [] + r + [] == r;
    StripUnique([], r, []);
  }
}
