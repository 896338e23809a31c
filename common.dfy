/** Helpers shared by the relay and the mobile app: an Option type, the
    whitespace set JavaScript uses for `String.prototype.trim` and for the
    regular-expression class `\s`, ASCII case folding, and device-id
    normalisation (lower-case, then trim). */
module Common {

  datatype Option<+T> = None | Some(value: T) {
    function GetOr(default: T): T {
      match this
      case Some(v) => v
      case None => default
    }
  }

  /** The characters JavaScript counts as white space or line terminators:
      what `trim` strips and what `\s` matches. */
  predicate IsWhitespace(c: char) {
    || c == '\t' || c == '\n' || c == '\U{000B}' || c == '\U{000C}' || c == '\r'
    || c == ' ' || c == '\U{00A0}' || c == '\U{1680}'
    || ('\U{2000}' <= c <= '\U{200A}')
    || c == '\U{2028}' || c == '\U{2029}' || c == '\U{202F}' || c == '\U{205F}'
    || c == '\U{3000}' || c == '\U{FEFF}'
  }

  predicate AllWhitespace(s: string) {
    forall i :: 0 <= i < |s| ==> IsWhitespace(s[i])
  }

  /** ASCII case folding: 'A'..'Z' become 'a'..'z', everything else stays. */
  function LowerChar(c: char): char {
    if 'A' <= c <= 'Z' then (c as int + 32) as char else c
  }

  function AsciiLower(s: string): string {
    seq(|s|, i requires 0 <= i < |s| => LowerChar(s[i]))
  }

  predicate IsLower(s: string) {
    forall i :: 0 <= i < |s| ==> LowerChar(s[i]) == s[i]
  }

  /** Drops the leading white space. */
  function TrimStart(s: string): string {
    if s != [] && IsWhitespace(s[0]) then TrimStart(s[1..]) else s
  }

  /** `TrimStart` keeps a suffix, drops only white space, and leaves a
      string that does not start with white space. */
  lemma {:induction false} TrimStartSpec(s: string)
    ensures var r := TrimStart(s);
      && |r| <= |s| && r == s[|s| - |r|..]
      && AllWhitespace(s[..|s| - |r|])
      && (r == [] || !IsWhitespace(r[0]))
  {
    if s != [] && IsWhitespace(s[0]) {
      var tail := s[1..];
      TrimStartSpec(tail);
      var r := TrimStart(s);
      var k := |tail| - |r|;
      assert s[..k + 1] == [s[0]] + tail[..k];
      WhitespaceConcat([s[0]], tail[..k]);
      assert tail[k..] == s[k + 1..];
    }
  }

  /** Drops the trailing white space. */
  function TrimEnd(s: string): string {
    if s != [] && IsWhitespace(s[|s| - 1]) then TrimEnd(s[..|s| - 1]) else s
  }

  /** `TrimEnd` keeps a prefix, drops only white space, and leaves a
      string that does not end with white space. */
  lemma {:induction false} TrimEndSpec(s: string)
    ensures var r := TrimEnd(s);
      && |r| <= |s| && r == s[..|r|]
      && AllWhitespace(s[|r|..])
      && (r == [] || !IsWhitespace(r[|r| - 1]))
  {
    if s != [] && IsWhitespace(s[|s| - 1]) {
      var init := s[..|s| - 1];
      TrimEndSpec(init);
      var r := TrimEnd(s);
      assert s[|r|..] == init[|r|..] + [s[|s| - 1]];
      WhitespaceConcat(init[|r|..], [s[|s| - 1]]);
      assert init[..|r|] == s[..|r|];
    }
  }

  /** `String.prototype.trim`. */
  function Trim(s: string): string {
    TrimEnd(TrimStart(s))
  }

  /** registry.ts `normalizeDeviceId`: `raw.toLowerCase().trim()`. */
  function NormalizeDeviceId(raw: string): string {
    Trim(AsciiLower(raw))
  }

  predicate IsNormalized(id: string) {
    NormalizeDeviceId(id) == id
  }

  /** Where the trimmed part starts inside the original string. */
  function TrimOffset(s: string): nat {
    TrimStartSpec(s);
    |s| - |TrimStart(s)|
  }

  /** The trimmed string is the original with white space cut from both
      ends, and it starts and ends with a non-white-space character. */
  lemma TrimSplits(s: string)
    ensures var k, r := TrimOffset(s), Trim(s);
      && k + |r| <= |s|
      && s[k..k + |r|] == r
      && AllWhitespace(s[..k]) && AllWhitespace(s[k + |r|..])
      && (r == [] || (!IsWhitespace(r[0]) && !IsWhitespace(r[|r| - 1])))
  {
    var u := TrimStart(s);
    var r := TrimEnd(u);
    TrimStartSpec(s);
    TrimEndSpec(u);
    var k := |s| - |u|;
    assert u == s[k..];
    assert r == u[..|r|];
    assert s[k + |r|..] == u[|r|..];
    if r != [] {
      assert r[0] == u[0];
    }
  }

  lemma {:induction false} TrimStartOfPadded(w: string, r: string)
    requires AllWhitespace(w)
    requires r == [] || !IsWhitespace(r[0])
    ensures TrimStart(w + r) == r
  {
    if w != [] {
      assert (w + r)[1..] == w[1..] + r;
      TrimStartOfPadded(w[1..], r);
    } else {
      assert w + r == r;
    }
  }

  lemma {:induction false} TrimEndOfPadded(r: string, w: string)
    requires AllWhitespace(w)
    requires r == [] || !IsWhitespace(r[|r| - 1])
    ensures TrimEnd(r + w) == r
  {
    if w != [] {
      var n := |r + w|;
      assert (r + w)[..n - 1] == r + w[..|w| - 1];
      assert (r + w)[n - 1] == w[|w| - 1];
      TrimEndOfPadded(r, w[..|w| - 1]);
    } else {
      assert r + w == r;
    }
  }

  /** Trim is determined by its characterisation: cutting any white-space
      padding off a string with non-white-space ends gives that string. */
  lemma TrimOfPadded(w1: string, r: string, w2: string)
    requires AllWhitespace(w1) && AllWhitespace(w2)
    requires r == [] || (!IsWhitespace(r[0]) && !IsWhitespace(r[|r| - 1]))
    ensures Trim(w1 + r + w2) == r
  {
    if r == [] {
      assert w1 + r + w2 == w1 + w2;
      assert AllWhitespace(w1 + w2);
      TrimStartOfPadded(w1 + w2, []);
      assert (w1 + w2) + [] == w1 + w2;
    } else {
      assert w1 + r + w2 == w1 + (r + w2);
      TrimStartOfPadded(w1, r + w2);
      TrimEndOfPadded(r, w2);
    }
  }

  lemma TrimIdempotent(s: string)
    ensures Trim(Trim(s)) == Trim(s)
  {
    var r := Trim(s);
    TrimSplits(s);
    assert [] + r + [] == r;
    TrimOfPadded([], r, []);
  }

  /** `s.trim() === ''` exactly when `s` is all white space. */
  lemma TrimEmptyIffAllWhitespace(s: string)
    ensures Trim(s) == [] <==> AllWhitespace(s)
  {
    TrimSplits(s);
    if AllWhitespace(s) {
      assert s + [] + [] == s;
      TrimOfPadded(s, [], []);
    }
  }

  lemma LowerOfLower(s: string)
    requires IsLower(s)
    ensures AsciiLower(s) == s
  {
  }

  lemma LowerIsLower(s: string)
    ensures IsLower(AsciiLower(s))
  {
    forall i | 0 <= i < |s|
      ensures LowerChar(AsciiLower(s)[i]) == AsciiLower(s)[i]
    {
      var c := s[i];
      if 'A' <= c <= 'Z' {
        assert 'a' <= LowerChar(c) <= 'z';
      }
    }
  }

  lemma SliceOfLower(s: string, i: nat, j: nat)
    requires IsLower(s) && i <= j <= |s|
    ensures IsLower(s[i..j])
  {
    assert forall k :: 0 <= k < j - i ==> s[i..j][k] == s[i + k];
  }

  lemma LowerConcat(a: string, b: string)
    ensures AsciiLower(a + b) == AsciiLower(a) + AsciiLower(b)
  {
  }

  lemma LowerOfWhitespace(w: string)
    requires AllWhitespace(w)
    ensures AsciiLower(w) == w
  {
  }

  /** registry.ts:11-13: normalising an already normalised id changes
      nothing, so ids stored under their normal form are found again. */
  lemma NormalizeIdempotent(raw: string)
    ensures IsNormalized(NormalizeDeviceId(raw))
  {
    var l := AsciiLower(raw);
    var n := Trim(l);
    TrimSplits(l);
    LowerIsLower(raw);
    SliceOfLower(l, TrimOffset(l), TrimOffset(l) + |n|);
    LowerOfLower(n);
    TrimIdempotent(l);
  }

  /** The normal form is lower-case and has no white space at either end. */
  lemma NormalizedShape(raw: string)
    ensures var n := NormalizeDeviceId(raw);
      IsLower(n) && (n == [] || (!IsWhitespace(n[0]) && !IsWhitespace(n[|n| - 1])))
  {
    var l := AsciiLower(raw);
    TrimSplits(l);
    LowerIsLower(raw);
    SliceOfLower(l, TrimOffset(l), TrimOffset(l) + |Trim(l)|);
  }

  /** Ids that differ only in ASCII letter case or in white space around
      them have the same normal form (registry.ts:11-13, 19-24). */
  lemma NormalizeIgnoresCaseAndPadding(a: string, b: string, w1: string, w2: string)
    requires AsciiLower(a) == AsciiLower(b)
    requires AllWhitespace(w1) && AllWhitespace(w2)
    ensures NormalizeDeviceId(w1 + a + w2) == NormalizeDeviceId(b)
  {
    var t := AsciiLower(b);
    assert AsciiLower(w1 + a + w2) == w1 + t + w2 by {
      LowerConcat(w1 + a, w2);
      LowerConcat(w1, a);
      LowerOfWhitespace(w1);
      LowerOfWhitespace(w2);
    }
    TrimIgnoresPadding(w1, t, w2);
  }

  lemma TrimIgnoresPadding(w1: string, t: string, w2: string)
    requires AllWhitespace(w1) && AllWhitespace(w2)
    ensures Trim(w1 + t + w2) == Trim(t)
  {
    TrimSplits(t);
    var r := Trim(t);
    var k := TrimOffset(t);
    var p, q := t[..k], t[k + |r|..];
    assert t == p + t[k..];
    assert t[k..] == r + q;
    var left, right := w1 + p, q + w2;
    WhitespaceConcat(w1, p);
    WhitespaceConcat(q, w2);
    Regroup(w1, p, r, q, w2);
    TrimOfPadded(left, r, right);
  }

  lemma Regroup(a: string, b: string, c: string, d: string, e: string)
    ensures a + (b + (c + d)) + e == (a + b) + c + (d + e)
  {
  }

  lemma WhitespaceConcat(a: string, b: string)
    requires AllWhitespace(a) && AllWhitespace(b)
    ensures AllWhitespace(a + b)
  {
  }
}
