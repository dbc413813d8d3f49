/**
 * The pieces of Rust's `str` API the gateway relies on: `trim`, `split(',')`,
 * `eq_ignore_ascii_case`, and the byte type used for frames and header values.
 */
module Strings {

  type byte = b: int | 0 <= b < 256

  /**
   * Rust's `char::is_whitespace`, the Unicode White_Space property: what
   * `str::trim` cuts off, and so a part of `Trim`.
   */
  predicate IsWhitespace(c: char) {
    var n := c as int;
    (0x09 <= n <= 0x0D) || n == 0x20 || n == 0x85 || n == 0xA0 || n == 0x1680
    || (0x2000 <= n <= 0x200A) || n == 0x2028 || n == 0x2029 || n == 0x202F
    || n == 0x205F || n == 0x3000
  }

  predicate AllWhitespace(s: string) {
    forall i :: 0 <= i < |s| ==> IsWhitespace(s[i])
  }

  /** Neither end of `s` is whitespace. */
  predicate IsTrimmed(s: string) {
    s == [] || (!IsWhitespace(s[0]) && !IsWhitespace(s[|s| - 1]))
  }

  /** The first half of `Trim`: `s` without its leading whitespace. */
  function TrimStart(s: string): (t: string)
    ensures |t| <= |s| && t == s[|s| - |t|..]
    ensures AllWhitespace(s[..|s| - |t|])
    ensures t != [] ==> !IsWhitespace(t[0])
  {
    if s != [] && IsWhitespace(s[0]) then
      var t := TrimStart(s[1..]);
      TrimStartStep(s, t);
      t
    else s
  }

  /** One leading whitespace character more is one more character cut off. */
  lemma {:induction false} TrimStartStep(s: string, t: string)
    requires s != [] && IsWhitespace(s[0]) && |t| <= |s| - 1
    requires t == s[1..][|s| - 1 - |t|..] && AllWhitespace(s[1..][..|s| - 1 - |t|])
    ensures t == s[|s| - |t|..] && AllWhitespace(s[..|s| - |t|])
  {
    WhitespacePrepend(s[0], s[1..][..|s| - 1 - |t|]);
    assert s[..|s| - |t|] == [s[0]] + s[1..][..|s| - 1 - |t|];
  }

  lemma {:induction false} WhitespacePrepend(c: char, w: string)
    requires IsWhitespace(c) && AllWhitespace(w)
    ensures AllWhitespace([c] + w)
  {
    forall i | 0 <= i < |[c] + w| ensures IsWhitespace(([c] + w)[i]) {
      if i > 0 { assert ([c] + w)[i] == w[i - 1]; }
    }
  }

  /** The second half of `Trim`: `s` without its trailing whitespace. */
  function TrimEnd(s: string): (t: string)
    ensures |t| <= |s| && t == s[..|t|]
    ensures AllWhitespace(s[|t|..])
    ensures t != [] ==> !IsWhitespace(t[|t| - 1])
  {
    if s != [] && IsWhitespace(s[|s| - 1]) then
      var t := TrimEnd(s[..|s| - 1]);
      TrimEndStep(s, t);
      t
    else s
  }

  /** One trailing whitespace character more is one more character cut off. */
  lemma {:induction false} TrimEndStep(s: string, t: string)
    requires s != [] && IsWhitespace(s[|s| - 1]) && |t| <= |s| - 1
    requires t == s[..|s| - 1][..|t|] && AllWhitespace(s[..|s| - 1][|t|..])
    ensures t == s[..|t|] && AllWhitespace(s[|t|..])
  {
    WhitespaceAppend(s[..|s| - 1][|t|..], s[|s| - 1]);
    assert s[|t|..] == s[..|s| - 1][|t|..] + [s[|s| - 1]];
  }

  lemma {:induction false} WhitespaceAppend(w: string, c: char)
    requires AllWhitespace(w) && IsWhitespace(c)
    ensures AllWhitespace(w + [c])
  {
    forall i | 0 <= i < |w + [c]| ensures IsWhitespace((w + [c])[i]) {
      if i < |w| { assert (w + [c])[i] == w[i]; }
    }
  }

  /** `str::trim`: `s` without whitespace at either end. */
  function Trim(s: string): (t: string)
    ensures IsTrimmed(t)
    ensures forall c :: c in t ==> c in s
  {
    var m := TrimStart(s);
    var t := TrimEnd(m);
    TrimEndOfTrimmedStart(m);
    CharsOfSlice(s, |s| - |m|, |s|);
    CharsOfSlice(m, 0, |t|);
    t
  }

  /**
   * What `Trim` keeps is one contiguous stretch of `s`, starting where the
   * leading whitespace ends.
   */
  lemma {:induction false} TrimIsSlice(s: string, m: string, t: string)
    requires m == TrimStart(s) && t == Trim(s)
    ensures |s| - |m| + |t| <= |s| && t == s[|s| - |m|..|s| - |m| + |t|]
  {
    TrimUnfolds(s);
    PrefixOfSuffix(s, m, t);
  }

  lemma {:induction false} TrimUnfolds(s: string)
    ensures |Trim(s)| <= |TrimStart(s)| && Trim(s) == TrimStart(s)[..|Trim(s)|]
  {
    assert Trim(s) == TrimEnd(TrimStart(s));
  }

  /** A prefix `t` of a suffix `m` of `s` is a slice of `s`. */
  lemma {:induction false} PrefixOfSuffix(s: string, m: string, t: string)
    requires |m| <= |s| && m == s[|s| - |m|..] && |t| <= |m| && t == m[..|t|]
    ensures |s| - |m| + |t| <= |s| && t == s[|s| - |m|..|s| - |m| + |t|]
  {
    SlicesOfSuffix(s, |s| - |m|, |t|);
  }

  /**
   * Only whitespace lies before and after that stretch; with `IsTrimmed`
   * this pins the result of `Trim`.
   */
  lemma {:induction false} TrimCutsOnlyWhitespace(s: string, m: string, t: string)
    requires m == TrimStart(s) && t == Trim(s)
    ensures |s| - |m| + |t| <= |s|
    ensures AllWhitespace(s[..|s| - |m|]) && AllWhitespace(s[|s| - |m| + |t|..])
  {
    assert t == TrimEnd(m);
    WhitespaceTailOfSuffix(s, m, |t|);
  }

  /** Whitespace at the end of a suffix `m` of `s` is whitespace at the end of `s`. */
  lemma {:induction false} WhitespaceTailOfSuffix(s: string, m: string, k: nat)
    requires |m| <= |s| && m == s[|s| - |m|..] && k <= |m| && AllWhitespace(m[k..])
    ensures AllWhitespace(s[|s| - |m| + k..])
  {
    SlicesOfSuffix(s, |s| - |m|, k);
  }

  /** The two halves of a suffix, as slices of the whole. */
  lemma {:induction false} SlicesOfSuffix(s: string, i: nat, k: nat)
    requires i + k <= |s|
    ensures s[i..][..k] == s[i..i + k] && s[i..][k..] == s[i + k..]
  {
  }

  /** Cutting the end off a string that starts with a non-blank trims it. */
  lemma {:induction false} TrimEndOfTrimmedStart(m: string)
    requires m != [] ==> !IsWhitespace(m[0])
    ensures IsTrimmed(TrimEnd(m))
  {
    var t := TrimEnd(m);
    if t != [] {
      assert t[0] == m[0];
    }
  }

  lemma {:induction false} CharsOfSlice(s: string, i: nat, j: nat)
    requires i <= j <= |s|
    ensures forall c :: c in s[i..j] ==> c in s
  {
    forall c | c in s[i..j] ensures c in s {
      var k :| 0 <= k < j - i && s[i..j][k] == c;
      assert s[i + k] == c;
    }
  }

  lemma {:induction false} TrimStartOfPadded(p: string, r: string)
    requires AllWhitespace(p)
    requires r == [] || !IsWhitespace(r[0])
    ensures TrimStart(p + r) == r
  {
    var s := p + r;
    var t := TrimStart(s);
    var k := |s| - |t|;
    assert forall i :: 0 <= i < k ==> IsWhitespace(s[i]) by {
      forall i | 0 <= i < k ensures IsWhitespace(s[i]) { assert s[..k][i] == s[i]; }
    }
    assert forall i :: 0 <= i < |p| ==> IsWhitespace(s[i]) by {
      forall i | 0 <= i < |p| ensures IsWhitespace(s[i]) { assert s[i] == p[i]; }
    }
    if r != [] { assert s[|p|] == r[0]; }
    if t != [] { assert s[k] == t[0]; }
    assert k == |p|;
  }

  lemma {:induction false} TrimEndOfPadded(r: string, q: string)
    requires AllWhitespace(q)
    requires r == [] || !IsWhitespace(r[|r| - 1])
    ensures TrimEnd(r + q) == r
  {
    var s := r + q;
    var t := TrimEnd(s);
    var n := |t|;
    assert n >= |r| by {
      if r != [] {
        assert s[|r| - 1] == r[|r| - 1];
        WhitespaceFrom(s, n);
      }
    }
    assert n <= |r| by {
      if t != [] {
        assert s[n - 1] == t[n - 1];
        assert forall i :: |r| <= i < |s| ==> s[i] == q[i - |r|];
      }
    }
    assert t == s[..|r|] == r;
  }

  lemma {:induction false} WhitespaceFrom(s: string, n: nat)
    requires n <= |s| && AllWhitespace(s[n..])
    ensures forall i :: n <= i < |s| ==> IsWhitespace(s[i])
  {
    forall i | n <= i < |s| ensures IsWhitespace(s[i]) {
      assert s[n..][i - n] == s[i];
    }
  }

  /**
   * Trimming is fully characterised: whatever whitespace surrounds a trimmed
   * string, `Trim` gives back exactly that string.
   */
  lemma {:induction false} TrimOfPadded(p: string, t: string, q: string)
    requires AllWhitespace(p) && AllWhitespace(q) && IsTrimmed(t)
    ensures Trim(p + t + q) == t
  {
    if t == [] {
      assert p + t + q == p + q;
      assert AllWhitespace(p + q);
      TrimStartOfPadded(p + q, []);
      assert p + q + [] == p + q;
    } else {
      assert p + t + q == p + (t + q);
      TrimStartOfPadded(p, t + q);
      TrimEndOfPadded(t, q);
    }
  }

  /** A trimmed string is its own trim. */
  lemma {:induction false} TrimOfTrimmed(t: string)
    requires IsTrimmed(t)
    ensures Trim(t) == t
  {
    assert [] + t + [] == t;
    TrimOfPadded([], t, []);
  }

  /** Leading whitespace alone is cut off a trimmed string. */
  lemma {:induction false} TrimOfLeftPadded(p: string, t: string)
    requires AllWhitespace(p) && IsTrimmed(t)
    ensures Trim(p + t) == t
  {
    assert p + t + [] == p + t;
    TrimOfPadded(p, t, []);
  }

  /** Trimming twice is trimming once. */
  lemma {:induction false} TrimIdempotent(s: string)
    ensures Trim(Trim(s)) == Trim(s)
  {
    TrimOfTrimmed(Trim(s));
  }

  /**
   * `str::split(sep)` collected into a vector: the pieces between separators,
   * always at least one (`""` splits into `[""]`).
   */
  function Split(s: string, sep: char): (parts: seq<string>)
    ensures |parts| >= 1
    ensures forall i :: 0 <= i < |parts| ==> sep !in parts[i]
  {
    if s == [] then [""]
    else
      var rest := Split(s[1..], sep);
      if s[0] == sep then [""] + rest
      else [[s[0]] + rest[0]] + rest[1..]
  }

  /** The inverse of `Split`: the parts glued back with `sep` between them. */
  function Join(parts: seq<string>, sep: char): string
    requires |parts| >= 1
  {
    if |parts| == 1 then parts[0] else parts[0] + [sep] + Join(parts[1..], sep)
  }

  /** Joining the pieces of a split restores the original string. */
  lemma {:induction false} JoinSplit(s: string, sep: char)
    ensures Join(Split(s, sep), sep) == s
  {
    if s != [] {
      var rest := Split(s[1..], sep);
      JoinSplit(s[1..], sep);
      if s[0] == sep {
        assert ([""] + rest)[1..] == rest;
      } else {
        var parts := [[s[0]] + rest[0]] + rest[1..];
        if |rest| > 1 {
          assert parts[1..] == rest[1..];
        }
      }
    }
  }

  /** Splitting a string that starts with a separator-free piece `a`. */
  lemma {:induction false} SplitPrefix(a: string, r: string, sep: char)
    requires sep !in a
    ensures Split(a + r, sep) == [a + Split(r, sep)[0]] + Split(r, sep)[1..]
  {
    if a != [] {
      SplitPrefix(a[1..], r, sep);
      assert (a + r)[1..] == a[1..] + r;
      assert [a[0]] + (a[1..] + Split(r, sep)[0]) == a + Split(r, sep)[0];
    } else {
      assert a + r == r;
      assert a + Split(r, sep)[0] == Split(r, sep)[0];
      assert Split(r, sep) == [Split(r, sep)[0]] + Split(r, sep)[1..];
    }
  }

  /** Splitting the join of separator-free pieces gives back those pieces. */
  lemma {:induction false} SplitJoin(parts: seq<string>, sep: char)
    requires |parts| >= 1
    requires forall i :: 0 <= i < |parts| ==> sep !in parts[i]
    ensures Split(Join(parts, sep), sep) == parts
  {
    if |parts| == 1 {
      SplitPrefix(parts[0], "", sep);
      assert parts[0] + "" == parts[0];
      assert Split("", sep) == [""];
      assert parts == [parts[0] + ""];
    } else {
      var tail := parts[1..];
      SplitJoin(tail, sep);
      var r := [sep] + Join(tail, sep);
      assert parts[0] + [sep] + Join(tail, sep) == parts[0] + r;
      SplitPrefix(parts[0], r, sep);
      assert r[1..] == Join(tail, sep);
      assert Split(r, sep) == [""] + tail;
      assert parts[0] + "" == parts[0];
      assert parts == [parts[0]] + tail;
    }
  }

  /** A string without separators splits into itself alone. */
  lemma {:induction false} SplitNoSeparator(s: string, sep: char)
    requires sep !in s
    ensures Split(s, sep) == [s]
  {
    assert Join([s], sep) == s;
    SplitJoin([s], sep);
  }

  /** `u8::to_ascii_lowercase` lifted to characters: only `A`..`Z` change. */
  function ToAsciiLower(c: char): char {
    if 'A' <= c <= 'Z' then (c as int + 32) as char else c
  }

  /**
   * `str::eq_ignore_ascii_case`: same length and, position by position, equal
   * after ASCII lower-casing (the zip-and-compare of the Rust library).
   */
  predicate EqIgnoreAsciiCase(a: string, b: string)
    ensures a == b ==> EqIgnoreAsciiCase(a, b)
  {
    |a| == |b| && (a == [] || (ToAsciiLower(a[0]) == ToAsciiLower(b[0]) && EqIgnoreAsciiCase(a[1..], b[1..])))
  }

  /** The comparison is pointwise. */
  lemma {:induction false} EqIgnoreAsciiCasePointwise(a: string, b: string)
    ensures EqIgnoreAsciiCase(a, b) <==>
      |a| == |b| && forall i :: 0 <= i < |a| ==> ToAsciiLower(a[i]) == ToAsciiLower(b[i])
  {
    if |a| == |b| && a != [] {
      EqIgnoreAsciiCasePointwise(a[1..], b[1..]);
      assert forall i :: 1 <= i < |a| ==> a[i] == a[1..][i - 1] && b[i] == b[1..][i - 1];
    }
  }

  /** The strings equal to "bearer" ignoring ASCII case are its 64 spellings. */
  lemma {:induction false} IsBearerSpelling(s: string)
    ensures EqIgnoreAsciiCase(s, "bearer") <==>
      |s| == 6 && forall i :: 0 <= i < 6 ==> s[i] == "bearer"[i] || s[i] == "BEARER"[i]
  {
    EqIgnoreAsciiCasePointwise(s, "bearer");
    if |s| == 6 {
      forall i | 0 <= i < 6
        ensures ToAsciiLower(s[i]) == ToAsciiLower("bearer"[i]) <==>
                (s[i] == "bearer"[i] || s[i] == "BEARER"[i])
      {
        var c := s[i];
        if 'A' <= c <= 'Z' {
          assert ToAsciiLower(c) as int == c as int + 32;
        }
      }
    }
  }
}
