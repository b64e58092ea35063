/**
 The JavaScript string primitives the licence map relies on, over `string`
 (a sequence of code points): the `\s` / `trim` whitespace set, a per-character
 `toLowerCase`, `trim`, `includes` and `split` on a one-character separator.
 */
module Texto {

  /** WhiteSpace and LineTerminator of ECMAScript: the set `\s` matches and `trim` strips. */
  predicate IsSpace(c: char) {
    c == '\t' || c == '\n' || c == '\U{000B}' || c == '\U{000C}' || c == '\r' || c == ' '
    || c == '\U{00A0}' || c == '\U{1680}' || ('\U{2000}' <= c <= '\U{200A}')
    || c == '\U{2028}' || c == '\U{2029}' || c == '\U{202F}' || c == '\U{205F}'
    || c == '\U{3000}' || c == '\U{FEFF}'
  }

  /** Upper-case letters whose lower-case form is 32 code points above: ASCII and Latin-1. */
  predicate IsUpper(c: char) {
    ('A' <= c <= 'Z') || ('\U{00C0}' <= c <= '\U{00DE}' && c != '\U{00D7}')
  }

  function ToLowerChar(c: char): (l: char)
    ensures IsUpper(c) ==> l as int == c as int + 32
    ensures !IsUpper(c) ==> l == c
    ensures !IsUpper(l)
  {
    if IsUpper(c) then (c as int + 32) as char else c
  }

  predicate IsLower(s: string) {
    forall i :: 0 <= i < |s| ==> !IsUpper(s[i])
  }

  /** `String.prototype.toLowerCase`, one code point at a time. */
  function ToLower(s: string): (r: string)
    ensures |r| == |s|
    ensures forall i :: 0 <= i < |s| ==> r[i] == ToLowerChar(s[i])
    ensures IsLower(r)
  {
    seq(|s|, i requires 0 <= i < |s| => ToLowerChar(s[i]))
  }

  lemma {:induction false} ToLowerIdempotent(s: string)
    ensures ToLower(ToLower(s)) == ToLower(s)
  {
  }

  // ---------------------------------------------------------------------------
  // trim

  /** Strips leading whitespace; also the first step of `parseInt`. */
  function TrimStart(s: string): (r: string)
    ensures |r| <= |s| && r == s[|s| - |r|..]
  {
    if |s| > 0 && IsSpace(s[0]) then TrimStart(s[1..]) else s
  }

  lemma {:induction false} TrimStartSpaces(s: string)
    ensures forall i :: 0 <= i < |s| - |TrimStart(s)| ==> IsSpace(s[i])
    ensures |TrimStart(s)| > 0 ==> !IsSpace(TrimStart(s)[0])
  {
    if |s| > 0 && IsSpace(s[0]) {
      TrimStartSpaces(s[1..]);
    }
  }

  function TrimEnd(s: string): (r: string)
    ensures |r| <= |s| && r == s[..|r|]
  {
    if |s| > 0 && IsSpace(s[|s| - 1]) then TrimEnd(s[..|s| - 1]) else s
  }

  lemma {:induction false} TrimEndSpaces(s: string)
    ensures forall i :: |TrimEnd(s)| <= i < |s| ==> IsSpace(s[i])
    ensures |TrimEnd(s)| > 0 ==> !IsSpace(TrimEnd(s)[|TrimEnd(s)| - 1])
  {
    if |s| > 0 && IsSpace(s[|s| - 1]) {
      TrimEndSpaces(s[..|s| - 1]);
    }
  }

  /** `String.prototype.trim`: the slice of `s` between its leading and trailing whitespace. */
  function Trim(s: string): string {
    TrimEnd(TrimStart(s))
  }

  /** `trim` cuts a slice out of `s` with only whitespace around it, and keeps none at its ends. */
  lemma {:induction false} TrimSpec(s: string)
    ensures exists k :: TrimmedAt(s, Trim(s), k)
    ensures var r := Trim(s); |r| > 0 ==> !IsSpace(r[0]) && !IsSpace(r[|r| - 1])
  {
    TrimSlice(s);
    assert TrimmedAt(s, Trim(s), |s| - |TrimStart(s)|);
  }

  lemma {:induction false} TrimSlice(s: string)
    ensures TrimmedAt(s, TrimEnd(TrimStart(s)), |s| - |TrimStart(s)|)
    ensures var r := TrimEnd(TrimStart(s)); |r| > 0 ==> !IsSpace(r[0]) && !IsSpace(r[|r| - 1])
  {
    var t := TrimStart(s);
    var r := TrimEnd(t);
    var k := |s| - |t|;
    TrimStartSpaces(s);
    TrimEndSpaces(t);
    PrefixOfSuffix(s, t, r, k);
    assert 0 <= k <= |s| - |r|;
    assert forall i :: 0 <= i < k ==> IsSpace(s[i]);
    assert TrimmedAt(s, r, k);
    if |r| > 0 {
      assert r[0] == t[0];
      assert !IsSpace(r[0]);
      assert !IsSpace(r[|r| - 1]);
    }
  }

  lemma {:induction false} PrefixOfSuffix(s: string, t: string, r: string, k: int)
    requires 0 <= k <= |s| && t == s[k..]
    requires |r| <= |t| && r == t[..|r|]
    requires forall i :: |r| <= i < |t| ==> IsSpace(t[i])
    ensures r == s[k..k + |r|]
    ensures forall i :: k + |r| <= i < |s| ==> IsSpace(s[i])
  {
    forall i | k + |r| <= i < |s|
      ensures IsSpace(s[i])
    {
      assert s[i] == t[i - k];
    }
  }

  /** `r` is the slice of `s` at offset `k`, and only whitespace lies around it. */
  predicate TrimmedAt(s: string, r: string, k: int) {
    0 <= k <= |s| - |r| && r == s[k..k + |r|]
    && (forall i :: 0 <= i < k ==> IsSpace(s[i]))
    && (forall i :: k + |r| <= i < |s| ==> IsSpace(s[i]))
  }

  // ---------------------------------------------------------------------------
  // includes

  /** Reference meaning of `s.includes(t)`: `t` occurs in `s` at some position. */
  ghost predicate Occurs(s: string, t: string) {
    exists i :: OccursAt(s, t, i)
  }

  predicate OccursAt(s: string, t: string, i: int) {
    0 <= i <= |s| - |t| && s[i..i + |t|] == t
  }

  /** `String.prototype.includes`, as a scan of the start positions of `s`. */
  predicate Includes(s: string, t: string)
    decreases |s|
  {
    |t| <= |s| && (s[..|t|] == t || Includes(s[1..], t))
  }

  lemma {:induction false} IncludesIffOccurs(s: string, t: string)
    ensures Includes(s, t) <==> Occurs(s, t)
    decreases |s|
  {
    if |t| <= |s| {
      if s[..|t|] == t {
        assert OccursAt(s, t, 0);
      } else {
        IncludesIffOccurs(s[1..], t);
        if Occurs(s[1..], t) {
          var i :| OccursAt(s[1..], t, i);
          assert s[i + 1..i + 1 + |t|] == t;
          assert OccursAt(s, t, i + 1);
        }
        if Occurs(s, t) {
          var i :| OccursAt(s, t, i);
          assert i != 0;
          assert s[1..][i - 1..i - 1 + |t|] == t;
          assert OccursAt(s[1..], t, i - 1);
        }
      }
    }
  }

  /** The empty string is included in every string: an empty search term excludes nothing. */
  lemma {:induction false} IncludesEmpty(s: string)
    ensures Includes(s, "")
  {
  }

  /** A string containing `t` also contains every piece of `t`. */
  lemma {:induction false} IncludesPiece(s: string, t: string, a: string, b: string, c: string)
    requires t == a + b + c
    requires Includes(s, t)
    ensures Includes(s, b)
  {
    IncludesIffOccurs(s, t);
    var i :| OccursAt(s, t, i);
    assert t[|a|..|a| + |b|] == b;
    assert forall j :: 0 <= j < |t| ==> s[i + j] == t[j];
    assert s[i + |a|..i + |a| + |b|] == t[|a|..|a| + |b|];
    assert OccursAt(s, b, i + |a|);
    IncludesIffOccurs(s, b);
  }

  // ---------------------------------------------------------------------------
  // split on a single-character separator

  function CountChar(s: string, c: char): (n: nat)
    ensures n <= |s|
  {
    if |s| == 0 then 0 else (if s[0] == c then 1 else 0) + CountChar(s[1..], c)
  }

  /** Inverse of `Split`: the parts glued back together with the separator. */
  function Join(parts: seq<string>, sep: char): string
    requires |parts| >= 1
  {
    if |parts| == 1 then parts[0] else parts[0] + [sep] + Join(parts[1..], sep)
  }

  /** `String.prototype.split` with a one-character separator string. */
  function Split(s: string, sep: char): (parts: seq<string>)
    ensures |parts| >= 1
  {
    if |s| == 0 then [""]
    else
      var rest := Split(s[1..], sep);
      if s[0] == sep then [""] + rest else [[s[0]] + rest[0]] + rest[1..]
  }

  /** `split` makes one part more than there are separators. */
  lemma {:induction false} SplitLength(s: string, sep: char)
    ensures |Split(s, sep)| == CountChar(s, sep) + 1
  {
    if |s| > 0 {
      SplitLength(s[1..], sep);
    }
  }

  /** No part of a split contains the separator. */
  lemma {:induction false} SplitParts(s: string, sep: char)
    ensures forall k :: 0 <= k < |Split(s, sep)| ==> sep !in Split(s, sep)[k]
  {
    if |s| > 0 {
      SplitParts(s[1..], sep);
      var rest := Split(s[1..], sep);
      if s[0] != sep {
        assert forall x :: x in [s[0]] + rest[0] ==> x == s[0] || x in rest[0];
      }
    }
  }

  lemma {:induction false} JoinSplit(s: string, sep: char)
    ensures Join(Split(s, sep), sep) == s
  {
    if |s| > 0 {
      JoinSplit(s[1..], sep);
      var rest := Split(s[1..], sep);
      if s[0] == sep {
        assert Split(s, sep)[1..] == rest;
      } else if |rest| == 1 {
        assert s == [s[0]] + s[1..];
      } else {
        assert Split(s, sep)[1..] == rest[1..];
        assert s == [s[0]] + s[1..];
      }
    }
  }

  lemma {:induction false} SplitJoin(parts: seq<string>, sep: char)
    requires |parts| >= 1
    requires forall k :: 0 <= k < |parts| ==> sep !in parts[k]
    ensures Split(Join(parts, sep), sep) == parts
    decreases |parts|, |parts[0]|
  {
    if |parts[0]| == 0 {
      if |parts| > 1 {
        var rest := Join(parts[1..], sep);
        SplitJoin(parts[1..], sep);
        assert Join(parts, sep) == [sep] + rest;
        SplitCons(sep, rest, sep);
        assert parts == [""] + parts[1..];
      }
    } else {
      var c := parts[0][0];
      var tail := [parts[0][1..]] + parts[1..];
      assert sep !in tail[0] by { assert forall x :: x in parts[0][1..] ==> x in parts[0]; }
      SplitJoin(tail, sep);
      JoinCons(parts, sep);
      assert c != sep;
      SplitCons(c, Join(tail, sep), sep);
      assert tail[1..] == parts[1..];
      assert parts[0] == [c] + tail[0];
      assert parts == [parts[0]] + parts[1..];
    }
  }

  /** Splitting a string with one more character in front. */
  lemma {:induction false} SplitCons(c: char, s: string, sep: char)
    ensures c == sep ==> Split([c] + s, sep) == [""] + Split(s, sep)
    ensures c != sep ==> Split([c] + s, sep) == [[c] + Split(s, sep)[0]] + Split(s, sep)[1..]
  {
    assert ([c] + s)[0] == c;
    assert ([c] + s)[1..] == s;
  }

  /** Joining parts whose first part starts with a character puts that character in front. */
  lemma {:induction false} JoinCons(parts: seq<string>, sep: char)
    requires |parts| >= 1 && |parts[0]| >= 1
    ensures Join(parts, sep) == [parts[0][0]] + Join([parts[0][1..]] + parts[1..], sep)
  {
    var tail := [parts[0][1..]] + parts[1..];
    assert parts[0] == [parts[0][0]] + parts[0][1..];
    if |parts| > 1 {
      assert tail[1..] == parts[1..];
      assert Join(tail, sep) == parts[0][1..] + [sep] + Join(parts[1..], sep);
    }
  }
}
