/**
 `normalizaTexto` of the licence map: lower-case the text and delete every
 `.`, `-`, `/` and whitespace character, so that process numbers typed with or
 without punctuation compare equal.
 */
module Normaliza {
  import opened Texto

  /** The characters the regular expression `[\.\-\/\s]` matches. */
  predicate Removido(c: char) {
    c == '.' || c == '-' || c == '/' || IsSpace(c)
  }

  /** A string `normalizaTexto` can return: lower-case, with no removable character. */
  predicate Normalizado(s: string) {
    forall i :: 0 <= i < |s| ==> !IsUpper(s[i]) && !Removido(s[i])
  }

  /** `s.replace(/[\.\-\/\s]/g, "")`. */
  function Remove(s: string): (r: string)
    ensures |r| <= |s|
    ensures forall i :: 0 <= i < |r| ==> !Removido(r[i])
    ensures forall i :: 0 <= i < |r| ==> r[i] in s
  {
    if |s| == 0 then ""
    else (if Removido(s[0]) then "" else [s[0]]) + Remove(s[1..])
  }

  /** Falsy (empty) text gives ""; otherwise lower-case, then strip. */
  function NormalizaTexto(t: string): (r: string)
    ensures t == "" ==> r == ""
    ensures Normalizado(r)
    ensures |r| <= |t|
  {
    if t == "" then "" else Remove(ToLower(t))
  }

  lemma {:induction false} RemoveConcat(a: string, b: string)
    ensures Remove(a + b) == Remove(a) + Remove(b)
    decreases |a|
  {
    if |a| > 0 {
      assert (a + b)[0] == a[0];
      assert (a + b)[1..] == a[1..] + b;
      RemoveConcat(a[1..], b);
      if Removido(a[0]) {
        assert Remove(a + b) == Remove(a[1..] + b);
        assert Remove(a) == Remove(a[1..]);
      } else {
        assert Remove(a + b) == [a[0]] + Remove(a[1..] + b);
        assert Remove(a) == [a[0]] + Remove(a[1..]);
      }
    } else {
      assert a + b == b;
    }
  }

  lemma {:induction false} RemoveKeeps(s: string)
    requires forall i :: 0 <= i < |s| ==> !Removido(s[i])
    ensures Remove(s) == s
    decreases |s|
  {
    if |s| > 0 {
      RemoveKeeps(s[1..]);
      assert s == [s[0]] + s[1..];
    }
  }

  lemma {:induction false} RemoveDropsAll(s: string)
    requires forall i :: 0 <= i < |s| ==> Removido(s[i])
    ensures Remove(s) == ""
    decreases |s|
  {
    if |s| > 0 {
      RemoveDropsAll(s[1..]);
    }
  }

  /** Normalising distributes over concatenation. */
  lemma {:induction false} NormalizaConcat(a: string, b: string)
    ensures NormalizaTexto(a + b) == NormalizaTexto(a) + NormalizaTexto(b)
  {
    assert ToLower(a + b) == ToLower(a) + ToLower(b);
    RemoveConcat(ToLower(a), ToLower(b));
    if a == "" {
      assert a + b == b;
    }
    if b == "" {
      assert a + b == a;
    }
  }

  /** One character normalises to its lower-case form, or to nothing if that form is removable. */
  lemma {:induction false} NormalizaChar(c: char)
    ensures NormalizaTexto([c]) == if Removido(ToLowerChar(c)) then "" else [ToLowerChar(c)]
  {
    assert ToLower([c]) == [ToLowerChar(c)];
    assert [ToLowerChar(c)][1..] == "";
  }

  /** A normalised string is its own normal form. */
  lemma {:induction false} NormalizaFixpoint(s: string)
    requires Normalizado(s)
    ensures NormalizaTexto(s) == s
  {
    if s != "" {
      assert ToLower(s) == s;
      RemoveKeeps(s);
    }
  }

  lemma {:induction false} NormalizaIdempotent(t: string)
    ensures NormalizaTexto(NormalizaTexto(t)) == NormalizaTexto(t)
  {
    NormalizaFixpoint(NormalizaTexto(t));
  }

  /** Whitespace-only text normalises to "". */
  lemma {:induction false} NormalizaSpaces(s: string)
    requires forall i :: 0 <= i < |s| ==> IsSpace(s[i])
    ensures NormalizaTexto(s) == ""
  {
    if s != "" {
      RemoveDropsAll(ToLower(s));
    }
  }

  /** Trimming before normalising changes nothing: whitespace is removed anyway. */
  lemma {:induction false} NormalizaTrim(s: string)
    ensures NormalizaTexto(Trim(s)) == NormalizaTexto(s)
  {
    TrimSlice(s);
    NormalizaTrimmedAt(s, Trim(s), |s| - |TrimStart(s)|);
  }

  lemma {:induction false} NormalizaTrimmedAt(s: string, r: string, k: int)
    requires TrimmedAt(s, r, k)
    ensures NormalizaTexto(r) == NormalizaTexto(s)
  {
    var pre, post := s[..k], s[k + |r|..];
    assert s == pre + r + post;
    assert forall i :: 0 <= i < |pre| ==> pre[i] == s[i];
    assert forall i :: 0 <= i < |post| ==> post[i] == s[k + |r| + i];
    NormalizaSurrounded(pre, r, post);
  }

  lemma {:induction false} NormalizaSurrounded(pre: string, r: string, post: string)
    requires forall i :: 0 <= i < |pre| ==> IsSpace(pre[i])
    requires forall i :: 0 <= i < |post| ==> IsSpace(post[i])
    ensures NormalizaTexto(pre + r + post) == NormalizaTexto(r)
  {
    NormalizaSpaces(pre);
    NormalizaSpaces(post);
    NormalizaConcat(pre + r, post);
    NormalizaConcat(pre, r);
    assert "" + NormalizaTexto(r) + "" == NormalizaTexto(r);
  }
}
