/**
 * String operations the dashboard relies on, over `seq<char>`:
 * comparison (`localeCompare` and the default `Array.prototype.sort` order),
 * `toLowerCase` and `includes`.
 *
 * Comparison is modelled as lexicographic order on code points and
 * lowercasing as ASCII lowercasing; the locale-dependent behaviour of the
 * JavaScript operations is not modelled.
 */
module Strings {

  /** `a` sorts strictly before `b`: lexicographic order on characters, a proper prefix first. */
  predicate StrLt(a: string, b: string)
    decreases |a|
  {
    if a == [] then b != []
    else if b == [] then false
    else a[0] < b[0] || (a[0] == b[0] && StrLt(a[1..], b[1..]))
  }

  /** The reversed comparison, `b.localeCompare(a)`, used for descending sorts. */
  predicate StrGt(a: string, b: string) {
    StrLt(b, a)
  }

  lemma {:induction false} StrLtIrreflexive(a: string)
    ensures !StrLt(a, a)
    decreases |a|
  {
    if a != [] {
      StrLtIrreflexive(a[1..]);
    }
  }

  lemma {:induction false} StrLtTransitive(a: string, b: string, c: string)
    requires StrLt(a, b) && StrLt(b, c)
    ensures StrLt(a, c)
    decreases |a|
  {
    if a != [] && a[0] == b[0] && b[0] == c[0] {
      StrLtTransitive(a[1..], b[1..], c[1..]);
    }
  }

  /** Any two different strings are ordered one way or the other. */
  lemma {:induction false} StrLtTotal(a: string, b: string)
    requires a != b
    ensures StrLt(a, b) || StrLt(b, a)
    decreases |a|
  {
    if a != [] && b != [] && a[0] == b[0] {
      assert a == [a[0]] + a[1..] && b == [b[0]] + b[1..];
      StrLtTotal(a[1..], b[1..]);
    }
  }

  /** `StrLt` is a strict total order on strings. */
  lemma StrLtIsStrictTotal()
    ensures forall a :: !StrLt(a, a)
    ensures forall a, b, c :: StrLt(a, b) && StrLt(b, c) ==> StrLt(a, c)
    ensures forall a, b :: a != b ==> StrLt(a, b) || StrLt(b, a)
  {
    forall a ensures !StrLt(a, a) {
      StrLtIrreflexive(a);
    }
    forall a, b, c | StrLt(a, b) && StrLt(b, c) ensures StrLt(a, c) {
      StrLtTransitive(a, b, c);
    }
    forall a, b | a != b ensures StrLt(a, b) || StrLt(b, a) {
      StrLtTotal(a, b);
    }
  }

  /** The reversed order is a strict order too. */
  lemma StrGtIsStrict()
    ensures forall a :: !StrGt(a, a)
    ensures forall a, b, c :: StrGt(a, b) && StrGt(b, c) ==> StrGt(a, c)
  {
    StrLtIsStrictTotal();
  }

  function LowerChar(c: char): char {
    if 'A' <= c <= 'Z' then (c as int + 32) as char else c
  }

  /** `s.toLowerCase()` on ASCII letters. */
  function Lower(s: string): (r: string)
    ensures |r| == |s|
  {
    seq(|s|, i requires 0 <= i < |s| => LowerChar(s[i]))
  }

  /**
   * Lowercasing turns each upper-case ASCII letter into its lower-case
   * counterpart, leaves no upper-case letter, changes nothing else and is
   * idempotent.
   */
  lemma LowerSpec(s: string)
    ensures forall i :: 0 <= i < |s| && 'A' <= s[i] <= 'Z' ==> Lower(s)[i] == (s[i] as int + 32) as char
    ensures forall i :: 0 <= i < |s| ==> !('A' <= Lower(s)[i] <= 'Z')
    ensures forall i :: 0 <= i < |s| && !('A' <= s[i] <= 'Z') ==> Lower(s)[i] == s[i]
    ensures Lower(Lower(s)) == Lower(s)
  {
  }

  /** `x` and `y` are the same character, or an upper-case ASCII letter and its lower-case counterpart. */
  predicate SameLetterIgnoringCase(x: char, y: char) {
    || x == y
    || ('A' <= x <= 'Z' && y == (x as int + 32) as char)
    || ('A' <= y <= 'Z' && x == (y as int + 32) as char)
  }

  /** `a` and `b` differ at most in the case of ASCII letters. */
  predicate EqualIgnoringCase(a: string, b: string) {
    |a| == |b| && forall i :: 0 <= i < |a| ==> SameLetterIgnoringCase(a[i], b[i])
  }

  /** Two strings lowercase to the same string exactly when they differ at most in letter case. */
  lemma LowerEqualIgnoringCase(a: string, b: string)
    ensures Lower(a) == Lower(b) <==> EqualIgnoringCase(a, b)
  {
    if Lower(a) == Lower(b) {
      forall i | 0 <= i < |a| ensures SameLetterIgnoringCase(a[i], b[i]) {
        assert LowerChar(a[i]) == Lower(a)[i] == Lower(b)[i] == LowerChar(b[i]);
      }
    }
    if EqualIgnoringCase(a, b) {
      forall i | 0 <= i < |a| ensures Lower(a)[i] == Lower(b)[i] {
        assert SameLetterIgnoringCase(a[i], b[i]);
      }
    }
  }

  predicate StartsWith(s: string, prefix: string) {
    |prefix| <= |s| && s[..|prefix|] == prefix
  }

  /** `needle` occurs in `hay` at position `i`. */
  ghost predicate OccursAt(hay: string, needle: string, i: int) {
    0 <= i && i + |needle| <= |hay| && hay[i..i + |needle|] == needle
  }

  /** `hay.includes(needle)`. */
  predicate Contains(hay: string, needle: string)
    decreases |hay|
  {
    StartsWith(hay, needle) || (hay != [] && Contains(hay[1..], needle))
  }

  lemma OccursShift(hay: string, needle: string)
    requires hay != []
    ensures forall i :: i > 0 ==> (OccursAt(hay, needle, i) <==> OccursAt(hay[1..], needle, i - 1))
    ensures OccursAt(hay, needle, 0) <==> StartsWith(hay, needle)
  {
    forall i | i > 0 ensures OccursAt(hay, needle, i) <==> OccursAt(hay[1..], needle, i - 1) {
      if i + |needle| <= |hay| {
        assert hay[1..][i - 1..i - 1 + |needle|] == hay[i..i + |needle|];
      }
    }
  }

  /** `includes` holds exactly when the needle occurs at some position. */
  lemma {:induction false} ContainsSpec(hay: string, needle: string)
    ensures Contains(hay, needle) <==> exists i :: OccursAt(hay, needle, i)
    decreases |hay|
  {
    if hay == [] {
      assert Contains(hay, needle) <==> OccursAt(hay, needle, 0);
    } else {
      ContainsSpec(hay[1..], needle);
      OccursShift(hay, needle);
      if Contains(hay[1..], needle) {
        var i :| OccursAt(hay[1..], needle, i);
        assert OccursAt(hay, needle, i + 1);
      }
    }
  }
}
