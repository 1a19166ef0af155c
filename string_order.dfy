/**
 * The order `Array.prototype.sort` uses when no comparator is given: strings
 * compared code unit by code unit in their UTF-16 form. A character outside
 * the Basic Multilingual Plane is two code units whose first (a high
 * surrogate, 0xD800-0xDBFF) sorts above every character below 0xD800 and
 * below every character from 0xE000 on; so comparing characters by `Key`
 * compares their UTF-16 forms, as `BelowIsUtf16Order` proves.
 */
module StringOrder {

  /** The rank of a character in UTF-16 code-unit order. */
  function Key(c: char): (k: int)
    ensures c as int < 0xD800 ==> k == c as int
    ensures c as int >= 0x10000 ==> 0xD800 <= k < 0xD800 + 0x10_0000
    ensures 0xE000 <= c as int < 0x10000 ==> k >= 0xD800 + 0x10_0000
  {
    var n := c as int;
    if n < 0xD800 then n
    else if n >= 0x10000 then n - 0x10000 + 0xD800
    else n + 0x10_0000
  }

  /** Distinct characters have distinct ranks. */
  lemma KeyInjective(c: char, d: char)
    ensures Key(c) == Key(d) ==> c == d
  {
  }

  /** `a` sorts strictly before `b`: `a` is a proper prefix of `b`, or it has the lower rank where they first differ. */
  predicate Below(a: string, b: string)
    ensures |a| < |b| && a == b[..|a|] ==> Below(a, b)
  {
    if a == [] then b != []
    else if b == [] then false
    else if a[0] == b[0] then
      assert |a| < |b| && a == b[..|a|] ==> a[1..] == b[1..][..|a| - 1];
      Below(a[1..], b[1..])
    else Key(a[0]) < Key(b[0])
  }

  lemma {:induction false} BelowIrreflexive(a: string)
    ensures !Below(a, a)
  {
    if a != [] { BelowIrreflexive(a[1..]); }
  }

  lemma {:induction false} BelowAsymmetric(a: string, b: string)
    requires Below(a, b)
    ensures !Below(b, a)
  {
    if a != [] && a[0] == b[0] { BelowAsymmetric(a[1..], b[1..]); }
  }

  lemma {:induction false} BelowTransitive(a: string, b: string, c: string)
    requires Below(a, b) && Below(b, c)
    ensures Below(a, c)
  {
    if a != [] && a[0] == b[0] && b[0] == c[0] {
      BelowTransitive(a[1..], b[1..], c[1..]);
    }
  }

  /** Any two different strings are ordered one way or the other. */
  lemma {:induction false} BelowTotal(a: string, b: string)
    requires a != b
    ensures Below(a, b) || Below(b, a)
  {
    if a != [] && b != [] {
      if a[0] == b[0] {
        assert a == [a[0]] + a[1..] && b == [b[0]] + b[1..];
        BelowTotal(a[1..], b[1..]);
      } else {
        KeyInjective(a[0], b[0]);
      }
    }
  }

  // ---------------------------------------------------------------- the UTF-16 form

  /** The UTF-16 code units of one character: itself below 0x10000, otherwise a high and a low surrogate. */
  function Utf16Char(c: char): (units: seq<int>)
    ensures 1 <= |units| <= 2
  {
    var n := c as int;
    if n < 0x10000 then [n]
    else [0xD800 + (n - 0x10000) / 0x400, 0xDC00 + (n - 0x10000) % 0x400]
  }

  function Utf16(s: string): seq<int> {
    if s == [] then [] else Utf16Char(s[0]) + Utf16(s[1..])
  }

  /** Lexicographic order on code-unit sequences: a proper prefix first, otherwise the lower unit where they first differ. */
  predicate LexLess(x: seq<int>, y: seq<int>) {
    if x == [] then y != []
    else if y == [] then false
    else if x[0] == y[0] then LexLess(x[1..], y[1..])
    else x[0] < y[0]
  }

  lemma {:induction false} LexLessCommonPrefix(p: seq<int>, x: seq<int>, y: seq<int>)
    ensures LexLess(p + x, p + y) == LexLess(x, y)
  {
    if p != [] {
      assert (p + x)[1..] == p[1..] + x && (p + y)[1..] == p[1..] + y;
      LexLessCommonPrefix(p[1..], x, y);
    } else {
      assert p + x == x && p + y == y;
    }
  }

  /** The surrogate pair of a character above the Basic Multilingual Plane, by its quotient and remainder. */
  lemma SurrogatePair(c: char) returns (q: int, r: int)
    requires c as int >= 0x10000
    ensures c as int - 0x10000 == 0x400 * q + r && 0 <= r < 0x400 && 0 <= q < 0x400
    ensures Utf16Char(c) == [0xD800 + q, 0xDC00 + r] && Key(c) == 0xD800 + 0x400 * q + r
  {
    q, r := (c as int - 0x10000) / 0x400, (c as int - 0x10000) % 0x400;
  }

  /** Where two strings first differ, their UTF-16 forms compare as the ranks of those characters do. */
  lemma LexLessFirstDiffers(c: char, d: char, x: seq<int>, y: seq<int>)
    requires c != d
    ensures LexLess(Utf16Char(c) + x, Utf16Char(d) + y) == (Key(c) < Key(d))
  {
    var u, v := Utf16Char(c) + x, Utf16Char(d) + y;
    if c as int >= 0x10000 && d as int >= 0x10000 {
      var qc, rc := SurrogatePair(c);
      var qd, rd := SurrogatePair(d);
      assert u[0] == 0xD800 + qc && v[0] == 0xD800 + qd;
      if qc == qd {
        assert u[1..][0] == 0xDC00 + rc && v[1..][0] == 0xDC00 + rd;
      }
    } else if c as int >= 0x10000 {
      var qc, rc := SurrogatePair(c);
      assert u[0] == 0xD800 + qc && v[0] == d as int;
    } else if d as int >= 0x10000 {
      var qd, rd := SurrogatePair(d);
      assert u[0] == c as int && v[0] == 0xD800 + qd;
    } else {
      assert u[0] == c as int && v[0] == d as int;
    }
  }

  /** `Below` is the code-unit order of the UTF-16 forms. */
  lemma {:induction false} BelowIsUtf16Order(a: string, b: string)
    ensures Below(a, b) <==> LexLess(Utf16(a), Utf16(b))
  {
    if a != [] && b != [] {
      if a[0] == b[0] {
        BelowIsUtf16Order(a[1..], b[1..]);
        LexLessCommonPrefix(Utf16Char(a[0]), Utf16(a[1..]), Utf16(b[1..]));
      } else {
        LexLessFirstDiffers(a[0], b[0], Utf16(a[1..]), Utf16(b[1..]));
      }
    }
  }
}
