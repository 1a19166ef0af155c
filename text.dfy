/**
 * The string primitives the playlist code relies on, written out:
 * JavaScript's whitespace set (shared by `String.prototype.trim` and the
 * regular-expression class `\s`), the characters the regular-expression
 * `.` refuses, `trim`, ASCII `toLowerCase`, `startsWith`, `includes`, and
 * `split(/\r?\n/)`.
 */
module Text {
  import opened Seqs

  /** WhiteSpace and LineTerminator of ECMAScript: what `trim` strips and `\s` matches. */
  predicate IsSpace(c: char) {
    c == '\t' || c == '\n' || c == '\U{B}' || c == '\U{C}' || c == '\r' || c == ' '
    || c == '\U{A0}' || c == '\U{1680}' || ('\U{2000}' <= c <= '\U{200A}')
    || c == '\U{2028}' || c == '\U{2029}' || c == '\U{202F}' || c == '\U{205F}'
    || c == '\U{3000}' || c == '\U{FEFF}'
  }

  /** The line terminators: the only characters the regular-expression `.` does not match. */
  predicate IsLineTerminator(c: char) {
    c == '\n' || c == '\r' || c == '\U{2028}' || c == '\U{2029}'
  }

  /** The regular-expression class `\d`. */
  predicate IsDigit(c: char) {
    '0' <= c <= '9'
  }

  /** Every character of `s[i..j]` is whitespace. */
  predicate SpacesIn(s: string, i: nat, j: nat)
    requires i <= j <= |s|
  {
    forall k :: i <= k < j ==> IsSpace(s[k])
  }

  /** `s.startsWith(prefix)` */
  predicate StartsWith(s: string, prefix: string) {
    |prefix| <= |s| && s[..|prefix|] == prefix
  }

  /** Character by character, `prefix` is the beginning of `s`. */
  lemma StartsWithPointwise(s: string, prefix: string)
    ensures StartsWith(s, prefix) <==> |prefix| <= |s| && forall k :: 0 <= k < |prefix| ==> s[k] == prefix[k]
  {
    if |prefix| <= |s| && forall k :: 0 <= k < |prefix| ==> s[k] == prefix[k] {
      assert s[..|prefix|] == prefix;
    }
  }

  /** `s.includes(t)`: the empty string is in every string, and nothing longer than `s` is in `s`. */
  predicate Contains(s: string, t: string)
    ensures t == [] ==> Contains(s, t)
    ensures StartsWith(s, t) ==> Contains(s, t)
    ensures Contains(s, t) ==> |t| <= |s|
  {
    assert s[0..] == s;
    exists i :: 0 <= i <= |s| && StartsWith(s[i..], t)
  }

  // ---------------------------------------------------------------- trim

  /** The first index at or after `i` that does not hold whitespace. */
  function SkipSpaces(s: string, i: nat): (j: nat)
    requires i <= |s|
    ensures i <= j <= |s| && SpacesIn(s, i, j)
    ensures j < |s| ==> !IsSpace(s[j])
    decreases |s| - i
  {
    if i < |s| && IsSpace(s[i]) then SkipSpaces(s, i + 1) else i
  }

  lemma {:induction false} SkipSpacesIs(s: string, i: nat, j: nat)
    requires i <= j <= |s| && SpacesIn(s, i, j)
    requires j < |s| ==> !IsSpace(s[j])
    ensures SkipSpaces(s, i) == j
    decreases j - i
  {
    if i < j { SkipSpacesIs(s, i + 1, j); }
  }

  /** The least index `i` with `lo <= i <= j` such that `s[i..j]` is all whitespace. */
  function SkipSpacesBack(s: string, lo: nat, j: nat): (i: nat)
    requires lo <= j <= |s|
    ensures lo <= i <= j && SpacesIn(s, i, j)
    ensures i > lo ==> !IsSpace(s[i - 1])
    decreases j
  {
    if j > lo && IsSpace(s[j - 1]) then SkipSpacesBack(s, lo, j - 1) else j
  }

  lemma {:induction false} SkipSpacesBackIs(s: string, lo: nat, i: nat, j: nat)
    requires lo <= i <= j <= |s| && SpacesIn(s, i, j)
    requires i > lo ==> !IsSpace(s[i - 1])
    ensures SkipSpacesBack(s, lo, j) == i
    decreases j - i
  {
    if i < j { SkipSpacesBackIs(s, lo, i, j - 1); }
  }

  /** Where `trim` cuts: the start and end of the text between leading and trailing whitespace. */
  function TrimStart(s: string): (i: nat)
    ensures i <= |s|
  {
    SkipSpaces(s, 0)
  }

  function TrimEnd(s: string): (j: nat)
    ensures TrimStart(s) <= j <= |s|
  {
    SkipSpacesBack(s, TrimStart(s), |s|)
  }

  /** `s.trim()`: the text between the leading and the trailing whitespace. */
  function Trim(s: string): (r: string)
    ensures r == s[TrimStart(s)..TrimEnd(s)]
    ensures SpacesIn(s, 0, TrimStart(s)) && SpacesIn(s, TrimEnd(s), |s|)
    ensures r == [] || (!IsSpace(r[0]) && !IsSpace(r[|r| - 1]))
  {
    var i, j := TrimStart(s), TrimEnd(s);
    assert SpacesIn(s, j, |s|) by {
      if j < |s| {
        assert i < j && !IsSpace(s[j - 1]);
      }
    }
    s[i..j]
  }

  /** `trim` is the only cut that leaves whitespace outside and none at the ends of what remains. */
  lemma TrimOfPadded(a: string, r: string, b: string)
    requires forall k :: 0 <= k < |a| ==> IsSpace(a[k])
    requires forall k :: 0 <= k < |b| ==> IsSpace(b[k])
    requires r == [] || (!IsSpace(r[0]) && !IsSpace(r[|r| - 1]))
    ensures Trim(a + r + b) == r
  {
    var s := a + r + b;
    var n := |a| + |r|;
    assert SpacesIn(s, 0, |a|) by {
      forall k | 0 <= k < |a| ensures IsSpace(s[k]) { assert s[k] == a[k]; }
    }
    assert SpacesIn(s, n, |s|) by {
      forall k | n <= k < |s| ensures IsSpace(s[k]) { assert s[k] == b[k - n]; }
    }
    if r == [] {
      SkipSpacesIs(s, 0, |s|);
      SkipSpacesBackIs(s, |s|, |s|, |s|);
    } else {
      assert s[|a|] == r[0] && s[n - 1] == r[|r| - 1];
      SkipSpacesIs(s, 0, |a|);
      SkipSpacesBackIs(s, |a|, n, |s|);
      assert s[|a|..n] == r;
    }
  }

  lemma TrimIdempotent(s: string)
    ensures Trim(Trim(s)) == Trim(s)
  {
    var r := Trim(s);
    assert r == [] + r + [];
    TrimOfPadded([], r, []);
  }

  /** Whitespace at the end of a line does not change its trimmed text. */
  lemma TrimDropsTrailingSpace(s: string, c: char)
    requires IsSpace(c)
    ensures Trim(s + [c]) == Trim(s)
  {
    var i, j := TrimStart(s), TrimEnd(s);
    var a, r, b := s[..i], s[i..j], s[j..] + [c];
    assert s + [c] == a + r + b;
    forall k | 0 <= k < |b| ensures IsSpace(b[k]) {
      if k < |b| - 1 { assert b[k] == s[j + k]; }
    }
    TrimOfPadded(a, r, b);
  }

  // ---------------------------------------------------------------- lower case

  /** `toLowerCase` on one character, for the ASCII letters. */
  function LowerChar(c: char): char {
    if 'A' <= c <= 'Z' then (c as int + 32) as char else c
  }

  function ToLower(s: string): (r: string)
    ensures |r| == |s|
    ensures forall k :: 0 <= k < |s| ==> r[k] == LowerChar(s[k])
  {
    if s == [] then [] else [LowerChar(s[0])] + ToLower(s[1..])
  }

  // ---------------------------------------------------------------- split(/\r?\n/)

  /** The text without the carriage return the separator `\r?\n` takes in front of a newline. */
  function StripCR(piece: string): string {
    if |piece| > 0 && piece[|piece| - 1] == '\r' then piece[..|piece| - 1] else piece
  }

  /** The carriage return `StripCR` takes away is whitespace, which `trim` takes away anyway. */
  lemma TrimStripCR(piece: string)
    ensures Trim(StripCR(piece)) == Trim(piece)
  {
    if |piece| > 0 && piece[|piece| - 1] == '\r' {
      var p := piece[..|piece| - 1];
      assert piece == p + ['\r'];
      TrimDropsTrailingSpace(p, '\r');
    }
  }

  function Count(s: string, c: char): nat {
    if s == [] then 0 else (if s[0] == c then 1 else 0) + Count(s[1..], c)
  }

  /**
   * `s.split(/\r?\n/)`: the pieces between the newlines; each piece that a
   * newline follows loses one trailing carriage return, the last one keeps it.
   */
  function SplitLines(s: string): (lines: seq<string>)
    ensures lines != [] && |lines| <= |s| + 1
    ensures '\n' !in s ==> lines == [s]
    decreases |s|
  {
    if '\n' !in s then [s]
    else
      var i := FirstIndex(s, '\n');
      [StripCR(s[..i])] + SplitLines(s[i + 1..])
  }

  /** One line more than there are newlines. */
  lemma {:induction false} SplitLinesCount(s: string)
    ensures |SplitLines(s)| == Count(s, '\n') + 1
    decreases |s|
  {
    if '\n' !in s {
      CountAbsent(s, '\n');
    } else {
      var i := FirstIndex(s, '\n');
      CountSplit(s, i, '\n');
      SplitLinesCount(s[i + 1..]);
    }
  }

  /** No line holds a newline. */
  lemma {:induction false} SplitLinesNoNewline(s: string)
    ensures forall k :: 0 <= k < |SplitLines(s)| ==> '\n' !in SplitLines(s)[k]
    decreases |s|
  {
    if '\n' in s {
      var i := FirstIndex(s, '\n');
      var rest := SplitLines(s[i + 1..]);
      SplitLinesNoNewline(s[i + 1..]);
      var first := StripCR(s[..i]);
      StripCRKeepsOut(s[..i], '\n');
      var lines := SplitLines(s);
      assert lines == [first] + rest;
      forall k | 0 <= k < |lines| ensures '\n' !in lines[k] {
        if k > 0 { assert lines[k] == rest[k - 1]; }
      }
    }
  }

  /** Taking a carriage return off adds no character. */
  lemma StripCRKeepsOut(piece: string, c: char)
    requires c !in piece
    ensures c !in StripCR(piece)
  {
    if |piece| > 0 && piece[|piece| - 1] == '\r' {
      assert forall k :: 0 <= k < |piece| - 1 ==> piece[..|piece| - 1][k] == piece[k];
    }
  }

  lemma {:induction false} CountAbsent(s: string, c: char)
    requires c !in s
    ensures Count(s, c) == 0
  {
    if s != [] {
      assert c !in s[1..];
      CountAbsent(s[1..], c);
    }
  }

  lemma {:induction false} CountSplit(s: string, i: nat, c: char)
    requires i < |s| && s[i] == c && c !in s[..i]
    ensures Count(s, c) == 1 + Count(s[i + 1..], c)
  {
    if i > 0 {
      assert s[1..][..i - 1] == s[1..i];
      CountSplit(s[1..], i - 1, c);
      assert s[1..][i..] == s[i + 1..];
    }
  }

  /** The first newline of `a + "\n" + b` is the first of `a`, or the joining one. */
  lemma FirstIndexJoin(a: string, b: string)
    ensures '\n' in a + "\n" + b
    ensures FirstIndex(a + "\n" + b, '\n') == if '\n' in a then FirstIndex(a, '\n') else |a|
  {
    var s := a + "\n" + b;
    assert s[|a|] == '\n';
    var i := FirstIndex(s, '\n');
    if '\n' in a {
      var j := FirstIndex(a, '\n');
      assert s[j] == '\n';
    } else {
    }
  }

  /** One unfolding of `SplitLines` at the first newline. */
  lemma SplitLinesAt(s: string, i: nat)
    requires '\n' in s && i == FirstIndex(s, '\n')
    ensures SplitLines(s) == [StripCR(s[..i])] + SplitLines(s[i + 1..])
  {
  }

  /**
   * Joining two texts with a newline joins their lines: the last line of the
   * first text now stands before a newline and so loses a trailing carriage return.
   */
  lemma {:induction false} SplitLinesOfJoin(a: string, b: string)
    ensures SplitLines(a + "\n" + b)
         == DropLast(SplitLines(a)) + [StripCR(Last(SplitLines(a)))] + SplitLines(b)
    decreases |a|
  {
    if '\n' in a {
      var i := FirstIndex(a, '\n');
      SplitLinesOfJoin(a[i + 1..], b);
      JoinAfterNewline(a, b, i);
    } else {
      JoinWithoutNewline(a, b);
    }
  }

  /** The step of `SplitLinesOfJoin` when `a` has a newline at `i`, from the case of the text after it. */
  lemma JoinAfterNewline(a: string, b: string, i: nat)
    requires '\n' in a && i == FirstIndex(a, '\n')
    requires SplitLines(a[i + 1..] + "\n" + b)
          == DropLast(SplitLines(a[i + 1..])) + [StripCR(Last(SplitLines(a[i + 1..])))] + SplitLines(b)
    ensures SplitLines(a + "\n" + b)
         == DropLast(SplitLines(a)) + [StripCR(Last(SplitLines(a)))] + SplitLines(b)
  {
    JoinHead(a, b, i);
    SplitLinesAt(a, i);
    SplitLinesCount(a[i + 1..]);
    ConsJoin(StripCR(a[..i]), SplitLines(a[i + 1..]), SplitLines(b));
  }

  /** The first line of `a + "\n" + b` is the first line of `a` when `a` has a newline. */
  lemma JoinHead(a: string, b: string, i: nat)
    requires '\n' in a && i == FirstIndex(a, '\n')
    ensures SplitLines(a + "\n" + b) == [StripCR(a[..i])] + SplitLines(a[i + 1..] + "\n" + b)
  {
    var s := a + "\n" + b;
    FirstIndexJoin(a, b);
    assert s[..i] == a[..i];
    assert s[i + 1..] == a[i + 1..] + "\n" + b;
    SplitLinesAt(s, i);
  }

  lemma ConsJoin(x: string, t: seq<string>, lb: seq<string>)
    requires t != []
    ensures [x] + (DropLast(t) + [StripCR(Last(t))] + lb) == DropLast([x] + t) + [StripCR(Last([x] + t))] + lb
  {
    ConsLast(x, t);
  }

  /** `SplitLinesOfJoin` when `a` is a single line. */
  lemma JoinWithoutNewline(a: string, b: string)
    requires '\n' !in a
    ensures SplitLines(a + "\n" + b)
         == DropLast(SplitLines(a)) + [StripCR(Last(SplitLines(a)))] + SplitLines(b)
  {
    var s := a + "\n" + b;
    assert SplitLines(s) == [StripCR(a)] + SplitLines(b) by {
      FirstIndexJoin(a, b);
      assert s[..|a|] == a;
      assert s[|a| + 1..] == b;
      SplitLinesAt(s, |a|);
    }
    assert DropLast(SplitLines(a)) == [] && Last(SplitLines(a)) == a by {
      assert SplitLines(a) == [a];
    }
  }
}
