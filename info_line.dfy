/**
 * The two regular expressions of utils/m3uParser.ts, written out as matchers:
 * `line.match(/#EXTINF:(-?\d+)(?:\s+(.*))?,(.*)/)` and
 * `attributesRaw.match(/KEY="([^"]*)"/)` for the three attribute keys.
 * `match` without the global flag returns the leftmost match, and each
 * quantifier is greedy with backtracking; the functions below follow that
 * search order.
 */
module InfoLine {
  import opened Text
  import opened Seqs
  import opened Types

  const Marker := "#EXTINF:"

  /** The capture groups of a matched info line: group 2 (absent when the whitespace group did not take part) and group 3. */
  datatype InfoMatch = InfoMatch(attrs: Option<string>, title: string)

  /** No line terminator in `s`: the regular-expression `.*` can span it. */
  predicate NoTerminators(s: string) {
    forall k :: 0 <= k < |s| ==> !IsLineTerminator(s[k])
  }

  /** The end of the digit run starting at `i`: where a greedy `\d+` stops. */
  function DigitsEnd(s: string, i: nat): (j: nat)
    requires i <= |s|
    ensures i <= j <= |s|
    ensures forall k :: i <= k < j ==> IsDigit(s[k])
    ensures j < |s| ==> !IsDigit(s[j])
    decreases |s| - i
  {
    if i < |s| && IsDigit(s[i]) then DigitsEnd(s, i + 1) else i
  }

  lemma {:induction false} DigitsEndIs(s: string, i: nat, j: nat)
    requires i <= j <= |s|
    requires forall k :: i <= k < j ==> IsDigit(s[k])
    requires j < |s| ==> !IsDigit(s[j])
    ensures DigitsEnd(s, i) == j
    decreases j - i
  {
    if i < j { DigitsEndIs(s, i + 1, j); }
  }

  /** The first line terminator at or after `i`, or the end: where a greedy `.*` stops. */
  function LineEnd(s: string, i: nat): (j: nat)
    requires i <= |s|
    ensures i <= j <= |s|
    ensures forall k :: i <= k < j ==> !IsLineTerminator(s[k])
    ensures j < |s| ==> IsLineTerminator(s[j])
    decreases |s| - i
  {
    if i < |s| && !IsLineTerminator(s[i]) then LineEnd(s, i + 1) else i
  }

  lemma {:induction false} LineEndIs(s: string, i: nat, j: nat)
    requires i <= j <= |s|
    requires forall k :: i <= k < j ==> !IsLineTerminator(s[k])
    requires j < |s| ==> IsLineTerminator(s[j])
    ensures LineEnd(s, i) == j
    decreases j - i
  {
    if i < j { LineEndIs(s, i + 1, j); }
  }

  /** The last position in `s[lo..hi]` that holds `c`. */
  function LastIndexIn(s: string, lo: nat, hi: nat, c: char): (r: Option<nat>)
    requires lo <= hi <= |s|
    ensures r.Some? ==> lo <= r.value < hi && s[r.value] == c
    ensures r.Some? ==> forall k :: r.value < k < hi ==> s[k] != c
    ensures r.None? ==> forall k :: lo <= k < hi ==> s[k] != c
    decreases hi - lo
  {
    if hi == lo then None
    else if s[hi - 1] == c then Some(hi - 1)
    else LastIndexIn(s, lo, hi - 1, c)
  }

  /** Where `\d+` starts after the marker at `q`: past a minus sign when there is one. */
  function DigitsStart(s: string, q: nat): nat
    requires q + |Marker| <= |s|
  {
    var d := q + |Marker|;
    if d < |s| && s[d] == '-' then d + 1 else d
  }

  /**
   * The info-line regular expression tried at position `q` alone.
   * `-?` takes a minus sign when there is one (without it `\d+` cannot match);
   * `\d+` must take the whole digit run, since neither `\s` nor `,` matches a digit;
   * after a whitespace character the optional group must be taken, and its
   * `(.*)` gives back characters only until a comma follows it, so group 2
   * ends at the LAST comma before the end of the line; with no whitespace
   * the comma must follow the digits at once. Group 3 runs to the next line
   * terminator.
   */
  function MatchAt(s: string, q: nat): (r: Option<InfoMatch>)
    requires q <= |s|
    ensures r.Some? ==> StartsWith(s[q..], Marker) && NoTerminators(r.value.title)
    ensures r.Some? && r.value.attrs.Some? ==>
      ',' !in r.value.title && NoTerminators(r.value.attrs.value)
      && (r.value.attrs.value == [] || !IsSpace(r.value.attrs.value[0]))
  {
    if !StartsWith(s[q..], Marker) then None
    else
      var digits := DigitsStart(s, q);
      var r := DigitsEnd(s, digits);
      if r == digits || r == |s| then None
      else if IsSpace(s[r]) then MatchAttributesAfter(s, r)
      else if s[r] == ',' then Some(MatchTitleAfter(s, r))
      else None
  }

  /** The rest of the match after the digits when a whitespace character follows them: `\s+(.*)` then `,(.*)`. */
  function MatchAttributesAfter(s: string, r: nat): (m: Option<InfoMatch>)
    requires r < |s|
    ensures m.Some? ==> m.value.attrs.Some? && NoTerminators(m.value.title)
    ensures m.Some? ==> (',' !in m.value.title && NoTerminators(m.value.attrs.value)
                         && (m.value.attrs.value == [] || !IsSpace(m.value.attrs.value[0])))
  {
    var t := SkipSpaces(s, r);
    var e := LineEnd(s, t);
    match LastIndexIn(s, t, e, ',')
    case None => None
    case Some(u) =>
      assert t < |s| ==> !IsSpace(s[t]);
      Some(InfoMatch(Some(s[t..u]), s[u + 1..e]))
  }

  /** The rest of the match when a comma follows the digits at once: group 3 only. */
  function MatchTitleAfter(s: string, r: nat): (m: InfoMatch)
    requires r < |s|
    ensures m.attrs.None? && NoTerminators(m.title)
  {
    InfoMatch(None, s[r + 1..LineEnd(s, r + 1)])
  }

  /** The leftmost position at or after `q` where the info-line pattern matches; `|s| + 1` when there is none. */
  function FirstMatch(s: string, q: nat): (p: nat)
    requires q <= |s|
    ensures q <= p <= |s| + 1
    ensures p <= |s| ==> MatchAt(s, p).Some?
    ensures forall p' :: q <= p' < p && p' <= |s| ==> MatchAt(s, p').None?
    decreases |s| - q
  {
    if MatchAt(s, q).Some? then q
    else if q == |s| then |s| + 1
    else FirstMatch(s, q + 1)
  }

  /** `line.match(/#EXTINF:(-?\d+)(?:\s+(.*))?,(.*)/)`: the match at the leftmost position where there is one. */
  function MatchInfo(line: string): (r: Option<InfoMatch>)
    ensures r.None? <==> forall p :: 0 <= p <= |line| ==> MatchAt(line, p).None?
    ensures r.Some? ==> exists p :: 0 <= p <= |line| && r == MatchAt(line, p)
                                    && forall p' :: 0 <= p' < p ==> MatchAt(line, p').None?
  {
    var p := FirstMatch(line, 0);
    if p <= |line| then MatchAt(line, p) else None
  }

  /** Without a comma the pattern cannot match: both of its branches need one. */
  lemma NoCommaNoMatch(line: string)
    requires ',' !in line
    ensures MatchInfo(line).None?
  {
    assert forall k :: 0 <= k < |line| ==> line[k] != ',' by {
      forall k | 0 <= k < |line| ensures line[k] != ',' { assert line[k] in line; }
    }
    forall p | 0 <= p <= |line| ensures MatchAt(line, p).None? { NoCommaAt(line, p); }
  }

  lemma NoCommaAt(line: string, p: nat)
    requires p <= |line| && forall k :: 0 <= k < |line| ==> line[k] != ','
    ensures MatchAt(line, p).None?
  {
  }

  /** When no `#EXTINF:` in the line is followed by a duration (digits, after an optional minus sign), the pattern does not match. */
  lemma NoDurationNoMatch(line: string)
    requires forall p :: 0 <= p <= |line| && StartsWith(line[p..], Marker) ==>
               var d := p + |Marker|;
               !(d < |line| && IsDigit(line[d])) && !(d + 1 < |line| && line[d] == '-' && IsDigit(line[d + 1]))
    ensures MatchInfo(line).None?
  {
    forall p | 0 <= p <= |line| ensures MatchAt(line, p).None? {
      if StartsWith(line[p..], Marker) {
        var d := DigitsStart(line, p);
        assert d < |line| ==> !IsDigit(line[d]);
        assert DigitsEnd(line, d) == d;
      }
    }
  }

  /** A duration as `-?\d+` accepts it: an optional minus sign and at least one digit. */
  predicate IsDuration(d: string) {
    var sign := if |d| > 0 && d[0] == '-' then 1 else 0;
    |d| > sign && forall k :: sign <= k < |d| ==> IsDigit(d[k])
  }

  /** A line that starts with the marker and a duration: `\d+` stops right after the duration. */
  lemma DurationEnds(s: string, dur: string)
    requires IsDuration(dur)
    requires |Marker| + |dur| < |s| && s[..|Marker| + |dur|] == Marker + dur
    requires !IsDigit(s[|Marker| + |dur|])
    ensures StartsWith(s, Marker) && s[0..] == s
    ensures DigitsEnd(s, DigitsStart(s, 0)) == |Marker| + |dur| > DigitsStart(s, 0)
  {
    var n := |Marker| + |dur|;
    assert s[..|Marker|] == s[..n][..|Marker|] == Marker;
    assert s[|Marker|] == s[..n][|Marker|] == dur[0];
    forall k | DigitsStart(s, 0) <= k < n ensures IsDigit(s[k]) {
      assert s[k] == s[..n][k] == dur[k - |Marker|];
    }
    DigitsEndIs(s, DigitsStart(s, 0), n);
  }

  /** The line starts with the marker and a duration that ends at `r`, followed by whitespace up to `t`. */
  predicate HeadAt(s: string, r: nat, t: nat) {
    && StartsWith(s, Marker) && s[0..] == s
    && DigitsEnd(s, DigitsStart(s, 0)) == r > DigitsStart(s, 0)
    && r < |s| && IsSpace(s[r]) && SkipSpaces(s, r) == t
  }

  /** From `t`, the line holds `attrs` up to its last comma at `u` and then `title` up to its end at `e`. */
  predicate TailAt(s: string, t: nat, u: nat, e: nat, attrs: string, title: string) {
    && t <= u < e <= |s| && LineEnd(s, t) == e
    && s[u] == ',' && (forall k :: u < k < e ==> s[k] != ',')
    && s[t..u] == attrs && s[u + 1..e] == title
  }

  /** The matcher at position 0 on a line laid out as marker, duration, whitespace, attributes, comma, title. */
  lemma MatchAtWithAttributes(s: string, r: nat, t: nat, u: nat, e: nat, attrs: string, title: string)
    requires HeadAt(s, r, t) && TailAt(s, t, u, e, attrs, title)
    ensures MatchInfo(s) == Some(InfoMatch(Some(attrs), title))
  {
    assert LastIndexIn(s, t, e, ',') == Some(u);
    assert MatchAttributesAfter(s, r) == Some(InfoMatch(Some(s[t..u]), s[u + 1..e]));
    assert MatchAt(s, 0) == MatchAttributesAfter(s, r);
    assert FirstMatch(s, 0) == 0;
  }

  /** The matcher at position 0 on a line laid out as marker, duration, comma, title. */
  lemma MatchAtBare(s: string, r: nat, e: nat)
    requires StartsWith(s, Marker) && s[0..] == s
    requires DigitsEnd(s, DigitsStart(s, 0)) == r > DigitsStart(s, 0)
    requires r < |s| && s[r] == ','
    requires LineEnd(s, r + 1) == e
    ensures MatchInfo(s) == Some(InfoMatch(None, s[r + 1..e]))
  {
    assert MatchAt(s, 0) == Some(MatchTitleAfter(s, r));
    assert FirstMatch(s, 0) == 0;
  }

  /** On a line laid out as marker, duration, whitespace, attributes, comma, title: where the duration and the whitespace end. */
  lemma LayoutHead(dur: string, ws: string, attrs: string, title: string, rest: string)
    requires IsDuration(dur)
    requires ws != [] && forall k :: 0 <= k < |ws| ==> IsSpace(ws[k])
    requires attrs == [] || !IsSpace(attrs[0])
    ensures HeadAt(Marker + dur + ws + attrs + "," + title + rest, |Marker| + |dur|, |Marker| + |dur| + |ws|)
  {
    var p1 := Marker + dur;
    var p2 := p1 + ws;
    var p3 := p2 + attrs;
    var p4 := p3 + ",";
    var s := p4 + title + rest;
    var r, t := |p1|, |p2|;
    assert s[..r] == p1;
    assert s[r] == p2[r] == ws[0];
    DurationEnds(s, dur);
    forall k | r <= k < t ensures IsSpace(s[k]) { assert s[k] == p2[k] == ws[k - r]; }
    assert !IsSpace(s[t]) by {
      if attrs != [] { assert s[t] == p3[t] == attrs[0]; } else { assert s[t] == p4[t] == ','; }
    }
    SkipSpacesIs(s, r, t);
  }

  /** On the same layout: where the line ends, where its last comma stands, and what lies between. */
  lemma LayoutTail(dur: string, ws: string, attrs: string, title: string, rest: string)
    requires NoTerminators(attrs) && NoTerminators(title) && ',' !in title
    requires rest == [] || IsLineTerminator(rest[0])
    ensures var t := |Marker| + |dur| + |ws|;
            TailAt(Marker + dur + ws + attrs + "," + title + rest, t, t + |attrs|, t + |attrs| + 1 + |title|, attrs, title)
  {
    var p2 := Marker + dur + ws;
    var p3 := p2 + attrs;
    var p4 := p3 + ",";
    var p5 := p4 + title;
    var s := p5 + rest;
    var t, u, e := |p2|, |p3|, |p5|;
    forall k | t <= k < e ensures !IsLineTerminator(s[k]) && (k > u ==> s[k] != ',') {
      if k < u { assert s[k] == p3[k] == attrs[k - t]; }
      else if k > u { assert s[k] == p5[k] == title[k - u - 1]; }
      else { assert s[k] == p4[k] == ','; }
    }
    assert e < |s| ==> s[e] == rest[0];
    LineEndIs(s, t, e);
    assert s[u] == p4[u];
    assert s[t..u] == p3[t..] by { assert s[..u] == p3; }
    assert s[u + 1..e] == p5[u + 1..] by { assert s[..e] == p5; }
  }

  /**
   * An info line written with attributes is read back: group 2 is the attribute
   * text and group 3 the title, provided the title holds no comma (the attribute
   * group reaches the last comma) and neither crosses a line terminator.
   */
  lemma MatchWithAttributes(dur: string, ws: string, attrs: string, title: string, rest: string)
    requires IsDuration(dur)
    requires ws != [] && forall k :: 0 <= k < |ws| ==> IsSpace(ws[k])
    requires NoTerminators(attrs) && (attrs == [] || !IsSpace(attrs[0]))
    requires NoTerminators(title) && ',' !in title
    requires rest == [] || IsLineTerminator(rest[0])
    ensures MatchInfo(Marker + dur + ws + attrs + "," + title + rest) == Some(InfoMatch(Some(attrs), title))
  {
    var s := Marker + dur + ws + attrs + "," + title + rest;
    var r := |Marker| + |dur|;
    var t := r + |ws|;
    var u := t + |attrs|;
    var e := u + 1 + |title|;
    LayoutHead(dur, ws, attrs, title, rest);
    LayoutTail(dur, ws, attrs, title, rest);
    MatchAtWithAttributes(s, r, t, u, e, attrs, title);
  }

  /** `\s+` runs across a carriage return: `#EXTINF:-1\ra,b` has the attributes `a` and the title `b`. */
  lemma CarriageReturnInSpaces(line: string)
    requires line == Marker + "-1" + "\r" + "a" + "," + "b"
    ensures MatchInfo(line) == Some(InfoMatch(Some("a"), "b"))
  {
    MatchWithAttributes("-1", "\r", "a", "b", "");
    assert Marker + "-1" + "\r" + "a" + "," + "b" + "" == line;
  }

  /** An info line written without attributes is read back; here the title may hold commas. */
  lemma MatchWithoutAttributes(dur: string, title: string, rest: string)
    requires IsDuration(dur)
    requires NoTerminators(title)
    requires rest == [] || IsLineTerminator(rest[0])
    ensures MatchInfo(Marker + dur + "," + title + rest) == Some(InfoMatch(None, title))
  {
    var p1 := Marker + dur;
    var p2 := p1 + ",";
    var p3 := p2 + title;
    var s := p3 + rest;
    var r, e := |p1|, |p3|;
    assert StartsWith(s, Marker) && s[0..] == s && DigitsEnd(s, DigitsStart(s, 0)) == r > DigitsStart(s, 0) by {
      assert s[..r] == p1;
      assert s[r] == p2[r] == ',';
      DurationEnds(s, dur);
    }
    assert s[r] == p2[r] == ',';
    assert LineEnd(s, r + 1) == e by {
      forall k | r + 1 <= k < e ensures !IsLineTerminator(s[k]) { assert s[k] == p3[k] == title[k - r - 1]; }
      assert e < |s| ==> s[e] == rest[0];
      LineEndIs(s, r + 1, e);
    }
    MatchAtBare(s, r, e);
    assert s[r + 1..e] == p3[r + 1..] == title;
  }

  // ---------------------------------------------------------------- attributes

  /** `/KEY="([^"]*)"/` can match at position `p`: the opening `KEY="` is there and a closing quote follows somewhere. */
  predicate AttrAt(s: string, key: string, p: nat)
    ensures AttrAt(s, key, p) ==> p + |key| + 3 <= |s| && s[p..p + |key|] == key && s[p + |key|] == '='
  {
    if p <= |s| && StartsWith(s[p..], key + "=\"") then
      assert s[p..p + |key|] == s[p..][..|key| + 2][..|key|] == (key + "=\"")[..|key|] == key;
      assert s[p + |key|] == (key + "=\"")[|key|];
      '"' in s[p + |key| + 2..]
    else false
  }

  /** Group 1 of the match at `p`: `[^"]*` runs to the first quote. */
  function AttrValueAt(s: string, key: string, p: nat): (v: string)
    requires AttrAt(s, key, p)
    ensures '"' !in v
    ensures StartsWith(s[p..], key + "=\"" + v + "\"")
  {
    var start := p + |key| + 2;
    var rest := s[start..];
    var i := FirstIndex(rest, '"');
    assert s[p..][..|key| + 2] == key + "=\"";
    assert s[p..][..|key| + 2 + i + 1] == key + "=\"" + rest[..i] + "\"";
    rest[..i]
  }

  /** The leftmost position at or after `p` where the attribute pattern matches; `|s| + 1` when there is none. */
  function FirstAttr(s: string, key: string, p: nat): (i: nat)
    requires p <= |s|
    ensures p <= i <= |s| + 1
    ensures i <= |s| ==> AttrAt(s, key, i)
    ensures forall i' :: p <= i' < i && i' <= |s| ==> !AttrAt(s, key, i')
    decreases |s| - p
  {
    if AttrAt(s, key, p) then p
    else if p == |s| then |s| + 1
    else FirstAttr(s, key, p + 1)
  }

  /** `attributesRaw.match(/KEY="([^"]*)"/)`, giving group 1 of the leftmost match when there is one. */
  function FindAttr(attributesRaw: string, key: string): (r: Option<string>)
    ensures r.None? <==> forall i :: 0 <= i <= |attributesRaw| ==> !AttrAt(attributesRaw, key, i)
  {
    var i := FirstAttr(attributesRaw, key, 0);
    if i <= |attributesRaw| then Some(AttrValueAt(attributesRaw, key, i)) else None
  }

  lemma {:induction false} FirstAttrIs(s: string, key: string, p: nat, i: nat)
    requires p <= i <= |s| && AttrAt(s, key, i)
    requires forall i' :: p <= i' < i ==> !AttrAt(s, key, i')
    ensures FirstAttr(s, key, p) == i
    decreases i - p
  {
    if p < i { FirstAttrIs(s, key, p + 1, i); }
  }

  /** The first match wins: the value found is group 1 of the leftmost position where the pattern matches. */
  lemma FindAttrFirst(attributesRaw: string, key: string, i: nat)
    requires i <= |attributesRaw| && AttrAt(attributesRaw, key, i)
    requires forall i' :: 0 <= i' < i ==> !AttrAt(attributesRaw, key, i')
    ensures FindAttr(attributesRaw, key) == Some(AttrValueAt(attributesRaw, key, i))
  {
    FirstAttrIs(attributesRaw, key, 0, i);
  }

  /** An attribute at the start of the text is the one found, whatever follows (a repeated key included). */
  lemma FindAttrLeading(key: string, v: string, rest: string)
    requires '"' !in v
    ensures FindAttr(key + "=\"" + v + "\"" + rest, key) == Some(v)
  {
    var s := key + "=\"" + v + "\"" + rest;
    var n := |key| + 2;
    assert s[0..][..n] == key + "=\"";
    assert s[n..][|v|] == '"';
    assert AttrAt(s, key, 0);
    var tail := s[n..];
    assert tail[..|v|] == v;
    assert FirstIndex(tail, '"') == |v|;
  }

  /** A key at `p` whose `k`-th character differs from the text's is no match there. */
  lemma KeyMismatch(s: string, key: string, p: nat, k: nat)
    requires p + k < |s| && k < |key| && s[p + k] != key[k]
    ensures !AttrAt(s, key, p)
  {
    var w := key + "=\"";
    assert w[k] == key[k];
    if |w| <= |s[p..]| { assert s[p..][..|w|][k] == s[p + k]; }
  }

  /** `KEY="v"` at `p`: a match there, with `v` as its value. */
  lemma AttrHere(s: string, key: string, p: nat, v: string)
    requires '"' !in v
    requires p + |key| + 2 + |v| < |s|
    requires s[p..p + |key| + 2] == key + "=\""
    requires s[p + |key| + 2..p + |key| + 2 + |v|] == v && s[p + |key| + 2 + |v|] == '"'
    ensures AttrAt(s, key, p) && AttrValueAt(s, key, p) == v
  {
    var n := |key| + 2;
    assert s[p..][..n] == s[p..p + n];
    var rest := s[p + n..];
    assert rest[..|v|] == v && rest[|v|] == '"';
    assert FirstIndex(rest, '"') == |v| by {
      var i := FirstIndex(rest, '"');
      assert forall k :: 0 <= k < |v| ==> rest[k] != '"' by {
        forall k | 0 <= k < |v| ensures rest[k] != '"' { assert rest[k] == v[k]; }
      }
      assert forall k :: 0 <= k < i ==> rest[k] != '"' by {
        forall k | 0 <= k < i ensures rest[k] != '"' { assert rest[..i][k] == rest[k]; }
      }
    }
  }
}
