/**
 * What `parseM3U` promises, proved about `Run` and `Parse`: how the pending
 * record behaves from line to line, what every emitted channel looks like,
 * how many channels there can be, and how parsing a newline-joined text
 * splits into parsing its parts.
 */
module M3UProperties {
  import opened Text
  import opened Types
  import opened Seqs
  import opened InfoLine
  import opened M3UParser

  lemma RunSnoc(st: Scan, lines: seq<string>, line: string)
    ensures Run(st, lines + [line]) == Step(Run(st, lines), line)
  {
    assert DropLast(lines + [line]) == lines;
  }

  lemma {:induction false} RunAppend(st: Scan, xs: seq<string>, ys: seq<string>)
    ensures Run(st, xs + ys) == Run(Run(st, xs), ys)
    decreases |ys|
  {
    if ys == [] {
      assert xs + ys == xs;
    } else {
      assert DropLast(xs + ys) == xs + DropLast(ys);
      assert Last(xs + ys) == Last(ys);
      RunAppend(st, xs, DropLast(ys));
    }
  }

  // ---------------------------------------------------------------- line by line

  lemma RunThree(st: Scan, a: string, b: string, c: string)
    ensures Run(st, [a, b, c]) == Step(Step(Step(st, a), b), c)
  {
    assert [a, b, c] == [a, b] + [c];
    assert [a, b] == [a] + [b];
    assert [a] == [] + [a];
    RunSnoc(st, [a, b], c);
    RunSnoc(st, [a], b);
    RunSnoc(st, [], a);
  }

  /**
   * Two matched info lines and then a url: the record of the first is
   * dropped and only the second yields a channel, with the second fresh id.
   */
  lemma SecondInfoLineWins(st: Scan, first: string, second: string, url: string)
    requires IsInfoLine(first) && IsInfoLine(second) && IsUrlLine(Trim(url))
    ensures Run(st, [first, second, url])
         == Scan(None, st.channels + [Complete(InfoOf(st.nextId + 1, MatchInfo(Trim(second)).value), Trim(url))],
                 st.nextId + 2)
  {
    RunThree(st, first, second, url);
    var s1 := Step(st, first);
    InfoLineStarts(st, Trim(first));
    InfoLineStarts(s1, Trim(second));
    UrlCompletes(Step(s1, second), Trim(url));
  }

  /**
   * An `#EXTINF:` line that the pattern does not match leaves the pending
   * record alone, so a later url still completes the earlier record.
   */
  lemma MalformedInfoLineKeepsRecord(st: Scan, info: string, bad: string, url: string)
    requires IsInfoLine(info) && IsUrlLine(Trim(url))
    requires StartsWith(Trim(bad), Marker) && MatchInfo(Trim(bad)).None?
    ensures Run(st, [info, bad, url])
         == Scan(None, st.channels + [Complete(InfoOf(st.nextId, MatchInfo(Trim(info)).value), Trim(url))],
                 st.nextId + 1)
  {
    RunThree(st, info, bad, url);
    var s1 := Step(st, info);
    InfoLineStarts(st, Trim(info));
    MalformedInfoLineIgnored(s1, Trim(bad));
    UrlCompletes(s1, Trim(url));
  }

  /** A second url after a completed channel adds nothing. */
  lemma SecondUrlIgnored(st: Scan, info: string, url: string, again: string)
    requires IsInfoLine(info) && IsUrlLine(Trim(url)) && IsUrlLine(Trim(again))
    ensures Run(st, [info, url, again])
         == Scan(None, st.channels + [Complete(InfoOf(st.nextId, MatchInfo(Trim(info)).value), Trim(url))],
                 st.nextId + 1)
  {
    RunThree(st, info, url, again);
    var s1 := Step(st, info);
    InfoLineStarts(st, Trim(info));
    UrlCompletes(s1, Trim(url));
    UrlWithoutRecordIgnored(Step(s1, url), Trim(again));
  }

  // ---------------------------------------------------------------- the fields of a record

  /** The name is the trimmed title, or `Unknown Channel` when that is empty. */
  lemma NameDefault(id: nat, m: InfoMatch)
    ensures Trim(m.title) != [] ==> InfoOf(id, m).name == Trim(m.title)
    ensures Trim(m.title) == [] ==> InfoOf(id, m).name == UnknownChannel
  {
  }

  /**
   * The group: the value of the first `group-title="…"`, even an empty one,
   * and `Uncategorized` only when the attribute text has no such match; a
   * leading `tvg-logo="…"` or `tvg-id="…"` is the logo or the tvg id.
   */
  lemma AttributesOfRecord(id: nat, title: string, key: string, v: string, rest: string)
    requires '"' !in v
    ensures key == "group-title" ==> InfoOf(id, InfoMatch(Some(key + "=\"" + v + "\"" + rest), title)).group == v
    ensures key == "tvg-logo" ==> InfoOf(id, InfoMatch(Some(key + "=\"" + v + "\"" + rest), title)).logo == Some(v)
    ensures key == "tvg-id" ==> InfoOf(id, InfoMatch(Some(key + "=\"" + v + "\"" + rest), title)).tvgId == Some(v)
  {
    FindAttrLeading(key, v, rest);
  }

  /** An info line without attribute text gets the default group and neither logo nor tvg id. */
  lemma NoAttributesDefaults(id: nat, title: string)
    ensures InfoOf(id, InfoMatch(None, title)).group == Uncategorized
    ensures InfoOf(id, InfoMatch(None, title)).logo.None?
    ensures InfoOf(id, InfoMatch(None, title)).tvgId.None?
  {
    assert !AttrAt("", "group-title", 0) && !AttrAt("", "tvg-logo", 0) && !AttrAt("", "tvg-id", 0);
  }

  // ---------------------------------------------------------------- what every channel looks like

  /** A channel as the parser emits it: a name, and a url that is a trimmed URL-shaped line. */
  predicate ChannelShaped(c: Channel) {
    c.name != [] && IsUrlLine(c.url) && Trim(c.url) == c.url
  }

  /**
   * The invariant of the pass, for identifiers drawn from `firstId` on:
   * identifiers strictly increase along the channels and lie below `nextId`;
   * the pending record holds the newest identifier.
   */
  ghost predicate ScanOk(st: Scan, firstId: nat) {
    && firstId <= st.nextId
    && (forall i :: 0 <= i < |st.channels| ==> firstId <= st.channels[i].id < st.nextId)
    && (forall i, j :: 0 <= i < j < |st.channels| ==> st.channels[i].id < st.channels[j].id)
    && (forall i :: 0 <= i < |st.channels| ==> ChannelShaped(st.channels[i]))
    && (st.pending.Some? ==>
          && firstId <= st.pending.value.id && st.pending.value.id + 1 == st.nextId
          && st.pending.value.name != []
          && forall i :: 0 <= i < |st.channels| ==> st.channels[i].id < st.pending.value.id)
  }

  lemma StepOk(st: Scan, firstId: nat, raw: string)
    requires ScanOk(st, firstId)
    ensures ScanOk(Step(st, raw), firstId)
  {
    var line := Trim(raw);
    if StartsWith(line, Marker) {
      if MatchInfo(line).Some? {
        InfoLineStarts(st, line);
        StartOk(st, firstId, InfoOf(st.nextId, MatchInfo(line).value));
      } else {
        MalformedInfoLineIgnored(st, line);
      }
    } else if IsUrlLine(line) {
      if st.pending.Some? {
        UrlCompletes(st, line);
        TrimIdempotent(raw);
        CompleteOk(st, firstId, line);
      } else {
        UrlWithoutRecordIgnored(st, line);
      }
    } else {
      OtherLineIgnored(st, line);
    }
  }

  lemma StartOk(st: Scan, firstId: nat, info: Info)
    requires ScanOk(st, firstId) && info.id == st.nextId && info.name != []
    ensures ScanOk(Scan(Some(info), st.channels, st.nextId + 1), firstId)
  {
  }

  lemma CompleteOk(st: Scan, firstId: nat, line: string)
    requires ScanOk(st, firstId) && st.pending.Some?
    requires IsUrlLine(line) && Trim(line) == line
    ensures ScanOk(Scan(None, st.channels + [Complete(st.pending.value, line)], st.nextId), firstId)
  {
    var cs := st.channels + [Complete(st.pending.value, line)];
    assert forall i :: 0 <= i < |st.channels| ==> cs[i] == st.channels[i];
  }

  lemma {:induction false} RunOk(firstId: nat, lines: seq<string>)
    ensures ScanOk(Run(Start(firstId), lines), firstId)
    decreases |lines|
  {
    if lines != [] {
      RunOk(firstId, DropLast(lines));
      StepOk(Run(Start(firstId), DropLast(lines)), firstId, Last(lines));
    }
  }

  /**
   * Every channel has a non-empty name and a url that is a trimmed,
   * non-empty line not starting with `#`; identifiers are drawn from the
   * counter and strictly increase, so no two channels share one.
   */
  lemma ParsedChannels(content: string, firstId: nat)
    ensures var cs := Parse(content, firstId);
            && (forall i :: 0 <= i < |cs| ==> ChannelShaped(cs[i]) && firstId <= cs[i].id)
            && (forall i, j :: 0 <= i < j < |cs| ==> cs[i].id < cs[j].id)
  {
    RunOk(firstId, SplitLines(content));
  }

  // ---------------------------------------------------------------- counting

  /** The line starts a record: after trimming it is an `#EXTINF:` line the pattern matches. */
  predicate IsInfoLine(raw: string) {
    StartsWith(Trim(raw), Marker) && MatchInfo(Trim(raw)).Some?
  }

  function InfoCount(lines: seq<string>): nat
    decreases |lines|
  {
    if lines == [] then 0 else InfoCount(DropLast(lines)) + (if IsInfoLine(Last(lines)) then 1 else 0)
  }

  /** The trimmed URL-shaped lines, in order. */
  function UrlLines(lines: seq<string>): seq<string>
    decreases |lines|
  {
    if lines == [] then []
    else if IsUrlLine(Trim(Last(lines))) then UrlLines(DropLast(lines)) + [Trim(Last(lines))]
    else UrlLines(DropLast(lines))
  }

  function Urls(cs: seq<Channel>): (us: seq<string>)
    ensures |us| == |cs|
    decreases |cs|
  {
    if cs == [] then [] else Urls(DropLast(cs)) + [Last(cs).url]
  }

  lemma UrlsSnoc(cs: seq<Channel>, c: Channel)
    ensures Urls(cs + [c]) == Urls(cs) + [c.url]
  {
    assert DropLast(cs + [c]) == cs;
  }

  /**
   * The counter advances once per matched info line; the channels (and the
   * pending record) number at most the matched info lines; the urls of the
   * channels are, in order, a subsequence of the URL-shaped lines.
   */
  lemma {:induction false} RunCounts(firstId: nat, lines: seq<string>)
    ensures var r := Run(Start(firstId), lines);
            && r.nextId == firstId + InfoCount(lines)
            && |r.channels| + (if r.pending.Some? then 1 else 0) <= InfoCount(lines)
            && Subsequence(Urls(r.channels), UrlLines(lines))
    decreases |lines|
  {
    if lines == [] {
      SubsequenceOfEmpty<string>([]);
    } else {
      var before := DropLast(lines);
      var raw := Last(lines);
      RunCounts(firstId, before);
      var st := Run(Start(firstId), before);
      var line := Trim(raw);
      if IsUrlLine(line) {
        assert !StartsWith(line, Marker);
        SubsequenceSnoc(Urls(st.channels), UrlLines(before), line);
        if st.pending.Some? {
          UrlsSnoc(st.channels, Complete(st.pending.value, line));
        }
      }
    }
  }

  /**
   * Output order is the order of the completing urls; there are at most as
   * many channels as matched info lines and as URL-shaped lines.
   */
  lemma ParseCounts(content: string, firstId: nat)
    ensures var lines := SplitLines(content);
            && |Parse(content, firstId)| <= InfoCount(lines)
            && |Parse(content, firstId)| <= |UrlLines(lines)|
            && Subsequence(Urls(Parse(content, firstId)), UrlLines(lines))
  {
    var lines := SplitLines(content);
    RunCounts(firstId, lines);
    SubsequenceBounds(Urls(Parse(content, firstId)), UrlLines(lines));
  }

  /** Without a URL-shaped line there is no channel; the empty text is one such input. */
  lemma NoUrlNoChannels(content: string, firstId: nat)
    requires UrlLines(SplitLines(content)) == []
    ensures Parse(content, firstId) == []
  {
    ParseCounts(content, firstId);
  }

  lemma EmptyContent(firstId: nat)
    ensures Parse("", firstId) == []
  {
    assert SplitLines("") == [""];
    assert DropLast([""]) == [];
  }

  // ---------------------------------------------------------------- joined playlists

  lemma StepIgnoresCR(st: Scan, raw: string)
    ensures Step(st, StripCR(raw)) == Step(st, raw)
  {
    TrimStripCR(raw);
  }

  /** Appending `out` in front of the channels of a state is carried through the pass unchanged. */
  lemma StepKeepsChannels(st: Scan, out: seq<Channel>, raw: string)
    ensures Step(Scan(st.pending, out + st.channels, st.nextId), raw)
         == var r := Step(st, raw); Scan(r.pending, out + r.channels, r.nextId)
  {
    var st' := Scan(st.pending, out + st.channels, st.nextId);
    var line := Trim(raw);
    if StartsWith(line, Marker) {
      if MatchInfo(line).Some? {
        InfoLineStarts(st, line);
        InfoLineStarts(st', line);
      } else {
        MalformedInfoLineIgnored(st, line);
        MalformedInfoLineIgnored(st', line);
      }
    } else if IsUrlLine(line) {
      if st.pending.Some? {
        UrlCompletes(st, line);
        UrlCompletes(st', line);
        var c := Complete(st.pending.value, line);
        assert (out + st.channels) + [c] == out + (st.channels + [c]);
      } else {
        UrlWithoutRecordIgnored(st, line);
        UrlWithoutRecordIgnored(st', line);
      }
    } else {
      OtherLineIgnored(st, line);
      OtherLineIgnored(st', line);
    }
  }

  lemma {:induction false} RunKeepsChannels(st: Scan, out: seq<Channel>, lines: seq<string>)
    ensures Run(Scan(st.pending, out + st.channels, st.nextId), lines)
         == var r := Run(st, lines); Scan(r.pending, out + r.channels, r.nextId)
    decreases |lines|
  {
    if lines != [] {
      RunKeepsChannels(st, out, DropLast(lines));
      StepKeepsChannels(Run(st, DropLast(lines)), out, Last(lines));
    }
  }

  /**
   * Two playlists joined with a newline: the lines of the second are parsed
   * from the state the first one ends in, so a record the first leaves
   * pending can be completed by the second's first url.
   */
  lemma ParseJoin(a: string, b: string, firstId: nat)
    ensures var ra := Run(Start(firstId), SplitLines(a));
            Parse(a + "\n" + b, firstId)
            == Parse(a, firstId) + Run(Scan(ra.pending, [], ra.nextId), SplitLines(b)).channels
  {
    var la := SplitLines(a);
    SplitLinesOfJoin(a, b);
    RunAppend(Start(firstId), DropLast(la) + [StripCR(Last(la))], SplitLines(b));
    RunIgnoresCR(Start(firstId), la);
    var ra := Run(Start(firstId), la);
    RunKeepsChannels(Scan(ra.pending, [], ra.nextId), ra.channels, SplitLines(b));
    assert ra.channels + [] == ra.channels;
  }

  /** The carriage return the separator takes off the last line of the first text does not change its step. */
  lemma RunIgnoresCR(st: Scan, lines: seq<string>)
    requires lines != []
    ensures Run(st, DropLast(lines) + [StripCR(Last(lines))]) == Run(st, lines)
  {
    RunSnoc(st, DropLast(lines), StripCR(Last(lines)));
    StepIgnoresCR(Run(st, DropLast(lines)), Last(lines));
  }

  /**
   * When the first playlist leaves no record pending, the joined playlist
   * parses to the channels of the first followed by those of the second,
   * with the second's identifiers continuing the counter.
   */
  lemma ParseJoinCompleted(a: string, b: string, firstId: nat)
    requires Run(Start(firstId), SplitLines(a)).pending.None?
    ensures Parse(a + "\n" + b, firstId)
         == Parse(a, firstId) + Parse(b, Run(Start(firstId), SplitLines(a)).nextId)
  {
    ParseJoin(a, b, firstId);
  }

  // ---------------------------------------------------------------- one entry

  /** An info line as a playlist writes it: marker, duration, one space, attributes, comma, title. */
  lemma EntryLineShape(dur: string, attrs: string, title: string)
    requires IsDuration(dur) && NoTerminators(attrs) && NoTerminators(title)
    requires title == [] || !IsSpace(title[|title| - 1])
    ensures var info := Marker + dur + " " + attrs + "," + title;
            '\n' !in info && StripCR(info) == info && Trim(info) == info && StartsWith(info, Marker)
  {
    var info := Marker + dur + " " + attrs + "," + title;
    EntryLineEnds(dur, attrs, title);
    EntryLineSingle(dur, attrs, title);
  }

  lemma EntryLineEnds(dur: string, attrs: string, title: string)
    requires title == [] || !IsSpace(title[|title| - 1])
    ensures var info := Marker + dur + " " + attrs + "," + title;
            StripCR(info) == info && Trim(info) == info && StartsWith(info, Marker)
  {
    var info := Marker + dur + " " + attrs + "," + title;
    assert info[..|Marker|] == Marker;
    assert info[0] == '#';
    assert !IsSpace(info[|info| - 1]) by {
      if title == [] { assert info[|info| - 1] == ','; } else { assert info[|info| - 1] == title[|title| - 1]; }
    }
    assert [] + info + [] == info;
    TrimOfPadded([], info, []);
  }

  lemma EntryLineSingle(dur: string, attrs: string, title: string)
    requires IsDuration(dur) && NoTerminators(attrs) && NoTerminators(title)
    ensures '\n' !in Marker + dur + " " + attrs + "," + title
  {
    assert '\n' !in dur by {
      forall k | 0 <= k < |dur| ensures dur[k] != '\n' { if k > 0 || dur[0] != '-' { assert IsDigit(dur[k]); } }
    }
    assert '\n' !in attrs && '\n' !in title;
    var p1 := Marker + dur;
    assert '\n' !in p1;
    var p2 := p1 + " " + attrs;
    assert '\n' !in p2;
  }

  /** Two lines without a newline joined by one are split back into those two lines. */
  lemma JoinedEntry(info: string, url: string)
    requires '\n' !in info && '\n' !in url
    ensures SplitLines(info + "\n" + url) == [StripCR(info), url]
  {
    JoinWithoutNewline(info, url);
    assert SplitLines(info) == [info];
    assert SplitLines(url) == [url];
  }

  lemma RunTwo(st: Scan, a: string, b: string)
    ensures Run(st, [a, b]) == Step(Step(st, a), b)
  {
    assert [a, b] == [a] + [b];
    assert [a] == [] + [a];
    RunSnoc(st, [a], b);
    RunSnoc(st, [], a);
  }

  /** The info line of an entry starts the record of its attributes and title. */
  lemma EntryInfoStarts(st: Scan, dur: string, attrs: string, title: string)
    requires IsDuration(dur)
    requires NoTerminators(attrs) && (attrs == [] || !IsSpace(attrs[0]))
    requires NoTerminators(title) && ',' !in title && (title == [] || !IsSpace(title[|title| - 1]))
    ensures Step(st, Marker + dur + " " + attrs + "," + title)
         == Scan(Some(InfoOf(st.nextId, InfoMatch(Some(attrs), title))), st.channels, st.nextId + 1)
  {
    var info := Marker + dur + " " + attrs + "," + title;
    EntryLineEnds(dur, attrs, title);
    MatchWithAttributes(dur, " ", attrs, title, []);
    assert info + [] == info;
    InfoLineStarts(st, info);
  }

  /**
   * One entry, an info line with attributes and then its url, parses to one
   * channel: the record of that info line completed by that url.
   */
  lemma SingleEntry(dur: string, attrs: string, title: string, url: string, firstId: nat)
    requires IsDuration(dur)
    requires NoTerminators(attrs) && (attrs == [] || !IsSpace(attrs[0]))
    requires NoTerminators(title) && ',' !in title && (title == [] || !IsSpace(title[|title| - 1]))
    requires '\n' !in url && IsUrlLine(url) && Trim(url) == url
    ensures Parse(Marker + dur + " " + attrs + "," + title + "\n" + url, firstId)
         == [Complete(InfoOf(firstId, InfoMatch(Some(attrs), title)), url)]
  {
    var info := Marker + dur + " " + attrs + "," + title;
    EntryLineShape(dur, attrs, title);
    JoinedEntry(info, url);
    RunTwo(Start(firstId), info, url);
    EntryInfoStarts(Start(firstId), dur, attrs, title);
    UrlCompletes(Scan(Some(InfoOf(firstId, InfoMatch(Some(attrs), title))), [], firstId + 1), url);
  }
}
