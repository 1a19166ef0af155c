/**
 * `parseM3U` of utils/m3uParser.ts: one pass over the lines of a playlist
 * with one in-progress channel record. An info line that matches starts a
 * new record (replacing any earlier one); a URL-shaped line completes the
 * record, if there is one; every other line is skipped.
 *
 * `Step`, `Run` and `Parse` state what the pass computes, line by line;
 * `ParseM3U` is the loop itself, over a record whose fields are filled in
 * one by one, and is proved to compute `Parse`. The identifier source is a
 * counter that starts at `firstId`.
 */
module M3UParser {
  import opened Text
  import opened Types
  import opened Seqs
  import opened InfoLine

  const UnknownChannel := "Unknown Channel"
  const Uncategorized := "Uncategorized"

  /** What a matched info line gives its channel: everything but the url. */
  datatype Info = Info(id: nat, name: string, group: string, logo: Option<string>, tvgId: Option<string>)

  /** The state between two lines: the in-progress record, the channels so far, the next identifier. */
  datatype Scan = Scan(pending: Option<Info>, channels: seq<Channel>, nextId: nat)

  function Start(firstId: nat): Scan {
    Scan(None, [], firstId)
  }

  /** `name || 'Unknown Channel'` on the trimmed group 3: never empty, and with no whitespace around it. */
  function NameOf(title: string): (name: string)
    ensures name != [] && Trim(name) == name
  {
    var name := Trim(title);
    TrimIdempotent(title);
    assert Trim(UnknownChannel) == UnknownChannel by {
      assert [] + UnknownChannel + [] == UnknownChannel;
      TrimOfPadded([], UnknownChannel, []);
    }
    if name != [] then name else UnknownChannel
  }

  /**
   * The record a matched info line starts: the fresh id, a non-empty name,
   * the group found (or `Uncategorized` when there is none), and the logo
   * and tvg id exactly as their searches find them.
   */
  function InfoOf(id: nat, m: InfoMatch): (info: Info)
    ensures info.id == id && info.name != []
    ensures var attrs := match m.attrs case Some(a) => a case None => "";
            && (FindAttr(attrs, "group-title").None? ==> info.group == Uncategorized)
            && (FindAttr(attrs, "group-title").Some? ==> info.group == FindAttr(attrs, "group-title").value)
            && info.logo == FindAttr(attrs, "tvg-logo") && info.tvgId == FindAttr(attrs, "tvg-id")
  {
    var attributesRaw := match m.attrs case Some(a) => a case None => "";
    var group := match FindAttr(attributesRaw, "group-title") case Some(g) => g case None => Uncategorized;
    Info(id, NameOf(m.title), group, FindAttr(attributesRaw, "tvg-logo"), FindAttr(attributesRaw, "tvg-id"))
  }

  /** The fields of a channel other than its url. */
  function InfoPart(c: Channel): Info {
    Info(c.id, c.name, c.group, c.logo, c.tvgId)
  }

  /** The channel pushed when a url completes `info`: it keeps every field of the record, and gets the url. */
  function Complete(info: Info, url: string): (c: Channel)
    ensures InfoPart(c) == info && c.url == url
  {
    Channel(info.id, info.name, url, info.group, info.logo, info.tvgId)
  }

  /** The url test of the parser; the `http` and `rtmp` prefixes are already covered by the third disjunct. */
  function IsUrlLine(line: string): (b: bool)
    ensures b <==> |line| > 0 && line[0] != '#'
    ensures b ==> !StartsWith(line, Marker)
  {
    assert StartsWith(line, Marker) ==> line[0] == line[..|Marker|][0];
    StartsWith(line, "http") || StartsWith(line, "rtmp") || (|line| > 0 && !StartsWith(line, "#"))
  }

  /**
   * One iteration of the loop, on the raw line: it is trimmed first. At most
   * one channel is emitted, the pending record completed by the trimmed line,
   * and the counter advances only to give its value to a new pending record.
   */
  function Step(st: Scan, raw: string): (r: Scan)
    ensures r.channels == st.channels
            || (st.pending.Some? && r.channels == st.channels + [Complete(st.pending.value, Trim(raw))])
    ensures r.nextId == st.nextId || (r.nextId == st.nextId + 1 && r.pending.Some? && r.pending.value.id == st.nextId)
  {
    StepLine(st, Trim(raw))
  }

  /** One iteration of the loop, on the trimmed line. */
  function StepLine(st: Scan, line: string): (r: Scan)
    ensures r.channels == st.channels
            || (st.pending.Some? && r.channels == st.channels + [Complete(st.pending.value, line)])
    ensures r.nextId == st.nextId || (r.nextId == st.nextId + 1 && r.pending.Some? && r.pending.value.id == st.nextId)
  {
    if StartsWith(line, Marker) then
      match MatchInfo(line)
      case None => st
      case Some(m) => Scan(Some(InfoOf(st.nextId, m)), st.channels, st.nextId + 1)
    else if IsUrlLine(line) then
      match st.pending
      case None => st
      case Some(info) => Scan(None, st.channels + [Complete(info, line)], st.nextId)
    else st
  }

  /**
   * The loop over `lines`, from state `st`: the channels already emitted stay
   * in front, each line adds at most one channel and advances the counter at
   * most once.
   */
  function Run(st: Scan, lines: seq<string>): (r: Scan)
    ensures |st.channels| <= |r.channels| <= |st.channels| + |lines| && r.channels[..|st.channels|] == st.channels
    ensures st.nextId <= r.nextId <= st.nextId + |lines|
    decreases |lines|
  {
    if lines == [] then st else Step(Run(st, DropLast(lines)), Last(lines))
  }

  /** `parseM3U(content)`, with identifiers drawn from `firstId` on: at most one channel per line. */
  function Parse(content: string, firstId: nat): (cs: seq<Channel>)
    ensures |cs| <= |SplitLines(content)|
  {
    Run(Start(firstId), SplitLines(content)).channels
  }

  // ---------------------------------------------------------------- the loop

  /** `Partial<Channel>`: the in-progress record, each field set or not. */
  datatype Draft = Draft(
    id: Option<nat>, name: Option<string>, url: Option<string>,
    group: Option<string>, logo: Option<string>, tvgId: Option<string>)

  const EmptyDraft := Draft(None, None, None, None, None, None)

  /** Between iterations the record is either empty or has id, name and group and no url yet. */
  predicate DraftOk(d: Draft) {
    (d.id.None? ==> d == EmptyDraft)
    && (d.id.Some? ==> d.name.Some? && d.group.Some? && d.url.None?)
  }

  function PendingOf(d: Draft): Option<Info>
    requires DraftOk(d)
  {
    if d.id.Some? then Some(Info(d.id.value, d.name.value, d.group.value, d.logo, d.tvgId)) else None
  }

  method ParseM3U(content: string, firstId: nat) returns (channels: seq<Channel>)
    ensures channels == Parse(content, firstId)
  {
    var lines := SplitLines(content);
    channels := [];
    var currentChannel := EmptyDraft;
    var nextId := firstId;
    for i := 0 to |lines|
      invariant DraftOk(currentChannel)
      invariant Run(Start(firstId), lines[..i]) == Scan(PendingOf(currentChannel), channels, nextId)
    {
      RunPrefix(Start(firstId), lines, i);
      ghost var st := Scan(PendingOf(currentChannel), channels, nextId);
      var line := Trim(lines[i]);
      if StartsWith(line, Marker) {
        var infoMatch := MatchInfo(line);
        if infoMatch.Some? {
          currentChannel := NewRecord(nextId, infoMatch.value);
          nextId := nextId + 1;
          InfoLineStarts(st, line);
        } else {
          MalformedInfoLineIgnored(st, line);
        }
      } else if IsUrlLine(line) {
        if currentChannel.id.Some? {
          currentChannel := currentChannel.(url := Some(line));
          var c := currentChannel;
          channels := channels + [Channel(c.id.value, c.name.value, c.url.value, c.group.value, c.logo, c.tvgId)];
          currentChannel := EmptyDraft;
          UrlCompletes(st, line);
        } else {
          UrlWithoutRecordIgnored(st, line);
        }
      } else {
        OtherLineIgnored(st, line);
      }
    }
    assert lines[..|lines|] == lines;
  }

  lemma RunPrefix(st: Scan, lines: seq<string>, i: nat)
    requires i < |lines|
    ensures Run(st, lines[..i + 1]) == Step(Run(st, lines[..i]), lines[i])
  {
    assert DropLast(lines[..i + 1]) == lines[..i];
  }

  // ---------------------------------------------------------------- one line

  /** A matched info line starts a new record with the next identifier, replacing any pending one. */
  lemma InfoLineStarts(st: Scan, line: string)
    requires StartsWith(line, Marker) && MatchInfo(line).Some?
    ensures StepLine(st, line) == Scan(Some(InfoOf(st.nextId, MatchInfo(line).value)), st.channels, st.nextId + 1)
  {
  }

  /** An `#EXTINF:` line that the pattern does not match changes nothing. */
  lemma MalformedInfoLineIgnored(st: Scan, line: string)
    requires StartsWith(line, Marker) && MatchInfo(line).None?
    ensures StepLine(st, line) == st
  {
  }

  /** A URL-shaped line completes the pending record: one channel with that record's fields and the line as url. */
  lemma UrlCompletes(st: Scan, line: string)
    requires st.pending.Some? && IsUrlLine(line)
    ensures StepLine(st, line) == Scan(None, st.channels + [Complete(st.pending.value, line)], st.nextId)
  {
  }

  /** A URL-shaped line with no record pending (before any info line, or right after a completed channel) changes nothing. */
  lemma UrlWithoutRecordIgnored(st: Scan, line: string)
    requires st.pending.None? && IsUrlLine(line)
    ensures StepLine(st, line) == st
  {
  }

  /** Blank lines and directives other than `#EXTINF:` change nothing. */
  lemma OtherLineIgnored(st: Scan, line: string)
    requires !StartsWith(line, Marker) && !IsUrlLine(line)
    ensures StepLine(st, line) == st
  {
  }

  /** The record a matched info line starts: id, name and the default group, then each attribute found. */
  method NewRecord(id: nat, infoMatch: InfoMatch) returns (currentChannel: Draft)
    ensures DraftOk(currentChannel) && PendingOf(currentChannel) == Some(InfoOf(id, infoMatch))
  {
    var attributesRaw := match infoMatch.attrs case Some(a) => a case None => "";
    var name := Trim(infoMatch.title);
    currentChannel := Draft(Some(id), Some(if name != [] then name else UnknownChannel), None,
                            Some(Uncategorized), None, None);
    var tvgLogoMatch := FindAttr(attributesRaw, "tvg-logo");
    if tvgLogoMatch.Some? { currentChannel := currentChannel.(logo := tvgLogoMatch); }
    var groupTitleMatch := FindAttr(attributesRaw, "group-title");
    if groupTitleMatch.Some? { currentChannel := currentChannel.(group := groupTitleMatch); }
    var tvgIdMatch := FindAttr(attributesRaw, "tvg-id");
    if tvgIdMatch.Some? { currentChannel := currentChannel.(tvgId := tvgIdMatch); }
  }
}
