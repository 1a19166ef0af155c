/**
 * A worked playlist of one entry carrying all three attributes, parsed
 * field by field: the logo from the leading attribute, the group and the
 * tvg id from the first positions where their patterns match.
 */
module M3USample {
  import opened Text
  import opened Types
  import opened InfoLine
  import opened M3UParser
  import opened M3UProperties

  /** The attribute text of the entry. */
  const SampleAttrs := "tvg-logo=\"L\" group-title=\"G\" tvg-id=\"I\""

  /** Neither `group-title` nor `tvg-id` can start inside an earlier attribute of the sample. */
  lemma SampleLetters(attrs: string)
    requires attrs == SampleAttrs
    ensures |attrs| == 39
    ensures forall p :: 0 <= p < 13 ==> attrs[p] != 'g' || attrs[p + 1] != 'r'
    ensures forall p :: 0 <= p < 29 ==> attrs[p] != 't' || attrs[p + 1] != 'v' || attrs[p + 4] != 'i'
  {
  }

  /** The sample is plain printable text. */
  lemma SamplePrintable(attrs: string)
    requires attrs == SampleAttrs
    ensures forall k :: 0 <= k < |attrs| ==> ' ' <= attrs[k] <= '~'
  {
  }

  /** Where the three attributes of the sample stand: the opening `KEY="`, the value and its closing quote. */
  lemma LogoLayout(attrs: string)
    requires attrs == SampleAttrs
    ensures attrs[0..10] == "tvg-logo=\"" && attrs[10..11] == "L" && attrs[11] == '"'
  {
    assert attrs[10..11] == [attrs[10]];
  }

  lemma GroupLayout(attrs: string)
    requires attrs == SampleAttrs
    ensures attrs[13..26] == "group-title=\"" && attrs[26..27] == "G" && attrs[27] == '"'
  {
    assert attrs[26..27] == [attrs[26]];
    var head, key, tail := "tvg-logo=\"L\" ", "group-title=\"", "G\" tvg-id=\"I\"";
    assert attrs == head + key + tail;
    assert attrs[13..26] == (head + key + tail)[|head|..|head| + |key|] == key;
  }

  lemma TvgIdLayout(attrs: string)
    requires attrs == SampleAttrs
    ensures attrs[29..37] == "tvg-id=\"" && attrs[37..38] == "I" && attrs[38] == '"'
  {
    assert attrs[37..38] == [attrs[37]];
  }

  lemma SampleLogo(attrs: string)
    requires attrs == SampleAttrs
    ensures FindAttr(attrs, "tvg-logo") == Some("L")
  {
    SampleLetters(attrs);
    LogoLayout(attrs);
    AttrHere(attrs, "tvg-logo", 0, "L");
    FindAttrFirst(attrs, "tvg-logo", 0);
  }

  lemma SampleGroup(attrs: string)
    requires attrs == SampleAttrs
    ensures FindAttr(attrs, "group-title") == Some("G")
  {
    SampleLetters(attrs);
    forall p | 0 <= p < 13 ensures !AttrAt(attrs, "group-title", p) {
      if attrs[p] != 'g' { KeyMismatch(attrs, "group-title", p, 0); }
      else { KeyMismatch(attrs, "group-title", p, 1); }
    }
    GroupLayout(attrs);
    AttrHere(attrs, "group-title", 13, "G");
    FindAttrFirst(attrs, "group-title", 13);
  }

  lemma SampleTvgId(attrs: string)
    requires attrs == SampleAttrs
    ensures FindAttr(attrs, "tvg-id") == Some("I")
  {
    SampleLetters(attrs);
    forall p | 0 <= p < 29 ensures !AttrAt(attrs, "tvg-id", p) {
      if attrs[p] != 't' { KeyMismatch(attrs, "tvg-id", p, 0); }
      else if attrs[p + 1] != 'v' { KeyMismatch(attrs, "tvg-id", p, 1); }
      else { KeyMismatch(attrs, "tvg-id", p, 4); }
    }
    TvgIdLayout(attrs);
    AttrHere(attrs, "tvg-id", 29, "I");
    FindAttrFirst(attrs, "tvg-id", 29);
  }

  /** The record of the sample info line: its name and each of its three attributes. */
  lemma SampleRecord(id: nat, attrs: string, title: string)
    requires attrs == SampleAttrs && title == "Name"
    ensures InfoOf(id, InfoMatch(Some(attrs), title)) == Info(id, "Name", "G", Some("L"), Some("I"))
  {
    SampleLogo(attrs);
    SampleGroup(attrs);
    SampleTvgId(attrs);
    SampleName(title);
    RecordOf(id, attrs, title);
  }

  lemma SampleName(title: string)
    requires title == "Name"
    ensures Trim(title) == "Name"
  {
    assert [] + title + [] == title;
    TrimOfPadded([], title, []);
  }

  lemma RecordOf(id: nat, attrs: string, title: string)
    requires FindAttr(attrs, "tvg-logo") == Some("L") && FindAttr(attrs, "group-title") == Some("G")
    requires FindAttr(attrs, "tvg-id") == Some("I") && Trim(title) == "Name"
    ensures InfoOf(id, InfoMatch(Some(attrs), title)) == Info(id, "Name", "G", Some("L"), Some("I"))
  {
  }

  /**
   * A playlist of one entry, `#EXTINF:-1 tvg-logo="L" group-title="G" tvg-id="I",Name`
   * and then `http://u`, parses to exactly that channel.
   */
  lemma SampleEntry(content: string, firstId: nat)
    requires content == Marker + "-1" + " " + SampleAttrs + "," + "Name" + "\n" + "http://u"
    ensures Parse(content, firstId) == [Channel(firstId, "Name", "http://u", "G", Some("L"), Some("I"))]
  {
    var attrs, title, url := SampleAttrs, "Name", "http://u";
    SampleEntryShape(attrs, title, url);
    SingleEntry("-1", attrs, title, url, firstId);
    SampleRecord(firstId, attrs, title);
  }

  lemma SampleEntryShape(attrs: string, title: string, url: string)
    requires attrs == SampleAttrs && title == "Name" && url == "http://u"
    ensures IsDuration("-1") && NoTerminators(attrs) && !IsSpace(attrs[0])
    ensures NoTerminators(title) && ',' !in title && !IsSpace(title[|title| - 1])
    ensures '\n' !in url && IsUrlLine(url) && Trim(url) == url
  {
    SamplePrintable(attrs);
    UrlShape(url);
  }

  lemma UrlShape(url: string)
    requires url == "http://u"
    ensures '\n' !in url && IsUrlLine(url) && Trim(url) == url
  {
    assert [] + url + [] == url;
    TrimOfPadded([], url, []);
  }
}
