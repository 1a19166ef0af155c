/**
 * `processPlaylist` of App.tsx: the text of a playlist file becomes a
 * `Playlist` named after the file, with the channels `parseM3U` finds in it
 * and the groups `extractGroups` finds among them.
 */
module App {
  import opened Types
  import opened M3UParser
  import opened GroupExtractor

  function ProcessPlaylist(content: string, filename: string, firstId: nat): (p: Playlist)
    ensures p.name == filename
    ensures p.channels == Parse(content, firstId)
    ensures StrictlySorted(p.groups) && NoDuplicates(p.groups)
    ensures forall g :: g in p.groups <==> exists c :: c in p.channels && c.group == g
  {
    var channels := Parse(content, firstId);
    var groups := ExtractGroups(channels);
    forall g ensures g in groups <==> exists c :: c in channels && c.group == g {
      GroupsAreChannelGroups(channels, g);
    }
    Playlist(filename, channels, groups)
  }
}
