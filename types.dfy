/** The record shapes shared by the parser, the channel list and the application shell. */
module Types {

  datatype Option<T> = None | Some(value: T)

  /**
   * One playable channel. `id` is the identifier the parser draws for the
   * channel (a counter value here); `logo` and `tvgId` are absent unless the
   * playlist names them.
   */
  datatype Channel = Channel(
    id: nat,
    name: string,
    url: string,
    group: string,
    logo: Option<string>,
    tvgId: Option<string>)

  /** A loaded playlist: its name, its channels and their sorted distinct groups. */
  datatype Playlist = Playlist(name: string, channels: seq<Channel>, groups: seq<string>)
}
