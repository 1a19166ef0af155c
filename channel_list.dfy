/**
 * The list panel of components/ChannelList.tsx: the channels filtered by the
 * selected group and the search term, the first `displayLimit` of them shown,
 * and the three pieces of state the panel's handlers update.
 */
module ChannelList {
  import opened Text
  import opened Types
  import opened Seqs

  const ItemsPerPage: nat := 50
  /** The option of the group selector that stands for every group. */
  const AllGroups := "All"

  /**
   * The test a channel has to pass to be listed: the group test is skipped
   * for `All`, and the name test for a blank search term; a channel of
   * another group is never listed.
   */
  predicate Listed(c: Channel, selectedGroup: string, searchTerm: string)
    ensures selectedGroup == AllGroups && Trim(searchTerm) == [] ==> Listed(c, selectedGroup, searchTerm)
    ensures selectedGroup != AllGroups && c.group != selectedGroup ==> !Listed(c, selectedGroup, searchTerm)
  {
    (selectedGroup != AllGroups ==> c.group == selectedGroup)
    && (Trim(searchTerm) != [] ==> Contains(ToLower(c.name), ToLower(searchTerm)))
  }

  /**
   * `filteredChannels`: with a group selected, the channels of exactly that
   * group; then, when the search term is not blank, those whose lower-cased
   * name contains the lower-cased term (untrimmed). Every occurrence of a
   * listed channel is kept.
   */
  function FilterChannels(channels: seq<Channel>, selectedGroup: string, searchTerm: string): (result: seq<Channel>)
    ensures Subsequence(result, channels)
    ensures forall c :: c in result <==> c in channels && Listed(c, selectedGroup, searchTerm)
    ensures forall c :: multiset(result)[c] == if Listed(c, selectedGroup, searchTerm) then multiset(channels)[c] else 0
  {
    var byGroup := if selectedGroup != AllGroups then Filter(channels, (c: Channel) => c.group == selectedGroup) else channels;
    assert Subsequence(byGroup, channels) by { if selectedGroup == AllGroups { SubsequenceRefl(channels); } }
    var lowerTerm := ToLower(searchTerm);
    var result := if Trim(searchTerm) != [] then Filter(byGroup, (c: Channel) => Contains(ToLower(c.name), lowerTerm)) else byGroup;
    assert Subsequence(result, byGroup) by { if Trim(searchTerm) == [] { SubsequenceRefl(byGroup); } }
    SubsequenceTrans(result, byGroup, channels);
    SubsequenceBounds(result, byGroup);
    SubsequenceBounds(byGroup, channels);
    result
  }

  /** The two filters in a row are one filter on the combined test. */
  lemma FilterChannelsIsFilter(channels: seq<Channel>, selectedGroup: string, searchTerm: string)
    ensures FilterChannels(channels, selectedGroup, searchTerm)
         == Filter(channels, (c: Channel) => Listed(c, selectedGroup, searchTerm))
  {
    FilterUnique(FilterChannels(channels, selectedGroup, searchTerm), channels,
                 (c: Channel) => Listed(c, selectedGroup, searchTerm));
  }

  /** With every group selected and a blank search term, every channel is listed, in order. */
  lemma UnfilteredIsAll(channels: seq<Channel>, searchTerm: string)
    requires Trim(searchTerm) == []
    ensures FilterChannels(channels, AllGroups, searchTerm) == channels
  {
  }

  /**
   * The selector's `All` wins over a playlist group of that name: selecting
   * it lists the channels of every group.
   */
  lemma AllSelectsEveryGroup(channels: seq<Channel>, searchTerm: string, c: Channel)
    requires c in channels && Listed(c, AllGroups, searchTerm)
    ensures c in FilterChannels(channels, AllGroups, searchTerm)
  {
  }

  /** Every blank search term (empty or only whitespace) filters alike: it does not filter at all. */
  lemma BlankTermsAreAlike(channels: seq<Channel>, selectedGroup: string, a: string, b: string)
    requires Trim(a) == [] && Trim(b) == []
    ensures FilterChannels(channels, selectedGroup, a) == FilterChannels(channels, selectedGroup, b)
  {
  }

  /** `filteredChannels.slice(0, displayLimit)` */
  function Visible(filtered: seq<Channel>, displayLimit: nat): (visible: seq<Channel>)
    ensures |visible| == if displayLimit < |filtered| then displayLimit else |filtered|
    ensures visible == filtered[..|visible|]
  {
    filtered[..if displayLimit < |filtered| then displayLimit else |filtered|]
  }

  /** The "Load More" button: in the non-empty branch, shown while fewer channels are visible than pass the filter. */
  function ShowsLoadMore(filtered: seq<Channel>, displayLimit: nat): (shown: bool)
    ensures shown <==> 0 < displayLimit < |filtered|
  {
    var visible := Visible(filtered, displayLimit);
    |visible| != 0 && |visible| < |filtered|
  }

  /** The "No channels found" message: shown when nothing is visible. */
  function ShowsNoChannels(filtered: seq<Channel>, displayLimit: nat): (shown: bool)
    ensures shown <==> displayLimit == 0 || filtered == []
  {
    |Visible(filtered, displayLimit)| == 0
  }

  /** With a positive limit, "No channels found" shows exactly when no channel passes the filter, and then "Load More" does not. */
  lemma NothingVisibleIffNothingFiltered(filtered: seq<Channel>, displayLimit: nat)
    requires displayLimit > 0
    ensures Visible(filtered, displayLimit) == [] <==> filtered == []
    ensures ShowsNoChannels(filtered, displayLimit) ==> !ShowsLoadMore(filtered, displayLimit)
  {
  }

  /** Each "Load More" shows the next page: the visible channels before are a prefix of those after. */
  lemma ShowMoreExtends(filtered: seq<Channel>, displayLimit: nat)
    ensures var before := Visible(filtered, displayLimit);
            var after := Visible(filtered, displayLimit + ItemsPerPage);
            before == after[..|before|]
            && |after| == if displayLimit + ItemsPerPage < |filtered| then displayLimit + ItemsPerPage else |filtered|
  {
  }

  /** The prefix half of `ShowMoreExtends` on its own, which is all the handler's proof needs. */
  lemma PrefixGrows(filtered: seq<Channel>, displayLimit: nat)
    ensures Visible(filtered, displayLimit) == Visible(filtered, displayLimit + ItemsPerPage)[..|Visible(filtered, displayLimit)|]
  {
  }

  /** One page more keeps the limit a positive multiple of the page size. */
  lemma NextPage(limit: nat)
    requires limit >= ItemsPerPage && limit % ItemsPerPage == 0
    ensures limit + ItemsPerPage >= ItemsPerPage && (limit + ItemsPerPage) % ItemsPerPage == 0
  {
  }

  /** One page more, on the panel: the channels visible before are a prefix of those visible now. */
  twostate lemma PageExtends(v: ChannelListView)
    requires v.channels == old(v.channels) && v.selectedGroup == old(v.selectedGroup) && v.searchTerm == old(v.searchTerm)
    requires v.displayLimit == old(v.displayLimit) + ItemsPerPage
    ensures old(v.VisibleChannels()) == v.VisibleChannels()[..|old(v.VisibleChannels())|]
  {
    PrefixGrows(old(v.FilteredChannels()), old(v.displayLimit));
  }

  /** The panel's state: the `channels` prop, and the search box, the group selector and the page limit it keeps. */
  class ChannelListView {
    var channels: seq<Channel>
    var searchTerm: string
    var selectedGroup: string
    var displayLimit: nat

    /** The page limit is a positive multiple of the page size. */
    ghost predicate Valid()
      reads this
    {
      displayLimit >= ItemsPerPage && displayLimit % ItemsPerPage == 0
    }

    constructor (channels: seq<Channel>)
      ensures Valid()
      ensures this.channels == channels && searchTerm == "" && selectedGroup == AllGroups
      ensures displayLimit == ItemsPerPage
    {
      this.channels := channels;
      searchTerm := "";
      selectedGroup := AllGroups;
      displayLimit := ItemsPerPage;
    }

    /** `filteredChannels` of the current state: every occurrence of a listed channel, and nothing else. */
    function FilteredChannels(): (result: seq<Channel>)
      reads this
      ensures Subsequence(result, channels)
      ensures forall c :: multiset(result)[c] == if Listed(c, selectedGroup, searchTerm) then multiset(channels)[c] else 0
    {
      FilterChannels(channels, selectedGroup, searchTerm)
    }

    /** `visibleChannels`: the first `displayLimit` filtered channels; in a valid state, empty only when nothing passes the filter. */
    function VisibleChannels(): (visible: seq<Channel>)
      reads this
      ensures |visible| == if displayLimit < |FilteredChannels()| then displayLimit else |FilteredChannels()|
      ensures visible == FilteredChannels()[..|visible|]
      ensures Valid() ==> (visible == [] <==> FilteredChannels() == [])
    {
      Visible(FilteredChannels(), displayLimit)
    }

    /** The "Load More" button; in a valid state, shown exactly while the page limit is below the number of filtered channels. */
    function LoadMoreShown(): (shown: bool)
      reads this
      ensures Valid() ==> (shown <==> displayLimit < |FilteredChannels()|)
    {
      ShowsLoadMore(FilteredChannels(), displayLimit)
    }

    /** `handleShowMore`: one page more. */
    method ShowMore()
      requires Valid()
      modifies this
      ensures Valid()
      ensures displayLimit == old(displayLimit) + ItemsPerPage
      ensures searchTerm == old(searchTerm) && selectedGroup == old(selectedGroup) && channels == old(channels)
      ensures old(VisibleChannels()) == VisibleChannels()[..|old(VisibleChannels())|]
    {
      NextPage(displayLimit);
      displayLimit := displayLimit + ItemsPerPage;
      PageExtends(this);
    }

    /**
     * A new `channels` prop (a second playlist loaded while the panel is
     * mounted): the three state fields are kept, so the old search, group
     * and page limit now apply to the new channels.
     */
    method ChannelsChange(cs: seq<Channel>)
      modifies this
      ensures channels == cs
      ensures searchTerm == old(searchTerm) && selectedGroup == old(selectedGroup) && displayLimit == old(displayLimit)
      ensures old(Valid()) ==> Valid()
      ensures VisibleChannels() == Visible(FilterChannels(cs, old(selectedGroup), old(searchTerm)), old(displayLimit))
    {
      channels := cs;
    }

    /** `handleSearchChange`: the new term, and back to the first page. */
    method SearchChange(value: string)
      modifies this
      ensures Valid()
      ensures searchTerm == value && displayLimit == ItemsPerPage
      ensures selectedGroup == old(selectedGroup) && channels == old(channels)
      ensures |VisibleChannels()| <= ItemsPerPage
    {
      searchTerm := value;
      displayLimit := ItemsPerPage;
    }

    /** `handleGroupChange`: the new group, and back to the first page. */
    method GroupChange(value: string)
      modifies this
      ensures Valid()
      ensures selectedGroup == value && displayLimit == ItemsPerPage
      ensures searchTerm == old(searchTerm) && channels == old(channels)
      ensures |VisibleChannels()| <= ItemsPerPage
    {
      selectedGroup := value;
      displayLimit := ItemsPerPage;
    }
  }
}
