# Extended-M3U playlist parsing and channel listing, in Dafny

This project models the logic of a small IPTV web player. It has three parts:

- **`parseM3U`** turns the text of an extended-M3U playlist into channel records. It makes one pass over the lines and keeps one in-progress record:
  - an `#EXTINF:` info line that matches the info-line pattern starts a new record, replacing any pending one;
  - a URL-shaped line completes the pending record, if there is one;
  - every other line is skipped.
- **`extractGroups`** collects the distinct `group` labels of the channels and sorts them in JavaScript's default (UTF-16 code-unit) order.
- **The channel list panel** filters the channels by group and by a case-insensitive name search. It shows the first `displayLimit` of them. `displayLimit` starts at 50, grows by 50 on "Load More" and goes back to 50 when the search or the group changes.

The files:

- `text.dfy`: JavaScript's `trim` and `\s` whitespace set, ASCII `toLowerCase`, `startsWith`, `includes`, and `split(/\r?\n/)`.
- `info_line.dfy`: the regular expressions `#EXTINF:(-?\d+)(?:\s+(.*))?,(.*)` and `KEY="([^"]*)"`, written out as matchers. They keep the leftmost-match search, the greedy quantifiers and backtracking. Group 2 therefore reaches the last comma before the first line terminator that follows the whitespace after the duration. That whitespace, `\s+`, may itself hold line terminators, including a lone `\r`.
- `m3u_parser.dfy`: three specification functions, `Step`, `Run` and `Parse`, say what the pass computes line by line. `ParseM3U` is the loop itself, over a record whose fields are filled in one at a time, and is proved to compute `Parse`.
- `m3u_properties.dfy`: what the parser promises:
  - how the pending record behaves;
  - the fields of a record;
  - the shape of every emitted channel, with distinct, increasing identifiers;
  - bounds on the number of channels, and their order;
  - how parsing two playlists joined with a newline splits into parsing each.
- `m3u_sample.dfy`: a one-entry playlist with all three attributes, parsed field by field.
- `string_order.dfy`: the UTF-16 code-unit order as a strict total order on strings, proved equal to the lexicographic order of the UTF-16 forms.
- `groups.dfy`: `extractGroups` as a map, then a dedup that keeps first occurrences, then a sort.
- `channel_list.dfy`: the filter, the slice, the "Load More" condition, and a `ChannelListView` class holding the panel's three state fields and its handlers.
- `app.dfy`: the `Playlist` built from an uploaded text.

Identifiers come from a counter that starts at `firstId`, in place of `crypto.randomUUID()`. With the counter, channel ids are provably distinct.

Where the code and its documentation differ, the model follows the code:

- **`group-title=""`.** The code stores the empty label, so a channel's group can be the empty string.
- **Joined playlists.** Parsing `A + "\n" + B` is not always "the channels of A, then the channels of B". A record that A leaves pending (an info line with no URL after it) is completed by B's first URL-shaped line, unless a matched info line of B comes first and replaces it. `ParseJoin` states the general case. `ParseJoinCompleted` states the special case where A leaves nothing pending.
- **The `http` and `rtmp` prefixes.** The URL test checks for them (utils/m3uParser.ts:36), but they add nothing. A line is URL-shaped exactly when it is non-empty and does not start with `#`.

## Model

| member | source | states |
|---|---|---|
| Text.Trim | utils/m3uParser.ts:9 | the result is the slice between the leading and trailing JavaScript whitespace; it neither starts nor ends with whitespace |
| Text.TrimOfPadded | utils/m3uParser.ts:9 | trimming whitespace-padded text that has no whitespace at its ends gives back that text: trim is the only such cut |
| Text.TrimIdempotent | utils/m3uParser.ts:9 | trimming twice is trimming once, so a url taken from a trimmed line is itself trimmed |
| Text.TrimStripCR | utils/m3uParser.ts:4-9 | the carriage return that `\r?\n` takes off a line makes no difference after `trim` |
| Text.StartsWithPointwise | utils/m3uParser.ts:11 | `startsWith`: the prefix is no longer than the string and agrees with it character by character, and conversely |
| Text.Contains | components/ChannelList.tsx:35 | `includes`: the empty term is in every string, a prefix is in the string, and nothing longer than the string is in it |
| Text.ToLower | components/ChannelList.tsx:33-35 | the result has the input's length, and each character is lower-cased (ASCII letters) |
| Text.SplitLines | utils/m3uParser.ts:4 | `split(/\r?\n/)` gives at least one line and at most one more than there are characters; a text without a newline is one line, itself |
| Text.SplitLinesCount | utils/m3uParser.ts:4 | the text splits into exactly one more line than it has newlines |
| Text.SplitLinesNoNewline | utils/m3uParser.ts:4 | no line produced by the split holds a newline |
| Text.SplitLinesOfJoin | App.tsx:63 | the lines of `a + "\n" + b` are the lines of `a`, with the last one losing a trailing carriage return, followed by the lines of `b` |
| InfoLine.DigitsEnd | utils/m3uParser.ts:14 | greedy `\d+`: every character skipped is a digit, and the one it stops at is not |
| InfoLine.LineEnd | utils/m3uParser.ts:14 | greedy `.*`: it stops at the first line terminator or at the end |
| InfoLine.LastIndexIn | utils/m3uParser.ts:14 | the last position of a character in a range, with none after it; None exactly when the range lacks it |
| InfoLine.MatchAt | utils/m3uParser.ts:14 | a match at a position starts with `#EXTINF:`; its title has no line terminator; with an attribute group, the title holds no comma and the attributes do not start with whitespace |
| InfoLine.FirstMatch | utils/m3uParser.ts:14 | the leftmost position where the pattern matches: it matches there and at no earlier position |
| InfoLine.MatchInfo | utils/m3uParser.ts:14 | `line.match(...)` is null exactly when the pattern matches at no position of the line; otherwise it is the match at a position where the pattern matches and before which it matches nowhere |
| InfoLine.NoCommaNoMatch | utils/m3uParser.ts:14-16 | a line without a comma never matches, so its `#EXTINF:` line is ignored |
| InfoLine.NoDurationNoMatch | utils/m3uParser.ts:14-16 | a line in which no `#EXTINF:` is followed by digits, or by a minus sign and digits, never matches |
| InfoLine.MatchWithAttributes | utils/m3uParser.ts:14-18 | an info line written as marker, duration, whitespace, attributes, comma and a comma-free title is read back as those attributes and that title |
| InfoLine.CarriageReturnInSpaces | utils/m3uParser.ts:14 | the whitespace after the duration may be a carriage return: `#EXTINF:-1\ra,b` has attributes `a` and title `b` |
| InfoLine.MatchWithoutAttributes | utils/m3uParser.ts:14-18 | an info line written as marker, duration, comma and title is read back with no attribute group; the title may hold commas |
| InfoLine.AttrAt | utils/m3uParser.ts:27 | the attribute pattern tried at one position: a match leaves room for the key, `="` and a closing quote, and the text there spells the key and `=` |
| InfoLine.AttrValueAt | utils/m3uParser.ts:27 | group 1 of the attribute pattern holds no quote, and the text there reads `KEY="value"` |
| InfoLine.FirstAttr | utils/m3uParser.ts:27 | the leftmost position where the attribute pattern matches, with no match before it |
| InfoLine.FindAttr | utils/m3uParser.ts:27-34 | the attribute search finds nothing exactly when the pattern matches at no position |
| InfoLine.FindAttrFirst | utils/m3uParser.ts:27-34 | when the pattern first matches at `i`, the value found is the one at `i`: the first occurrence wins |
| InfoLine.FindAttrLeading | utils/m3uParser.ts:27-34 | an attribute at the start of the text is found with its value, whatever follows, including a repeat of the key |
| InfoLine.KeyMismatch | utils/m3uParser.ts:27-34 | the attribute pattern does not match at a position where the text differs from the key |
| InfoLine.AttrHere | utils/m3uParser.ts:27-34 | where the text reads `KEY="v"`, the pattern matches with `v` as group 1 |
| M3UParser.NameOf | utils/m3uParser.ts:18-22 | the name is never empty and has no whitespace around it |
| M3UParser.InfoOf | utils/m3uParser.ts:16-34 | the record has the fresh id and a non-empty name; when no `group-title="…"` matches its group is `Uncategorized`, and otherwise the matched value; its logo and tvg id are exactly what the `tvg-logo` and `tvg-id` searches find, first match or none |
| M3UParser.Complete | utils/m3uParser.ts:39-40 | the pushed channel keeps every field of the record, and its url is the line |
| M3UParser.IsUrlLine | utils/m3uParser.ts:36 | a line is URL-shaped exactly when it is non-empty and does not start with `#`; such a line is never an info line |
| M3UParser.Step | utils/m3uParser.ts:9-43 | one iteration on the raw line emits at most one channel, the pending record completed by the trimmed line; the counter advances only to give its value to the new pending record |
| M3UParser.StepLine | utils/m3uParser.ts:11-43 | the same, for the trimmed line |
| M3UParser.Run | utils/m3uParser.ts:8-44 | over any lines, the channels already emitted stay in front; each line adds at most one channel and advances the counter at most once |
| M3UParser.Parse | utils/m3uParser.ts:3-47 | `parseM3U` gives at most one channel per line of the text |
| M3UParser.ParseM3U | utils/m3uParser.ts:3-47 | the loop, with its record filled in field by field, returns exactly `Parse(content, firstId)` |
| M3UParser.RunPrefix | utils/m3uParser.ts:8-9 | one more loop iteration is one more `Step` on the next line |
| M3UParser.NewRecord | utils/m3uParser.ts:16-34 | building the record field by field (defaults, then logo, group and tvg-id when found) gives `InfoOf(id, match)` |
| M3UParser.InfoLineStarts | utils/m3uParser.ts:11-24 | a matched info line replaces the pending record with a new one holding the next id; the channels are unchanged |
| M3UParser.MalformedInfoLineIgnored | utils/m3uParser.ts:11-16 | an `#EXTINF:` line the pattern does not match changes nothing |
| M3UParser.UrlCompletes | utils/m3uParser.ts:36-42 | a URL-shaped line with a pending record appends that record with this url, and clears the record |
| M3UParser.UrlWithoutRecordIgnored | utils/m3uParser.ts:36-38 | a URL-shaped line with no pending record changes nothing |
| M3UParser.OtherLineIgnored | utils/m3uParser.ts:11-43 | a line that is neither an info line nor URL-shaped (blank, or another `#` directive) changes nothing |
| M3UProperties.RunAppend | utils/m3uParser.ts:8-44 | the pass over `xs + ys` is the pass over `ys` started from where the pass over `xs` ends |
| M3UProperties.SecondInfoLineWins | utils/m3uParser.ts:16-24 | with two info lines and then a url, only the second yields a channel, with the second fresh id |
| M3UProperties.MalformedInfoLineKeepsRecord | utils/m3uParser.ts:14-42 | an unmatched `#EXTINF:` line between an info line and a url leaves the first record to be completed by that url |
| M3UProperties.SecondUrlIgnored | utils/m3uParser.ts:38-42 | a second url after a completed channel adds nothing |
| M3UProperties.NameDefault | utils/m3uParser.ts:18-22 | the name is the trimmed title, or `Unknown Channel` when that is empty |
| M3UProperties.AttributesOfRecord | utils/m3uParser.ts:27-34 | a leading `group-title`, `tvg-logo` or `tvg-id` attribute sets that field to its value, including the empty value for the group |
| M3UProperties.NoAttributesDefaults | utils/m3uParser.ts:17-34 | an info line without attributes gets group `Uncategorized`, and neither logo nor tvg id |
| M3UProperties.StepOk | utils/m3uParser.ts:8-43 | every iteration keeps the pass invariant: ids increase and lie below the counter, every channel is well shaped, and the pending record holds the newest id |
| M3UProperties.RunOk | utils/m3uParser.ts:3-44 | the invariant holds after any number of lines |
| M3UProperties.ParsedChannels | utils/m3uParser.ts:21-42 | every channel has a non-empty name and a trimmed, URL-shaped url; ids are at least `firstId` and strictly increase, so they are distinct |
| M3UProperties.Urls | utils/m3uParser.ts:39-40 | one url per channel |
| M3UProperties.RunCounts | utils/m3uParser.ts:3-44 | the counter advances once per matched info line; channels plus the pending record number at most the matched info lines; the channels' urls are, in order, a subsequence of the URL-shaped lines |
| M3UProperties.ParseCounts | utils/m3uParser.ts:3-47 | there are at most as many channels as matched info lines and as URL-shaped lines, and they come in the order of their urls |
| M3UProperties.NoUrlNoChannels | utils/m3uParser.ts:3-47 | without a URL-shaped line there is no channel |
| M3UProperties.EmptyContent | utils/m3uParser.ts:3-47 | the empty text gives no channel |
| M3UProperties.StepIgnoresCR | utils/m3uParser.ts:4-9 | a trailing carriage return on a line does not change its step |
| M3UProperties.StepKeepsChannels | utils/m3uParser.ts:40 | channels already emitted are carried through a step unchanged |
| M3UProperties.RunKeepsChannels | utils/m3uParser.ts:40 | channels already emitted are carried through the whole pass unchanged |
| M3UProperties.ParseJoin | App.tsx:63 | parsing two texts joined with a newline is parsing the first, then continuing over the second's lines from its final pending record and counter |
| M3UProperties.RunIgnoresCR | utils/m3uParser.ts:4-9 | taking the carriage return off the last line does not change the pass |
| M3UProperties.ParseJoinCompleted | components/UploadSection.tsx:59 | when the first text leaves no record pending, the joined text gives the first text's channels followed by the second's, whose ids continue the counter |
| M3UProperties.EntryLineShape | utils/m3uParser.ts:9-11 | an info line written as marker, duration, space, attributes, comma and title is one line, unchanged by trim, and starts with the marker |
| M3UProperties.EntryLineEnds | utils/m3uParser.ts:9-11 | such a line is unchanged by trim and by the carriage-return cut, and starts with the marker |
| M3UProperties.EntryLineSingle | utils/m3uParser.ts:4 | such a line holds no newline |
| M3UProperties.JoinedEntry | utils/m3uParser.ts:4 | two newline-free lines joined by a newline split back into those two lines, the first losing a trailing carriage return |
| M3UProperties.RunThree | utils/m3uParser.ts:8-44 | the pass over three lines is three steps |
| M3UProperties.RunTwo | utils/m3uParser.ts:8-44 | the pass over two lines is two steps |
| M3UProperties.RunSnoc | utils/m3uParser.ts:8-44 | the pass over one more line is one more step |
| M3UProperties.EntryInfoStarts | utils/m3uParser.ts:11-24 | the info line of such an entry starts the record of its attributes and title |
| M3UProperties.SingleEntry | utils/m3uParser.ts:3-47 | one entry, an info line with attributes followed by its url, parses to exactly one channel: that record, completed by that url |
| M3USample.SampleLogo | utils/m3uParser.ts:27-28 | in `tvg-logo="L" group-title="G" tvg-id="I"` the logo search finds `L` |
| M3USample.SampleGroup | utils/m3uParser.ts:30-31 | in the same text the group search finds `G`: no match starts before position 13 |
| M3USample.SampleTvgId | utils/m3uParser.ts:33-34 | in the same text the tvg-id search finds `I`: no match starts before position 29 |
| M3USample.SampleRecord | utils/m3uParser.ts:16-34 | the info line with that attribute text and the title `Name` starts the record with name `Name`, group `G`, logo `L` and tvg id `I` |
| M3USample.SampleEntry | utils/m3uParser.ts:3-47 | `#EXTINF:-1 tvg-logo="L" group-title="G" tvg-id="I",Name`, a newline and `http://u` parse to exactly one channel, with those five fields and the first id |
| StringOrder.Below | utils/m3uParser.ts:51 | the default `sort()` comparison: a proper prefix sorts before the longer string |
| StringOrder.Key | utils/m3uParser.ts:51 | characters below U+D800 rank as themselves; characters above the Basic Multilingual Plane rank with the high surrogates; U+E000–U+FFFF rank above both |
| StringOrder.KeyInjective | utils/m3uParser.ts:51 | distinct characters have distinct ranks |
| StringOrder.BelowIrreflexive | utils/m3uParser.ts:51 | no string sorts before itself |
| StringOrder.BelowAsymmetric | utils/m3uParser.ts:51 | of two strings, at most one sorts before the other |
| StringOrder.BelowTransitive | utils/m3uParser.ts:51 | the order is transitive |
| StringOrder.BelowTotal | utils/m3uParser.ts:51 | any two different strings are ordered one way or the other |
| StringOrder.BelowIsUtf16Order | utils/m3uParser.ts:51 | `Below` is exactly the lexicographic order of the strings' UTF-16 code units, surrogate pairs included |
| GroupExtractor.Groups | utils/m3uParser.ts:50 | `channels.map(c => c.group)`: one label per channel, position by position |
| GroupExtractor.GroupsAreChannelGroups | utils/m3uParser.ts:50 | a label is among the groups exactly when some channel has it |
| GroupExtractor.Distinct | utils/m3uParser.ts:50-51 | no repetitions, the same elements, a subsequence of the input, and the values in the order of their first occurrences |
| GroupExtractor.Insert | utils/m3uParser.ts:51 | inserting a new label into an ascending sequence keeps it ascending and adds just that label |
| GroupExtractor.Sort | utils/m3uParser.ts:51 | `sort()` on distinct labels: ascending, with the same length and the same elements |
| GroupExtractor.ExtractGroups | utils/m3uParser.ts:49-52 | strictly ascending, duplicate-free, with exactly the input's group labels as elements |
| GroupExtractor.SortedUnique | utils/m3uParser.ts:51 | two ascending sequences with the same elements are equal |
| GroupExtractor.ExtractGroupsCanonical | utils/m3uParser.ts:49-52 | the result is the one ascending sequence of the distinct labels |
| GroupExtractor.ExtractGroupsOrderFree | utils/m3uParser.ts:49-52 | channel lists with the same labels, in any order and with any repetition, give the same groups |
| GroupExtractor.ExtractGroupsEmpty | utils/m3uParser.ts:49-52 | no channels, no groups |
| GroupExtractor.ExtractGroupsExample | utils/m3uParser.ts:49-52 | labels `B`, `A`, `A` give `["A", "B"]` |
| Seqs.FirstIndex | utils/m3uParser.ts:50 | the position where a value first occurs, with no occurrence before it; it serves the `Set`, the newline of the split and the closing quote of an attribute |
| Seqs.Filter | components/ChannelList.tsx:29 | `filter`: an order-preserving subsequence, holding exactly the elements that pass the test, each as many times as in the input |
| Seqs.SubsequenceMultiset | components/ChannelList.tsx:29 | a subsequence holds no element more often than the sequence |
| Seqs.FilterUnique | components/ChannelList.tsx:29 | a subsequence that keeps every occurrence of the passing elements and nothing else is the filter's result |
| Seqs.FilterAll | components/ChannelList.tsx:26-39 | filtering with a test every element passes changes nothing |
| ChannelList.Listed | components/ChannelList.tsx:28-37 | with `All` and a blank term every channel passes; with another group selected, no channel of a different group passes |
| ChannelList.FilterChannels | components/ChannelList.tsx:25-40 | the filtered list is an order-preserving subsequence of the channels that holds every occurrence of a channel that passes (its group equals a selected group other than `All`, and its lower-cased name contains the lower-cased, untrimmed search term whenever that term is not blank) and nothing else |
| ChannelList.FilterChannelsIsFilter | components/ChannelList.tsx:25-40 | the two filters in a row are one `filter` on the combined test |
| ChannelList.UnfilteredIsAll | components/ChannelList.tsx:26-39 | with `All` selected and a blank search term, the list is all the channels, in order |
| ChannelList.AllSelectsEveryGroup | components/ChannelList.tsx:28 | selecting `All` lists the channels of every group, even those of a playlist group named `All` |
| ChannelList.BlankTermsAreAlike | components/ChannelList.tsx:32 | every blank search term filters the same way |
| ChannelList.Visible | components/ChannelList.tsx:43 | `slice(0, displayLimit)`: the prefix of length min(displayLimit, number filtered) |
| ChannelList.ShowsLoadMore | components/ChannelList.tsx:96-136 | "Load More", drawn only when some channel is visible, shows exactly when the limit is positive and below the number of filtered channels |
| ChannelList.ShowsNoChannels | components/ChannelList.tsx:96-98 | "No channels found" shows exactly when the limit is zero or no channel passes the filter |
| ChannelList.NothingVisibleIffNothingFiltered | components/ChannelList.tsx:96-136 | with a positive limit, "No channels found" shows exactly when no channel passes the filter, and then "Load More" does not |
| ChannelList.ShowMoreExtends | components/ChannelList.tsx:43-47 | after one more page, the earlier visible channels are a prefix of those now visible, and the count grows by a page up to the filtered total |
| ChannelList.NextPage | components/ChannelList.tsx:45-47 | one page more keeps the limit a positive multiple of 50 |
| ChannelList.ChannelListView.constructor | components/ChannelList.tsx:20-22 | empty search term, group `All`, limit 50 |
| ChannelList.ChannelListView.FilteredChannels | components/ChannelList.tsx:25-40 | the filtered channels of the state: a subsequence of the channels holding every occurrence of a channel that passes the state's group and search test, and nothing else |
| ChannelList.ChannelListView.VisibleChannels | components/ChannelList.tsx:43 | the visible channels of the state: a prefix of the filtered ones, of length min(displayLimit, number filtered); in a valid state, empty exactly when nothing passes the filter |
| ChannelList.ChannelListView.LoadMoreShown | components/ChannelList.tsx:96-136 | in a valid state, "Load More" shows exactly when the limit is below the number of filtered channels |
| ChannelList.ChannelListView.ShowMore | components/ChannelList.tsx:45-47 | the limit grows by 50 and stays a positive multiple of 50; search and group are unchanged; the channels visible before are a prefix of those visible after; the channels are unchanged |
| ChannelList.ChannelListView.ChannelsChange | components/ChannelList.tsx:14-43 | a new `channels` prop keeps the search term, group and limit, and the page limit invariant; the visible channels are the new channels filtered by the kept search and group, cut at the kept limit |
| ChannelList.ChannelListView.SearchChange | components/ChannelList.tsx:49-52 | the new search term, the limit back to 50, the group unchanged, and at most 50 channels visible; the channels are unchanged |
| ChannelList.ChannelListView.GroupChange | components/ChannelList.tsx:54-57 | the new group, the limit back to 50, the search term unchanged, and at most 50 channels visible; the channels are unchanged |
| App.ProcessPlaylist | App.tsx:19-28 | the playlist is named after the file; its channels are the parse of the text; its groups are strictly ascending, duplicate-free, and are exactly the labels of its channels |

## Left out

- File reading, `fetch`, `Promise.all`, `setTimeout`, `alert` and the `try`/`catch` of App.tsx and components/UploadSection.tsx are I/O. Only the joining of fetched texts with `'\n'` is modelled, in `ParseJoin` and `ParseJoinCompleted`.
- M3UParser.Parse: the model is total, with no error path, because the counter replaces `crypto.randomUUID()` (utils/m3uParser.ts:21). That call throws where the API is missing, for instance outside a secure context, and App.tsx:32-35 catches the error.
- components/VideoPlayer.tsx (HLS.js, the video element, autoplay) is foreign code and is not part of this model.
- `crypto.randomUUID()` is global randomness. It is replaced by a counter: ids are natural numbers drawn from `firstId` on, not UUID strings.
- Text.ToLower: `toLowerCase` is modelled for the ASCII letters only. Unicode case mapping, which can change a string's length, is left out.
- The attribute regexes are only modelled where the source uses them, on the attribute text. The info-line regex is modelled for the trimmed line, the only input it gets.
- A lone `\r` inside a line is kept as an ordinary character, as `split(/\r?\n/)` keeps it.
- React state and rendering are left out: the JSX, the CSS, the selection of a channel (`onSelectChannel`, `selectedChannelId`), and the group drop-down with its `All Groups` option. The panel's three `useState` fields and its `channels` prop are the fields of `ChannelListView`. A second playlist loaded while the panel is mounted (the upload buttons are disabled only while `isLoading` is set) changes the prop without resetting the three fields, which `ChannelsChange` models; the other props (`groups`, `selectedChannelId`, `onSelectChannel`) are left out.
- The unused `SortOption` and `PlayerState` types of types.ts are left out.
- ChannelList.ChannelListView.ShowMore: it requires the page-limit invariant `Valid()` that the constructor sets up and every handler keeps. The source has no such precondition, but no reachable state breaks it.
