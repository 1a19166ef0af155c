/**
 * `extractGroups` of utils/m3uParser.ts: the `group` of every channel, put
 * through a `Set` (which keeps the first occurrence of each value, in
 * order), back into an array, and sorted in UTF-16 code-unit order.
 */
module GroupExtractor {
  import opened Types
  import opened Seqs
  import opened StringOrder

  /** `channels.map(c => c.group)` */
  function Groups(channels: seq<Channel>): (gs: seq<string>)
    ensures |gs| == |channels|
    ensures forall i :: 0 <= i < |channels| ==> gs[i] == channels[i].group
    decreases |channels|
  {
    if channels == [] then [] else Groups(DropLast(channels)) + [Last(channels).group]
  }

  /** A value is among the groups exactly when some channel has it as its group. */
  lemma GroupsAreChannelGroups(channels: seq<Channel>, g: string)
    ensures g in Groups(channels) <==> exists c :: c in channels && c.group == g
  {
    if g in Groups(channels) {
      var i :| 0 <= i < |channels| && Groups(channels)[i] == g;
      assert channels[i] in channels;
    }
    if exists c :: c in channels && c.group == g {
      var c :| c in channels && c.group == g;
      var i :| 0 <= i < |channels| && channels[i] == c;
      assert Groups(channels)[i] == g;
    }
  }

  predicate NoDuplicates(xs: seq<string>) {
    forall i, j :: 0 <= i < j < |xs| ==> xs[i] != xs[j]
  }

  /**
   * The step of `Distinct` that appends a value seen for the first time:
   * it comes after every value already kept.
   */
  lemma DistinctSnocOrder(xs: seq<string>, y: string, r: seq<string>)
    requires forall x :: x in r ==> x in xs
    requires y !in xs
    requires forall i, j :: 0 <= i < j < |r| ==> FirstIndex(xs, r[i]) < FirstIndex(xs, r[j])
    ensures forall x :: x in r + [y] ==> x in xs + [y]
    ensures forall i, j :: 0 <= i < j < |r + [y]| ==> FirstIndex(xs + [y], (r + [y])[i]) < FirstIndex(xs + [y], (r + [y])[j])
  {
    forall x | x in xs ensures FirstIndex(xs + [y], x) == FirstIndex(xs, x) < |xs| {
      FirstIndexSnoc(xs, y, x);
    }
    assert FirstIndex(xs + [y], y) == |xs| by {
      assert (xs + [y])[..|xs|] == xs;
    }
  }

  /** `Array.from(new Set(xs))`: each value once, in the order of first occurrence. */
  function Distinct(xs: seq<string>): (r: seq<string>)
    ensures NoDuplicates(r)
    ensures forall x :: x in r <==> x in xs
    ensures Subsequence(r, xs)
    ensures forall i, j :: 0 <= i < j < |r| ==> FirstIndex(xs, r[i]) < FirstIndex(xs, r[j])
    decreases |xs|
  {
    if xs == [] then []
    else
      var r := Distinct(DropLast(xs));
      assert forall x :: x in xs <==> x in DropLast(xs) || x == Last(xs) by {
        assert xs == DropLast(xs) + [Last(xs)];
      }
      SubsequenceSnoc(r, DropLast(xs), Last(xs));
      assert DropLast(xs) + [Last(xs)] == xs;
      if Last(xs) in r then
        forall x | x in DropLast(xs) ensures FirstIndex(xs, x) == FirstIndex(DropLast(xs), x) {
          FirstIndexSnoc(DropLast(xs), Last(xs), x);
        }
        r
      else
        DistinctSnocOrder(DropLast(xs), Last(xs), r);
        r + [Last(xs)]
  }

  /** Ascending in UTF-16 order, and so without repetitions. */
  predicate StrictlySorted(xs: seq<string>) {
    forall i, j :: 0 <= i < j < |xs| ==> Below(xs[i], xs[j])
  }

  /** `x` put into its place in an ascending sequence that does not hold it. */
  function Insert(x: string, s: seq<string>): (r: seq<string>)
    requires StrictlySorted(s) && x !in s
    ensures StrictlySorted(r)
    ensures |r| == |s| + 1
    ensures forall y :: y in r <==> y == x || y in s
    decreases |s|
  {
    if s == [] then [x]
    else if Below(x, s[0]) then
      assert forall j :: 0 < j < |s| ==> Below(x, s[j]) by {
        forall j | 0 < j < |s| ensures Below(x, s[j]) { BelowTransitive(x, s[0], s[j]); }
      }
      [x] + s
    else
      BelowTotal(x, s[0]);
      var t := Insert(x, s[1..]);
      assert forall y :: y in t ==> Below(s[0], y);
      [s[0]] + t
  }

  /** `sort()` on values without repetitions: by insertion, one value at a time. */
  function Sort(xs: seq<string>): (r: seq<string>)
    requires NoDuplicates(xs)
    ensures StrictlySorted(r)
    ensures |r| == |xs|
    ensures forall x :: x in r <==> x in xs
    decreases |xs|
  {
    if xs == [] then []
    else
      assert xs == DropLast(xs) + [Last(xs)];
      Insert(Last(xs), Sort(DropLast(xs)))
  }

  /** `extractGroups(channels)` */
  function ExtractGroups(channels: seq<Channel>): (groups: seq<string>)
    ensures StrictlySorted(groups) && NoDuplicates(groups)
    ensures forall g :: g in groups <==> g in Groups(channels)
  {
    var r := Sort(Distinct(Groups(channels)));
    assert NoDuplicates(r) by {
      forall i, j | 0 <= i < j < |r| ensures r[i] != r[j] { BelowIrreflexive(r[i]); }
    }
    r
  }

  /**
   * Two ascending sequences with the same elements are equal: the result of
   * `extractGroups` depends only on the set of groups, not on the order or
   * the repetitions of the channels.
   */
  lemma {:induction false} SortedUnique(a: seq<string>, b: seq<string>)
    requires StrictlySorted(a) && StrictlySorted(b)
    requires forall x :: x in a <==> x in b
    ensures a == b
    decreases |a|
  {
    assert a != [] ==> a[0] in b;
    assert b != [] ==> b[0] in a;
    if a != [] && b != [] {
      assert a[0] in b;
      assert b[0] in a;
      if a[0] != b[0] {
        var i :| 0 <= i < |b| && b[i] == a[0];
        var j :| 0 <= j < |a| && a[j] == b[0];
        assert Below(b[0], a[0]) && Below(a[0], b[0]);
        BelowAsymmetric(a[0], b[0]);
      }
      forall x | x in a[1..] ensures x in b[1..] {
        var i :| 1 <= i < |a| && a[i] == x;
        BelowIrreflexive(x);
        assert x in b && x != b[0];
      }
      forall x | x in b[1..] ensures x in a[1..] {
        var i :| 1 <= i < |b| && b[i] == x;
        BelowIrreflexive(x);
        assert x in a && x != a[0];
      }
      SortedUnique(a[1..], b[1..]);
      assert a == [a[0]] + a[1..] && b == [b[0]] + b[1..];
    }
  }

  /** The groups are exactly the ascending sequence of the distinct group values. */
  lemma ExtractGroupsCanonical(channels: seq<Channel>, groups: seq<string>)
    requires StrictlySorted(groups)
    requires forall g :: g in groups <==> g in Groups(channels)
    ensures ExtractGroups(channels) == groups
  {
    SortedUnique(ExtractGroups(channels), groups);
  }

  /** Channel lists with the same groups, in any order and with any repetitions, give the same groups. */
  lemma ExtractGroupsOrderFree(a: seq<Channel>, b: seq<Channel>)
    requires forall g :: g in Groups(a) <==> g in Groups(b)
    ensures ExtractGroups(a) == ExtractGroups(b)
  {
    SortedUnique(ExtractGroups(a), ExtractGroups(b));
  }

  lemma ExtractGroupsEmpty()
    ensures ExtractGroups([]) == []
  {
  }

  /** Groups `B`, `A`, `A` give `["A", "B"]`. */
  lemma ExtractGroupsExample(b: Channel, a1: Channel, a2: Channel)
    requires b.group == "B" && a1.group == "A" && a2.group == "A"
    ensures ExtractGroups([b, a1, a2]) == ["A", "B"]
  {
    assert Below("A", "B");
    var gs := Groups([b, a1, a2]);
    assert gs == ["B", "A", "A"];
    ExtractGroupsCanonical([b, a1, a2], ["A", "B"]);
  }
}
