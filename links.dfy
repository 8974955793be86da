/** The registry's data (src/store.py's `Link` records) and the meaning of
    its operations on a list of links, stated as functions. The class in
    module Registry is proved against these. */
module Links {
  import opened Lists

  /** One link group: the rooms whose bans are mirrored to each other, in
      insertion order. Nothing prevents a room from appearing in several
      groups, or twice in one group. */
  datatype Link = Link(channels: seq<string>)

  /** Some group contains room `c`. */
  predicate Linked(links: seq<Link>, c: string) {
    exists i :: 0 <= i < |links| && c in links[i].channels
  }

  /** The position of the first group (in list order) that contains `c`. */
  function FirstGroupWith(links: seq<Link>, c: string): (r: Option<nat>)
    ensures r.Some? ==> r.value < |links| && c in links[r.value].channels
    ensures r.Some? ==> forall j :: 0 <= j < r.value ==> c !in links[j].channels
    ensures r.None? <==> !Linked(links, c)
  {
    if links == [] then None
    else if c in links[0].channels then Some(0)
    else match FirstGroupWith(links[1..], c)
      case None => None
      case Some(k) =>
        assert forall j :: 1 <= j < |links| ==> links[j] == links[1..][j - 1];
        Some(k + 1)
  }

  /** What `get_linked_channels(c)` answers on a loaded store: a copy of the
      first group containing `c` with one occurrence of `c` removed, or the
      empty list when no group contains `c`. */
  function LinkedChannels(links: seq<Link>, c: string): (r: seq<string>)
    ensures !Linked(links, c) ==> r == []
    ensures Linked(links, c) ==>
      multiset(r) == multiset(links[FirstGroupWith(links, c).value].channels) - multiset{c}
  {
    match FirstGroupWith(links, c)
    case None => []
    case Some(i) =>
      RemoveFirstMultiset(links[i].channels, c);
      RemoveFirst(links[i].channels, c)
  }

  /** What `link_channels(a, b)` leaves on a loaded store. */
  function WithLink(links: seq<Link>, a: string, b: string): (r: seq<Link>)
    ensures |r| == |links| + 1 && r[..|links|] == links && r[|links|] == Link([a, b])
  {
    links + [Link([a, b])]
  }

  /** A group with its first occurrence of `c` removed, if it has one. */
  function WithoutFirst(l: Link, c: string): Link {
    if c in l.channels then Link(RemoveFirst(l.channels, c)) else l
  }

  /** What unlinking `c` leaves of one group: the group itself when it does
      not contain `c`, nothing when dropping `c` leaves fewer than two rooms,
      otherwise the group without its first `c`. */
  function UnlinkedOne(l: Link, c: string): seq<Link> {
    if c in l.channels && |WithoutFirst(l, c).channels| < 2 then []
    else [WithoutFirst(l, c)]
  }

  /** What `unlink_channels(c)` leaves on a loaded store: every group is
      treated by UnlinkedOne, in list order. */
  function Unlinked(links: seq<Link>, c: string): (r: seq<Link>)
    ensures |r| <= |links|
    decreases |links|
  {
    if links == [] then []
    else Unlinked(links[..|links| - 1], c) + UnlinkedOne(links[|links| - 1], c)
  }

  /** The shape the registry is meant to have: every group links at least
      two distinct rooms. The code never checks it; the lemmas below show
      that linking two different rooms and unlinking keep it. */
  predicate WellFormed(links: seq<Link>) {
    forall i :: 0 <= i < |links| ==> |links[i].channels| >= 2 && NoDup(links[i].channels)
  }

  // ---------------------------------------------------------------------
  // Lookup

  /** The lookup is empty when no group contains `c`, and otherwise is the
      first group containing `c` without its first occurrence of `c`. */
  lemma LinkedChannelsFromFirstGroup(links: seq<Link>, c: string)
    ensures !Linked(links, c) ==> LinkedChannels(links, c) == []
    ensures Linked(links, c) ==>
      exists i :: 0 <= i < |links| && c in links[i].channels &&
        (forall j :: 0 <= j < i ==> c !in links[j].channels) &&
        LinkedChannels(links, c) == RemoveFirst(links[i].channels, c)
  {
    match FirstGroupWith(links, c)
    case None =>
    case Some(i) =>
      assert c in links[i].channels;
  }

  /** On a well-formed registry a room is never among its own linked rooms,
      so a mirrored action never goes back to the room it came from. */
  lemma LinkedChannelsExcludeSelf(links: seq<Link>, c: string)
    requires WellFormed(links)
    ensures c !in LinkedChannels(links, c)
  {
    match FirstGroupWith(links, c)
    case None =>
    case Some(i) => RemoveFirstNoDup(links[i].channels, c);
  }

  /** Groups appended after the first group containing `c` do not change
      the lookup of `c`; groups before it that do not contain `c` don't
      either. */
  lemma LinkedChannelsAppend(links: seq<Link>, more: seq<Link>, c: string)
    ensures Linked(links, c) ==> LinkedChannels(links + more, c) == LinkedChannels(links, c)
    ensures !Linked(links, c) ==> LinkedChannels(links + more, c) == LinkedChannels(more, c)
  {
    if Linked(links, c) {
      FirstGroupWithAppendLinked(links, more, c);
      var i := FirstGroupWith(links, c).value;
      assert (links + more)[i] == links[i];
    } else {
      FirstGroupWithAppendUnlinked(links, more, c);
      match FirstGroupWith(more, c)
      case None =>
      case Some(i) => assert (links + more)[|links| + i] == more[i];
    }
  }

  lemma FirstGroupWithAppendLinked(links: seq<Link>, more: seq<Link>, c: string)
    requires Linked(links, c)
    ensures FirstGroupWith(links + more, c) == FirstGroupWith(links, c)
  {
    var all := links + more;
    var i := FirstGroupWith(links, c).value;
    assert all[i] == links[i];
    assert forall j :: 0 <= j < |links| ==> all[j] == links[j];
    var k := FirstGroupWith(all, c).value;
    assert !(k < i);
  }

  lemma FirstGroupWithAppendUnlinked(links: seq<Link>, more: seq<Link>, c: string)
    requires !Linked(links, c)
    ensures FirstGroupWith(links + more, c) ==
      match FirstGroupWith(more, c)
      case None => None
      case Some(i) => Some(|links| + i)
  {
    var all := links + more;
    assert forall j :: 0 <= j < |links| ==> all[j] == links[j];
    assert forall j :: 0 <= j < |more| ==> all[|links| + j] == more[j];
    match FirstGroupWith(more, c)
    case None =>
      assert !Linked(all, c) by {
        forall j | 0 <= j < |all| ensures c !in all[j].channels {
          if j >= |links| { assert all[j] == more[j - |links|]; }
        }
      }
    case Some(i) =>
      var k := FirstGroupWith(all, c).value;
      assert more[k - |links|] == all[k];
      assert !(k < |links| + i) && !(k > |links| + i);
  }

  /** Linking two rooms that were linked nowhere makes each the other's only
      linked room. */
  lemma LinkThenLookup(links: seq<Link>, a: string, b: string)
    requires !Linked(links, a) && !Linked(links, b) && a != b
    ensures LinkedChannels(WithLink(links, a, b), a) == [b]
    ensures LinkedChannels(WithLink(links, a, b), b) == [a]
  {
    LinkedChannelsAppend(links, [Link([a, b])], a);
    LinkedChannelsAppend(links, [Link([a, b])], b);
    assert FirstGroupWith([Link([a, b])], a) == Some(0);
    assert FirstGroupWith([Link([a, b])], b) == Some(0);
  }

  /** Linking `a` with `b` and then `b` with `c` does not give a symmetric
      relation: the first group containing `b` wins the lookup, so bans in
      `c` reach `b` but bans in `b` never reach `c`. */
  lemma OverlappingLinksAreNotSymmetric(links: seq<Link>, a: string, b: string, c: string)
    requires !Linked(links, a) && !Linked(links, b) && !Linked(links, c)
    requires a != b && b != c && a != c
    ensures LinkedChannels(WithLink(WithLink(links, a, b), b, c), b) == [a]
    ensures LinkedChannels(WithLink(WithLink(links, a, b), b, c), c) == [b]
  {
    var more := [Link([a, b]), Link([b, c])];
    assert WithLink(WithLink(links, a, b), b, c) == links + more;
    LinkedChannelsAppend(links, more, b);
    LinkedChannelsAppend(links, more, c);
    LookupInPair(a, b, c);
  }

  lemma LookupInPair(a: string, b: string, c: string)
    requires a != b && b != c && a != c
    ensures LinkedChannels([Link([a, b]), Link([b, c])], b) == [a]
    ensures LinkedChannels([Link([a, b]), Link([b, c])], c) == [b]
  {
    var more := [Link([a, b]), Link([b, c])];
    assert FirstGroupWith(more, b) == Some(0);
    assert RemoveFirst([a, b], b) == [a] by { assert [a, b][1..] == [b]; }
    assert FirstGroupWith(more, c) == Some(1);
    assert RemoveFirst([b, c], c) == [b] by { assert [b, c][1..] == [c]; }
  }

  /** Linking two different rooms keeps every group well formed. */
  lemma WithLinkWellFormed(links: seq<Link>, a: string, b: string)
    requires WellFormed(links) && a != b
    ensures WellFormed(WithLink(links, a, b))
  {
    var all := WithLink(links, a, b);
    assert all[|links|].channels == [a, b];
    assert forall j :: 0 <= j < |links| ==> all[j] == links[j];
  }

  // ---------------------------------------------------------------------
  // Unlinking

  /** Unlinking works group by group: it distributes over concatenation. */
  lemma {:induction false} UnlinkedConcat(xs: seq<Link>, ys: seq<Link>, c: string)
    ensures Unlinked(xs + ys, c) == Unlinked(xs, c) + Unlinked(ys, c)
    decreases |ys|
  {
    if ys == [] {
      assert xs + ys == xs;
    } else {
      var n := |ys| - 1;
      assert (xs + ys)[..|xs + ys| - 1] == xs + ys[..n];
      assert (xs + ys)[|xs + ys| - 1] == ys[n];
      UnlinkedConcat(xs, ys[..n], c);
    }
  }

  lemma LinkedSnoc(links: seq<Link>, l: Link, c: string)
    ensures Linked(links + [l], c) == (Linked(links, c) || c in l.channels)
  {
    var all := links + [l];
    assert all[|links|] == l;
    assert forall j :: 0 <= j < |links| ==> all[j] == links[j];
  }

  lemma UnlinkedSnoc(links: seq<Link>, l: Link, c: string)
    ensures Unlinked(links + [l], c) == Unlinked(links, c) + UnlinkedOne(l, c)
  {
    assert (links + [l])[..|links|] == links;
  }

  /** Where group `i` ends up: everything before it, then what UnlinkedOne
      leaves of it, then everything after it. */
  lemma UnlinkedAt(links: seq<Link>, c: string, i: nat)
    requires i < |links|
    ensures Unlinked(links, c) ==
      Unlinked(links[..i], c) + UnlinkedOne(links[i], c) + Unlinked(links[i + 1..], c)
  {
    var before, here, after := links[..i], [links[i]], links[i + 1..];
    assert links == before + (here + after);
    UnlinkedConcat(before, here + after, c);
    UnlinkedConcat(here, after, c);
    UnlinkedSingle(links[i], c);
  }

  lemma UnlinkedSingle(l: Link, c: string)
    ensures Unlinked([l], c) == UnlinkedOne(l, c)
  {
    assert [l][..0] == [];
  }

  /** A group that did not contain `c` survives unchanged, at the position
      after what is left of the groups before it. */
  lemma UnlinkedKeepsUntouched(links: seq<Link>, c: string, i: nat)
    requires i < |links| && c !in links[i].channels
    ensures |Unlinked(links[..i], c)| < |Unlinked(links, c)|
    ensures Unlinked(links, c)[|Unlinked(links[..i], c)|] == links[i]
  {
    UnlinkedAt(links, c, i);
  }

  /** A group that contained `c` loses exactly its first `c`; it is dropped
      when fewer than two rooms remain and otherwise stays in place. */
  lemma UnlinkedDropsOneOccurrence(links: seq<Link>, c: string, i: nat)
    requires i < |links| && c in links[i].channels
    ensures multiset(RemoveFirst(links[i].channels, c)) == multiset(links[i].channels) - multiset{c}
    ensures |links[i].channels| < 3 ==>
      Unlinked(links, c) == Unlinked(links[..i], c) + Unlinked(links[i + 1..], c)
    ensures |links[i].channels| >= 3 ==>
      |Unlinked(links[..i], c)| < |Unlinked(links, c)| &&
      Unlinked(links, c)[|Unlinked(links[..i], c)|] == Link(RemoveFirst(links[i].channels, c))
  {
    RemoveFirstMultiset(links[i].channels, c);
    UnlinkedAt(links, c, i);
  }

  /** Of two groups that did not contain `c`, the earlier one is still
      earlier afterwards. */
  lemma UnlinkedKeepsOrder(links: seq<Link>, c: string, i: nat, j: nat)
    requires i < j < |links|
    requires c !in links[i].channels && c !in links[j].channels
    ensures exists p, q :: (0 <= p < q < |Unlinked(links, c)| &&
      Unlinked(links, c)[p] == links[i] && Unlinked(links, c)[q] == links[j])
  {
    UnlinkedKeepsUntouched(links, c, i);
    UnlinkedKeepsUntouched(links, c, j);
    var p := |Unlinked(links[..i], c)|;
    var q := |Unlinked(links[..j], c)|;
    assert p < q by {
      var prefix := links[..j];
      assert prefix[..i] == links[..i] && prefix[i] == links[i];
      UnlinkedAt(prefix, c, i);
    }
  }

  /** When no group contains `c`, unlinking changes nothing. */
  lemma {:induction false} UnlinkedAbsent(links: seq<Link>, c: string)
    requires !Linked(links, c)
    ensures Unlinked(links, c) == links
    decreases |links|
  {
    if links != [] {
      var n := |links| - 1;
      assert !Linked(links[..n], c) by {
        forall j | 0 <= j < n ensures c !in links[..n][j].channels { assert links[..n][j] == links[j]; }
      }
      UnlinkedAbsent(links[..n], c);
      assert links == links[..n] + [links[n]];
    }
  }

  /** Unlinking never creates a group of fewer than two rooms: every short
      group left afterwards was already there and did not contain `c`. */
  lemma {:induction false} UnlinkedNoNewShortGroup(links: seq<Link>, c: string)
    ensures forall k :: 0 <= k < |Unlinked(links, c)| && |Unlinked(links, c)[k].channels| < 2 ==>
      Unlinked(links, c)[k] in links && c !in Unlinked(links, c)[k].channels
    decreases |links|
  {
    if links != [] {
      var n := |links| - 1;
      UnlinkedNoNewShortGroup(links[..n], c);
      assert forall l :: l in links[..n] ==> l in links;
    }
  }

  /** Unlinking keeps a well-formed registry well formed. */
  lemma {:induction false} UnlinkedWellFormed(links: seq<Link>, c: string)
    requires WellFormed(links)
    ensures WellFormed(Unlinked(links, c))
    decreases |links|
  {
    if links != [] {
      var n := |links| - 1;
      assert WellFormed(links[..n]) by {
        forall j | 0 <= j < n ensures links[..n][j] == links[j] { }
      }
      UnlinkedWellFormed(links[..n], c);
      var l := links[n];
      if c in l.channels {
        RemoveFirstNoDup(l.channels, c);
      }
    }
  }

  /** On a well-formed registry, after unlinking `c` no group contains it. */
  lemma {:induction false} UnlinkedRemovesRoom(links: seq<Link>, c: string)
    requires WellFormed(links)
    ensures !Linked(Unlinked(links, c), c)
    decreases |links|
  {
    if links != [] {
      var n := |links| - 1;
      assert WellFormed(links[..n]) by {
        forall j | 0 <= j < n ensures links[..n][j] == links[j] { }
      }
      UnlinkedRemovesRoom(links[..n], c);
      var l := links[n];
      if c in l.channels {
        RemoveFirstNoDup(l.channels, c);
      }
      var u := Unlinked(links, c);
      var pre := Unlinked(links[..n], c);
      assert u == pre + UnlinkedOne(l, c);
      forall k | 0 <= k < |u| ensures c !in u[k].channels {
        if k < |pre| { assert u[k] == pre[k]; }
      }
    }
  }
}
