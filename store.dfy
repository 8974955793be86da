/** The link registry of src/store.py: a list of link groups kept in memory,
    a one-way `loaded` flag, and the durable file it overwrites after every
    change. Every operation before `Load` is a no-op with an empty answer. */
module Registry {
  import opened Lists
  import opened Links
  import opened StoreFile

  class Store {
    /** The groups, in the order they were added or loaded. */
    var links: seq<Link>
    /** Set once by Load and never cleared. */
    var loaded: bool
    /** The durable file at the store's path; None while it does not exist. */
    var file: Option<Json>

    /** Before loading nothing is held; once loaded, the file on disk reads
        back as exactly the groups held in memory. */
    ghost predicate Valid()
      reads this
    {
      (!loaded ==> links == []) &&
      (loaded ==> file.Some? && Decode(file.value) == Some(links))
    }

    /** `Store(store_path)`, given what the file at that path holds. */
    constructor (onDisk: Option<Json>)
      ensures Valid() && !loaded && links == [] && file == onDisk
    {
      links := [];
      loaded := false;
      file := onDisk;
    }

    /** Reads the file once: a second call changes nothing; a missing file
        leaves the registry empty and creates the file. */
    method Load()
      requires Valid()
      requires !loaded && file.Some? ==> Decode(file.value).Some?
      modifies this
      ensures Valid() && loaded
      ensures old(loaded) ==> links == old(links) && file == old(file)
      ensures !old(loaded) && old(file).Some? ==>
        links == Decode(old(file).value).value && file == old(file)
      ensures !old(loaded) && old(file).None? ==>
        links == [] && file == Some(Encode([]))
    {
      if loaded {
        return;
      }
      loaded := true;
      match file
      case Some(j) =>
        links := [];
        var read := Decode(j).value;
        for k := 0 to |read|
          modifies this`links
          invariant links == read[..k]
        {
          links := links + [read[k]];
        }
        assert read[..|read|] == read;
      case None =>
        Save();
    }

    /** `_save`: overwrites the whole file with the current groups; refused
        (no write) before loading. */
    method Save()
      modifies this`file
      ensures file == if loaded then Some(Encode(links)) else old(file)
      ensures loaded ==> Decode(file.value) == Some(links)
    {
      if !loaded {
        return;
      }
      file := Some(Encode(links));
      DecodeEncode(links);
    }

    /** `get_linked_channels(channel)`: walks the groups in order and returns
        a copy of the first one containing the room, minus that room. */
    method GetLinkedChannels(channel: string) returns (r: seq<string>)
      requires Valid()
      ensures !loaded ==> r == []
      ensures loaded ==> r == LinkedChannels(links, channel)
    {
      if !loaded {
        return [];
      }
      var i := 0;
      while i < |links|
        invariant 0 <= i <= |links|
        invariant forall j :: 0 <= j < i ==> channel !in links[j].channels
      {
        if channel in links[i].channels {
          var copy := links[i].channels;
          copy := RemoveFirst(copy, channel);
          return copy;
        }
        i := i + 1;
      }
      return [];
    }

    /** `link_channels(a, b)`: appends the group [a, b] without looking at
        the groups already there, then saves. */
    method LinkChannels(a: string, b: string)
      requires Valid()
      modifies this
      ensures Valid() && loaded == old(loaded)
      ensures links == if old(loaded) then WithLink(old(links), a, b) else old(links)
      ensures file == if old(loaded) then Some(Encode(links)) else old(file)
    {
      if !loaded {
        return;
      }
      links := links + [Link([a, b])];
      Save();
    }

    /** `unlink_channels(channel)`: removes the first occurrence of the room
        from every group containing it, collects the groups left with fewer
        than two rooms, drops them, and saves even when nothing changed.
        Answers whether any group contained the room. */
    method UnlinkChannels(channel: string) returns (removed: bool)
      requires Valid()
      modifies this
      ensures Valid() && loaded == old(loaded)
      ensures removed == (old(loaded) && Linked(old(links), channel))
      ensures links == if old(loaded) then Unlinked(old(links), channel) else old(links)
      ensures file == if old(loaded) then Some(Encode(links)) else old(file)
    {
      if !loaded {
        return false;
      }
      var kept;
      kept, removed := UnlinkGroups(links, channel);
      links := kept;
      Save();
    }
  }

  /** The two loops of `unlink_channels` over the groups, without the save:
      the groups that remain, and whether any group contained the room. */
  method UnlinkGroups(groups: seq<Link>, channel: string) returns (kept: seq<Link>, removed: bool)
    ensures kept == Unlinked(groups, channel)
    ensures removed == Linked(groups, channel)
  {
    var stripped, toRemove;
    stripped, toRemove, removed := StripRoom(groups, channel);
    kept := DropCollected(groups, channel, stripped, toRemove);
  }

  /** The first loop of `unlink_channels`: removes the first occurrence of
      the room from every group containing it, collects the positions of
      the groups that thereby fell below two rooms, and notes whether any
      group contained the room. */
  method StripRoom(groups: seq<Link>, channel: string)
    returns (stripped: seq<Link>, toRemove: set<nat>, removed: bool)
    ensures |stripped| == |groups|
    ensures forall k :: 0 <= k < |groups| ==> stripped[k] == WithoutFirst(groups[k], channel)
    ensures forall k :: 0 <= k < |groups| ==>
      (k in toRemove <==> channel in groups[k].channels && |stripped[k].channels| < 2)
    ensures removed == Linked(groups, channel)
  {
    stripped, toRemove, removed := groups, {}, false;
    for i := 0 to |groups|
      invariant |stripped| == |groups|
      invariant forall k :: 0 <= k < i ==> stripped[k] == WithoutFirst(groups[k], channel)
      invariant forall k :: i <= k < |groups| ==> stripped[k] == groups[k]
      invariant removed == Linked(groups[..i], channel)
      invariant forall k :: k in toRemove ==> k < i
      invariant forall k :: 0 <= k < i ==>
        (k in toRemove <==> channel in groups[k].channels && |stripped[k].channels| < 2)
    {
      if channel in stripped[i].channels {
        stripped := stripped[i := Link(RemoveFirst(stripped[i].channels, channel))];
        removed := true;
        if |stripped[i].channels| < 2 {
          toRemove := toRemove + {i};
        }
      }
      assert groups[..i + 1] == groups[..i] + [groups[i]];
      LinkedSnoc(groups[..i], groups[i], channel);
    }
    assert groups[..|groups|] == groups;
  }

  /** The second loop of `unlink_channels`: drops the groups collected in
      `toRemove` (positions of groups that lost the room and fell below two
      rooms) from `stripped`, the groups after the room was removed, keeping
      the others in order. */
  method DropCollected(ghost before: seq<Link>, channel: string, stripped: seq<Link>, toRemove: set<nat>)
    returns (kept: seq<Link>)
    requires |stripped| == |before|
    requires forall k :: 0 <= k < |before| ==> stripped[k] == WithoutFirst(before[k], channel)
    requires forall k :: 0 <= k < |before| ==>
      (k in toRemove <==> channel in before[k].channels && |stripped[k].channels| < 2)
    ensures kept == Unlinked(before, channel)
  {
    kept := [];
    for j := 0 to |stripped|
      invariant kept == Unlinked(before[..j], channel)
    {
      assert before[..j + 1] == before[..j] + [before[j]];
      UnlinkedSnoc(before[..j], before[j], channel);
      assert UnlinkedOne(before[j], channel) == if j in toRemove then [] else [stripped[j]];
      if j !in toRemove {
        kept := kept + [stripped[j]];
      }
    }
    assert before[..|before|] == before;
  }

  /** A restarted process that loads the file written by a loaded store sees
      exactly the groups that store held. */
  method Reopen(s: Store) returns (t: Store)
    requires s.Valid() && s.loaded
    ensures fresh(t) && t.Valid() && t.loaded && t.links == s.links
  {
    t := new Store(s.file);
    t.Load();
  }
}
