/** The decisions of src/main.py: which mirrored bans and unbans a
    membership event causes, what an owner's command does to the registry
    and what it replies, and the bounded retry of joining on an invite.
    The chat client is abstracted away: what it would send becomes an
    Intent, and what it answers (the resolution of a room alias, the outcome
    of a join) is given as an input. */
module Relay {
  import opened Lists
  import opened Links
  import opened Commands
  import opened StoreFile
  import Registry

  /** An action handed to the chat client, or a call into the registry. */
  datatype Intent =
    | Ban(room: string, user: string, reason: Option<string>)
    | Unban(room: string, user: string)
    | Reply(room: string, text: string)
    | StoreLink(a: string, b: string)
    | StoreUnlink(room: string)

  /** The fields of a room membership event that the callback reads. The
      chat protocol leaves `membership` and `prevMembership` unset on some
      events, hence the options. */
  datatype MemberEvent = MemberEvent(
    sender: string,
    stateKey: string,
    membership: Option<string>,
    prevMembership: Option<string>,
    reason: Option<string>)

  datatype MessageEvent = MessageEvent(sender: string, body: string)

  /** An unban shows up as the user leaving (or no membership at all) after
      having been banned. */
  predicate IsUnban(ev: MemberEvent)
    ensures IsUnban(ev) ==> ev.membership != Some("ban") && ev.prevMembership == Some("ban")
  {
    (ev.membership == Some("leave") || ev.membership.None?) && ev.prevMembership == Some("ban")
  }

  function BanAll(rooms: seq<string>, user: string, reason: Option<string>): (r: seq<Intent>)
    ensures |r| == |rooms|
    ensures forall i :: 0 <= i < |rooms| ==> r[i] == Ban(rooms[i], user, reason)
  {
    if rooms == [] then [] else [Ban(rooms[0], user, reason)] + BanAll(rooms[1..], user, reason)
  }

  function UnbanAll(rooms: seq<string>, user: string): (r: seq<Intent>)
    ensures |r| == |rooms|
    ensures forall i :: 0 <= i < |rooms| ==> r[i] == Unban(rooms[i], user)
  {
    if rooms == [] then [] else [Unban(rooms[0], user)] + UnbanAll(rooms[1..], user)
  }

  /** `member_event_callback`, given the bot's own user id and the rooms the
      registry links to the event's room. */
  function MemberIntents(ev: MemberEvent, botUser: string, linked: seq<string>): (r: seq<Intent>)
    ensures ev.sender == botUser ==> r == []
    ensures linked == [] ==> r == []
    ensures ev.sender != botUser && ev.membership == Some("ban") ==>
      |r| == |linked| && forall i :: 0 <= i < |linked| ==> r[i] == Ban(linked[i], ev.stateKey, ev.reason)
    ensures ev.sender != botUser && ev.membership != Some("ban") && IsUnban(ev) ==>
      |r| == |linked| && forall i :: 0 <= i < |linked| ==> r[i] == Unban(linked[i], ev.stateKey)
    ensures ev.membership != Some("ban") && !IsUnban(ev) ==> r == []
  {
    if ev.sender == botUser then []
    else if |linked| == 0 then []
    else if ev.membership == Some("ban") then BanAll(linked, ev.stateKey, ev.reason)
    else if IsUnban(ev) then UnbanAll(linked, ev.stateKey)
    else []
  }

  /** Every intent of a membership event is a ban or unban of the event's
      user in one of the linked rooms. */
  lemma MemberIntentsTargetLinkedRooms(ev: MemberEvent, botUser: string, linked: seq<string>)
    ensures forall x :: x in MemberIntents(ev, botUser, linked) ==>
      (x.Ban? || x.Unban?) && x.room in linked && x.user == ev.stateKey
  {
    var r := MemberIntents(ev, botUser, linked);
    forall x | x in r ensures (x.Ban? || x.Unban?) && x.room in linked && x.user == ev.stateKey {
      var i :| 0 <= i < |r| && r[i] == x;
      assert x.room == linked[i];
    }
  }

  /** The membership callback run against a registry: the bot's own events
      are dropped before the registry is asked; otherwise the linked rooms
      of the event's room decide. On a well-formed registry nothing is ever
      sent back to the room the event came from. */
  method OnMemberEvent(store: Registry.Store, room: string, ev: MemberEvent, botUser: string)
    returns (r: seq<Intent>)
    requires store.Valid()
    ensures r == MemberIntents(ev, botUser, if store.loaded then LinkedChannels(store.links, room) else [])
    ensures WellFormed(store.links) ==> forall x :: x in r ==> x.room != room
  {
    if ev.sender == botUser {
      return [];
    }
    var linked := store.GetLinkedChannels(room);
    r := MemberIntents(ev, botUser, linked);
    if store.loaded && WellFormed(store.links) {
      LinkedChannelsExcludeSelf(store.links, room);
    }
    MemberIntentsTargetLinkedRooms(ev, botUser, linked);
  }

  const SelfLinkText := "You cannot link a room to itself!"
  const UnlinkedText := "Unlinked this channel!"
  const NotLinkedText := "This channel is not linked anywhere!"

  function LinkedText(name: string, server: string): string {
    "Linked this room to " + Alias(name, server)
  }

  function UnlinkReply(unlinked: bool): string {
    if unlinked then UnlinkedText else NotLinkedText
  }

  /** What one command can amount to in `room`: nothing, a lone reply, or
      one registry call on the room followed by one reply to it. A link
      call never links the room to itself, and nothing is banned or
      unbanned. */
  predicate CommandShape(r: seq<Intent>, room: string) {
    r == [] ||
    (|r| == 1 && r[0].Reply? && r[0].room == room) ||
    (|r| == 2 && r[1].Reply? && r[1].room == room &&
      ((r[0].StoreLink? && r[0].a == room && r[0].b != room) || r[0] == StoreUnlink(room)))
  }

  /** What `message_cb` does in `room` for a parsed command of the owner,
      given the server's answer to resolving an alias and the registry's
      answer to the unlink call. */
  function CommandIntents(room: string, c: Command, resolve: string -> Option<string>,
                          unlinked: bool): (r: seq<Intent>)
    ensures CommandShape(r, room)
    ensures c.NoCommand? || c.MalformedLink? ==> r == []
  {
    match c
    case NoCommand => []
    case MalformedLink => []
    case LinkCommand(name, server) =>
      (match resolve(Alias(name, server))
       case None => []
       case Some(id) =>
         if room == id then [Reply(room, SelfLinkText)]
         else [StoreLink(room, id), Reply(room, LinkedText(name, server))])
    case UnlinkCommand => [StoreUnlink(room), Reply(room, UnlinkReply(unlinked))]
  }

  /** `message_cb` in `room`, given the configured owner (absent when the
      variable is unset): only the owner's messages are read. */
  function MessageIntents(room: string, ev: MessageEvent, owner: Option<string>,
                          resolve: string -> Option<string>, unlinked: bool): (r: seq<Intent>)
    ensures owner != Some(ev.sender) ==> r == []
    ensures CommandShape(r, room)
  {
    if owner != Some(ev.sender) then [] else CommandIntents(room, Parse(ev.body), resolve, unlinked)
  }

  /** The owner's `!ban-sync link #name:server`: the alias is resolved as
      written, `server` being what follows the last colon; a failed
      resolution does nothing, the room itself is refused with a reply, any
      other room is linked once and confirmed. */
  lemma LinkCommandOutcome(room: string, owner: string, body: string, name: string, server: string,
                           rest: string, resolve: string -> Option<string>, unlinked: bool)
    requires Strip(body) == LinkPattern + name + ":" + server + rest
    requires ':' !in server && '\n' !in name && '\n' !in server
    requires rest == [] || rest[0] == '\n'
    ensures var r := MessageIntents(room, MessageEvent(owner, body), Some(owner), resolve, unlinked);
      match resolve(Alias(name, server))
      case None => r == []
      case Some(id) =>
        if id == room then r == [Reply(room, SelfLinkText)]
        else r == [StoreLink(room, id), Reply(room, LinkedText(name, server))]
  {
    ParseLink(body, name, server, rest);
    var ev := MessageEvent(owner, body);
    OwnerMessageIntents(room, ev, owner, resolve, unlinked);
    LinkIntents(room, name, server, resolve, unlinked);
  }

  lemma LinkIntents(room: string, name: string, server: string, resolve: string -> Option<string>, unlinked: bool)
    ensures var r := CommandIntents(room, LinkCommand(name, server), resolve, unlinked);
      match resolve(Alias(name, server))
      case None => r == []
      case Some(id) =>
        if id == room then r == [Reply(room, SelfLinkText)]
        else r == [StoreLink(room, id), Reply(room, LinkedText(name, server))]
  {
  }

  /** The owner's `!ban-sync unlink` (anything may follow) unlinks the room
      once and replies according to the registry's answer. */
  lemma UnlinkCommandOutcome(room: string, owner: string, body: string,
                             resolve: string -> Option<string>, unlinked: bool)
    requires StartsWith(Strip(body), UnlinkPrefix)
    ensures MessageIntents(room, MessageEvent(owner, body), Some(owner), resolve, unlinked) ==
      [StoreUnlink(room), Reply(room, UnlinkReply(unlinked))]
  {
    ParseUnlink(body);
    OwnerMessageIntents(room, MessageEvent(owner, body), owner, resolve, unlinked);
  }

  /** A link-prefixed body the pattern does not match does nothing: no
      registry call and no reply. */
  lemma MalformedLinkIgnored(room: string, owner: string, body: string,
                             resolve: string -> Option<string>, unlinked: bool)
    requires StartsWith(Strip(body), LinkPrefix) && MatchLink(Strip(body)).None?
    ensures MessageIntents(room, MessageEvent(owner, body), Some(owner), resolve, unlinked) == []
  {
    OwnerMessageIntents(room, MessageEvent(owner, body), owner, resolve, unlinked);
  }

  /** A body with neither command prefix does nothing. */
  lemma OtherMessageIgnored(room: string, owner: string, body: string,
                            resolve: string -> Option<string>, unlinked: bool)
    requires !StartsWith(Strip(body), LinkPrefix) && !StartsWith(Strip(body), UnlinkPrefix)
    ensures MessageIntents(room, MessageEvent(owner, body), Some(owner), resolve, unlinked) == []
  {
    OwnerMessageIntents(room, MessageEvent(owner, body), owner, resolve, unlinked);
  }

  /** The owner's message does what its parsed command does. */
  lemma OwnerMessageIntents(room: string, ev: MessageEvent, owner: string,
                            resolve: string -> Option<string>, unlinked: bool)
    requires ev.sender == owner
    ensures MessageIntents(room, ev, Some(owner), resolve, unlinked) ==
      CommandIntents(room, Parse(ev.body), resolve, unlinked)
  {
  }

  /** The registry after the store calls among `r`, made in order. */
  function RegistryAfter(links: seq<Link>, loaded: bool, r: seq<Intent>): seq<Link>
    decreases |r|
  {
    if !loaded || r == [] then links
    else
      var next := match r[0]
        case StoreLink(a, b) => WithLink(links, a, b)
        case StoreUnlink(c) => Unlinked(links, c)
        case _ => links;
      RegistryAfter(next, loaded, r[1..])
  }

  predicate CallsStore(r: seq<Intent>) {
    exists i :: 0 <= i < |r| && (r[i].StoreLink? || r[i].StoreUnlink?)
  }

  /** A lone reply leaves the registry as it is. */
  lemma RegistryAfterReply(links: seq<Link>, loaded: bool, room: string, text: string)
    ensures RegistryAfter(links, loaded, [Reply(room, text)]) == links
    ensures !CallsStore([Reply(room, text)])
  {
    var r := [Reply(room, text)];
    assert r[1..] == [];
  }

  /** One registry call followed by its reply changes the registry by that
      call alone. */
  lemma RegistryAfterCall(links: seq<Link>, call: Intent, room: string, text: string)
    requires call.StoreLink? || call.StoreUnlink?
    ensures CallsStore([call, Reply(room, text)])
    ensures RegistryAfter(links, true, [call, Reply(room, text)]) ==
      if call.StoreLink? then WithLink(links, call.a, call.b) else Unlinked(links, call.room)
  {
    var r := [call, Reply(room, text)];
    assert r[0] == call;
    assert r[1..] == [Reply(room, text)];
    assert r[1..][1..] == [];
    var next := if call.StoreLink? then WithLink(links, call.a, call.b) else Unlinked(links, call.room);
    assert RegistryAfter(links, true, r) == RegistryAfter(next, true, [Reply(room, text)]);
    RegistryAfterReply(next, true, room, text);
  }

  /** The link branch once the alias resolved to another room: the registry
      gains the group [room, id], saved, and the confirmation follows. */
  method LinkAndConfirm(store: Registry.Store, room: string, id: string, text: string)
    returns (r: seq<Intent>)
    requires store.Valid() && room != id
    modifies store
    ensures r == [StoreLink(room, id), Reply(room, text)] && CallsStore(r)
    ensures store.Valid() && store.loaded == old(store.loaded)
    ensures store.links == RegistryAfter(old(store.links), old(store.loaded), r)
    ensures store.file == if old(store.loaded) then Some(Encode(store.links)) else old(store.file)
    ensures WellFormed(old(store.links)) ==> WellFormed(store.links)
  {
    ghost var before := store.links;
    store.LinkChannels(room, id);
    r := [StoreLink(room, id), Reply(room, text)];
    RegistryAfterCall(before, r[0], room, text);
    if WellFormed(before) {
      WithLinkWellFormed(before, room, id);
    }
  }

  /** The unlink branch: the registry drops the room, saves, and the reply
      says whether the room was linked anywhere. */
  method UnlinkAndReply(store: Registry.Store, room: string) returns (r: seq<Intent>)
    requires store.Valid()
    modifies store
    ensures r == [StoreUnlink(room), Reply(room, UnlinkReply(old(store.loaded) && Linked(old(store.links), room)))]
    ensures CallsStore(r)
    ensures store.Valid() && store.loaded == old(store.loaded)
    ensures store.links == RegistryAfter(old(store.links), old(store.loaded), r)
    ensures store.file == if old(store.loaded) then Some(Encode(store.links)) else old(store.file)
    ensures WellFormed(old(store.links)) ==> WellFormed(store.links)
  {
    ghost var before := store.links;
    var unlinked := store.UnlinkChannels(room);
    r := [StoreUnlink(room), Reply(room, UnlinkReply(unlinked))];
    RegistryAfterCall(before, r[0], room, UnlinkReply(unlinked));
    if WellFormed(before) {
      UnlinkedWellFormed(before, room);
    }
  }

  /** A parsed command run against the registry. */
  method RunCommand(store: Registry.Store, room: string, c: Command, resolve: string -> Option<string>)
    returns (r: seq<Intent>)
    requires store.Valid()
    modifies store
    ensures store.Valid() && store.loaded == old(store.loaded)
    ensures r == CommandIntents(room, c, resolve, old(store.loaded) && Linked(old(store.links), room))
    ensures store.links == RegistryAfter(old(store.links), old(store.loaded), r)
    ensures store.file == if old(store.loaded) && CallsStore(r) then Some(Encode(store.links)) else old(store.file)
    ensures WellFormed(old(store.links)) ==> WellFormed(store.links)
  {
    r := [];
    match c
    case NoCommand =>
    case MalformedLink =>
    case LinkCommand(name, server) =>
      var result := resolve(Alias(name, server));
      if result.None? {
        return;
      }
      var id := result.value;
      if room == id {
        r := [Reply(room, SelfLinkText)];
        RegistryAfterReply(store.links, store.loaded, room, SelfLinkText);
        return;
      }
      r := LinkAndConfirm(store, room, id, LinkedText(name, server));
    case UnlinkCommand =>
      r := UnlinkAndReply(store, room);
  }

  /** `message_cb` run against the registry: the intents it produces are
      those of MessageIntents with the registry's real answer to the unlink
      call, the registry changes exactly by the calls among them, the file
      is rewritten exactly when a call reached a loaded registry, and a
      well-formed registry stays well formed (a room is never linked to
      itself). */
  method OnMessage(store: Registry.Store, room: string, ev: MessageEvent, owner: Option<string>,
                   resolve: string -> Option<string>) returns (r: seq<Intent>)
    requires store.Valid()
    modifies store
    ensures store.Valid() && store.loaded == old(store.loaded)
    ensures r == MessageIntents(room, ev, owner, resolve, old(store.loaded) && Linked(old(store.links), room))
    ensures store.links == RegistryAfter(old(store.links), old(store.loaded), r)
    ensures store.file == if old(store.loaded) && CallsStore(r) then Some(Encode(store.links)) else old(store.file)
    ensures WellFormed(old(store.links)) ==> WellFormed(store.links)
  {
    if owner != Some(ev.sender) {
      return [];
    }
    r := RunCommand(store, room, Parse(ev.body), resolve);
  }

  const MaxJoinAttempts := 3

  /** `auto_join_room`: an invite from anyone but the owner is ignored;
      otherwise joining is tried up to three times, stopping at the first
      attempt the server does not answer with an error, and the final
      failure is reported only when every attempt failed. `joinSucceeds(k)`
      is the server's answer to attempt `k`. */
  method AutoJoin(sender: string, owner: Option<string>, joinSucceeds: nat -> bool)
    returns (attempts: nat, joined: bool, reportedFailure: bool)
    ensures owner != Some(sender) ==> attempts == 0 && !joined && !reportedFailure
    ensures owner == Some(sender) ==> 1 <= attempts <= MaxJoinAttempts
    ensures joined <==> owner == Some(sender) && exists k :: 0 <= k < MaxJoinAttempts && joinSucceeds(k)
    ensures joined ==> joinSucceeds(attempts - 1)
    ensures forall k :: 0 <= k < attempts - 1 ==> !joinSucceeds(k)
    ensures reportedFailure <==> owner == Some(sender) && !joined
    ensures reportedFailure ==> attempts == MaxJoinAttempts && forall k :: 0 <= k < attempts ==> !joinSucceeds(k)
  {
    attempts, joined, reportedFailure := 0, false, false;
    if owner != Some(sender) {
      return;
    }
    for attempt := 0 to MaxJoinAttempts
      invariant attempts == attempt && !joined
      invariant forall k :: 0 <= k < attempt ==> !joinSucceeds(k)
    {
      attempts := attempts + 1;
      if joinSucceeds(attempt) {
        joined := true;
        break;
      }
    }
    if !joined {
      reportedFailure := true;
    }
  }
}
