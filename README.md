# banbot ban-sync relay, modelled in Dafny

banbot is a Matrix bot that mirrors bans between linked rooms. Its owner
links rooms with chat commands. When a user is banned or unbanned in one
room, the bot repeats that in every room linked to it. Two pieces hold all
of its logic, and this project models both.

- **The link registry** (`Store` in `src/store.py`). It holds an ordered
  list of link groups, each an ordered list of room ids, and a one-way
  `loaded` flag. It answers lookups (`get_linked_channels`), appends groups
  (`link_channels`) and removes a room while pruning short groups
  (`unlink_channels`). After each change it rewrites its JSON file.
- **The callbacks** of `src/main.py`:
  - `member_event_callback` turns a membership event into bans or unbans
    in the linked rooms.
  - `message_cb` turns an owner's `!ban-sync link #name:server` or
    `!ban-sync unlink` into at most one registry call and one reply.
  - `auto_join_room` tries up to three times to join a room it is invited
    to.

Modules:

- `Lists` (lists.dfy): `Option`, and Python's `list.remove` as
  `RemoveFirst`.
- `Links` (links.dfy): the `Link` record, and what lookup, link and unlink
  mean, as functions on a list of groups with lemmas about them.
- `StoreFile` (storefile.dfy): the layout of the registry file as a JSON
  value, how it is read and written, and the save/load round trip.
- `Registry` (store.dfy): the `Store` class, with fields `links`, `loaded`
  and `file` (what the file on disk holds). Each method is proved against
  the `Links` functions.
- `Commands` (commands.dfy): `str.strip`, `str.startswith`, the link
  regex `!ban-sync link #(.*):(.*)` and how a message body is classified.
- `Relay` (relay.dfy): the callbacks. What the chat client would do
  becomes an `Intent` (`Ban`, `Unban`, `Reply`, `StoreLink`,
  `StoreUnlink`). What the server answers becomes an input: how an alias
  resolves, and whether a join attempt succeeds.

The model follows the code, not the registry's intended shape:

- A room may be in several groups, or twice in one group.
- A lookup uses the first group that contains the room.
- Unlinking visits every group.
- `list.remove` drops only the first occurrence.

`WellFormed` (every group has at least two rooms and no room twice) is never
checked by the code. Lemmas show that `link_channels` with two different
rooms keeps it, and so does `unlink_channels`. `message_cb` never links a
room to itself, so the callbacks keep it too.

## Model

| member | source | states |
|---|---|---|
| Lists.RemoveFirst | src/store.py:47 | `list.remove(x)` on a list holding `x` gives a list one element shorter |
| Lists.RemoveFirstMultiset | src/store.py:47 | `list.remove(x)` takes away exactly one `x` and leaves every other element |
| Lists.RemoveFirstIsSplice | src/store.py:68 | `list.remove(x)` cuts out exactly the first occurrence of `x`, keeping everything before and after it in order |
| Lists.RemoveFirstNoDup | src/store.py:47 | on a list without duplicates, removing `x` leaves no `x` and still no duplicate |
| Links.FirstGroupWith | src/store.py:44-45 | the position found is of a group containing the room with no earlier group containing it; there is none exactly when no group contains the room |
| Links.LinkedChannels | src/store.py:44-50 | the lookup is `[]` when no group holds the room; otherwise it holds the rooms of the first group holding it, with one occurrence of the room fewer |
| Links.LinkedChannelsFromFirstGroup | src/store.py:44-50 | the lookup is empty when no group holds the room, and otherwise is the first group holding it minus the first occurrence of the room |
| Links.LinkedChannelsExcludeSelf | src/store.py:46-48 | on a well-formed registry a room is never among its own linked rooms |
| Links.LinkedChannelsAppend | src/store.py:44-48 | groups appended later do not change a lookup that already succeeds; when no earlier group holds the room, the lookup is that of the appended groups |
| Links.LinkThenLookup | src/store.py:44-56 | linking two different rooms that were linked nowhere makes each the other's only linked room |
| Links.OverlappingLinksAreNotSymmetric | src/store.py:44-56 | after linking a–b and then b–c, a lookup of b gives only a while a lookup of c gives b: the first group wins |
| Links.WithLink | src/store.py:56 | linking keeps every existing group in place and appends exactly the group [a, b] at the end |
| Links.WithLinkWellFormed | src/store.py:56 | appending a group of two different rooms keeps a well-formed registry well formed |
| Links.Unlinked | src/store.py:66-73 | unlinking never adds a group; its exact result is stated by the `Unlinked…` lemmas below |
| Links.UnlinkedConcat | src/store.py:66-73 | unlinking treats each group on its own: it distributes over concatenation of group lists |
| Links.UnlinkedAt | src/store.py:66-73 | group `i` ends up between what is left of the groups before it and what is left of the groups after it |
| Links.UnlinkedKeepsUntouched | src/store.py:66-73 | a group without the room survives unchanged, placed right after what is left of the groups before it |
| Links.UnlinkedDropsOneOccurrence | src/store.py:67-71 | a group with the room loses exactly one occurrence; it is dropped when fewer than two rooms remain, otherwise it stays in place |
| Links.UnlinkedKeepsOrder | src/store.py:66-73 | two groups without the room keep their relative order |
| Links.UnlinkedAbsent | src/store.py:66-73 | when no group contains the room, unlinking leaves the groups exactly as they were |
| Links.UnlinkedNoNewShortGroup | src/store.py:70-73 | any group of fewer than two rooms left after unlinking was already in the list and does not contain the room |
| Links.UnlinkedWellFormed | src/store.py:66-73 | unlinking keeps a well-formed registry well formed |
| Links.UnlinkedRemovesRoom | src/store.py:66-73 | on a well-formed registry no group contains the room after unlinking it |
| StoreFile.Encode | src/store.py:35-37 | the file is an object with the single key `links`, whose array has one entry per group |
| StoreFile.Decode | src/store.py:24-26 | reading succeeds only on an object with a `links` array, and then gives one group per entry |
| StoreFile.EncodeLinks | src/store.py:36 | every group is written, in order, as its own `{"channels": [...]}` object |
| StoreFile.DecodeEncode | src/store.py:24-37 | reading back what a save writes gives exactly the saved groups, in order, each with its rooms in order |
| Registry.Store.constructor | src/store.py:11-14 | a new store holds no groups, is not loaded and leaves the file as it is |
| Registry.Store.Load | src/store.py:16-28 | a second load changes nothing; a first load takes the groups from the file in order, or starts empty and creates the file when it is missing; afterwards the file reads back as the groups held |
| Registry.Store.Save | src/store.py:30-37 | before loading nothing is written; after loading the file is overwritten with exactly the current groups and reads back as them |
| Registry.Store.GetLinkedChannels | src/store.py:39-50 | answers `[]` before loading, and otherwise the first group containing the room minus one occurrence of it; the registry is not changed |
| Registry.Store.LinkChannels | src/store.py:52-57 | before loading nothing changes; after loading exactly the group [a, b] is appended and the file is rewritten with the new list |
| Registry.Store.UnlinkChannels | src/store.py:59-75 | answers whether any group contained the room (false before loading); after loading the groups become `Unlinked` of the old ones and the file is rewritten even when nothing changed |
| Registry.UnlinkGroups | src/store.py:64-73 | the two loops of `unlink_channels` leave exactly `Unlinked` of the groups and report whether any group held the room |
| Registry.StripRoom | src/store.py:64-71 | every group loses its first occurrence of the room, the positions of groups left with fewer than two rooms are collected, and the flag tells whether any group held the room |
| Registry.DropCollected | src/store.py:72-73 | dropping the collected groups from the stripped list gives exactly `Unlinked` of the original groups |
| Registry.Reopen | src/store.py:16-37 | a fresh store loading the file written by a loaded store holds exactly the same groups |
| Commands.Strip | src/main.py:37 | `str.strip()` gives a contiguous slice of the body; everything cut off before and after it is whitespace, and it neither starts nor ends with whitespace |
| Commands.StripIdempotent | src/main.py:37 | stripping an already stripped body changes nothing |
| Commands.StartsWithConcat | src/main.py:38-53 | `startswith(p)` holds for `p` followed by anything, and only for such texts |
| Commands.StripLeft | src/main.py:37 | what is dropped is leading whitespace only, and the result does not start with whitespace |
| Commands.StripRight | src/main.py:37 | what is dropped is trailing whitespace only, and the result does not end with whitespace |
| Commands.TakeLine | src/main.py:19 | the result is the prefix up to, not including, the first newline |
| Commands.MatchLink | src/main.py:19 | the regex matches exactly when the body starts with `!ban-sync link #` and the rest of that line has a `:`; the groups are split at the line's last `:` |
| Commands.MatchLinkSplitsAtLastColon | src/main.py:39-42 | a body `!ban-sync link #name:server` with no `:` in `server` gives back exactly `name` and `server` |
| Commands.Parse | src/main.py:37-53 | on the stripped body: a link command exactly when it starts with `!ban-sync link ` and the regex matches, with the regex's two groups; a malformed link exactly when it starts with that prefix and the regex does not match; an unlink exactly when it starts with `!ban-sync unlink` and not with `!ban-sync link `; nothing exactly when it has neither prefix |
| Commands.ParseLink | src/main.py:37-42 | a body whose stripped form is `!ban-sync link #name:server`, possibly followed by further lines, is read as a link to exactly `name` and `server` |
| Commands.ParseUnlink | src/main.py:37-53 | any body whose stripped form starts with `!ban-sync unlink` is read as an unlink, whatever follows |
| Relay.IsUnban | src/main.py:77 | an unban is only ever seen on an event that is not a ban and whose previous membership was a ban |
| Relay.BanAll | src/main.py:73-74 | one ban per linked room, in lookup order, with the event's user and reason |
| Relay.UnbanAll | src/main.py:79-80 | one unban per linked room, in lookup order, for the event's user |
| Relay.MemberIntents | src/main.py:62-80 | the bot's own events and rooms without links give nothing; a ban gives one `Ban` per linked room in order; leave-or-unset after ban gives one `Unban` per linked room; every other transition gives nothing |
| Relay.MemberIntentsTargetLinkedRooms | src/main.py:70-80 | every intent of a membership event is a ban or unban of the event's user in one of the linked rooms |
| Relay.OnMemberEvent | src/main.py:62-80 | the callback produces MemberIntents for the registry's answer, and on a well-formed registry never acts on the event's own room |
| Relay.CommandIntents | src/main.py:38-59 | a command amounts to nothing, a lone reply in the room, or one registry call on the room followed by one reply; a link never pairs the room with itself; a malformed link or a body without a command does nothing |
| Relay.MessageIntents | src/main.py:33-35 | messages from anyone but the configured owner, or when no owner is configured, produce nothing |
| Relay.LinkCommandOutcome | src/main.py:37-52 | for a body whose stripped form is `!ban-sync link #name:server`: a failed alias resolution does nothing, the room itself gets only the refusal, any other room is linked once and confirmed |
| Relay.UnlinkCommandOutcome | src/main.py:37-59 | a body whose stripped form starts with `!ban-sync unlink` makes one unlink call and replies according to its answer |
| Relay.MalformedLinkIgnored | src/main.py:37-41 | the owner's body that starts with `!ban-sync link ` but does not match the regex makes no registry call and no reply |
| Relay.OtherMessageIgnored | src/main.py:37-53 | the owner's body with neither command prefix makes no registry call and no reply |
| Relay.LinkAndConfirm | src/main.py:51-52 | the registry gains exactly the group [room, id], saved, followed by the confirmation, and well-formedness is kept |
| Relay.UnlinkAndReply | src/main.py:54-59 | the registry is unlinked once and saved, and the reply says whether the room had been linked |
| Relay.RunCommand | src/main.py:38-59 | a command run against the registry gives CommandIntents with the registry's real unlink answer, the registry changes exactly by the calls made, and the file is rewritten exactly when a call reached a loaded registry |
| Relay.OnMessage | src/main.py:33-59 | the message callback gives MessageIntents, the registry and file change only through its calls, and a well-formed registry stays well formed |
| Relay.AutoJoin | src/main.py:84-98 | invites from anyone but the owner are ignored; otherwise at most three attempts, stopping at the first success; the failure is reported exactly when all three failed |

## Left out

- The Matrix client and the network are not modelled: login, sync, sending
  messages, ban, unban, join and alias resolution (src/main.py:22-30,
  101-122). Their effects are `Intent` values. Their answers are inputs:
  `resolve` for alias resolution and `joinSucceeds` for each join attempt.
- Reading and writing the file as text, and JSON text encoding, are not
  modelled. The file is a JSON value held in `Store.file`, or `None` when
  the file does not exist.
- Registry.Store.Load: requires that an existing file decodes: an object
  with a `links` array of objects whose `channels` are arrays of strings.
  The errors `json.load` or a missing `links`/`channels` key would raise
  are not modelled. The requires also excludes files Python loads without
  error, such as `{"links": [{"channels": [1, 2]}]}`, or `channels` holding
  a string, which the lookups would then search by substring.
- Registry.DropCollected: removes the collected groups by position.
  `self._links.remove(link)` removes the first group equal by value, which
  can be a different group. That only happens when the list already holds
  a group of fewer than two rooms that does not contain the room.
- Lists.RemoveFirst: requires that the element is present. Python raises
  `ValueError` otherwise, but every call in the registry checks membership
  first.
- Python object aliasing is not modelled. `unlink_channels` edits the
  `Link` objects in place; the model replaces them by value. No other code
  holds those objects, and the lookup returns a copy.
- `print` logging and warnings are left out. Only their early returns are
  modelled.
- Environment and configuration are not modelled: `load_dotenv`,
  `os.getenv` and the module-level `Store("store.json")` with its `load()`
  (src/main.py:15-17, 125-126). The owner is a parameter, `None` when
  `BOT_OWNER` is unset. The bot's own user id is the parameter `botUser`.
- `asyncio` scheduling is not modelled. Each callback runs to completion on
  its own.
