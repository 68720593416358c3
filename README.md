# Verified model of the music bot's database facade

`Music/core/database.py` is the persistence facade of a group-chat music
bot. This project models the two parts of it that hold logic of their own:

- the **process-local runtime state** of the `Database` object:
  `active_vc` (a list of voice-call session records seeded with one
  placeholder), `loop` (chat id to loop counter, default 0) and `watcher`
  (chat id to a key-to-flag map, default false);
- the **list-backed id sets** kept in singleton tag documents: sudo users,
  blocked users, globally banned ("gbanned") users and authorized chats.
  Each is read (or `[]` when the document is absent), changed with
  `append` or `list.remove`, and written back whole with an upsert.

Modules:

- `Wrappers` (`wrappers.dfy`): the `Result` type used where the source raises.
- `ListOps` (`list_ops.dfy`): Python's `list.remove` (first occurrence,
  `ValueError` when absent) and its lemmas.
- `Sessions` (`sessions.dfy`): session records as values, and the two list
  transformations the facade applies to them (`Register`, `Without`).
- `Db` (`database.dfy`): class `Database` with the fields `activeVc`,
  `loop`, `watcher` and `lists`. `lists` maps each tag that has a document
  in the store to that document's id list. The invariant `Valid()` says
  chat ids in `activeVc` are pairwise distinct. Mutating methods name
  the one field they change (`modifies this`activeVc` and so on), so
  every other field is unchanged by construction.
- `Scenarios` (`scenarios.dfy`): call sequences on a fresh facade,
  proved from the member contracts alone.

Modelling decisions:

- Each async call is one atomic sequential step.
- The wall-clock `datetime.datetime.now()` stamp of a new session is the
  parameter `now` of `AddActiveVc`. The placeholder's `join_time` is the
  integer 0 (`JoinTime.Zero`).
- The document store is reduced to the contents of the four tag documents
  (`find_one` finds the document or nothing; the upsert sets its id list).
  The constructor takes the stored documents as a parameter, because the
  store outlives the process.
- `remove_active_vc` is modelled as the source's loop. It walks the list by
  index, calls `list.remove` on the matching record (removing the first
  record *equal* to it), and moves the index on even after a removal.
  Under the uniqueness invariant this deletes exactly the one record of
  the chat.
- `get_loop` is modelled as written (`loop or 0`). Its contract shows
  this is the same as a lookup with default 0: a stored 0 is falsy, but it
  reads back as 0 either way.

## Model

| member | source | states |
|---|---|---|
| `ListOps.IndexOf` | Music/core/database.py:183 | the position `list.remove` deletes: it holds `x`, and no earlier element equals `x` |
| `ListOps.Remove` | Music/core/database.py:183 | `list.remove(x)` fails with ValueError exactly when `x` is absent; on success the result plus one `x` is a permutation of the input |
| `ListOps.RemoveFirstOccurrence` | Music/core/database.py:183 | for `x` not in `a`, removing `x` from `a + [x] + b` gives `a + b`: only the first occurrence goes, the rest keeps its order |
| `ListOps.RemoveSplits` | Music/core/database.py:183 | every list holding `x` splits as `a + [x] + b` with `x` not in `a`, and removal yields `a + b` |
| `ListOps.RemoveAfterAppend` | Music/core/database.py:173-187 | `add_sudo` then `remove_sudo` of an id the list did not hold restores the original list |
| `ListOps.RemoveAfterAppendDuplicate` | Music/core/database.py:173-187 | when the id was already present, remove after append takes out the earlier copy, leaving the appended one at the end |
| `Sessions.ChatIds` | Music/core/database.py:103 | the comprehension `[x["chat_id"] for x in active_vc]`: same length, element i is record i's chat id |
| `Sessions.ChatIdsActive` | Music/core/database.py:114-115 | the test `chat_id in cid` holds exactly when some record belongs to the chat |
| `Sessions.Register` | Music/core/database.py:102-111 | the new list extends the old one by at most one record, the added record at the end; it is the old list unchanged when the chat already had a record; the chat is active afterwards; other chats' activity is unchanged; distinct chat ids stay distinct |
| `Sessions.FirstRegistrationWins` | Music/core/database.py:104 | a second add for the same chat leaves the list as after the first add: the first `vc_type` and `join_time` win |
| `Sessions.Without` | Music/core/database.py:120-123 | the records kept are exactly the old records of other chats |
| `Sessions.WithoutActive` | Music/core/database.py:120-123 | after dropping chat `c`, `c` is not active and every other chat is active exactly as before |
| `Sessions.WithoutUnique` | Music/core/database.py:120-123 | dropping a chat keeps chat ids pairwise distinct |
| `Sessions.WithoutAbsent` | Music/core/database.py:120-123 | dropping a chat with no record leaves the list unchanged |
| `Sessions.WithoutAt` | Music/core/database.py:120-123 | with distinct chat ids, dropping the chat of record i deletes exactly that record and keeps the others in their order |
| `Db.Database.constructor` | Music/core/database.py:28-31 | `active_vc` is exactly the placeholder (chat 0, join time 0, "voice"); `loop` and `watcher` are empty; the invariant holds |
| `Db.Database.GetActiveVc` | Music/core/database.py:99-100 | returns `active_vc` itself as a value; its chat ids are distinct, and its active chats are the ones `IsActiveVc` reports |
| `Db.Database.IsActiveVc` | Music/core/database.py:113-118 | true exactly when some record of `active_vc` has the chat id |
| `Db.Database.AddActiveVc` | Music/core/database.py:102-111 | appends a record stamped `now` exactly when the chat had none, else leaves the list unchanged; the chat is active afterwards; keeps ids distinct |
| `Db.Database.RemoveActiveVc` | Music/core/database.py:120-123 | the loop leaves exactly the records of other chats in their order; the chat is inactive afterwards; other chats are as before; an absent chat leaves the list unchanged |
| `Db.Database.SetLoop` | Music/core/database.py:148-149 | stores the counter; `GetLoop` then returns it for that chat and the old value for every other chat |
| `Db.Database.GetLoop` | Music/core/database.py:151-153 | `loop or 0` equals the stored counter when there is one, and 0 for an untouched chat |
| `Db.Database.SetWatcher` | Music/core/database.py:156-157 | replaces the chat's whole map with `{key: watch}`; afterwards the key reads `watch`, every other key of that chat reads false, other chats read as before |
| `Db.Database.GetWatcher` | Music/core/database.py:159-164 | true only for a stored flag; a missing chat or key (the KeyError) reads as false |
| `Db.Database.GetList` | Music/core/database.py:167-171 | a tag's id list, or `[]` when its document is absent |
| `Db.Database.AppendTo` | Music/core/database.py:173-179 | the stored list becomes the old list followed by `x` (duplicates allowed), the result is true, other tags are unchanged |
| `Db.Database.RemoveFrom` | Music/core/database.py:181-187 | succeeds exactly when `x` is listed, then stores the list with its first `x` removed and returns true; otherwise ValueError and nothing is written; other tags are unchanged |
| `Db.Database.IsMember` | Music/core/database.py:235-240 | the inline document test agrees with membership in `GetList` |
| `Db.Database.GetSudoUsers` | Music/core/database.py:167-171 | the sudo document's list, `[]` when absent |
| `Db.Database.AddSudo` | Music/core/database.py:173-179 | appends to the sudo list, returns true, other lists unchanged |
| `Db.Database.RemoveSudo` | Music/core/database.py:181-187 | removes the first occurrence from the sudo list, or fails with ValueError without writing |
| `Db.Database.GetBlockedUsers` | Music/core/database.py:190-194 | the blocked document's list, `[]` when absent |
| `Db.Database.AddBlockedUser` | Music/core/database.py:196-202 | appends to the blocked list, returns true, other lists unchanged |
| `Db.Database.RemoveBlockedUser` | Music/core/database.py:204-210 | removes the first occurrence from the blocked list, or fails with ValueError without writing |
| `Db.Database.GetGbannedUsers` | Music/core/database.py:213-217 | the gbanned document's list, `[]` when absent |
| `Db.Database.AddGbannedUser` | Music/core/database.py:219-225 | appends to the gbanned list, returns true, other lists unchanged |
| `Db.Database.RemoveGbannedUsers` | Music/core/database.py:227-233 | removes the first occurrence from the gbanned list, or fails with ValueError without writing |
| `Db.Database.IsGbannedUser` | Music/core/database.py:235-240 | true exactly when the id is in `GetGbannedUsers()`; false when the gbanned document is absent |
| `Db.Database.GetAuthchats` | Music/core/database.py:263-267 | the authchats document's list, `[]` when absent |
| `Db.Database.AddAuthchat` | Music/core/database.py:269-275 | appends to the authorized-chat list, returns true, other lists unchanged |
| `Db.Database.RemoveAuthchat` | Music/core/database.py:277-283 | removes the first occurrence from the authorized-chat list, or fails with ValueError without writing |
| `Scenarios.SudoRoundTrip` | Music/core/database.py:167-187 | from an empty store: add 5 and 7 gives [5, 7]; removing 5 gives [7]; removing 99 fails with ValueError |
| `Scenarios.DuplicateGban` | Music/core/database.py:219-240 | adding 3, 4, 3 gives [3, 4, 3]; one remove of 3 gives [4, 3], and 3 is still gbanned |
| `Scenarios.ActiveVcRoundTrip` | Music/core/database.py:102-123 | adding chat 100 as "voice" then "video" leaves one "voice" record after the placeholder; removing it leaves the placeholder alone and chat 100 inactive |
| `Scenarios.RuntimeDefaults` | Music/core/database.py:148-164 | an untouched chat reads loop 0 and watcher false; a stored loop count of 0 reads back as 0 |

## Left out

- Client construction and `connect` (lines 12-26, 34-40): the driver handle, the ping, logging and `sys.exit` are I/O.
- User and chat CRUD (`add_user` … `total_chats_count`, lines 43-96): each is a single driver call whose behaviour (duplicate inserts, cursors, counts) belongs to the document store.
- Autoend (`get_autoend`, `set_autoend`, lines 126-145): the outcome depends on how the driver treats the stray second argument of `insert_one` and on a blanket `except` around driver errors.
- Authorized users per chat (`add_authusers` … `remove_authuser`, lines 243-260): correctness rests on the store's nested-document query matching, which is not part of this model.
- Concurrency: async interleavings, including the lost update when two read-modify-write calls on one list race, are not modelled; each call is one atomic step.
- `Db.Database.GetActiveVc`: the source returns the list object itself, so a caller could mutate `active_vc` through it. The model returns a value, so this aliasing is not captured.
- `Db.Database.RemoveActiveVc`: its element-removal contract holds under the uniqueness invariant. That invariant holds in every reachable state, so the skip-after-removal behaviour of the source loop on lists with repeated chat ids is not stated.
- `Db.Database.AddActiveVc`: the wall-clock instant is an opaque integer supplied by the caller, not a `datetime`.
- Values of the wrong Python type (for example a non-int loop counter, whose truthiness differs) are excluded by the Dafny types.
