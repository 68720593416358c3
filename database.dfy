/**
 * The database facade of the music bot: the process-local runtime state
 * (active voice-call sessions, per-chat loop counters, per-chat watcher
 * flags) and the four list-backed id sets kept in singleton tag documents
 * (sudo users, blocked users, globally banned users, authorized chats).
 * Every call is one atomic step; the document store is abstracted to the
 * contents of the tag documents.
 */
module Db {
  import opened Wrappers
  import opened ListOps
  import opened Sessions

  /** The tag of a singleton list document, one per collection:
      {"sudo": "sudo"}, {"blocked": "blocked"}, {"gbanned": "gbanned"},
      {"authchats": "authchats"}. */
  datatype ListTag = Sudo | Blocked | Gbanned | AuthChats

  class Database {
    /** `active_vc`: the session records, in insertion order. */
    var activeVc: seq<Session>
    /** `loop`: chat id to loop counter. */
    var loop: map<int, int>
    /** `watcher`: chat id to a key-to-flag map. */
    var watcher: map<int, map<string, bool>>
    /** The id list of each tag document that exists in the store; a tag
        that is not a key has no document. */
    var lists: map<ListTag, seq<int>>

    /** Chat ids in `active_vc` are pairwise distinct. */
    ghost predicate Valid()
      reads this
    {
      UniqueChats(activeVc)
    }

    /** Construction: the runtime state starts from its seeds; the store
        holds whatever tag documents it held before start-up. */
    constructor (stored: map<ListTag, seq<int>>)
      ensures Valid()
      ensures activeVc == [Placeholder]
      ensures loop == map[] && watcher == map[]
      ensures lists == stored
    {
      activeVc := [Placeholder];
      loop := map[];
      watcher := map[];
      lists := stored;
    }

    // ----- active voice calls -----

    /** The current session list; its chat ids are pairwise distinct. */
    function GetActiveVc(): (r: seq<Session>)
      reads this
      requires Valid()
      ensures r == activeVc
      ensures UniqueChats(r)
      ensures forall c :: Active(r, c) <==> IsActiveVc(c)
    {
      activeVc
    }

    /** Whether chat `c` has a session record. */
    function IsActiveVc(c: int): (b: bool)
      reads this
      ensures b <==> exists e :: e in activeVc && e.chatId == c
    {
      ChatIdsActive(activeVc, c);
      c in ChatIds(activeVc)
    }

    /** Appends a record for `c` stamped `now`, unless `c` already has one. */
    method AddActiveVc(c: int, vcType: string, now: int)
      requires Valid()
      modifies this`activeVc
      ensures Valid()
      ensures activeVc == Register(old(activeVc), Session(c, At(now), vcType))
      ensures IsActiveVc(c)
      ensures old(IsActiveVc(c)) ==> activeVc == old(activeVc)
      ensures !old(IsActiveVc(c)) ==> activeVc == old(activeVc) + [Session(c, At(now), vcType)]
    {
      var cid := ChatIds(activeVc);
      ChatIdsActive(activeVc, c);
      if c !in cid {
        activeVc := activeVc + [Session(c, At(now), vcType)];
      }
    }

    /** The source's loop: walk the list by index and, at a record of `c`,
        remove the first record equal to it; the index advances past the
        position either way, as a list iterator does. */
    method RemoveActiveVc(c: int)
      requires Valid()
      modifies this`activeVc
      ensures Valid()
      ensures activeVc == Without(old(activeVc), c)
      ensures !IsActiveVc(c)
      ensures forall d :: d != c ==> (IsActiveVc(d) <==> old(IsActiveVc(d)))
      ensures !old(IsActiveVc(c)) ==> activeVc == old(activeVc)
    {
      ghost var s0 := activeVc;
      var i := 0;
      while i < |activeVc|
        invariant UniqueChats(activeVc)
        invariant
          || (activeVc == s0 && forall k :: 0 <= k < i && k < |s0| ==> s0[k].chatId != c)
          || activeVc == Without(s0, c)
        decreases |s0| - i
      {
        var x := activeVc[i];
        if x.chatId == c {
          if activeVc == s0 {
            UniqueSplit(s0, i);
            assert s0 == s0[..i] + [x] + s0[i + 1..];
            RemoveFirstOccurrence(s0[..i], x, s0[i + 1..]);
            WithoutAt(s0, i, c);
          } else {
            WithoutActive(s0, c, c);
            assert false;
          }
          var r := Remove(activeVc, x);
          activeVc := r.value;
        }
        i := i + 1;
      }
      if activeVc == s0 {
        WithoutAbsent(s0, c);
      }
      WithoutActive(s0, c, c);
      forall d | d != c ensures IsActiveVc(d) <==> old(IsActiveVc(d)) {
        WithoutActive(s0, c, d);
      }
      if !Active(s0, c) {
        WithoutAbsent(s0, c);
      }
    }

    // ----- loop -----

    method SetLoop(c: int, v: int)
      modifies this`loop
      ensures loop == old(loop)[c := v]
      ensures GetLoop(c) == v
      ensures forall d :: d != c ==> GetLoop(d) == old(GetLoop(d))
    {
      loop := loop[c := v];
    }

    /** `loop or 0` after a dict lookup: the stored value, and 0 when there
        is none (a stored 0 is falsy and reads back as the default 0). */
    function GetLoop(c: int): (v: int)
      reads this
      ensures c in loop ==> v == loop[c]
      ensures c !in loop ==> v == 0
    {
      if c in loop && loop[c] != 0 then loop[c] else 0
    }

    // ----- watcher -----

    /** Replaces the whole watcher map of chat `c` with `{key: watch}`. */
    method SetWatcher(c: int, key: string, watch: bool)
      modifies this`watcher
      ensures watcher == old(watcher)[c := map[key := watch]]
      ensures GetWatcher(c, key) == watch
      ensures forall k :: k != key ==> !GetWatcher(c, k)
      ensures forall d, k :: d != c ==> GetWatcher(d, k) == old(GetWatcher(d, k))
    {
      watcher := watcher[c := map[key := watch]];
    }

    /** The flag stored under `key` for chat `c`; a missing chat or key
        (the KeyError) reads as false. */
    function GetWatcher(c: int, key: string): (b: bool)
      reads this
      ensures b ==> c in watcher && key in watcher[c]
      ensures c in watcher && key in watcher[c] ==> b == watcher[c][key]
    {
      if c in watcher && key in watcher[c] then watcher[c][key] else false
    }

    // ----- list-backed sets, one pattern for all four tags -----

    /** The id list of tag document `tag`, or [] when it is absent. */
    function GetList(tag: ListTag): (ids: seq<int>)
      reads this
      ensures tag !in lists ==> ids == []
      ensures tag in lists ==> ids == lists[tag]
    {
      if tag !in lists then [] else lists[tag]
    }

    /** Read the list, append `x` (no duplicate check), upsert it back. */
    method AppendTo(tag: ListTag, x: int) returns (ok: bool)
      modifies this`lists
      ensures ok
      ensures lists == old(lists)[tag := old(GetList(tag)) + [x]]
      ensures GetList(tag) == old(GetList(tag)) + [x]
      ensures forall t :: t != tag ==> GetList(t) == old(GetList(t))
    {
      var ids := GetList(tag);
      ids := ids + [x];
      lists := lists[tag := ids];
      ok := true;
    }

    /** Read the list, `list.remove(x)`, upsert it back; when `x` is absent
        the ValueError propagates before anything is written. */
    method RemoveFrom(tag: ListTag, x: int) returns (r: Result<bool, ListError>)
      modifies this`lists
      ensures r.Ok? <==> x in old(GetList(tag))
      ensures r.Ok? ==> r.value && lists == old(lists)[tag := Remove(old(GetList(tag)), x).value]
      ensures r.Err? ==> r.error == ValueError && lists == old(lists)
      ensures forall t :: t != tag ==> GetList(t) == old(GetList(t))
    {
      var ids := GetList(tag);
      match Remove(ids, x)
      case Err(e) =>
        r := Err(e);
      case Ok(rest) =>
        lists := lists[tag := rest];
        r := Ok(true);
    }

    /** Membership straight from the document, as `is_gbanned_user` does. */
    function IsMember(tag: ListTag, x: int): (b: bool)
      reads this
      ensures b <==> x in GetList(tag)
    {
      tag in lists && x in lists[tag]
    }

    // ----- the source's named entry points -----

    function GetSudoUsers(): (ids: seq<int>)
      reads this
      ensures ids == GetList(Sudo)
    {
      GetList(Sudo)
    }

    method AddSudo(x: int) returns (ok: bool)
      modifies this`lists
      ensures ok && GetSudoUsers() == old(GetSudoUsers()) + [x]
      ensures forall t :: t != Sudo ==> GetList(t) == old(GetList(t))
    {
      ok := AppendTo(Sudo, x);
    }

    method RemoveSudo(x: int) returns (r: Result<bool, ListError>)
      modifies this`lists
      ensures r.Ok? <==> x in old(GetSudoUsers())
      ensures r.Ok? ==> r.value && GetSudoUsers() == Remove(old(GetSudoUsers()), x).value
      ensures r.Err? ==> r.error == ValueError && lists == old(lists)
      ensures forall t :: t != Sudo ==> GetList(t) == old(GetList(t))
    {
      r := RemoveFrom(Sudo, x);
    }

    function GetBlockedUsers(): (ids: seq<int>)
      reads this
      ensures ids == GetList(Blocked)
    {
      GetList(Blocked)
    }

    method AddBlockedUser(x: int) returns (ok: bool)
      modifies this`lists
      ensures ok && GetBlockedUsers() == old(GetBlockedUsers()) + [x]
      ensures forall t :: t != Blocked ==> GetList(t) == old(GetList(t))
    {
      ok := AppendTo(Blocked, x);
    }

    method RemoveBlockedUser(x: int) returns (r: Result<bool, ListError>)
      modifies this`lists
      ensures r.Ok? <==> x in old(GetBlockedUsers())
      ensures r.Ok? ==> r.value && GetBlockedUsers() == Remove(old(GetBlockedUsers()), x).value
      ensures r.Err? ==> r.error == ValueError && lists == old(lists)
      ensures forall t :: t != Blocked ==> GetList(t) == old(GetList(t))
    {
      r := RemoveFrom(Blocked, x);
    }

    function GetGbannedUsers(): (ids: seq<int>)
      reads this
      ensures ids == GetList(Gbanned)
    {
      GetList(Gbanned)
    }

    method AddGbannedUser(x: int) returns (ok: bool)
      modifies this`lists
      ensures ok && GetGbannedUsers() == old(GetGbannedUsers()) + [x]
      ensures forall t :: t != Gbanned ==> GetList(t) == old(GetList(t))
    {
      ok := AppendTo(Gbanned, x);
    }

    method RemoveGbannedUsers(x: int) returns (r: Result<bool, ListError>)
      modifies this`lists
      ensures r.Ok? <==> x in old(GetGbannedUsers())
      ensures r.Ok? ==> r.value && GetGbannedUsers() == Remove(old(GetGbannedUsers()), x).value
      ensures r.Err? ==> r.error == ValueError && lists == old(lists)
      ensures forall t :: t != Gbanned ==> GetList(t) == old(GetList(t))
    {
      r := RemoveFrom(Gbanned, x);
    }

    function IsGbannedUser(x: int): (b: bool)
      reads this
      ensures b <==> x in GetGbannedUsers()
      ensures Gbanned !in lists ==> !b
    {
      IsMember(Gbanned, x)
    }

    function GetAuthchats(): (ids: seq<int>)
      reads this
      ensures ids == GetList(AuthChats)
    {
      GetList(AuthChats)
    }

    method AddAuthchat(x: int) returns (ok: bool)
      modifies this`lists
      ensures ok && GetAuthchats() == old(GetAuthchats()) + [x]
      ensures forall t :: t != AuthChats ==> GetList(t) == old(GetList(t))
    {
      ok := AppendTo(AuthChats, x);
    }

    method RemoveAuthchat(x: int) returns (r: Result<bool, ListError>)
      modifies this`lists
      ensures r.Ok? <==> x in old(GetAuthchats())
      ensures r.Ok? ==> r.value && GetAuthchats() == Remove(old(GetAuthchats()), x).value
      ensures r.Err? ==> r.error == ValueError && lists == old(lists)
      ensures forall t :: t != AuthChats ==> GetList(t) == old(GetList(t))
    {
      r := RemoveFrom(AuthChats, x);
    }
  }
}
