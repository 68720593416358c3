/**
 * Active voice-call session records, as values. The facade keeps a list
 * of them in process memory (never persisted) and keys them by chat id.
 */
module Sessions {

  /** `join_time` of a record: the start-up placeholder stores the integer 0,
      a real session stores the wall-clock instant it was added, which the
      model takes as an opaque number supplied by the caller. */
  datatype JoinTime = Zero | At(instant: int)

  /** One entry of `active_vc`: the dictionary with keys chat_id, join_time, vc_type. */
  datatype Session = Session(chatId: int, joinTime: JoinTime, vcType: string)

  /** The entry `active_vc` is seeded with at start-up. */
  const Placeholder: Session := Session(0, Zero, "voice")

  /** The list comprehension `[x["chat_id"] for x in active_vc]`. */
  function ChatIds(s: seq<Session>): (ids: seq<int>)
    ensures |ids| == |s|
    ensures forall i :: 0 <= i < |s| ==> ids[i] == s[i].chatId
  {
    if s == [] then [] else [s[0].chatId] + ChatIds(s[1..])
  }

  /** Some record of `s` belongs to chat `c`. */
  predicate Active(s: seq<Session>, c: int)
  {
    exists e :: e in s && e.chatId == c
  }

  /** The membership test of the source, `chat_id in cid`, is Active. */
  lemma ChatIdsActive(s: seq<Session>, c: int)
    ensures c in ChatIds(s) <==> Active(s, c)
  {
  }

  /** The invariant the membership guard of add_active_vc keeps. */
  predicate UniqueChats(s: seq<Session>)
  {
    forall i, j :: 0 <= i < j < |s| ==> s[i].chatId != s[j].chatId
  }

  /** The list after add_active_vc with record `e`: appended only when its
      chat has no record yet. */
  function Register(s: seq<Session>, e: Session): (r: seq<Session>)
    ensures s <= r && |r| <= |s| + 1
    ensures |r| == |s| + 1 ==> r[|s|] == e
    ensures Active(r, e.chatId)
    ensures Active(s, e.chatId) ==> r == s
    ensures forall d :: d != e.chatId ==> (Active(r, d) <==> Active(s, d))
    ensures UniqueChats(s) ==> UniqueChats(r)
  {
    if e.chatId in ChatIds(s) then s else s + [e]
  }

  /** `s` with every record of chat `c` dropped, the rest in their order. */
  function Without(s: seq<Session>, c: int): (r: seq<Session>)
    ensures |r| <= |s|
    ensures forall e :: e in r <==> e in s && e.chatId != c
  {
    if s == [] then []
    else if s[0].chatId == c then Without(s[1..], c)
    else
      assert forall e :: e in s <==> e == s[0] || e in s[1..];
      [s[0]] + Without(s[1..], c)
  }

  /** Afterwards chat `c` is not active, and every other chat is active
      exactly when it was before. */
  lemma WithoutActive(s: seq<Session>, c: int, d: int)
    ensures !Active(Without(s, c), c)
    ensures d != c ==> (Active(Without(s, c), d) <==> Active(s, d))
  {
  }

  /** Dropping a chat keeps chat ids pairwise distinct. */
  lemma {:induction false} WithoutUnique(s: seq<Session>, c: int)
    requires UniqueChats(s)
    ensures UniqueChats(Without(s, c))
  {
    if s != [] {
      var t := Without(s[1..], c);
      assert UniqueChats(s[1..]) by {
        forall i, j | 0 <= i < j < |s[1..]| ensures s[1..][i].chatId != s[1..][j].chatId {
          assert s[1..][i] == s[i + 1] && s[1..][j] == s[j + 1];
        }
      }
      WithoutUnique(s[1..], c);
      if s[0].chatId != c {
        forall k | 0 <= k < |t| ensures t[k].chatId != s[0].chatId {
          assert t[k] in s[1..];
          var j :| 0 <= j < |s[1..]| && s[1..][j] == t[k];
          assert s[j + 1] == t[k];
        }
        var r := [s[0]] + t;
        forall i, j | 0 <= i < j < |r| ensures r[i].chatId != r[j].chatId {
          if i == 0 {
            assert r[j] == t[j - 1];
          } else {
            assert r[i] == t[i - 1] && r[j] == t[j - 1];
          }
        }
      }
    }
  }

  /** A list without records of `c` is its own Without. */
  lemma {:induction false} WithoutAbsent(s: seq<Session>, c: int)
    requires !Active(s, c)
    ensures Without(s, c) == s
  {
    if s != [] {
      assert s[0] in s;
      assert forall e :: e in s[1..] ==> e in s;
      WithoutAbsent(s[1..], c);
      assert s == [s[0]] + s[1..];
    }
  }

  /** Without distributes over concatenation. */
  lemma {:induction false} WithoutAppend(a: seq<Session>, b: seq<Session>, c: int)
    ensures Without(a + b, c) == Without(a, c) + Without(b, c)
  {
    if a != [] {
      assert (a + b)[1..] == a[1..] + b;
      WithoutAppend(a[1..], b, c);
    } else {
      assert a + b == b;
    }
  }

  /** Under unique chat ids, no record before or after position `i`
      shares the chat of the record at `i`. */
  lemma UniqueSplit(s: seq<Session>, i: nat)
    requires UniqueChats(s) && i < |s|
    ensures !Active(s[..i], s[i].chatId)
    ensures !Active(s[i + 1..], s[i].chatId)
  {
  }

  /** Under unique chat ids, dropping chat `c` deletes exactly its one
      record at position `i` and keeps the others in their original order. */
  lemma WithoutAt(s: seq<Session>, i: nat, c: int)
    requires UniqueChats(s)
    requires i < |s| && s[i].chatId == c
    ensures Without(s, c) == s[..i] + s[i + 1..]
  {
    var a, b := s[..i], s[i + 1..];
    assert s == a + ([s[i]] + b);
    UniqueSplit(s, i);
    WithoutAppend(a, [s[i]] + b, c);
    assert ([s[i]] + b)[1..] == b;
    WithoutAbsent(a, c);
    WithoutAbsent(b, c);
  }

  /** A second add for the same chat keeps the first record: the first
      vc_type and join_time win. */
  lemma FirstRegistrationWins(s: seq<Session>, c: int, t1: JoinTime, v1: string, t2: JoinTime, v2: string)
    requires !Active(s, c)
    ensures Register(Register(s, Session(c, t1, v1)), Session(c, t2, v2)) == s + [Session(c, t1, v1)]
  {
  }
}
