/**
 * Call sequences on a freshly constructed facade, each proved from the
 * contracts of the Database members alone.
 */
module Scenarios {
  import opened Wrappers
  import opened ListOps
  import opened Sessions
  import opened Db

  /** Sudo set from an empty store: add 5, add 7, remove 5, remove 99. */
  method SudoRoundTrip() returns (afterAdds: seq<int>, afterRemove: seq<int>, missing: Result<bool, ListError>)
    ensures afterAdds == [5, 7]
    ensures afterRemove == [7]
    ensures missing == Err(ValueError)
  {
    var db := new Database(map[]);
    var ok := db.AddSudo(5);
    assert db.GetSudoUsers() == [5];
    ok := db.AddSudo(7);
    afterAdds := db.GetSudoUsers();
    var r := db.RemoveSudo(5);
    RemoveFirstOccurrence([], 5, [7]);
    afterRemove := db.GetSudoUsers();
    missing := db.RemoveSudo(99);
  }

  /** A duplicate add keeps both copies; one remove drops the earlier one. */
  method DuplicateGban() returns (afterAdds: seq<int>, afterRemove: seq<int>, stillBanned: bool)
    ensures afterAdds == [3, 4, 3]
    ensures afterRemove == [4, 3]
    ensures stillBanned
  {
    var db := new Database(map[]);
    var ok := db.AddGbannedUser(3);
    ok := db.AddGbannedUser(4);
    ok := db.AddGbannedUser(3);
    afterAdds := db.GetGbannedUsers();
    var r := db.RemoveGbannedUsers(3);
    RemoveFirstOccurrence([], 3, [4, 3]);
    afterRemove := db.GetGbannedUsers();
    stillBanned := db.IsGbannedUser(3);
  }

  /** Two adds for chat 100 keep the first vc_type; removal clears it and
      leaves the start-up placeholder in place. */
  method ActiveVcRoundTrip(t1: int, t2: int) returns (afterAdds: seq<Session>, active: bool, afterRemove: seq<Session>, stillActive: bool)
    ensures afterAdds == [Placeholder, Session(100, At(t1), "voice")]
    ensures active
    ensures afterRemove == [Placeholder]
    ensures !stillActive
  {
    var db := new Database(map[]);
    db.AddActiveVc(100, "voice", t1);
    db.AddActiveVc(100, "video", t2);
    afterAdds := db.GetActiveVc();
    active := db.IsActiveVc(100);
    db.RemoveActiveVc(100);
    WithoutAt(afterAdds, 1, 100);
    afterRemove := db.GetActiveVc();
    stillActive := db.IsActiveVc(100);
  }

  /** Defaults of untouched chats, and a zero loop count reading back as 0. */
  method RuntimeDefaults(c: int, key: string) returns (loopCount: int, watched: bool, zeroLoop: int)
    ensures loopCount == 0 && !watched && zeroLoop == 0
  {
    var db := new Database(map[]);
    loopCount := db.GetLoop(c);
    watched := db.GetWatcher(c, key);
    db.SetLoop(c, 0);
    zeroLoop := db.GetLoop(c);
  }
}
