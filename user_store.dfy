/**
 * The server's user table (UserDatabase.py): one row per account, held in
 * memory as a sequence of rows in insertion order.
 */
module UserStore {
  import opened Wrappers

  /** A row of table `users (uID, uIP, pubkey, uName, password)`. */
  datatype UserRow = UserRow(uID: int, uIP: string, pubkey: string, uName: string, password: string)

  /** `user_exists`: the name is among the `uName` column. */
  predicate UserExists(users: seq<UserRow>, username: string)
  {
    exists i | 0 <= i < |users| :: users[i].uName == username
  }

  /** The first row of `SELECT uID FROM users ORDER BY uID DESC`. */
  function MaxUid(users: seq<UserRow>): (m: int)
    requires |users| > 0
    ensures forall i | 0 <= i < |users| :: users[i].uID <= m
    ensures exists i | 0 <= i < |users| :: users[i].uID == m
  {
    if |users| == 1 then users[0].uID
    else
      var m := MaxUid(users[..|users| - 1]);
      var last := users[|users| - 1].uID;
      if last > m then last else m
  }

  /** The id `add_user` gives a new row: the largest id plus one, or 0 for
      an empty table. */
  function NextUid(users: seq<UserRow>): (id: int)
    ensures forall i | 0 <= i < |users| :: users[i].uID < id
    ensures users == [] ==> id == 0
  {
    if |users| == 0 then 0 else MaxUid(users) + 1
  }

  /** The effect of `add_user` on the table: whether it returns True, and the
      table afterwards. */
  function AddUserRows(users: seq<UserRow>, username: string, userIP: string,
                       pubkey: string, password: string): (bool, seq<UserRow>)
  {
    if UserExists(users, username) then (false, users)
    else (true, users + [UserRow(NextUid(users), userIP, pubkey, username, password)])
  }

  /** `SELECT * FROM users WHERE uName=?` then `fetchone()`. */
  function FindUser(users: seq<UserRow>, username: string): (r: Option<UserRow>)
    ensures r.Some? <==> UserExists(users, username)
    ensures r.Some? ==> r.value in users && r.value.uName == username
  {
    if |users| == 0 then None
    else if users[0].uName == username then Some(users[0])
    else FindUser(users[1..], username)
  }

  /** A column of a user's row, or the whole row (query code 3). */
  datatype QueryValue = Column(value: string) | WholeRow(row: UserRow)

  /** `query_user`: code 0 the public key, 1 the password, 2 the IP, 3 the
      whole row; an unknown user or any other code gives None. */
  function QueryUser(users: seq<UserRow>, username: string, code: int): Option<QueryValue>
  {
    if !UserExists(users, username) then None
    else
      var row := FindUser(users, username).value;
      if code == 0 then Some(Column(row.pubkey))
      else if code == 1 then Some(Column(row.password))
      else if code == 2 then Some(Column(row.uIP))
      else if code == 3 then Some(WholeRow(row))
      else None
  }

  /** `getUserPublicKey`, `getUserPassword`, `getUserIP` on a table value. */
  function ColumnOf(users: seq<UserRow>, username: string, code: int): Option<string>
  {
    match QueryUser(users, username, code)
    case Some(Column(v)) => Some(v)
    case _ => None
  }

  /** Names are unique and so are ids. */
  predicate Unique(users: seq<UserRow>)
  {
    && (forall i, j | 0 <= i < j < |users| :: users[i].uName != users[j].uName)
    && (forall i, j | 0 <= i < j < |users| :: users[i].uID != users[j].uID)
  }

  /** `add_user` returns False and changes nothing for a taken name; otherwise
      it appends exactly one row, with the next id, and returns True. */
  lemma AddUserOutcome(users: seq<UserRow>, username: string, userIP: string,
                       pubkey: string, password: string)
    ensures var (ok, after) := AddUserRows(users, username, userIP, pubkey, password);
      && (ok <==> !UserExists(users, username))
      && (!ok ==> after == users)
      && (ok ==> after[..|users|] == users && |after| == |users| + 1
                 && after[|users|] == UserRow(NextUid(users), userIP, pubkey, username, password))
  {
    var (ok, after) := AddUserRows(users, username, userIP, pubkey, password);
    if ok {
      assert after[..|users|] == users;
    }
  }

  /** Adding a user keeps names and ids unique. */
  lemma AddUserKeepsUnique(users: seq<UserRow>, username: string, userIP: string,
                           pubkey: string, password: string)
    requires Unique(users)
    ensures Unique(AddUserRows(users, username, userIP, pubkey, password).1)
  {
    var (ok, after) := AddUserRows(users, username, userIP, pubkey, password);
    if ok {
      var n := |users|;
      forall i, j | 0 <= i < j < |after|
        ensures after[i].uName != after[j].uName && after[i].uID != after[j].uID
      {
        if j == n {
          assert after[i] == users[i];
          assert users[i].uID < NextUid(users);
        } else {
          assert after[i] == users[i] && after[j] == users[j];
        }
      }
    }
  }

  /** One call `add_user(username, userIP, pubkey, password)`. */
  datatype AddRequest = AddRequest(username: string, userIP: string, pubkey: string, password: string)

  /** The table after a run of `add_user` calls, in order. */
  function AddAll(users: seq<UserRow>, requests: seq<AddRequest>): seq<UserRow>
    decreases |requests|
  {
    if requests == [] then users
    else
      var r := requests[|requests| - 1];
      AddUserRows(AddAll(users, requests[..|requests| - 1]), r.username, r.userIP, r.pubkey, r.password).1
  }

  /** After any run of `add_user` calls on an empty table, names and ids are unique. */
  lemma {:induction false} AddAllUnique(requests: seq<AddRequest>)
    ensures Unique(AddAll([], requests))
    decreases |requests|
  {
    if requests != [] {
      AddAllUnique(requests[..|requests| - 1]);
      var r := requests[|requests| - 1];
      AddUserKeepsUnique(AddAll([], requests[..|requests| - 1]), r.username, r.userIP, r.pubkey, r.password);
    }
  }

  /** After `add_user(u, ip, pk, pw)` returns True, the getters give back
      `pk`, `pw` and `ip`, and query code 3 gives the whole new row. */
  lemma GettersAfterAdd(users: seq<UserRow>, username: string, userIP: string,
                        pubkey: string, password: string)
    requires AddUserRows(users, username, userIP, pubkey, password).0
    ensures var after := AddUserRows(users, username, userIP, pubkey, password).1;
      && ColumnOf(after, username, 0) == Some(pubkey)
      && ColumnOf(after, username, 1) == Some(password)
      && ColumnOf(after, username, 2) == Some(userIP)
      && QueryUser(after, username, 3) == Some(WholeRow(UserRow(NextUid(users), userIP, pubkey, username, password)))
  {
    var row := UserRow(NextUid(users), userIP, pubkey, username, password);
    var after := users + [row];
    FindAppended(users, row);
    assert UserExists(after, username) by { assert after[|users|].uName == username; }
  }

  lemma {:induction false} FindAppended(users: seq<UserRow>, row: UserRow)
    requires !UserExists(users, row.uName)
    ensures FindUser(users + [row], row.uName) == Some(row)
    decreases |users|
  {
    if |users| == 0 {
      assert users + [row] == [row];
    } else {
      assert users[0].uName != row.uName;
      assert (users + [row])[1..] == users[1..] + [row];
      assert !UserExists(users[1..], row.uName) by {
        forall i | 0 <= i < |users[1..]| ensures users[1..][i].uName != row.uName {
          assert users[1..][i] == users[i + 1];
        }
      }
      FindAppended(users[1..], row);
    }
  }

  /** `query_user` on an unknown name, or with a code outside 0..3, gives None. */
  lemma QueryUserNone(users: seq<UserRow>, username: string, code: int)
    requires !UserExists(users, username) || code < 0 || code > 3
    ensures QueryUser(users, username, code) == None
  {
  }

  /**
   * The `UserDataBase` object: the `users` table of the server's database
   * file.  Each open sees the rows the file holds.
   */
  class UserDataBase {
    var users: seq<UserRow>

    constructor (stored: seq<UserRow>)
      ensures users == stored
    {
      users := stored;
    }

    /** `addUser`: `add_user` on this table. */
    method AddUser(username: string, userIP: string, pubkeyBytes: string, passwordBytes: string)
      returns (ok: bool)
      modifies this
      ensures (ok, users) == AddUserRows(old(users), username, userIP, pubkeyBytes, passwordBytes)
      ensures Unique(old(users)) ==> Unique(users)
    {
      if Unique(users) {
        AddUserKeepsUnique(users, username, userIP, pubkeyBytes, passwordBytes);
      }
      if UserExists(users, username) {
        ok := false;
        return;
      }
      var newv := if |users| == 0 then 0 else MaxUid(users) + 1;
      users := users + [UserRow(newv, userIP, pubkeyBytes, username, passwordBytes)];
      ok := true;
    }

    /** `getUserPublicKey`: `query_user(username, 0)`. */
    function GetUserPublicKey(username: string): (r: Option<string>)
      reads this
      ensures r.Some? <==> UserExists(users, username)
      ensures r.Some? ==> exists i | 0 <= i < |users| :: users[i].uName == username && users[i].pubkey == r.value
    {
      ColumnOf(users, username, 0)
    }

    /** `getUserPassword`: `query_user(username, 1)`. */
    function GetUserPassword(username: string): (r: Option<string>)
      reads this
      ensures r.Some? <==> UserExists(users, username)
      ensures r.Some? ==> exists i | 0 <= i < |users| :: users[i].uName == username && users[i].password == r.value
    {
      ColumnOf(users, username, 1)
    }

    /** `getUserIP`: `query_user(username, 2)`. */
    function GetUserIP(username: string): (r: Option<string>)
      reads this
      ensures r.Some? <==> UserExists(users, username)
      ensures r.Some? ==> exists i | 0 <= i < |users| :: users[i].uName == username && users[i].uIP == r.value
    {
      ColumnOf(users, username, 2)
    }
  }
}
