/**
 * The client's message database (Database.py): a `chats` table listing each
 * conversation, and one message table per chat, named after the chat.
 */
module MessageStore {
  import opened Wrappers
  import opened Text

  /** A row of table `chats (chatNum, receiverIP, chatName)`. */
  datatype ChatRow = ChatRow(chatNum: int, receiverIP: string, chatName: string)

  /** A row of a chat's message table `(messageNum, sender, message)`; sender
      is 1 for a message this client sent and 0 for one it received. */
  datatype MessageRow = MessageRow(messageNum: int, sender: int, message: string)

  /** The whole database: the chats table and the message tables by name. */
  datatype Store = Store(chats: seq<ChatRow>, tables: map<string, seq<MessageRow>>)

  // ---------------------------------------------------------------------
  // Validators
  // ---------------------------------------------------------------------

  predicate IsDigit(c: char) { '0' <= c <= '9' }

  /** `str.isalnum()` on one ASCII character. */
  predicate IsAlnumChar(c: char) { IsDigit(c) || 'a' <= c <= 'z' || 'A' <= c <= 'Z' }

  /** `s.replace(' ', '').replace('.', '')`. */
  function Strip(s: string): (r: string)
    ensures forall c :: c in r <==> c in s && c != ' ' && c != '.'
    ensures |r| <= |s|
  {
    if s == [] then []
    else
      assert s == [s[0]] + s[1..];
      (if s[0] == ' ' || s[0] == '.' then [] else [s[0]]) + Strip(s[1..])
  }

  /** `is_valid_chatname`: after removing spaces and dots, a non-empty
      alphanumeric string. */
  predicate IsValidChatname(name: string)
  {
    var t := Strip(name);
    |t| > 0 && forall i | 0 <= i < |t| :: IsAlnumChar(t[i])
  }

  /** A chat name is valid exactly when it has a character other than a space
      or a dot, and every character is a letter, a digit, a space or a dot. */
  lemma ChatnameMeaning(name: string)
    ensures IsValidChatname(name) <==>
      (exists i | 0 <= i < |name| :: name[i] != ' ' && name[i] != '.') &&
      (forall i | 0 <= i < |name| :: name[i] == ' ' || name[i] == '.' || IsAlnumChar(name[i]))
  {
    var t := Strip(name);
    if IsValidChatname(name) {
      assert t[0] in t;
      assert t[0] in name;
      forall i | 0 <= i < |name| ensures name[i] == ' ' || name[i] == '.' || IsAlnumChar(name[i]) {
        if name[i] != ' ' && name[i] != '.' {
          assert name[i] in t;
        }
      }
    }
    if (exists i | 0 <= i < |name| :: name[i] != ' ' && name[i] != '.') &&
       (forall i | 0 <= i < |name| :: name[i] == ' ' || name[i] == '.' || IsAlnumChar(name[i])) {
      var i :| 0 <= i < |name| && name[i] != ' ' && name[i] != '.';
      assert name[i] in t;
      forall k | 0 <= k < |t| ensures IsAlnumChar(t[k]) {
        assert t[k] in t;
      }
    }
  }

  /** `is_valid_ip` as a property: four dot-separated parts, each a
      non-empty decimal string. */
  predicate ValidIpAddress(ip: string)
  {
    var octets := Split(ip, ".");
    |octets| == 4 && forall i | 0 <= i < 4 :: IsDecimal(octets[i])
  }

  /** `is_valid_ip`. */
  method IsValidIp(ip: string) returns (ok: bool)
    ensures ok <==> ValidIpAddress(ip)
  {
    var octets := Split(ip, ".");
    if |octets| != 4 {
      return false;
    }
    for i := 0 to 4
      invariant forall j | 0 <= j < i :: IsDecimal(octets[j])
    {
      if !IsDecimal(octets[i]) {
        return false;
      }
    }
    return true;
  }

  /** Every character of a join is a character of a field or of the separator. */
  lemma {:induction false} JoinChars(fields: seq<string>, sep: string, c: char)
    requires c in Join(fields, sep)
    ensures c in sep || exists i | 0 <= i < |fields| :: c in fields[i]
    decreases |fields|
  {
    if |fields| == 1 {
      assert c in fields[0];
    } else if |fields| > 1 {
      var tail := Join(fields[1..], sep);
      assert Join(fields, sep) == fields[0] + sep + tail;
      if c !in fields[0] && c !in sep {
        assert c in tail;
        JoinChars(fields[1..], sep, c);
        var i :| 0 <= i < |fields[1..]| && c in fields[1..][i];
        assert c in fields[i + 1];
      }
    }
  }

  /** A valid IP address holds only digits and dots, exactly three dots, and
      so never the record separator. */
  lemma ValidIpAddressShape(ip: string)
    requires ValidIpAddress(ip)
    ensures forall i | 0 <= i < |ip| :: IsDigit(ip[i]) || ip[i] == '.'
    ensures multiset(ip)['.'] == 3
    ensures !Contains(ip, Crlf)
  {
    var octets := Split(ip, ".");
    JoinSplit(ip, ".");
    SplitCharCount(ip, '.');
    forall i | 0 <= i < |ip| ensures IsDigit(ip[i]) || ip[i] == '.' {
      JoinChars(octets, ".", ip[i]);
      if ip[i] != '.' {
        var k :| 0 <= k < |octets| && ip[i] in octets[k];
        var j :| 0 <= j < |octets[k]| && octets[k][j] == ip[i];
      }
    }
    forall i | 0 <= i < |ip| ensures ip[i] != '\r' {
      assert IsDigit(ip[i]) || ip[i] == '.';
    }
    assert '\r' !in ip;
    NoCarriageReturnSepFree(ip);
  }

  // ---------------------------------------------------------------------
  // The chats table
  // ---------------------------------------------------------------------

  predicate ChatExists(chats: seq<ChatRow>, name: string)
  {
    exists i | 0 <= i < |chats| :: chats[i].chatName == name
  }

  /** The first row of `SELECT * FROM chats ORDER BY chatNum DESC`. */
  function MaxChatNum(chats: seq<ChatRow>): (m: int)
    requires |chats| > 0
    ensures forall i | 0 <= i < |chats| :: chats[i].chatNum <= m
    ensures exists i | 0 <= i < |chats| :: chats[i].chatNum == m
  {
    if |chats| == 1 then chats[0].chatNum
    else
      var m := MaxChatNum(chats[..|chats| - 1]);
      var last := chats[|chats| - 1].chatNum;
      if last > m then last else m
  }

  /** The number `create_chat` gives a new chat. */
  function NextChatNum(chats: seq<ChatRow>): (n: int)
    ensures forall i | 0 <= i < |chats| :: chats[i].chatNum < n
    ensures chats == [] ==> n == 0
  {
    if |chats| == 0 then 0 else MaxChatNum(chats) + 1
  }

  /** `DELETE FROM chats WHERE chatName=?`. */
  function RemoveChats(chats: seq<ChatRow>, name: string): (r: seq<ChatRow>)
    ensures forall row | row in r :: row in chats && row.chatName != name
    ensures forall row | row in chats && row.chatName != name :: row in r
  {
    if chats == [] then []
    else
      assert chats == [chats[0]] + chats[1..];
      (if chats[0].chatName == name then [] else [chats[0]]) + RemoveChats(chats[1..], name)
  }

  /** Chat names are unique in the chats table. */
  predicate UniqueNames(chats: seq<ChatRow>)
  {
    forall i, j | 0 <= i < j < |chats| :: chats[i].chatName != chats[j].chatName
  }

  /** Chat numbers strictly increase in table order. */
  predicate AscendingChats(chats: seq<ChatRow>)
  {
    forall i, j | 0 <= i < j < |chats| :: chats[i].chatNum < chats[j].chatNum
  }

  lemma AscendingTail(chats: seq<ChatRow>)
    requires chats != [] && AscendingChats(chats)
    ensures AscendingChats(chats[1..])
  {
    var tail := chats[1..];
    forall i, j | 0 <= i < j < |tail| ensures tail[i].chatNum < tail[j].chatNum {
      assert tail[i] == chats[i + 1] && tail[j] == chats[j + 1];
    }
  }

  lemma UniqueTail(chats: seq<ChatRow>)
    requires chats != [] && UniqueNames(chats)
    ensures UniqueNames(chats[1..])
  {
    var tail := chats[1..];
    forall i, j | 0 <= i < j < |tail| ensures tail[i].chatName != tail[j].chatName {
      assert tail[i] == chats[i + 1] && tail[j] == chats[j + 1];
    }
  }

  /** Every row kept by a deletion is a later row of the table than the head. */
  lemma RemovedTailFrom(chats: seq<ChatRow>, name: string, row: ChatRow)
    requires chats != [] && row in RemoveChats(chats[1..], name)
    ensures exists k | 0 < k < |chats| :: chats[k] == row
  {
    var tail := chats[1..];
    assert row in tail;
    var k :| 0 <= k < |tail| && tail[k] == row;
    assert chats[k + 1] == row;
  }

  /** Deleting rows keeps chat numbers ascending. */
  lemma {:induction false} RemoveChatsAscending(chats: seq<ChatRow>, name: string)
    requires AscendingChats(chats)
    ensures AscendingChats(RemoveChats(chats, name))
    decreases |chats|
  {
    if chats != [] {
      AscendingTail(chats);
      RemoveChatsAscending(chats[1..], name);
      var rest := RemoveChats(chats[1..], name);
      if chats[0].chatName != name {
        var r := [chats[0]] + rest;
        forall j | 0 <= j < |rest| ensures chats[0].chatNum < rest[j].chatNum {
          assert rest[j] in rest;
          RemovedTailFrom(chats, name, rest[j]);
        }
        forall i, j | 0 <= i < j < |r| ensures r[i].chatNum < r[j].chatNum {
          assert r[j] == rest[j - 1];
          if i > 0 {
            assert r[i] == rest[i - 1];
          }
        }
      }
    }
  }

  /** Deleting rows keeps chat names unique. */
  lemma {:induction false} RemoveChatsUnique(chats: seq<ChatRow>, name: string)
    requires UniqueNames(chats)
    ensures UniqueNames(RemoveChats(chats, name))
    decreases |chats|
  {
    if chats != [] {
      UniqueTail(chats);
      RemoveChatsUnique(chats[1..], name);
      var rest := RemoveChats(chats[1..], name);
      if chats[0].chatName != name {
        var r := [chats[0]] + rest;
        forall j | 0 <= j < |rest| ensures chats[0].chatName != rest[j].chatName {
          assert rest[j] in rest;
          RemovedTailFrom(chats, name, rest[j]);
        }
        forall i, j | 0 <= i < j < |r| ensures r[i].chatName != r[j].chatName {
          assert r[j] == rest[j - 1];
          if i > 0 {
            assert r[i] == rest[i - 1];
          }
        }
      }
    }
  }

  /** The first row with a name that was not in the table is the appended one. */
  lemma {:induction false} IpOfAppended(chats: seq<ChatRow>, row: ChatRow)
    requires !ChatExists(chats, row.chatName)
    ensures IpOf(chats + [row], row.chatName) == Some(row.receiverIP)
    decreases |chats|
  {
    if chats == [] {
      assert chats + [row] == [row];
    } else {
      assert chats[0].chatName != row.chatName;
      assert (chats + [row])[1..] == chats[1..] + [row];
      forall i | 0 <= i < |chats[1..]| ensures chats[1..][i].chatName != row.chatName {
        assert chats[1..][i] == chats[i + 1];
      }
      IpOfAppended(chats[1..], row);
    }
  }

  /** `get_chat_by_ip`: the first chats row with that IP, or None. */
  function ChatByIp(chats: seq<ChatRow>, ip: string): (r: Option<ChatRow>)
    ensures r.None? <==> forall i | 0 <= i < |chats| :: chats[i].receiverIP != ip
    ensures r.Some? ==> exists i | 0 <= i < |chats| ::
      chats[i] == r.value && r.value.receiverIP == ip &&
      forall k | 0 <= k < i :: chats[k].receiverIP != ip
  {
    if chats == [] then None
    else if chats[0].receiverIP == ip then Some(chats[0])
    else
      var r := ChatByIp(chats[1..], ip);
      assert forall i | 0 < i < |chats| :: chats[1..][i - 1] == chats[i];
      r
  }

  /** `get_ip_address`: the IP column of the row for a chat name; None where
      the source fails indexing the missing row. */
  function IpOf(chats: seq<ChatRow>, name: string): (r: Option<string>)
    ensures r.Some? <==> ChatExists(chats, name)
    ensures r.Some? ==> exists i | 0 <= i < |chats| :: chats[i].chatName == name && chats[i].receiverIP == r.value
  {
    if chats == [] then None
    else if chats[0].chatName == name then Some(chats[0].receiverIP)
    else
      var r := IpOf(chats[1..], name);
      assert forall i | 0 < i < |chats| :: chats[1..][i - 1] == chats[i];
      r
  }

  // ---------------------------------------------------------------------
  // Message tables
  // ---------------------------------------------------------------------

  /** Message numbers strictly increase in table order, so table order is
      `ORDER BY messageNum ASC`. */
  predicate Ascending(rows: seq<MessageRow>)
  {
    forall i, j | 0 <= i < j < |rows| :: rows[i].messageNum < rows[j].messageNum
  }

  /** The first row of `SELECT * FROM "<chat>" ORDER BY messageNum DESC`. */
  function MaxMessageNum(rows: seq<MessageRow>): (m: int)
    requires |rows| > 0
    ensures forall i | 0 <= i < |rows| :: rows[i].messageNum <= m
    ensures exists i | 0 <= i < |rows| :: rows[i].messageNum == m
  {
    if |rows| == 1 then rows[0].messageNum
    else
      var m := MaxMessageNum(rows[..|rows| - 1]);
      var last := rows[|rows| - 1].messageNum;
      if last > m then last else m
  }

  /** The number `add_message` gives a new message. */
  function NextMessageNum(rows: seq<MessageRow>): (n: int)
    ensures forall i | 0 <= i < |rows| :: rows[i].messageNum < n
    ensures rows == [] ==> n == 0
  {
    if |rows| == 0 then 0 else MaxMessageNum(rows) + 1
  }

  /** Python's normalisation of the start `k` of a slice `xs[k:]` of length `len`. */
  function SliceStart(len: nat, k: int): (j: nat)
    ensures j <= len
  {
    if k < 0 then (if len + k < 0 then 0 else len + k)
    else if k > len then len else k
  }

  /** The tail of `get_messages`: `val[-n:]` when there are more than `n`
      rows, otherwise all of them. */
  function LastMessages(rows: seq<MessageRow>, n: int): seq<MessageRow>
  {
    if |rows| > n then
      var index := -1 * n;
      rows[SliceStart(|rows|, index)..]
    else rows
  }

  /** `get_messages` gives a suffix of the table: the last `n` rows for a
      positive `n` (all of them when there are fewer), every row for `n = 0`,
      and for a negative `n` the table without its first `-n` rows. */
  lemma LastMessagesMeaning(rows: seq<MessageRow>, n: int)
    ensures var r := LastMessages(rows, n);
      && |r| <= |rows| && r == rows[|rows| - |r|..]
      && (n > 0 ==> |r| == if n < |rows| then n else |rows|)
      && (n == 0 ==> r == rows)
      && (n < 0 ==> |r| == if |rows| + n > 0 then |rows| + n else 0)
  {
  }

  /** A suffix of an ascending table is ascending. */
  lemma SuffixAscending(rows: seq<MessageRow>, k: nat)
    requires Ascending(rows) && k <= |rows|
    ensures Ascending(rows[k..])
  {
    forall i, j | 0 <= i < j < |rows[k..]|
      ensures rows[k..][i].messageNum < rows[k..][j].messageNum
    {
      assert rows[k..][i] == rows[k + i] && rows[k..][j] == rows[k + j];
    }
  }

  // ---------------------------------------------------------------------
  // The database and its operations
  // ---------------------------------------------------------------------

  /** The state every operation preserves: chat names unique, chat numbers
      ascending, one message table per chat and no other, and each table in
      ascending message order. */
  predicate Valid(s: Store)
  {
    && UniqueNames(s.chats)
    && AscendingChats(s.chats)
    && (forall i | 0 <= i < |s.chats| :: s.chats[i].chatName in s.tables)
    && (forall name | name in s.tables :: ChatExists(s.chats, name))
    && (forall name | name in s.tables :: Ascending(s.tables[name]))
  }

  /** `create_chat`: the database afterwards and the return code. */
  function CreateChatStep(s: Store, name: string, ip: string): (Store, int)
  {
    if !IsValidChatname(name) then (s, 1)
    else if !ValidIpAddress(ip) then (s, 2)
    else if ChatExists(s.chats, name) then (s, 3)
    else
      var chats := s.chats + [ChatRow(NextChatNum(s.chats), ip, name)];
      (Store(chats, if name in s.tables then s.tables else s.tables[name := []]), 0)
  }

  /** `delete_chat`: the database afterwards and the return code. */
  function DeleteChatStep(s: Store, name: string): (Store, int)
  {
    if name !in s.tables then (s, 0)
    else (Store(RemoveChats(s.chats, name), s.tables - {name}), 1)
  }

  /** What `add_message` returns: False for an unknown chat, the new message's
      number, or an SQL error when the chat has no message table. */
  datatype AddOutcome = NotAdded | Added(num: int) | NoTable

  /** `add_message`: the database afterwards and the outcome. */
  function AddMessageStep(s: Store, name: string, sender: int, message: string): (Store, AddOutcome)
  {
    if !ChatExists(s.chats, name) then (s, NotAdded)
    else if name !in s.tables then (s, NoTable)
    else
      var num := NextMessageNum(s.tables[name]);
      (Store(s.chats, s.tables[name := s.tables[name] + [MessageRow(num, sender, message)]]), Added(num))
  }

  /** `get_messages`: None where the source fails on a missing table. */
  function MessagesOf(s: Store, name: string, n: int): Option<seq<MessageRow>>
  {
    if name !in s.tables then None else Some(LastMessages(s.tables[name], n))
  }

  /** `create_chat` checks the name first, then the IP, then that the name is
      new; on codes 1 to 3 nothing changes, and on code 0 exactly one row is
      appended, numbered above every existing chat, with an empty message
      table. */
  lemma CreateChatOutcome(s: Store, name: string, ip: string)
    requires Valid(s)
    ensures var (after, code) := CreateChatStep(s, name, ip);
      && (code == 1 <==> !IsValidChatname(name))
      && (code == 2 <==> IsValidChatname(name) && !ValidIpAddress(ip))
      && (code == 3 <==> IsValidChatname(name) && ValidIpAddress(ip) && ChatExists(s.chats, name))
      && (code == 0 || code == 1 || code == 2 || code == 3)
      && (code != 0 ==> after == s)
      && (code == 0 ==>
            && |after.chats| == |s.chats| + 1 && after.chats[..|s.chats|] == s.chats
            && after.chats[|s.chats|].receiverIP == ip && after.chats[|s.chats|].chatName == name
            && (forall i | 0 <= i < |s.chats| :: s.chats[i].chatNum < after.chats[|s.chats|].chatNum)
            && (s.chats == [] ==> after.chats[0].chatNum == 0)
            && after.tables == s.tables[name := []])
  {
    var (after, code) := CreateChatStep(s, name, ip);
    if code == 0 {
      assert after.chats[..|s.chats|] == s.chats;
      assert name !in s.tables;
    }
  }

  lemma CreateChatKeepsValid(s: Store, name: string, ip: string)
    requires Valid(s)
    ensures Valid(CreateChatStep(s, name, ip).0)
  {
    var (after, code) := CreateChatStep(s, name, ip);
    if code == 0 {
      var n := |s.chats|;
      forall i, j | 0 <= i < j < |after.chats|
        ensures after.chats[i].chatName != after.chats[j].chatName
        ensures after.chats[i].chatNum < after.chats[j].chatNum
      {
        assert after.chats[i] == s.chats[i];
        if j < n {
          assert after.chats[j] == s.chats[j];
        }
      }
      forall k | k in after.tables ensures ChatExists(after.chats, k) {
        if k == name {
          assert after.chats[n].chatName == name;
        } else {
          var i :| 0 <= i < n && s.chats[i].chatName == k;
          assert after.chats[i] == s.chats[i];
        }
      }
      forall i | 0 <= i < |after.chats| ensures after.chats[i].chatName in after.tables {
        if i < n {
          assert after.chats[i] == s.chats[i];
        }
      }
    }
  }

  /** `delete_chat` returns 0 and changes nothing when the chat has no message
      table; otherwise it returns 1, and afterwards neither the table nor any
      chats row of that name remains while every other row and table stays. */
  lemma DeleteChatOutcome(s: Store, name: string)
    ensures var (after, code) := DeleteChatStep(s, name);
      && (code == 0 <==> name !in s.tables)
      && (code == 0 || code == 1)
      && (code == 0 ==> after == s)
      && (code == 1 ==>
            && name !in after.tables && !ChatExists(after.chats, name)
            && (forall k | k in s.tables && k != name :: k in after.tables && after.tables[k] == s.tables[k])
            && (forall row | row in s.chats && row.chatName != name :: row in after.chats)
            && (forall row | row in after.chats :: row in s.chats))
  {
    var (after, code) := DeleteChatStep(s, name);
    if code == 1 {
      forall i | 0 <= i < |after.chats| ensures after.chats[i].chatName != name {
        assert after.chats[i] in after.chats;
      }
    }
  }

  lemma DeleteChatKeepsValid(s: Store, name: string)
    requires Valid(s)
    ensures Valid(DeleteChatStep(s, name).0)
  {
    if name in s.tables {
      var chats := RemoveChats(s.chats, name);
      var tables := s.tables - {name};
      RemoveChatsAscending(s.chats, name);
      RemoveChatsUnique(s.chats, name);
      forall i | 0 <= i < |chats| ensures chats[i].chatName in tables {
        DeletedRowHasTable(s, name, chats[i]);
      }
      forall k | k in tables ensures ChatExists(chats, k) {
        DeletedTableHasRow(s, name, k);
      }
      assert Valid(Store(chats, tables));
    }
  }

  lemma DeletedRowHasTable(s: Store, name: string, row: ChatRow)
    requires Valid(s) && row in RemoveChats(s.chats, name)
    ensures row.chatName in s.tables - {name}
  {
    var j :| 0 <= j < |s.chats| && s.chats[j] == row;
  }

  lemma DeletedTableHasRow(s: Store, name: string, k: string)
    requires Valid(s) && k in s.tables && k != name
    ensures ChatExists(RemoveChats(s.chats, name), k)
  {
    var chats := RemoveChats(s.chats, name);
    var i :| 0 <= i < |s.chats| && s.chats[i].chatName == k;
    assert s.chats[i] in s.chats;
    assert s.chats[i] in chats;
    var j :| 0 <= j < |chats| && chats[j] == s.chats[i];
  }

  /** `add_message` returns False for an unregistered chat and changes
      nothing; on a valid database it never fails, and otherwise appends one
      row numbered above every earlier message and returns its number. */
  lemma AddMessageOutcome(s: Store, name: string, sender: int, message: string)
    requires Valid(s)
    ensures var (after, out) := AddMessageStep(s, name, sender, message);
      && !out.NoTable?
      && (out.NotAdded? <==> !ChatExists(s.chats, name))
      && (out.NotAdded? ==> after == s)
      && (out.Added? ==>
            && after.chats == s.chats
            && after.tables.Keys == s.tables.Keys
            && (forall k | k in s.tables && k != name :: after.tables[k] == s.tables[k])
            && after.tables[name] == s.tables[name] + [MessageRow(out.num, sender, message)]
            && (forall i | 0 <= i < |s.tables[name]| :: s.tables[name][i].messageNum < out.num)
            && (s.tables[name] == [] ==> out.num == 0))
  {
    if ChatExists(s.chats, name) {
      var i :| 0 <= i < |s.chats| && s.chats[i].chatName == name;
    }
  }

  lemma AddMessageKeepsValid(s: Store, name: string, sender: int, message: string)
    requires Valid(s)
    ensures Valid(AddMessageStep(s, name, sender, message).0)
  {
    var (after, out) := AddMessageStep(s, name, sender, message);
    if out.Added? {
      var rows := after.tables[name];
      var old_rows := s.tables[name];
      forall i, j | 0 <= i < j < |rows| ensures rows[i].messageNum < rows[j].messageNum {
        assert rows[i] == old_rows[i];
        if j < |old_rows| {
          assert rows[j] == old_rows[j];
        }
      }
    }
  }

  /** A chat just created answers `get_ip_address` with its IP and has no
      messages. */
  lemma CreateThenQuery(s: Store, name: string, ip: string, n: int)
    requires Valid(s) && CreateChatStep(s, name, ip).1 == 0
    ensures var after := CreateChatStep(s, name, ip).0;
      && IpOf(after.chats, name) == Some(ip)
      && MessagesOf(after, name, n) == Some([])
  {
    IpOfAppended(s.chats, ChatRow(NextChatNum(s.chats), ip, name));
    assert name !in s.tables;
  }

  /** The message just added is the last row `get_messages` returns. */
  lemma AddThenRead(s: Store, name: string, sender: int, message: string)
    requires Valid(s) && AddMessageStep(s, name, sender, message).1.Added?
    ensures var (after, out) := AddMessageStep(s, name, sender, message);
      MessagesOf(after, name, 1) == Some([MessageRow(out.num, sender, message)])
  {
    var (after, out) := AddMessageStep(s, name, sender, message);
    var rows := after.tables[name];
    assert rows[|rows| - 1] == MessageRow(out.num, sender, message);
    assert rows[|rows| - 1..] == [MessageRow(out.num, sender, message)];
    if |rows| > 1 {
      assert SliceStart(|rows|, -1) == |rows| - 1;
    } else {
      assert rows == rows[|rows| - 1..];
    }
  }

  /** On a valid database `get_messages` returns rows in ascending order. */
  lemma MessagesAscending(s: Store, name: string, n: int)
    requires Valid(s) && name in s.tables
    ensures Ascending(MessagesOf(s, name, n).value)
  {
    var rows := s.tables[name];
    if |rows| > n {
      SuffixAscending(rows, SliceStart(|rows|, -1 * n));
    }
  }

  /** The `DataBase` object: the chats table and the message tables of the
      client's database file. */
  class DataBase {
    var chats: seq<ChatRow>
    var tables: map<string, seq<MessageRow>>

    function State(): Store
      reads this
    {
      Store(chats, tables)
    }

    constructor (stored: Store)
      requires Valid(stored)
      ensures State() == stored && Valid(State())
    {
      chats := stored.chats;
      tables := stored.tables;
    }

    /** `create_chat`. */
    method CreateChat(chatName: string, ip: string) returns (code: int)
      requires Valid(State())
      modifies this
      ensures (State(), code) == CreateChatStep(old(State()), chatName, ip)
      ensures Valid(State())
    {
      CreateChatKeepsValid(State(), chatName, ip);
      if !IsValidChatname(chatName) {
        return 1;
      }
      var ipOk := IsValidIp(ip);
      if !ipOk {
        return 2;
      }
      if ChatExists(chats, chatName) {
        return 3;
      }
      var newv := if |chats| == 0 then 0 else MaxChatNum(chats) + 1;
      chats := chats + [ChatRow(newv, ip, chatName)];
      if chatName !in tables {
        tables := tables[chatName := []];
      }
      code := 0;
    }

    /** `delete_chat`. */
    method DeleteChat(chatName: string) returns (code: int)
      requires Valid(State())
      modifies this
      ensures (State(), code) == DeleteChatStep(old(State()), chatName)
      ensures Valid(State())
    {
      DeleteChatKeepsValid(State(), chatName);
      if chatName !in tables {
        return 0;
      }
      tables := tables - {chatName};
      chats := RemoveChats(chats, chatName);
      code := 1;
    }

    /** `add_message`. */
    method AddMessage(chatName: string, sender: int, message: string) returns (out: AddOutcome)
      requires Valid(State())
      modifies this
      ensures (State(), out) == AddMessageStep(old(State()), chatName, sender, message)
      ensures Valid(State())
    {
      AddMessageKeepsValid(State(), chatName, sender, message);
      if !ChatExists(chats, chatName) {
        return NotAdded;
      }
      if chatName !in tables {
        return NoTable;
      }
      var rows := tables[chatName];
      var newv := if |rows| == 0 then 0 else MaxMessageNum(rows) + 1;
      tables := tables[chatName := rows + [MessageRow(newv, sender, message)]];
      out := Added(newv);
    }

    /** `store_sent_message`: a message this client sent (sender 1). */
    method StoreSentMessage(chatName: string, message: string) returns (out: AddOutcome)
      requires Valid(State())
      modifies this
      ensures (State(), out) == AddMessageStep(old(State()), chatName, 1, message)
      ensures Valid(State())
    {
      out := AddMessage(chatName, 1, message);
    }

    /** `store_received_message`: a message this client received (sender 0). */
    method StoreReceivedMessage(chatName: string, message: string) returns (out: AddOutcome)
      requires Valid(State())
      modifies this
      ensures (State(), out) == AddMessageStep(old(State()), chatName, 0, message)
      ensures Valid(State())
    {
      out := AddMessage(chatName, 0, message);
    }

    /** `get_n_messages`. */
    function GetNMessages(chatName: string, n: int): (r: Option<seq<MessageRow>>)
      reads this
      ensures r.Some? <==> chatName in tables
      ensures r.Some? ==> |r.value| <= |tables[chatName]| && r.value == tables[chatName][|tables[chatName]| - |r.value|..]
    {
      if chatName in tables then LastMessagesMeaning(tables[chatName], n); MessagesOf(State(), chatName, n)
      else MessagesOf(State(), chatName, n)
    }

    /** `get_chat_by_ip`. */
    function GetChatByIp(ip: string): (r: Option<ChatRow>)
      reads this
      ensures r.Some? ==> r.value in chats && r.value.receiverIP == ip
      ensures r.None? ==> forall i | 0 <= i < |chats| :: chats[i].receiverIP != ip
    {
      ChatByIp(chats, ip)
    }

    /** `get_ip_by_chatname`. */
    function GetIpByChatname(chatName: string): (r: Option<string>)
      reads this
      ensures r.Some? <==> ChatExists(chats, chatName)
      ensures r.Some? ==> exists i | 0 <= i < |chats| :: chats[i].chatName == chatName && chats[i].receiverIP == r.value
    {
      IpOf(chats, chatName)
    }
  }
}
