/**
 * The user directory every handler builds before it looks at the punches:
 * one entry per user id, filled in list order, so a later user with the same
 * id overwrites an earlier one.
 */
module Directory {
  import opened Device

  /** The directory after assigning the users in order. */
  function Index<V>(users: seq<User>, value: User -> V): map<string, V>
    decreases |users|
  {
    if users == [] then map[]
    else
      var u := users[|users| - 1];
      Index(users[..|users| - 1], value)[u.userId := value(u)]
  }

  /** The `forEach` loop that fills the directory. */
  method BuildIndex<V>(users: seq<User>, value: User -> V) returns (m: map<string, V>)
    ensures m == Index(users, value)
  {
    m := map[];
    for i := 0 to |users|
      invariant m == Index(users[..i], value)
    {
      assert users[..i + 1][..i] == users[..i];
      m := m[users[i].userId := value(users[i])];
    }
    assert users[..|users|] == users;
  }

  /** The directory lists exactly the ids of the users. */
  lemma {:induction false} IndexKeys<V>(users: seq<User>, value: User -> V)
    ensures forall id :: id in Index(users, value) <==> exists i :: 0 <= i < |users| && users[i].userId == id
    decreases |users|
  {
    if users != [] {
      var init := users[..|users| - 1];
      IndexKeys(init, value);
      forall id ensures id in Index(users, value) <==> exists i :: 0 <= i < |users| && users[i].userId == id {
        if id in Index(init, value) && id != users[|users| - 1].userId {
          var i :| 0 <= i < |init| && init[i].userId == id;
          assert users[i] == init[i];
        }
        if exists i :: 0 <= i < |users| && users[i].userId == id {
          var i :| 0 <= i < |users| && users[i].userId == id;
          if i < |init| { assert init[i] == users[i]; }
        }
      }
    }
  }

  /** The entry of an id is the value of the last user with that id. */
  lemma {:induction false} IndexLastWins<V>(users: seq<User>, value: User -> V, i: int)
    requires 0 <= i < |users|
    requires forall j :: i < j < |users| ==> users[j].userId != users[i].userId
    ensures users[i].userId in Index(users, value)
    ensures Index(users, value)[users[i].userId] == value(users[i])
    decreases |users|
  {
    if i < |users| - 1 {
      var init := users[..|users| - 1];
      assert init[i] == users[i];
      IndexLastWins(init, value, i);
    }
  }

  /** The user's name, or the user id when the name is empty (server.js and server2.js). */
  function DisplayName(u: User): string { if u.name != "" then u.name else u.userId }

  /** The directory's name for an id, or the id itself when there is none or it is empty. */
  function Username(userMap: map<string, string>, id: string): string
  {
    if id in userMap && userMap[id] != "" then userMap[id] else id
  }

  /**
   * Through the directory of server.js and server2.js, a user's name is the
   * last listed user's name, or its id when that name is empty; an unlisted
   * id names itself.
   */
  lemma UsernameOfListed(users: seq<User>, i: int)
    requires 0 <= i < |users|
    requires forall j :: i < j < |users| ==> users[j].userId != users[i].userId
    ensures Username(Index(users, DisplayName), users[i].userId)
         == if users[i].name != "" then users[i].name else users[i].userId
  {
    IndexLastWins(users, DisplayName, i);
  }

  lemma UsernameOfUnlisted(users: seq<User>, id: string)
    requires forall j :: 0 <= j < |users| ==> users[j].userId != id
    ensures Username(Index(users, DisplayName), id) == id
  {
    IndexKeys(users, DisplayName);
  }
}
