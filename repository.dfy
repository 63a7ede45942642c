/**
 * The in-memory user table: the `User` record and the `UserRepository`
 * that stores records by string id and is changed in place by
 * Create, Update and Delete.
 */
module Repository {

  /** A user record; `id` is the key Create stores it under. */
  datatype User = User(id: string, name: string, age: int)

  /** The zero value of a User, which Read returns on a miss. */
  const ZeroUser := User("", "", 0)

  /** The table after storing `u` under `key`: `key` holds `u`, every other entry is as before. */
  function Stored(m: map<string, User>, key: string, u: User): (m': map<string, User>)
    ensures m'.Keys == m.Keys + {key}
    ensures m'[key] == u
    ensures forall k :: k in m && k != key ==> m'[k] == m[k]
  {
    m[key := u]
  }

  /** The table after deleting `key`: it is gone, every other entry is as before. */
  function Removed(m: map<string, User>, key: string): (m': map<string, User>)
    ensures m'.Keys == m.Keys - {key}
    ensures forall k :: k in m' ==> m'[k] == m[k]
  {
    m - {key}
  }

  ghost predicate Distinct(s: seq<string>)
  {
    forall i, j :: 0 <= i < j < |s| ==> s[i] != s[j]
  }

  /** `order` visits every key of `m` exactly once: one order a range over the table may take. */
  ghost predicate Enumerates(m: map<string, User>, order: seq<string>)
  {
    Distinct(order) && forall k :: k in order <==> k in m
  }

  /** The stored values, read in the key order `order`. */
  function ValuesAt(m: map<string, User>, order: seq<string>): seq<User>
    requires forall k :: k in order ==> k in m
  {
    seq(|order|, i requires 0 <= i < |order| => m[order[i]])
  }

  /** The table after creating each of `us` in turn. */
  function CreatedAll(m: map<string, User>, us: seq<User>): map<string, User>
    decreases |us|
  {
    if us == [] then m else CreatedAll(Stored(m, us[0].id, us[0]), us[1..])
  }

  /** The ids of `us`, in order. */
  function Ids(us: seq<User>): seq<string>
  {
    seq(|us|, i requires 0 <= i < |us| => us[i].id)
  }

  class UserRepository {
    var users: map<string, User>

    /** A new repository holds no user. */
    constructor ()
      ensures users == map[]
    {
      users := map[];
    }

    /** Stores `user` under its own id, replacing any record there. */
    method Create(user: User)
      modifies this
      ensures users == Stored(old(users), user.id, user)
    {
      users := users[user.id := user];
    }

    /** The record stored under `id` and true, or the zero user and false on a miss. */
    method Read(id: string) returns (user: User, found: bool)
      ensures found <==> id in users
      ensures found ==> user == users[id]
      ensures !found ==> user == ZeroUser
    {
      if id !in users {
        return ZeroUser, false;
      }
      return users[id], true;
    }

    /**
     * Stores `newUser` under `id`, whatever `newUser.id` is: the whole
     * record is replaced, and the entry under `newUser.id` is not touched
     * unless it is `id`.
     */
    method Update(id: string, newUser: User)
      modifies this
      ensures users == Stored(old(users), id, newUser)
    {
      users := users[id := newUser];
    }

    /** Removes the entry under `id`; nothing happens when there is none. */
    method Delete(id: string)
      modifies this
      ensures users == Removed(old(users), id)
    {
      users := users - {id};
    }

    /**
     * Every stored record, one per key, collected by ranging over the
     * table in an order the table chooses; `order` is that order.
     */
    method List() returns (list: seq<User>, ghost order: seq<string>)
      ensures Enumerates(users, order)
      ensures list == ValuesAt(users, order)
      ensures |list| == |users|
    {
      list, order := [], [];
      var pending := users.Keys;
      while pending != {}
        invariant pending <= users.Keys
        invariant forall k :: k in order <==> k in users && k !in pending
        invariant Distinct(order)
        invariant |list| == |order|
        invariant forall i :: 0 <= i < |order| ==> list[i] == users[order[i]]
        invariant |list| + |pending| == |users|
        decreases pending
      {
        var key :| key in pending;
        list, order := list + [users[key]], order + [key];
        pending := pending - {key};
      }
    }
  }

  /** A sequence of distinct keys has as many elements as the set of its keys. */
  lemma {:induction false} DistinctCardinality(s: seq<string>)
    requires Distinct(s)
    ensures |set k | k in s| == |s|
  {
    if s != [] {
      DistinctCardinality(s[1..]);
      assert (set k | k in s) == {s[0]} + (set k | k in s[1..]);
      assert s[0] !in s[1..];
    }
  }

  /** A listing has exactly one element per stored key. */
  lemma ListingLength(m: map<string, User>, order: seq<string>)
    requires Enumerates(m, order)
    ensures |ValuesAt(m, order)| == |order| == |m|
  {
    DistinctCardinality(order);
    assert (set k | k in order) == m.Keys;
  }

  /** A listing holds the stored values and nothing else. */
  lemma ListingMembers(m: map<string, User>, order: seq<string>)
    requires Enumerates(m, order)
    ensures forall u :: u in ValuesAt(m, order) <==> u in m.Values
  {
    var list := ValuesAt(m, order);
    forall u | u in m.Values
      ensures u in list
    {
      var k :| k in m && m[k] == u;
      var i :| 0 <= i < |order| && order[i] == k;
      assert list[i] == u;
    }
  }

  /** Removing a key twice is removing it once. */
  lemma RemovedIdempotent(m: map<string, User>, key: string)
    ensures Removed(Removed(m, key), key) == Removed(m, key)
  {
  }

  /**
   * Creating records with distinct ids loses no write: each is stored
   * under its id, no other key appears and other entries are kept.
   */
  lemma {:induction false} CreatedAllStoresEach(m: map<string, User>, us: seq<User>)
    requires Distinct(Ids(us))
    ensures forall k :: k in CreatedAll(m, us) <==> k in m || k in Ids(us)
    ensures forall i :: 0 <= i < |us| ==> us[i].id in CreatedAll(m, us) && CreatedAll(m, us)[us[i].id] == us[i]
    ensures forall k :: k in m && k !in Ids(us) ==> CreatedAll(m, us)[k] == m[k]
    decreases |us|
  {
    if us != [] {
      var m1 := Stored(m, us[0].id, us[0]);
      var rest := us[1..];
      assert Ids(us) == [us[0].id] + Ids(rest);
      assert Ids(rest) == Ids(us)[1..];
      CreatedAllStoresEach(m1, rest);
      assert us[0].id !in Ids(rest) by {
        forall j | 0 <= j < |rest| ensures Ids(rest)[j] != us[0].id {
          assert Ids(us)[0] != Ids(us)[j + 1];
        }
      }
      forall i | 0 <= i < |us|
        ensures us[i].id in CreatedAll(m, us) && CreatedAll(m, us)[us[i].id] == us[i]
      {
        if i > 0 {
          assert us[i] == rest[i - 1];
        }
      }
    }
  }

  /**
   * Listing a table filled by creates with distinct ids gives exactly one
   * record per create, and exactly the created records.
   */
  lemma ListAfterCreates(us: seq<User>, order: seq<string>)
    requires Distinct(Ids(us))
    requires Enumerates(CreatedAll(map[], us), order)
    ensures |ValuesAt(CreatedAll(map[], us), order)| == |us|
    ensures forall u :: u in ValuesAt(CreatedAll(map[], us), order) <==> u in us
  {
    var m := CreatedAll(map[], us);
    CreatedAllStoresEach(map[], us);
    ListingLength(m, order);
    ListingMembers(m, order);
    DistinctCardinality(Ids(us));
    assert (set k | k in Ids(us)) == m.Keys;
    forall u | u in us ensures u in m.Values {
      var i :| 0 <= i < |us| && us[i] == u;
      assert m[us[i].id] == u;
    }
    forall u | u in m.Values ensures u in us {
      var k :| k in m && m[k] == u;
      var i :| 0 <= i < |us| && Ids(us)[i] == k;
      assert m[us[i].id] == us[i];
    }
  }
}
