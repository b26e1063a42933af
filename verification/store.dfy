/**
 * The subscription store: the `users` and `folder_subscriptions` tables of
 * models.py as the handlers and the watcher use them. Rows are kept in table
 * order (the order an unordered `select` returns them); the only constraints
 * taken from the schema are the unique `tg_id` of a user, the primary key
 * `id` and the unique pair (user_id, folder_path).
 */
module Store {
  import opened Wrappers

  /** A row of `users`. `id` is the primary key; `tgId` the chat identity. */
  datatype User = User(id: nat, tgId: int, username: Option<string>, firstName: Option<string>, lastName: Option<string>)

  /** A row of `folder_subscriptions`; `lastModified` is the stored change time in seconds, None until first seen. */
  datatype Subscription = Subscription(userId: nat, folderPath: string, lastModified: Option<real>)

  predicate UniqueKeys(subs: seq<Subscription>) {
    forall i, j :: 0 <= i < j < |subs| ==> (subs[i].userId, subs[i].folderPath) != (subs[j].userId, subs[j].folderPath)
  }

  predicate UniqueUsers(users: seq<User>) {
    forall i, j :: 0 <= i < j < |users| ==> users[i].tgId != users[j].tgId && users[i].id != users[j].id
  }

  /** Whether some row has the key (user, folder path). */
  predicate HasKey(subs: seq<Subscription>, userId: nat, path: string) {
    exists i :: 0 <= i < |subs| && subs[i].userId == userId && subs[i].folderPath == path
  }

  /** The position of the user with chat identity `tgId` (`select(User).where(User.tg_id == ...)`). */
  function UserIndex(users: seq<User>, tgId: int): (r: Option<nat>)
    ensures r.None? <==> forall i :: 0 <= i < |users| ==> users[i].tgId != tgId
    ensures r.Some? ==> r.value < |users| && users[r.value].tgId == tgId
  {
    if users == [] then None
    else if users[|users| - 1].tgId == tgId then Some(|users| - 1)
    else UserIndex(users[..|users| - 1], tgId)
  }

  /** `scalar_one_or_none()` of that query. */
  function FindUser(users: seq<User>, tgId: int): (r: Option<User>)
    ensures r.Some? <==> exists i :: 0 <= i < |users| && users[i].tgId == tgId
    ensures r.Some? ==> r.value in users && r.value.tgId == tgId
  {
    match UserIndex(users, tgId)
    case None => None
    case Some(i) => Some(users[i])
  }

  /** What `bot.get_chat` reports about a chat: its current username and first name. */
  datatype Chat = Chat(username: Option<string>, firstName: Option<string>)

  /** A user row as the refresh leaves it: the username and first name `get_chat` reports, when it succeeds. */
  function RefreshRow(u: User, id: nat, chats: map<int, Chat>): User {
    if u.id == id && u.tgId in chats then u.(username := chats[u.tgId].username, firstName := chats[u.tgId].firstName)
    else u
  }

  /**
   * The users table after the refresh that precedes a notification: the row
   * whose primary key is `id` takes the username and first name `get_chat`
   * reports for its chat; nothing changes when no row has that id or when
   * `get_chat` raises (its chat is absent from `chats`).
   */
  function Refreshed(users: seq<User>, id: nat, chats: map<int, Chat>): (r: seq<User>)
    ensures |r| == |users|
    ensures forall i :: 0 <= i < |users| ==>
      r[i].id == users[i].id && r[i].tgId == users[i].tgId && r[i].lastName == users[i].lastName
    ensures forall i :: 0 <= i < |users| && (users[i].id != id || users[i].tgId !in chats) ==> r[i] == users[i]
    ensures forall i :: 0 <= i < |users| && users[i].id == id && users[i].tgId in chats ==>
      r[i].username == chats[users[i].tgId].username && r[i].firstName == chats[users[i].tgId].firstName
  {
    seq(|users|, i requires 0 <= i < |users| => RefreshRow(users[i], id, chats))
  }

  /** The store after a get-or-create of the subscription (user, path): a new row has no stored time. */
  function AddIfAbsent(subs: seq<Subscription>, userId: nat, path: string): seq<Subscription> {
    if HasKey(subs, userId, path) then subs else subs + [Subscription(userId, path, None)]
  }

  /** The store after `delete(FolderSubscription).where(user_id == ..., folder_path == ...)`. */
  function RemoveKey(subs: seq<Subscription>, userId: nat, path: string): (r: seq<Subscription>)
    ensures |r| <= |subs|
    ensures forall s :: s in r <==> s in subs && (s.userId != userId || s.folderPath != path)
  {
    if subs == [] then []
    else
      var rest := RemoveKey(subs[1..], userId, path);
      assert forall s :: s in subs <==> s == subs[0] || s in subs[1..];
      if subs[0].userId == userId && subs[0].folderPath == path then rest else [subs[0]] + rest
  }

  /** `[s.folder_path for s in subs if s.user_id == user_id]`, in store order. */
  function PathsOf(subs: seq<Subscription>, userId: nat): (r: seq<string>)
    ensures |r| <= |subs|
    ensures forall p :: p in r <==> HasKey(subs, userId, p)
  {
    if subs == [] then []
    else
      var rest := PathsOf(subs[1..], userId);
      assert forall p :: HasKey(subs, userId, p) <==>
        ((subs[0].userId == userId && subs[0].folderPath == p) || HasKey(subs[1..], userId, p)) by {
        forall p ensures HasKey(subs, userId, p) ==>
          ((subs[0].userId == userId && subs[0].folderPath == p) || HasKey(subs[1..], userId, p)) {
          if HasKey(subs, userId, p) {
            var i :| 0 <= i < |subs| && subs[i].userId == userId && subs[i].folderPath == p;
            if i > 0 { assert subs[1..][i - 1] == subs[i]; }
          }
        }
        forall p | HasKey(subs[1..], userId, p) ensures HasKey(subs, userId, p) {
          var i :| 0 <= i < |subs[1..]| && subs[1..][i].userId == userId && subs[1..][i].folderPath == p;
          assert subs[i + 1] == subs[1..][i];
        }
      }
      if subs[0].userId == userId then [subs[0].folderPath] + rest else rest
  }

  /**
   * The filter keeps store order: the paths of a concatenation are the
   * paths of the first part followed by those of the second.
   */
  lemma {:induction false} PathsOfAppend(a: seq<Subscription>, b: seq<Subscription>, userId: nat)
    ensures PathsOf(a + b, userId) == PathsOf(a, userId) + PathsOf(b, userId)
    decreases |a|
  {
    if a != [] {
      assert (a + b)[1..] == a[1..] + b;
      PathsOfAppend(a[1..], b, userId);
    } else {
      assert a + b == b;
    }
  }

  // ---------------------------------------------------------------------------
  // Properties of the store operations

  /** Subscribing keeps (user, folder path) unique, leaves exactly one row with that key and is idempotent. */
  lemma SubscribeOnce(subs: seq<Subscription>, userId: nat, path: string)
    requires UniqueKeys(subs)
    ensures UniqueKeys(AddIfAbsent(subs, userId, path))
    ensures HasKey(AddIfAbsent(subs, userId, path), userId, path)
    ensures AddIfAbsent(AddIfAbsent(subs, userId, path), userId, path) == AddIfAbsent(subs, userId, path)
    ensures !HasKey(subs, userId, path) ==> AddIfAbsent(subs, userId, path)[|subs|] == Subscription(userId, path, None)
  {
    if !HasKey(subs, userId, path) {
      var r := AddIfAbsent(subs, userId, path);
      assert r[|subs|].userId == userId && r[|subs|].folderPath == path;
      forall i | 0 <= i < |subs| ensures (r[i].userId, r[i].folderPath) != (userId, path) {
        assert r[i] == subs[i];
      }
    }
  }

  lemma UniqueCons(x: Subscription, rest: seq<Subscription>)
    ensures UniqueKeys([x] + rest) <==>
      UniqueKeys(rest) && forall s :: s in rest ==> (s.userId, s.folderPath) != (x.userId, x.folderPath)
  {
    var r := [x] + rest;
    assert forall i :: 1 <= i < |r| ==> r[i] == rest[i - 1];
    if UniqueKeys(rest) && forall s :: s in rest ==> (s.userId, s.folderPath) != (x.userId, x.folderPath) {
      forall i, j | 0 <= i < j < |r| ensures (r[i].userId, r[i].folderPath) != (r[j].userId, r[j].folderPath) {
        assert r[j] in rest;
      }
    }
    if UniqueKeys(r) {
      forall s | s in rest ensures (s.userId, s.folderPath) != (x.userId, x.folderPath) {
        var k :| 0 <= k < |rest| && rest[k] == s;
        assert r[0] == x && r[k + 1] == s;
      }
      forall i, j | 0 <= i < j < |rest| ensures (rest[i].userId, rest[i].folderPath) != (rest[j].userId, rest[j].folderPath) {
        assert r[i + 1] == rest[i] && r[j + 1] == rest[j];
      }
    }
  }

  /** Deleting keeps the keys unique and leaves no row with the deleted key. */
  lemma {:induction false} RemoveKeyUnique(subs: seq<Subscription>, userId: nat, path: string)
    requires UniqueKeys(subs)
    ensures UniqueKeys(RemoveKey(subs, userId, path))
    ensures !HasKey(RemoveKey(subs, userId, path), userId, path)
  {
    var r := RemoveKey(subs, userId, path);
    if subs != [] {
      UniqueCons(subs[0], subs[1..]);
      assert subs == [subs[0]] + subs[1..];
      RemoveKeyUnique(subs[1..], userId, path);
      var rest := RemoveKey(subs[1..], userId, path);
      if !(subs[0].userId == userId && subs[0].folderPath == path) {
        UniqueCons(subs[0], rest);
      }
    }
    assert forall i :: 0 <= i < |r| ==> r[i] in r;
  }

  /** Deleting removes exactly one row when the key is present and none otherwise. */
  lemma {:induction false} RemoveKeyCount(subs: seq<Subscription>, userId: nat, path: string)
    requires UniqueKeys(subs)
    ensures |RemoveKey(subs, userId, path)| == if HasKey(subs, userId, path) then |subs| - 1 else |subs|
  {
    if subs != [] {
      UniqueCons(subs[0], subs[1..]);
      assert subs == [subs[0]] + subs[1..];
      RemoveKeyCount(subs[1..], userId, path);
      var first := subs[0].userId == userId && subs[0].folderPath == path;
      assert HasKey(subs, userId, path) <==> first || HasKey(subs[1..], userId, path) by {
        if HasKey(subs, userId, path) && !first {
          var i :| 0 <= i < |subs| && subs[i].userId == userId && subs[i].folderPath == path;
          assert subs[1..][i - 1] == subs[i];
        }
        if HasKey(subs[1..], userId, path) {
          var i :| 0 <= i < |subs[1..]| && subs[1..][i].userId == userId && subs[1..][i].folderPath == path;
          assert subs[i + 1] == subs[1..][i];
        }
      }
      if first {
        assert forall i :: 0 <= i < |subs[1..]| ==> subs[1..][i] in subs[1..];
        assert !HasKey(subs[1..], userId, path);
      }
    }
  }

  /**
   * update_user_data: the user rows and the next free id after creating the
   * user `tgId` (no last name) or overwriting the username and first name of
   * the existing one.
   */
  function Upsert(users: seq<User>, nextId: nat, tgId: int, username: Option<string>, firstName: Option<string>): (seq<User>, nat) {
    match UserIndex(users, tgId)
    case None => (users + [User(nextId, tgId, username, firstName, None)], nextId + 1)
    case Some(i) => (users[i := users[i].(username := username, firstName := firstName)], nextId)
  }

  /**
   * The upsert keeps chat identities and ids unique, leaves exactly one row
   * for `tgId` carrying the given names, keeps the id and last name of an
   * existing row, and touches no other user.
   */
  lemma UpsertSound(users: seq<User>, nextId: nat, tgId: int, username: Option<string>, firstName: Option<string>)
    requires UniqueUsers(users) && forall i :: 0 <= i < |users| ==> users[i].id < nextId
    ensures var r := Upsert(users, nextId, tgId, username, firstName);
      && UniqueUsers(r.0) && (forall i :: 0 <= i < |r.0| ==> r.0[i].id < r.1)
      && FindUser(r.0, tgId).Some?
      && FindUser(r.0, tgId).value.username == username && FindUser(r.0, tgId).value.firstName == firstName
      && |r.0| == |users| + (if FindUser(users, tgId).None? then 1 else 0)
      && (forall i :: 0 <= i < |users| && users[i].tgId != tgId ==> r.0[i] == users[i])
    ensures var r := Upsert(users, nextId, tgId, username, firstName);
      FindUser(users, tgId).Some? ==>
        FindUser(r.0, tgId).value.id == FindUser(users, tgId).value.id
        && FindUser(r.0, tgId).value.lastName == FindUser(users, tgId).value.lastName
    ensures var r := Upsert(users, nextId, tgId, username, firstName);
      FindUser(users, tgId).None? ==> FindUser(r.0, tgId).value.id == nextId && FindUser(r.0, tgId).value.lastName.None?
  {
    var r := Upsert(users, nextId, tgId, username, firstName);
    match UserIndex(users, tgId)
    case None =>
      assert r.0[|users|].tgId == tgId;
      UserIndexUnique(r.0, tgId, |users|);
    case Some(i) =>
      UserIndexUnique(r.0, tgId, i);
  }

  // ---------------------------------------------------------------------------
  // The tables

  class Database {
    var users: seq<User>
    var subs: seq<Subscription>
    /** The id the next new user row receives. */
    var nextId: nat

    ghost predicate Valid()
      reads this
    {
      && UniqueUsers(users)
      && (forall i :: 0 <= i < |users| ==> users[i].id < nextId)
      && UniqueKeys(subs)
    }

    constructor ()
      ensures Valid()
      ensures users == [] && subs == [] && nextId == 1
    {
      users, subs, nextId := [], [], 1;
    }

    /** update_user_data: creates or refreshes the user `tgId` and returns the row's id. */
    method UpsertUser(tgId: int, username: Option<string>, firstName: Option<string>) returns (id: nat)
      requires Valid()
      modifies this
      ensures Valid() && subs == old(subs)
      ensures (users, nextId) == Upsert(old(users), old(nextId), tgId, username, firstName)
      ensures FindUser(users, tgId).Some? && id == FindUser(users, tgId).value.id
    {
      UpsertSound(users, nextId, tgId, username, firstName);
      match UserIndex(users, tgId)
      case None =>
        id := nextId;
        users := users + [User(id, tgId, username, firstName, None)];
        nextId := nextId + 1;
      case Some(i) =>
        id := users[i].id;
        users := users[i := users[i].(username := username, firstName := firstName)];
    }

    /** Get-or-create of the subscription (user, folder path). */
    method Subscribe(userId: nat, path: string)
      requires Valid()
      modifies this
      ensures Valid() && users == old(users) && nextId == old(nextId)
      ensures subs == AddIfAbsent(old(subs), userId, path)
    {
      SubscribeOnce(subs, userId, path);
      subs := AddIfAbsent(subs, userId, path);
    }

    /** The get-or-create of the user and then of the subscription, as one session of task_selected does it. */
    method SubscribeUser(tgId: int, username: Option<string>, firstName: Option<string>, path: string) returns (id: nat)
      requires Valid()
      modifies this
      ensures Valid()
      ensures (users, nextId) == Upsert(old(users), old(nextId), tgId, username, firstName)
      ensures FindUser(users, tgId).Some? && id == FindUser(users, tgId).value.id
      ensures subs == AddIfAbsent(old(subs), id, path)
    {
      id := UpsertUser(tgId, username, firstName);
      Subscribe(id, path);
    }

    /** Deletes exactly the subscription (user, folder path), if present. */
    method Unsubscribe(userId: nat, path: string)
      requires Valid()
      modifies this
      ensures Valid() && users == old(users) && nextId == old(nextId)
      ensures subs == RemoveKey(old(subs), userId, path)
    {
      RemoveKeyUnique(subs, userId, path);
      subs := RemoveKey(subs, userId, path);
    }

    /** Assigns `last_modified` of the i-th row in place and commits. */
    /**
     * The refresh at the start of notify_subscribers: the row found by
     * primary key takes its chat's current names.
     */
    method RefreshUser(id: nat, chats: map<int, Chat>)
      requires Valid()
      modifies this
      ensures Valid() && subs == old(subs) && nextId == old(nextId)
      ensures users == Refreshed(old(users), id, chats)
    {
      var k := 0;
      while k < |users| && users[k].id != id
        invariant 0 <= k <= |users|
        invariant forall j :: 0 <= j < k ==> users[j].id != id
      {
        k := k + 1;
      }
      if k < |users| && users[k].tgId in chats {
        var chat := chats[users[k].tgId];
        users := users[k := users[k].(username := chat.username, firstName := chat.firstName)];
      }
    }

    method SetLastModified(i: nat, t: real)
      requires Valid() && i < |subs|
      modifies this
      ensures Valid() && users == old(users) && nextId == old(nextId)
      ensures subs == old(subs)[i := old(subs)[i].(lastModified := Some(t))]
    {
      subs := subs[i := subs[i].(lastModified := Some(t))];
    }
  }

  /** With unique chat identities, the position found is the only one. */
  lemma UserIndexUnique(users: seq<User>, tgId: int, i: nat)
    requires UniqueUsers(users) && i < |users| && users[i].tgId == tgId
    ensures UserIndex(users, tgId) == Some(i)
  {
    var r := UserIndex(users, tgId);
    assert users[r.value].tgId == users[i].tgId;
  }
}
