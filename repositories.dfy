/**
 * The three document collections (items, logs, users) that both backends read and
 * write: `ItemRepository`, `LogRepository` and `UserRepository` in the Spring service,
 * the `Item`, `Log` and `User` models in the Express one. Each is a class whose
 * collection field the store methods reassign.
 */
module Repositories {
  import opened Common
  import opened ItemModel
  import opened LogModel
  import opened UserModel
  import Seqs

  class ItemRepository {
    var items: map<Id, Item>
    var nextId: Id

    /** Every stored item carries its own key, and every key is below the next id to hand out. */
    ghost predicate Valid()
      reads this
    {
      forall id :: id in items ==> id < nextId && items[id].id == Some(id)
    }

    constructor ()
      ensures Valid() && items == map[] && nextId == 0
    {
      items := map[];
      nextId := 0;
    }

    /** `save` of a new item: the store assigns it a fresh id. */
    method Insert(item: Item) returns (saved: Item)
      requires Valid()
      modifies this
      ensures Valid()
      ensures old(nextId) !in old(items)
      ensures saved == item.(id := Some(old(nextId)))
      ensures items == old(items)[old(nextId) := saved]
      ensures nextId == old(nextId) + 1
    {
      saved := item.(id := Some(nextId));
      items := items[nextId := saved];
      nextId := nextId + 1;
    }

    /** `save` of an item that was loaded from the store: it replaces the stored copy. */
    method Update(item: Item)
      requires Valid() && item.id.Some? && item.id.value in items
      modifies this
      ensures Valid()
      ensures items == old(items)[item.id.value := item] && nextId == old(nextId)
    {
      items := items[item.id.value := item];
    }

    /** `deleteById` / `remove`: the item with that id is gone, nothing else changes. */
    method Delete(id: Id)
      requires Valid()
      modifies this
      ensures Valid()
      ensures items == old(items) - {id} && nextId == old(nextId)
    {
      items := items - {id};
    }
  }

  /** `findByUserId` / `Item.find({user})`: the items whose owner is `userId`. */
  function ItemsOfUser(items: map<Id, Item>, userId: Id): (r: map<Id, Item>)
    ensures forall id :: id in r <==> id in items && items[id].userId == userId
    ensures forall id :: id in r ==> r[id] == items[id]
  {
    map id | id in items && items[id].userId == userId :: items[id]
  }

  /** `findByUserIdAndCategory` / `Item.find({user, category})`. */
  function ItemsOfUserInCategory(items: map<Id, Item>, userId: Id, category: string): (r: map<Id, Item>)
    ensures forall id :: id in r <==> id in items && items[id].userId == userId && items[id].category == category
    ensures forall id :: id in r ==> r[id] == items[id]
  {
    map id | id in items && items[id].userId == userId && items[id].category == category :: items[id]
  }

  /** A category listing is the owner's listing cut down to one category. */
  lemma CategoryListingRefinesOwnerListing(items: map<Id, Item>, userId: Id, category: string)
    ensures ItemsOfUserInCategory(items, userId, category)
            == map id | id in ItemsOfUser(items, userId) && ItemsOfUser(items, userId)[id].category == category
                      :: ItemsOfUser(items, userId)[id]
  {
  }

  class LogRepository {
    var logs: seq<Log>

    /** The store numbers the entries in the order they were appended. */
    ghost predicate Valid()
      reads this
    {
      forall i :: 0 <= i < |logs| ==> logs[i].id == Some(i)
    }

    constructor ()
      ensures Valid() && logs == []
    {
      logs := [];
    }

    /** `save` / `Log.create`: the entry is appended with the next id; earlier entries stay. */
    method Append(log: Log) returns (saved: Log)
      requires Valid()
      modifies this
      ensures Valid()
      ensures saved == log.(id := Some(|old(logs)|))
      ensures logs == old(logs) + [saved]
    {
      saved := log.(id := Some(|logs|));
      logs := logs + [saved];
    }
  }

  /** Whether a log entry belongs to item `itemId` and was written by `userId`. */
  predicate LogOf(l: Log, itemId: Id, userId: Id) {
    l.itemId == itemId && l.userId == userId
  }

  /** `findByItemIdAndUserId` / `Log.find({item, user})`, in insertion order. */
  function LogsOfItemAndUser(logs: seq<Log>, itemId: Id, userId: Id): (r: seq<Log>)
    ensures Seqs.IsSubsequence(r, logs)
    ensures forall i :: 0 <= i < |r| ==> LogOf(r[i], itemId, userId)
    ensures forall i :: 0 <= i < |logs| && LogOf(logs[i], itemId, userId) ==> logs[i] in r
    ensures forall l :: multiset(r)[l] == if LogOf(l, itemId, userId) then multiset(logs)[l] else 0
  {
    Seqs.Filter(logs, l => LogOf(l, itemId, userId))
  }

  class UserRepository {
    var users: map<Id, User>
    var nextId: Id

    ghost predicate Valid()
      reads this
    {
      forall id :: id in users ==> id < nextId && users[id].id == Some(id)
    }

    constructor ()
      ensures Valid() && users == map[] && nextId == 0
    {
      users := map[];
      nextId := 0;
    }

    /** `findByEmail` / `User.findOne({email})`: some user with that email, if there is one. */
    method FindByEmail(email: string) returns (r: Option<Id>)
      ensures r.None? <==> !EmailTaken(users, email)
      ensures r.Some? ==> r.value in users && users[r.value].email == email
    {
      if EmailTaken(users, email) {
        var id :| id in users && users[id].email == email;
        r := Some(id);
      } else {
        r := None;
      }
    }

    /** `save` of a new user: the store assigns it a fresh id. */
    method Insert(user: User) returns (saved: User)
      requires Valid()
      modifies this
      ensures Valid()
      ensures old(nextId) !in old(users)
      ensures saved == user.(id := Some(old(nextId)))
      ensures users == old(users)[old(nextId) := saved]
      ensures nextId == old(nextId) + 1
    {
      saved := user.(id := Some(nextId));
      users := users[nextId := saved];
      nextId := nextId + 1;
    }

    /** `save` of a user that was loaded from the store. */
    method Update(user: User)
      requires Valid() && user.id.Some? && user.id.value in users
      modifies this
      ensures Valid()
      ensures users == old(users)[user.id.value := user] && nextId == old(nextId)
    {
      users := users[user.id.value := user];
    }

    /** `deleteById` / `findByIdAndDelete`. */
    method Delete(id: Id)
      requires Valid()
      modifies this
      ensures Valid()
      ensures users == old(users) - {id} && nextId == old(nextId)
    {
      users := users - {id};
    }
  }

  /** `existsByEmail`. */
  predicate EmailTaken(users: map<Id, User>, email: string) {
    exists id :: id in users && users[id].email == email
  }
}
