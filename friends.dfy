// The friend registry of the bill-splitting app: the friend record, the
// roster the app starts with, and the update a split applies to the roster.

module Friends {

  datatype Option<+T> = None | Some(value: T)

  /** A friend's id. The initial roster uses numbers; a friend added through
      the form gets a string derived from the name. JavaScript's `===` never
      equates a number with a string, and neither does datatype equality. */
  datatype Id = NumId(n: int) | TextId(s: string)

  /** One roster entry. A positive balance means the friend owes the user,
      a negative one that the user owes the friend. */
  datatype Friend = Friend(id: Id, name: string, image: string, balance: int)

  /** The avatar service URL without the value of its `u` parameter. */
  const AvatarPrefix: string := "https://i.pravatar.cc/48?u="

  /** The roster the app starts with: Clark, whom the user owes 7, Sarah,
      who owes the user 20, and Anthony, who is even. */
  function InitialFriends(): (r: seq<Friend>)
    ensures |r| == 3 && TotalBalance(r) == 13
    ensures r[0].name == "Clark" && r[0].balance < 0
    ensures r[1].balance > 0 && r[2].balance == 0
  {
    var friends :=
      [ Friend(NumId(118836), "Clark", AvatarPrefix + "118836", -7),
        Friend(NumId(933372), "Sarah", AvatarPrefix + "933372", 20),
        Friend(NumId(499476), "Anthony", AvatarPrefix + "499476", 0) ];
    assert friends[1..][1..] == friends[2..] && friends[2..][1..] == [];
    assert TotalBalance(friends[2..]) == 0;
    friends
  }

  /** No two records of the roster share an id. Nothing in the app enforces it. */
  predicate IdsUnique(friends: seq<Friend>)
  {
    forall i, j :: 0 <= i < j < |friends| ==> friends[i].id != friends[j].id
  }

  /** Some record of the roster has the id. */
  predicate HasId(friends: seq<Friend>, id: Id)
  {
    exists i :: 0 <= i < |friends| && friends[i].id == id
  }

  lemma InitialFriendsUnique()
    ensures IdsUnique(InitialFriends())
    ensures forall f :: f in InitialFriends() ==> f.id.NumId?
  {
  }

  /** Appending keeps the ids unique exactly when the newcomer's id is new. */
  lemma AppendUnique(friends: seq<Friend>, friend: Friend)
    ensures IdsUnique(friends + [friend]) <==> IdsUnique(friends) && !HasId(friends, friend.id)
  {
    var r := friends + [friend];
    if IdsUnique(r) {
      forall i, j | 0 <= i < j < |friends| ensures friends[i].id != friends[j].id {
        assert r[i] == friends[i] && r[j] == friends[j];
      }
      forall i | 0 <= i < |friends| ensures friends[i].id != friend.id {
        assert r[i] == friends[i] && r[|friends|] == friend;
      }
    }
  }

  /** The callback of the split's `map`: a record with the selected id is
      credited, any other is returned as it is. */
  function SplitRecord(friend: Friend, id: Id, value: int): (r: Friend)
    ensures r.id == friend.id && r.name == friend.name && r.image == friend.image
    ensures r.balance - friend.balance == if friend.id == id then value else 0
  {
    if friend.id == id then friend.(balance := friend.balance + value) else friend
  }

  /** The roster after a split of `value` with the friend whose id is `id`:
      the `map` of SplitRecord over the roster. */
  function ApplySplit(friends: seq<Friend>, id: Id, value: int): (r: seq<Friend>)
    ensures |r| == |friends|
  {
    if friends == [] then []
    else [SplitRecord(friends[0], id, value)] + ApplySplit(friends[1..], id, value)
  }

  /** Position by position: a record with the id gains `value`, every other
      record is unchanged, and order is kept. */
  lemma {:induction false} ApplySplitAt(friends: seq<Friend>, id: Id, value: int, k: int)
    requires 0 <= k < |friends|
    ensures ApplySplit(friends, id, value)[k] ==
            if friends[k].id == id then friends[k].(balance := friends[k].balance + value)
            else friends[k]
  {
    if k > 0 {
      ApplySplitAt(friends[1..], id, value, k - 1);
    }
  }

  /** A split keeps every id, name and image in place, so it keeps the ids unique. */
  lemma ApplySplitKeepsIds(friends: seq<Friend>, id: Id, value: int)
    ensures forall k :: 0 <= k < |friends| ==>
              ApplySplit(friends, id, value)[k].id == friends[k].id &&
              ApplySplit(friends, id, value)[k].name == friends[k].name &&
              ApplySplit(friends, id, value)[k].image == friends[k].image
    ensures IdsUnique(friends) ==> IdsUnique(ApplySplit(friends, id, value))
  {
    forall k | 0 <= k < |friends| {
      ApplySplitAt(friends, id, value, k);
    }
  }

  /** A split with an id that no record has leaves the roster as it was. */
  lemma ApplySplitNoMatch(friends: seq<Friend>, id: Id, value: int)
    requires !HasId(friends, id)
    ensures ApplySplit(friends, id, value) == friends
  {
    forall k | 0 <= k < |friends| ensures ApplySplit(friends, id, value)[k] == friends[k] {
      ApplySplitAt(friends, id, value, k);
    }
  }

  /** The sum of the balances of the roster. */
  function TotalBalance(friends: seq<Friend>): int
  {
    if friends == [] then 0 else friends[0].balance + TotalBalance(friends[1..])
  }

  /** How many records of the roster have the id. */
  function CountWithId(friends: seq<Friend>, id: Id): nat
  {
    if friends == [] then 0
    else (if friends[0].id == id then 1 else 0) + CountWithId(friends[1..], id)
  }

  /** A split moves the total of the balances by `value` once per record with the id. */
  lemma {:induction false} ApplySplitTotal(friends: seq<Friend>, id: Id, value: int)
    ensures TotalBalance(ApplySplit(friends, id, value)) ==
            TotalBalance(friends) + value * CountWithId(friends, id)
  {
    if friends != [] {
      var r := ApplySplit(friends, id, value);
      ApplySplitTotal(friends[1..], id, value);
      assert r[1..] == ApplySplit(friends[1..], id, value);
      var c := CountWithId(friends[1..], id);
      assert value * ((if friends[0].id == id then 1 else 0) + c)
          == (if friends[0].id == id then value else 0) + value * c;
    }
  }

  /** With unique ids, a present id is held by exactly one record. */
  lemma {:induction false} UniqueIdCountsOnce(friends: seq<Friend>, id: Id)
    requires IdsUnique(friends)
    ensures CountWithId(friends, id) == if HasId(friends, id) then 1 else 0
  {
    if friends != [] {
      var rest := friends[1..];
      assert IdsUnique(rest) by {
        forall i, j | 0 <= i < j < |rest| ensures rest[i].id != rest[j].id {
          assert rest[i] == friends[i + 1] && rest[j] == friends[j + 1];
        }
      }
      UniqueIdCountsOnce(rest, id);
      if friends[0].id == id {
        assert !HasId(rest, id) by {
          forall i | 0 <= i < |rest| ensures rest[i].id != id {
            assert rest[i] == friends[i + 1];
          }
        }
        assert HasId(friends, id) by { assert friends[0].id == id; }
      } else {
        if HasId(friends, id) {
          var i :| 0 <= i < |friends| && friends[i].id == id;
          assert rest[i - 1] == friends[i];
        }
        if HasId(rest, id) {
          var i :| 0 <= i < |rest| && rest[i].id == id;
          assert friends[i + 1] == rest[i];
        }
      }
    }
  }

  /** With unique ids, a split moves the total of the balances by exactly
      `value` when some record has the id, and not at all otherwise. */
  lemma SplitMovesTotalOnce(friends: seq<Friend>, id: Id, value: int)
    requires IdsUnique(friends)
    ensures TotalBalance(ApplySplit(friends, id, value)) ==
            TotalBalance(friends) + (if HasId(friends, id) then value else 0)
  {
    ApplySplitTotal(friends, id, value);
    UniqueIdCountsOnce(friends, id);
  }
}
