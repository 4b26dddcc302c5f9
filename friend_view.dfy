// What one roster entry shows: whether it is the selected friend, and the
// line describing its balance.

module FriendView {
  import opened Friends

  /** The entry is highlighted when the selection has its id. */
  predicate IsSelected(selected: Option<Friend>, friend: Friend)
    ensures selected == None ==> !IsSelected(selected, friend)
    ensures selected == Some(friend) ==> IsSelected(selected, friend)
  {
    selected.Some? && selected.value.id == friend.id
  }

  /** One balance line: "You owe <name> ₹amount", "<name> owes you ₹amount"
      or "You and <name> are even." */
  datatype Standing = YouOwe(amount: int) | OwesYou(amount: int) | Even

  function Abs(x: int): (r: int)
    ensures r >= 0 && (r == x || r == -x)
  {
    if x < 0 then -x else x
  }

  /** The balance lines rendered for a balance: each of the three is guarded
      by its own condition, and all that hold are shown. */
  function Standings(balance: int): (r: seq<Standing>)
    ensures |r| == 1 && BalanceOf(r[0]) == balance
  {
    (if balance < 0 then [YouOwe(Abs(balance))] else []) +
    (if balance > 0 then [OwesYou(balance)] else []) +
    (if balance == 0 then [Even] else [])
  }

  /** The balance a line stands for. */
  function BalanceOf(s: Standing): int
  {
    match s
    case YouOwe(a) => -a
    case OwesYou(a) => a
    case Even => 0
  }

  /** Exactly one line is shown for any balance, its amount is never
      negative, and the line gives the balance back. */
  lemma ExactlyOneStanding(balance: int)
    ensures |Standings(balance)| == 1
    ensures var s := Standings(balance)[0];
      (s.YouOwe? <==> balance < 0) && (s.OwesYou? <==> balance > 0) &&
      (s.Even? <==> balance == 0) &&
      (!s.Even? ==> s.amount > 0) &&
      BalanceOf(s) == balance
  {
  }
}
