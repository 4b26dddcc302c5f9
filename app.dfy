// The App component's state and its handlers: the roster, the add-form
// toggle and the selected friend, each handler one state transition.

module App {
  import opened Friends
  import opened FriendView
  import AddFriendForm
  import SplitBillForm

  /** The selection after clicking `friend`'s button: clicking the friend
      already selected (by id) closes it, any other click selects `friend`. */
  function Select(current: Option<Friend>, friend: Friend): (r: Option<Friend>)
    ensures IsSelected(r, friend) <==> !IsSelected(current, friend)
    ensures r.Some? ==> r.value == friend
  {
    if current.Some? && current.value.id == friend.id then None else Some(friend)
  }

  /** Clicking the same friend twice gives back the selection as far as that
      friend is concerned; starting from none, it returns to none. */
  lemma SelectTwice(current: Option<Friend>, friend: Friend)
    ensures Select(Select(current, friend), friend) ==
            if IsSelected(current, friend) then Some(friend) else None
    ensures Select(Select(None, friend), friend) == None
  {
  }

  class AppState {
    var friends: seq<Friend>
    var showAddFriend: bool
    var selectedFriend: Option<Friend>

    /** The app as it starts: the initial roster, the form closed, nobody selected. */
    constructor ()
      ensures friends == InitialFriends()
      ensures !showAddFriend && selectedFriend == None
    {
      friends := InitialFriends();
      showAddFriend := false;
      selectedFriend := None;
    }

    /** The "Add Friend" / "Close" button. */
    method HandleShowAddFriend()
      modifies this
      ensures showAddFriend == !old(showAddFriend)
      ensures friends == old(friends) && selectedFriend == old(selectedFriend)
    {
      showAddFriend := !showAddFriend;
    }

    /** Appends the friend the add form built, and closes the form. */
    method HandleAddFriend(friend: Friend)
      modifies this
      ensures friends == old(friends) + [friend]
      ensures !showAddFriend && selectedFriend == old(selectedFriend)
      ensures IdsUnique(friends) <==> IdsUnique(old(friends)) && !HasId(old(friends), friend.id)
    {
      friends := friends + [friend];
      showAddFriend := false;
      AppendUnique(old(friends), friend);
    }

    /** A friend's "Select" / "Close" button; it always closes the add form. */
    method HandleSelection(friend: Friend)
      modifies this
      ensures selectedFriend == Select(old(selectedFriend), friend)
      ensures IsSelected(selectedFriend, friend) <==> !IsSelected(old(selectedFriend), friend)
      ensures !showAddFriend && friends == old(friends)
    {
      selectedFriend := Select(selectedFriend, friend);
      showAddFriend := false;
    }

    /** Adds `value` to the balance of every record with the selected
      friend's id, then clears the selection. The split form is only shown
      while a friend is selected, and the handler reads the selection's id. */
    method HandleSplitBill(value: int)
      requires selectedFriend.Some?
      modifies this
      ensures friends == ApplySplit(old(friends), old(selectedFriend).value.id, value)
      ensures |friends| == |old(friends)|
      ensures forall k :: 0 <= k < |friends| ==>
                friends[k] == if old(friends)[k].id == old(selectedFriend).value.id
                              then old(friends)[k].(balance := old(friends)[k].balance + value)
                              else old(friends)[k]
      ensures TotalBalance(friends) ==
              TotalBalance(old(friends)) + value * CountWithId(old(friends), old(selectedFriend).value.id)
      ensures IdsUnique(old(friends)) ==> IdsUnique(friends)
      ensures selectedFriend == None && showAddFriend == old(showAddFriend)
    {
      var id := selectedFriend.value.id;
      friends := ApplySplit(friends, id, value);
      selectedFriend := None;
      forall k | 0 <= k < |friends|
        ensures friends[k] == if old(friends)[k].id == id
                              then old(friends)[k].(balance := old(friends)[k].balance + value)
                              else old(friends)[k]
      {
        ApplySplitAt(old(friends), id, value, k);
      }
      ApplySplitTotal(old(friends), id, value);
      ApplySplitKeepsIds(old(friends), id, value);
    }

    /** The add form's submit with this app's HandleAddFriend as its callback:
      an empty name or image changes nothing (the form stays open); otherwise
      the new friend is appended and the form closes. */
    method SubmitAddFriend(name: string, image: string)
      modifies this
      ensures name == [] || image == [] ==>
                friends == old(friends) && showAddFriend == old(showAddFriend) &&
                selectedFriend == old(selectedFriend)
      ensures name != [] && image != [] ==>
                friends == old(friends) + [AddFriendForm.NewFriend(name, image).value] &&
                !showAddFriend && selectedFriend == old(selectedFriend)
    {
      var made := AddFriendForm.NewFriend(name, image);
      if made.Some? {
        HandleAddFriend(made.value);
      }
    }

    /** The split form's submit with this app's HandleSplitBill as its
      callback: an empty or zero bill or expense changes nothing; otherwise
      the delta is applied to the selected friend and the selection cleared. */
    method SubmitSplitBill(bill: int, paidByUser: int, whoIsPaying: string)
      requires selectedFriend.Some?
      modifies this
      ensures bill == 0 || paidByUser == 0 ==>
                friends == old(friends) && showAddFriend == old(showAddFriend) &&
                selectedFriend == old(selectedFriend)
      ensures bill != 0 && paidByUser != 0 ==>
                friends == ApplySplit(old(friends), old(selectedFriend).value.id,
                                      SplitBillForm.SplitDelta(bill, paidByUser, whoIsPaying).value) &&
                selectedFriend == None && showAddFriend == old(showAddFriend)
    {
      var delta := SplitBillForm.SplitDelta(bill, paidByUser, whoIsPaying);
      if delta.Some? {
        HandleSplitBill(delta.value);
      }
    }
  }

  /** Pressing the add-form button twice leaves the whole state as it was. */
  method ToggleAddFormTwice(app: AppState)
    modifies app
    ensures app.showAddFriend == old(app.showAddFriend)
    ensures app.friends == old(app.friends) && app.selectedFriend == old(app.selectedFriend)
  {
    app.HandleShowAddFriend();
    app.HandleShowAddFriend();
  }

  /** Clicking the same friend twice: the add form ends closed and the
      selection returns to none unless that friend was selected to begin with. */
  method SelectSameTwice(app: AppState, friend: Friend)
    modifies app
    ensures app.selectedFriend == if IsSelected(old(app.selectedFriend), friend) then Some(friend) else None
    ensures !app.showAddFriend && app.friends == old(app.friends)
  {
    app.HandleSelection(friend);
    app.HandleSelection(friend);
    SelectTwice(old(app.selectedFriend), friend);
  }

  /** From the start: select Clark (balance -7) and split a bill of 50 of
      which the user paid 20, the user paying. Clark ends at 23, the others
      are untouched and nobody is selected. */
  method ClarkSplitsABill() returns (roster: seq<Friend>, selection: Option<Friend>)
    ensures |roster| == 3
    ensures roster[0] == InitialFriends()[0].(balance := 23)
    ensures roster[1..] == InitialFriends()[1..]
    ensures selection == None
  {
    var app := new AppState();
    app.HandleSelection(app.friends[0]);
    app.SubmitSplitBill(50, 20, "user");
    roster, selection := app.friends, app.selectedFriend;
    var start := InitialFriends();
    ApplySplitAt(start, NumId(118836), 30, 0);
    ApplySplitAt(start, NumId(118836), 30, 1);
    ApplySplitAt(start, NumId(118836), 30, 2);
  }
}
