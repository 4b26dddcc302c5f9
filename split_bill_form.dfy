// The split-bill form's submit handler: the balance change it hands to the app.

module SplitBillForm {
  import opened Friends

  /** The friend's expense as the submit handler uses it, when the bill is
      non-zero: the bill minus what the user paid, not clamped at zero. */
  function PaidByFriend(bill: int, paidByUser: int): (r: int)
    ensures r + paidByUser == bill
    ensures r < 0 <==> paidByUser > bill
  {
    bill - paidByUser
  }

  /** The value `handleSubmit` passes to `onSplitBill`, or None when the bill
      or the user's expense is empty or zero and the submission is dropped.
      Empty fields read as 0 here. */
  function SplitDelta(bill: int, paidByUser: int, whoIsPaying: string): (r: Option<int>)
    ensures r.None? <==> bill == 0 || paidByUser == 0
  {
    if bill == 0 || paidByUser == 0 then None
    else if whoIsPaying == "user" then Some(PaidByFriend(bill, paidByUser))
    else Some(-paidByUser)
  }

  /** When the user pays, the friend owes the friend's share; when the friend
      pays, the user owes what the user's own expense was. */
  lemma SplitDeltaMeaning(bill: int, paidByUser: int, whoIsPaying: string)
    requires bill != 0 && paidByUser != 0
    ensures var d := SplitDelta(bill, paidByUser, whoIsPaying).value;
      (whoIsPaying == "user" ==> d + paidByUser == bill) &&
      (whoIsPaying != "user" ==> d == -paidByUser)
  {
  }

  /** Whoever pays, the two possible deltas differ by the whole bill. */
  lemma PayerSwapMovesByBill(bill: int, paidByUser: int)
    requires bill != 0 && paidByUser != 0
    ensures SplitDelta(bill, paidByUser, "user").value -
            SplitDelta(bill, paidByUser, "friend").value == bill
  {
  }

  lemma SplitDeltaExamples()
    ensures SplitDelta(100, 30, "user") == Some(70)
    ensures SplitDelta(100, 30, "friend") == Some(-30)
    ensures SplitDelta(50, 20, "user") == Some(30)
    ensures SplitDelta(0, 20, "user") == None && SplitDelta(50, 0, "friend") == None
  {
  }
}
