# Bill-splitting app: a verified model of its state and update rules

The app keeps a roster of friends, each with a running balance. A positive
balance means the friend owes the user; a negative one means the user owes
the friend. The user can open a form to add a friend, select a friend, and
split a bill with the selected friend. All of the app's logic lives in
`src/App.jsx`: in the `App` component, in the two forms' submit handlers
and the friend's-expense expression, and in the balance line of the
`Friend` component. This project models that logic in Dafny and proves what each handler
does to the state.

- `friends.dfy`, module `Friends`: the friend record and its `Id`, the
  initial roster, and the split update. A split credits every record that
  has the selected id, so it is modelled as a map over the roster. The
  module also proves what a split does to order, to ids and to the total of
  the balances.
- `add_friend_form.dfy`, module `AddFriendForm`: the id derived from the
  entered name (lower-cased, with every whitespace character removed), the
  avatar rule, and the record the form hands to the app.
- `split_bill_form.dfy`, module `SplitBillForm`: the friend's expense and
  the balance change that a submission produces.
- `friend_view.dfy`, module `FriendView`: whether an entry is shown as
  selected, and the balance line it shows ("you owe", "owes you", "even").
- `app.dfy`, module `App`: class `AppState`. It holds the three pieces of
  state `friends`, `showAddFriend` and `selectedFriend`. There is one method
  per handler, and the two form submissions are wired to those handlers.
  Client methods at the end combine several handler calls.

Some choices follow the code and not a tidier reading of it:
- Ids of the initial roster are numbers, and ids of added friends are
  strings. JavaScript's `===` never equates the two kinds, so `Id` is a
  datatype with one constructor per kind.
- Ids are not checked for uniqueness. A split credits every record with a
  matching id. `IdsUnique` is a property that is proved about the
  operations, not an invariant the app keeps.
- Two names that differ only in case or spacing get the same id
  (`NamesCollide`).
- A name made only of spaces passes the presence check and gets the empty
  id (`BlankNameGivesEmptyId`).
- Opening the add form does not clear the selection: the toggle handler only
  flips `showAddFriend` (src/App.jsx:29-31).
- The split handler reads the selected friend's id, and the split form is
  only shown while a friend is selected. `HandleSplitBill` and
  `SubmitSplitBill` therefore require a selection.

## Model

| member | source | states |
|---|---|---|
| `Friends.InitialFriends` | src/App.jsx:3-22 | the app starts with three friends whose balances add up to 13: Clark first, whom the user owes, then one who owes the user and one who is even |
| `Friends.InitialFriendsUnique` | src/App.jsx:3-22 | the initial roster has pairwise distinct ids, all of them numbers |
| `Friends.AppendUnique` | src/App.jsx:33-36 | appending a friend keeps ids unique if and only if they were unique before and no record already had the newcomer's id |
| `Friends.SplitRecord` | src/App.jsx:46-48 | the split's callback keeps a record's id, name and image, and changes its balance by the value if the record has the selected id and by nothing otherwise |
| `Friends.ApplySplit` | src/App.jsx:44-50 | the split's `map` keeps the roster's length |
| `Friends.ApplySplitAt` | src/App.jsx:45-49 | at every position, a record with the selected id gains the value in its balance and keeps everything else; every other record is unchanged; order is kept |
| `Friends.ApplySplitKeepsIds` | src/App.jsx:45-49 | a split keeps every id, name and image in place, so unique ids stay unique |
| `Friends.ApplySplitNoMatch` | src/App.jsx:45-49 | a split with an id that no record has leaves the roster as it was |
| `Friends.ApplySplitTotal` | src/App.jsx:43-50 | the sum of all balances moves by the value once for each record that has the selected id |
| `Friends.SplitMovesTotalOnce` | src/App.jsx:43-50 | with unique ids, a split moves the total of the balances by exactly the value when some record has the selected id, and leaves it unchanged otherwise |
| `Friends.UniqueIdCountsOnce` | src/App.jsx:45-47 | with unique ids, a present id is held by exactly one record and an absent id by none |
| `AddFriendForm.IsWhitespace` | src/App.jsx:141 | space, tab, newline and carriage return are whitespace, and no ASCII letter or digit is (the full set is JavaScript's `\s` class) |
| `AddFriendForm.LowerChar` | src/App.jsx:141 | a character's lower case is never an upper-case letter and is whitespace exactly when the character is; an upper-case ASCII letter moves by 32 and any other character is kept |
| `AddFriendForm.ToLower` | src/App.jsx:141 | lower-casing keeps the length, maps each character to its lower case (ASCII letters move by 32, everything else is kept) and leaves no upper-case letter |
| `AddFriendForm.RemoveWhitespace` | src/App.jsx:141 | a character occurs in the result exactly when it occurs in the input and is not whitespace; the result is never longer than the input |
| `AddFriendForm.DeriveId` | src/App.jsx:141 | a derived id is no longer than the name, contains neither whitespace nor upper-case letters, and contains the lower case of every non-whitespace character of the name |
| `AddFriendForm.DeriveIdIdempotent` | src/App.jsx:141 | deriving an id from a derived id gives the same id |
| `AddFriendForm.DeriveIdConcat` | src/App.jsx:141 | the id of a concatenation is the concatenation of the ids |
| `AddFriendForm.DeriveIdChar` | src/App.jsx:141 | a single character gives nothing if it is whitespace and its lower case otherwise |
| `AddFriendForm.NamesCollide` | src/App.jsx:141 | "Al B" and "alb" get the same id "alb" |
| `AddFriendForm.FinalImage` | src/App.jsx:144-148 | an entered image other than the bare default prefix is kept; the bare prefix becomes the prefix followed by exactly the id |
| `AddFriendForm.NewFriend` | src/App.jsx:138-156 | nothing is built exactly when the name or the image field is empty |
| `AddFriendForm.NewFriendShape` | src/App.jsx:141-156 | a new friend has balance 0, the entered name and the derived id; its image is the default prefix followed by the id if the image field held the default prefix, and the entered image otherwise |
| `AddFriendForm.NewFriendIdIsText` | src/App.jsx:151-156 | a new friend's id never equals an id of the initial roster |
| `AddFriendForm.BlankNameGivesEmptyId` | src/App.jsx:138-148 | a name of one space is accepted and gives a friend with the empty id and the bare default avatar |
| `SplitBillForm.PaidByFriend` | src/App.jsx:191 | the friend's expense and the user's expense add up to the bill; it is negative exactly when the user paid more than the bill |
| `SplitBillForm.SplitDelta` | src/App.jsx:191-198 | the submission is dropped exactly when the bill or the user's expense is empty or zero |
| `SplitBillForm.SplitDeltaMeaning` | src/App.jsx:191-198 | when the user pays, the delta plus the user's expense is the bill; when the friend pays, the delta is the negated user's expense |
| `SplitBillForm.PayerSwapMovesByBill` | src/App.jsx:191-198 | for the same inputs, the delta when the user pays minus the delta when the friend pays is the whole bill |
| `SplitBillForm.SplitDeltaExamples` | src/App.jsx:191-198 | bill 100 and expense 30 give +70 when the user pays and -30 when the friend pays; bill 50 and expense 20 give +30; a zero bill or expense gives nothing |
| `FriendView.IsSelected` | src/App.jsx:97 | with no selection no entry is highlighted, and the selected friend's own entry always is |
| `FriendView.Standings` | src/App.jsx:103-114 | exactly one balance line is shown, and the balance it stands for is the friend's balance |
| `FriendView.Abs` | src/App.jsx:105 | the "you owe" amount is non-negative and is the balance or its negation |
| `FriendView.ExactlyOneStanding` | src/App.jsx:103-114 | exactly one balance line is shown: "you owe" exactly for a negative balance, "owes you" exactly for a positive one, "even" exactly for zero; a shown amount is positive; the line determines the balance |
| `App.Select` | src/App.jsx:39 | after a click the friend is shown as selected exactly when it was not before; a selection that is set holds the clicked friend |
| `App.SelectTwice` | src/App.jsx:39 | clicking the same friend twice restores whether that friend was selected; from no selection it returns to none |
| `App.AppState.constructor` | src/App.jsx:25-27 | the app starts with the initial roster, the add form closed and nobody selected |
| `App.AppState.HandleShowAddFriend` | src/App.jsx:29-31 | the add-form flag is negated; the roster and the selection are unchanged |
| `App.AppState.HandleAddFriend` | src/App.jsx:33-36 | the roster becomes the old roster followed by the friend; the form closes; the selection is kept; ids stay unique exactly when the newcomer's id was new |
| `App.AppState.HandleSelection` | src/App.jsx:38-41 | the selection toggles for that friend by id; the form ends closed; the roster is unchanged |
| `App.AppState.HandleSplitBill` | src/App.jsx:43-53 | length and order are kept; every record with the selected id gains the value and every other record is unchanged; the total moves by the value times the matching count; unique ids stay unique; the selection becomes none |
| `App.AppState.SubmitAddFriend` | src/App.jsx:135-161 | with an empty name or image nothing changes and the form stays open; otherwise the built friend is appended and the form closes |
| `App.AppState.SubmitSplitBill` | src/App.jsx:193-199 | with an empty or zero bill or expense nothing changes; otherwise the delta is applied to the records with the selected id and the selection becomes none |
| `App.ToggleAddFormTwice` | src/App.jsx:29-31 | pressing the add-form button twice leaves the whole state as it was |
| `App.SelectSameTwice` | src/App.jsx:38-41 | clicking the same friend twice leaves the form closed, the roster unchanged, and the selection at none unless that friend was selected at the start |
| `App.ClarkSplitsABill` | src/App.jsx:43-53 | from the initial state, selecting Clark (balance -7) and splitting bill 50 with expense 20, the user paying, leaves Clark at 23 with id, name and image unchanged, the other friends untouched and nobody selected |

## Left out

- Rendering is not modelled: JSX, CSS classes, `Button`, the `FriendsList` markup, and the wiring of the inputs and the select.
- React's `useState` and the batching of updater functions are not modelled. Each handler is one atomic transition on the current state.
- Amounts are Dafny `int`, not JavaScript numbers. Fractional amounts, floating-point rounding and `NaN` from `Number(...)` are out of scope. An empty field and a zero field are both falsy in the source, and both are 0 here.
- `AddFriendForm.ToLower`: only ASCII letters are lower-cased. JavaScript's Unicode case mapping is not modelled; for example, it maps some characters to two. Whitespace is the full JavaScript `\s` class.
- Avatar URLs are opaque strings. Only the rule that appends the id to the default prefix is modelled; fetching the image is not.
- `e.preventDefault()` and the reset of the forms' own input fields after a submission are not modelled (src/App.jsx:136, 159-160, 194). These are UI housekeeping.
- `SubmitAddFriend` does not require `showAddFriend`, although the add form is only rendered while it holds (src/App.jsx:64), because the submit handler never reads it.
