// The add-friend form's submit handler: the id it derives from the entered
// name, the avatar it picks, and the record it hands to the app.

module AddFriendForm {
  import opened Friends

  /** The characters of JavaScript's `\s` class. */
  predicate IsWhitespace(c: char)
    ensures c == ' ' || c == '\t' || c == '\n' || c == '\r' ==> IsWhitespace(c)
    ensures IsWhitespace(c) ==> !('A' <= c <= 'Z') && !('a' <= c <= 'z') && !('0' <= c <= '9')
  {
    var n := c as int;
    n == 0x20 || 0x09 <= n <= 0x0D || n == 0xA0 || n == 0x1680 ||
    0x2000 <= n <= 0x200A || n == 0x2028 || n == 0x2029 || n == 0x202F ||
    n == 0x205F || n == 0x3000 || n == 0xFEFF
  }

  predicate IsUpper(c: char)
  {
    'A' <= c <= 'Z'
  }

  /** The lower case of one character, over ASCII letters. */
  function LowerChar(c: char): (r: char)
    ensures !IsUpper(r)
    ensures IsWhitespace(r) == IsWhitespace(c)
    ensures IsUpper(c) ==> r as int == c as int + 32
    ensures !IsUpper(c) ==> r == c
  {
    if IsUpper(c) then (c as int + 32) as char else c
  }

  /** The name in lower case, letter by letter. */
  function ToLower(s: string): (r: string)
    ensures |r| == |s|
    ensures forall c :: c in r ==> !IsUpper(c)
    ensures forall i :: 0 <= i < |s| ==> r[i] == LowerChar(s[i])
  {
    if s == [] then [] else [LowerChar(s[0])] + ToLower(s[1..])
  }

  /** The string with every run of whitespace dropped. */
  function RemoveWhitespace(s: string): (r: string)
    ensures |r| <= |s|
    ensures forall c :: c in r ==> c in s && !IsWhitespace(c)
    ensures forall c :: c in s && !IsWhitespace(c) ==> c in r
  {
    if s == [] then []
    else if IsWhitespace(s[0]) then RemoveWhitespace(s[1..])
    else [s[0]] + RemoveWhitespace(s[1..])
  }

  /** The id of a friend added under `name`: lower-cased, whitespace removed. */
  function DeriveId(name: string): (id: string)
    ensures |id| <= |name|
    ensures forall c :: c in id ==> !IsWhitespace(c) && !IsUpper(c)
    ensures forall i :: 0 <= i < |name| && !IsWhitespace(name[i]) ==> LowerChar(name[i]) in id
  {
    RemoveWhitespace(ToLower(name))
  }

  lemma {:induction false} ToLowerKeepsLower(s: string)
    requires forall c :: c in s ==> !IsUpper(c)
    ensures ToLower(s) == s
  {
    if s != [] {
      assert s[0] in s;
      assert forall c :: c in s[1..] ==> c in s;
      ToLowerKeepsLower(s[1..]);
    }
  }

  lemma {:induction false} RemoveWhitespaceKeepsSolid(s: string)
    requires forall c :: c in s ==> !IsWhitespace(c)
    ensures RemoveWhitespace(s) == s
  {
    if s != [] {
      assert s[0] in s;
      assert forall c :: c in s[1..] ==> c in s;
      RemoveWhitespaceKeepsSolid(s[1..]);
    }
  }

  /** Deriving an id from an id gives the same id back. */
  lemma DeriveIdIdempotent(name: string)
    ensures DeriveId(DeriveId(name)) == DeriveId(name)
  {
    var id := DeriveId(name);
    ToLowerKeepsLower(id);
    RemoveWhitespaceKeepsSolid(id);
  }

  lemma {:induction false} ToLowerConcat(a: string, b: string)
    ensures ToLower(a + b) == ToLower(a) + ToLower(b)
  {
    if a == [] {
      assert a + b == b;
    } else {
      assert (a + b)[0] == a[0] && (a + b)[1..] == a[1..] + b;
      ToLowerConcat(a[1..], b);
    }
  }

  lemma {:induction false} RemoveWhitespaceConcat(a: string, b: string)
    ensures RemoveWhitespace(a + b) == RemoveWhitespace(a) + RemoveWhitespace(b)
  {
    if a == [] {
      assert a + b == b;
    } else {
      assert (a + b)[0] == a[0] && (a + b)[1..] == a[1..] + b;
      RemoveWhitespaceConcat(a[1..], b);
    }
  }

  /** Deriving works piece by piece: the id of a concatenation is the
      concatenation of the ids. */
  lemma DeriveIdConcat(a: string, b: string)
    ensures DeriveId(a + b) == DeriveId(a) + DeriveId(b)
  {
    ToLowerConcat(a, b);
    RemoveWhitespaceConcat(ToLower(a), ToLower(b));
  }

  /** The id of a single character: nothing for whitespace, else its lower case. */
  lemma DeriveIdChar(c: char)
    ensures DeriveId([c]) == if IsWhitespace(c) then [] else [LowerChar(c)]
  {
    assert [c][1..] == [];
    assert ToLower([c]) == [LowerChar(c)];
    assert [LowerChar(c)][1..] == [];
  }

  lemma DeriveIdOfAl()
    ensures DeriveId("Al") == "al"
  {
    assert "Al" == ['A'] + ['l'];
    DeriveIdConcat(['A'], ['l']);
    DeriveIdChar('A'); DeriveIdChar('l');
  }

  lemma DeriveIdOfSpacedB()
    ensures DeriveId(" B") == "b"
  {
    assert " B" == [' '] + ['B'];
    DeriveIdConcat([' '], ['B']);
    DeriveIdChar(' '); DeriveIdChar('B');
  }

  lemma DeriveIdOfAlb()
    ensures DeriveId("alb") == "alb"
  {
    assert "alb" == ['a'] + ['l'] + ['b'];
    DeriveIdConcat(['a'] + ['l'], ['b']);
    DeriveIdConcat(['a'], ['l']);
    DeriveIdChar('a'); DeriveIdChar('l'); DeriveIdChar('b');
  }

  /** Names that differ only in case and spacing get the same id. */
  lemma NamesCollide()
    ensures DeriveId("Al B") == DeriveId("alb") == "alb"
  {
    DeriveIdOfAl();
    DeriveIdOfSpacedB();
    DeriveIdOfAlb();
    assert "Al B" == "Al" + " B";
    DeriveIdConcat("Al", " B");
  }

  /** The avatar of the new friend: the entered URL, unless it is the bare
      default prefix, which then gets the id appended. */
  function FinalImage(image: string, id: string): (r: string)
    ensures image != AvatarPrefix ==> r == image
    ensures image == AvatarPrefix ==> AvatarPrefix <= r && r[|AvatarPrefix|..] == id
  {
    if image == AvatarPrefix then AvatarPrefix + id else image
  }

  /** The record `handleSubmit` passes to `onAddFriend`, or None when the name
      or the image field is empty and the submission is dropped. */
  function NewFriend(name: string, image: string): (r: Option<Friend>)
    ensures r.None? <==> name == [] || image == []
  {
    if name == [] || image == [] then None
    else
      var id := DeriveId(name);
      Some(Friend(TextId(id), name, FinalImage(image, id), 0))
  }

  /** A new friend starts even, keeps the entered name, gets the derived id,
      and gets the default avatar for that id exactly when the image field
      still holds the default prefix. */
  lemma NewFriendShape(name: string, image: string)
    requires name != [] && image != []
    ensures NewFriend(name, image).Some?
    ensures var f := NewFriend(name, image).value;
      f.balance == 0 && f.name == name && f.id == TextId(DeriveId(name)) &&
      (image == AvatarPrefix ==> f.image == AvatarPrefix + DeriveId(name)) &&
      (image != AvatarPrefix ==> f.image == image)
  {
  }

  /** A new friend's id is a string, so it never equals an id of the initial
      roster, even for a name such as "118836". */
  lemma NewFriendIdIsText(name: string, image: string)
    requires name != [] && image != []
    ensures forall g :: g in InitialFriends() ==> g.id != NewFriend(name, image).value.id
  {
    InitialFriendsUnique();
  }

  /** A name made only of whitespace passes the presence check and yields the empty id. */
  lemma BlankNameGivesEmptyId()
    ensures NewFriend(" ", AvatarPrefix) == Some(Friend(TextId(""), " ", AvatarPrefix, 0))
  {
    DeriveIdChar(' ');
    assert AvatarPrefix + "" == AvatarPrefix;
  }
}
