/** The value objects of the chat model: a user and a message. */
module Entities {
  import opened Wrappers
  import opened Text

  /**
   * The short form of a display name: the name cut at its first space, and that
   * cut again at its first hyphen (`name.split(" ")[0].split("-")[0]`).
   */
  function ShortName(name: string): string
  {
    UpTo(UpTo(name, ' '), '-')
  }

  /**
   * ShortName is the longest prefix of the name holding neither a space nor a hyphen:
   * what follows it in the name, if anything, is a space or a hyphen.
   */
  lemma ShortNameSpec(name: string)
    ensures ShortName(name) <= name
    ensures ' ' !in ShortName(name) && '-' !in ShortName(name)
    ensures |ShortName(name)| == |name| || name[|ShortName(name)|] in {' ', '-'}
  {
    var first := UpTo(name, ' ');
    UpToSpec(name, ' ');
    UpToSpec(first, '-');
    var r := ShortName(name);
    assert r == first[..|r|];
    if |r| < |first| {
      assert name[|r|] == first[|r|] == '-';
    }
  }

  /** ShortName is the only prefix with the properties of ShortNameSpec. */
  lemma ShortNameUnique(name: string, r: string)
    requires r <= name
    requires ' ' !in r && '-' !in r
    requires |r| == |name| || name[|r|] in {' ', '-'}
    ensures r == ShortName(name)
  {
    ShortNameSpec(name);
  }

  /** A name with neither a space nor a hyphen is its own short name. */
  lemma ShortNameOfPlainName(name: string)
    requires ' ' !in name && '-' !in name
    ensures ShortName(name) == name
  {
    ShortNameUnique(name, name);
  }

  lemma ShortNameOfTwoWords()
    ensures ShortName("Jane Doe") == "Jane"
  {
    var name, r := "Jane Doe", "Jane";
    assert r <= name && name[|r|] == ' ';
    ShortNameUnique(name, r);
  }

  lemma ShortNameOfHyphenated()
    ensures ShortName("Anne-Marie") == "Anne"
  {
    var name, r := "Anne-Marie", "Anne";
    assert r <= name && name[|r|] == '-';
    ShortNameUnique(name, r);
  }

  /**
   * A user. Users are objects: two users are the same user only when they are the
   * same object, as with the default equality of the original classes.
   */
  class User {
    const userID: int
    const name: string
    const shortname: string

    /** The short name was derived from the name when the user was built. */
    ghost predicate Valid()
    {
      shortname == ShortName(name)
    }

    constructor (userID: int, name: string)
      ensures this.userID == userID && this.name == name
      ensures Valid()
    {
      this.userID := userID;
      this.name := name;
      this.shortname := ShortName(name);
    }
  }

  /** The key `search(users, 'userID', ...)` compares. */
  function UserID(u: User): int
  {
    u.userID
  }

  /**
   * A message: its text, its time as epoch milliseconds, and its author, None when
   * the author could not be resolved. The message identifier is not kept.
   */
  datatype Message = Message(text: string, time: int, user: Option<User>)
}
