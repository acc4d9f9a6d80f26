/** A channel (a server channel or a direct-message conversation) and its user lookups. */
module Channels {
  import opened Wrappers
  import opened Text
  import opened Sequences
  import opened Entities
  import opened MessageLists

  /** A `find_user` query: the name searched for, exact or substring match, case-sensitive or not. */
  datatype UserQuery = UserQuery(name: string, strict: bool, caseSensitive: bool)

  /** Whether `find_user` with query `q` returns the user `u`. */
  predicate NameMatches(q: UserQuery, u: User)
  {
    if q.strict then
      if q.caseSensitive then q.name == u.name else Lower(q.name) == Lower(u.name)
    else
      if q.caseSensitive then IsSubstring(q.name, u.name) else IsSubstring(Lower(q.name), Lower(u.name))
  }

  /**
   * The four kinds of query are ordered: an exact match is also a substring match,
   * and a case-sensitive match is also a case-insensitive one.
   */
  lemma NameMatchesWeakening(q: UserQuery, u: User)
    ensures NameMatches(q, u) && q.strict ==> NameMatches(q.(strict := false), u)
    ensures NameMatches(q, u) && q.caseSensitive ==> NameMatches(q.(caseSensitive := false), u)
  {
    IsSubstringReflexive(u.name);
    IsSubstringReflexive(Lower(u.name));
    if IsSubstring(q.name, u.name) {
      LowerKeepsSubstring(q.name, u.name);
    }
  }

  /** A user found by an exact, case-sensitive search is found by every other kind. */
  lemma FindUserStrictestIsLeast(users: seq<User>, name: string, strict: bool, caseSensitive: bool, u: User)
    requires u in Select(users, UserQuery(name, true, true), NameMatches)
    ensures u in Select(users, UserQuery(name, strict, caseSensitive), NameMatches)
  {
    SelectMember(users, UserQuery(name, true, true), NameMatches, u);
    SelectMember(users, UserQuery(name, strict, caseSensitive), NameMatches, u);
    NameMatchesWeakening(UserQuery(name, true, true), u);
    NameMatchesWeakening(UserQuery(name, true, false), u);
    NameMatchesWeakening(UserQuery(name, false, true), u);
  }

  /** A channel as the parser builds it; none of its fields changes afterwards. */
  class Channel {
    const channelID: int
    const users: seq<User>
    const messages: MessageList
    const name: string
    const kind: string

    constructor (channelID: int, users: seq<User>, messages: MessageList, name: string, kind: string)
      ensures this.channelID == channelID && this.users == users && this.messages == messages
      ensures this.name == name && this.kind == kind
    {
      this.channelID := channelID;
      this.users := users;
      this.messages := messages;
      this.name := name;
      this.kind := kind;
    }

    /**
     * find_user: the users, in list order, whose name equals `name` (strict) or
     * contains it (not strict), both sides lowered when not case-sensitive.
     */
    method FindUser(name: string, strict: bool, caseSensitive: bool) returns (out: seq<User>)
      ensures out == Select(users, UserQuery(name, strict, caseSensitive), NameMatches)
    {
      out := [];
      ghost var q := UserQuery(name, strict, caseSensitive);
      for i := 0 to |users|
        invariant out == Select(users[..i], q, NameMatches)
      {
        var user := users[i];
        if strict {
          if caseSensitive {
            if name == user.name {
              out := out + [user];
            }
          } else {
            if Lower(name) == Lower(user.name) {
              out := out + [user];
            }
          }
        } else {
          if caseSensitive {
            if IsSubstring(name, user.name) {
              out := out + [user];
            }
          } else {
            if IsSubstring(Lower(name), Lower(user.name)) {
              out := out + [user];
            }
          }
        }
        SelectPrefix(users, i, q, NameMatches);
      }
      assert users[..|users|] == users;
    }

    /** find_user_by_id: the first user in the list with this ID, None when there is none. */
    method FindUserById(id: int) returns (r: Option<User>)
      ensures r == FirstByKey(users, UserID, id)
    {
      for i := 0 to |users|
        invariant FirstByKey(users, UserID, id) == FirstByKey(users[i..], UserID, id)
      {
        var user := users[i];
        if user.userID == id {
          return Some(user);
        }
        assert users[i..][1..] == users[i + 1..];
      }
      return None;
    }
  }
}
