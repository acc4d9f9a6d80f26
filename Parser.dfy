/**
 * The parse pipeline: from a decoded export document to a Channel with its users and
 * its messages, each message's author resolved through the user index and the
 * messages stably sorted by time.
 */
module Parser {
  import opened Wrappers
  import opened Text
  import opened Sequences
  import opened Entities
  import opened MessageLists
  import opened Channels

  // ----- the decoded document -----

  /** A `meta.users` entry: the user's display name. */
  datatype UserInfo = UserInfo(name: string)

  /** A `meta.servers` entry: the channel's type and name. */
  datatype Server = Server(kind: string, name: string)

  /** A message record: `u` is a key of `meta.userindex`, `t` is epoch milliseconds, `m` the optional text. */
  datatype Record = Record(u: string, t: int, m: Option<string>)

  /**
   * The `meta` section. `users` and the message maps are ordered dictionaries, kept as
   * sequences of (key, value) pairs in document order.
   */
  datatype Meta = Meta(users: seq<(string, UserInfo)>, userindex: map<string, string>, servers: seq<Server>)

  /** The whole document: `data` maps a channel-ID string to that channel's (message ID, record) pairs. */
  datatype Document = Document(meta: Meta, data: seq<(string, seq<(string, Record)>)>)

  /** The errors parse raises on a document of the shape above. */
  datatype ParseError =
    | KeyError(key: string)     // a dictionary lookup of a missing key
    | IndexError                // `[0]` of an empty list
    | ValueError(literal: string) // `int()` of a string that is not a decimal integer

  /** Dictionary lookup `d[key]` on an ordered dictionary. */
  function Get<V>(d: seq<(string, V)>, key: string): Option<V>
  {
    if d == [] then None
    else if d[0].0 == key then Some(d[0].1)
    else Get(d[1..], key)
  }

  // ----- the parse, as functions of the document -----

  /** `int(userID)` for each `meta.users` key in order; the ValueError of the first key that is not an integer. */
  function UserIDs(entries: seq<(string, UserInfo)>): Result<seq<int>, ParseError>
  {
    if entries == [] then Success([])
    else
      match UserIDs(entries[..|entries| - 1])
      case Failure(e) => Failure(e)
      case Success(ids) =>
        match ParseInt(entries[|entries| - 1].0)
        case None => Failure(ValueError(entries[|entries| - 1].0))
        case Some(id) => Success(ids + [id])
  }

  /** What parse reads after the users: the channel metadata and the channel's records. */
  datatype Header = Header(channelID: int, name: string, kind: string, records: seq<(string, Record)>)

  /** `meta.servers[0]`, the channel ID `int(first key of data)` and `data[str(channelID)]`, with their errors. */
  function ReadHeader(doc: Document): Result<Header, ParseError>
  {
    if |doc.meta.servers| == 0 then Failure(IndexError)
    else if |doc.data| == 0 then Failure(IndexError)
    else
      match ParseInt(doc.data[0].0)
      case None => Failure(ValueError(doc.data[0].0))
      case Some(channelID) =>
        match Get(doc.data, IntToString(channelID))
        case None => Failure(KeyError(IntToString(channelID)))
        case Some(records) =>
          Success(Header(channelID, doc.meta.servers[0].name, doc.meta.servers[0].kind, records))
  }

  /** The error resolving one record's author raises: `userindex[u]` missing, or not an integer. */
  function RecordFailure(userindex: map<string, string>, r: Record): Option<ParseError>
  {
    if r.u !in userindex then Some(KeyError(r.u))
    else if ParseInt(userindex[r.u]).None? then Some(ValueError(userindex[r.u]))
    else None
  }

  /** The error of the first record, in document order, whose author cannot be resolved. */
  function RecordsFailure(userindex: map<string, string>, records: seq<(string, Record)>): Option<ParseError>
  {
    if records == [] then None
    else
      match RecordsFailure(userindex, records[..|records| - 1])
      case Some(e) => Some(e)
      case None => RecordFailure(userindex, records[|records| - 1].1)
  }

  /** The error parse raises on `doc`, if any: the first one in the order the parse runs. */
  function ParseFailure(doc: Document): Option<ParseError>
  {
    match UserIDs(doc.meta.users)
    case Failure(e) => Some(e)
    case Success(_) =>
      match ReadHeader(doc)
      case Failure(e) => Some(e)
      case Success(h) => RecordsFailure(doc.meta.userindex, h.records)
  }

  /** A record's text: `m` when present, "" otherwise. */
  function TextOf(r: Record): string
  {
    match r.m
    case Some(text) => text
    case None => ""
  }

  /** `int(userindex[u])`. */
  function AuthorID(userindex: map<string, string>, r: Record): int
    requires RecordFailure(userindex, r).None?
  {
    ParseInt(userindex[r.u]).value
  }

  /** The message parse builds from one record, its author looked up among `users`. */
  function MessageOf(users: seq<User>, userindex: map<string, string>, r: Record): Message
    requires RecordFailure(userindex, r).None?
  {
    Message(TextOf(r), r.t, FirstByKey(users, UserID, AuthorID(userindex, r)))
  }

  /** The messages of `records`, in document order (before the sort). */
  function Messages(users: seq<User>, userindex: map<string, string>, records: seq<(string, Record)>): (ms: seq<Message>)
    requires RecordsFailure(userindex, records).None?
    ensures |ms| == |records|
  {
    if records == [] then []
    else Messages(users, userindex, records[..|records| - 1]) + [MessageOf(users, userindex, records[|records| - 1].1)]
  }

  /**
   * `c` is the channel parse builds from `doc`: the header fields, one user per
   * `meta.users` entry in order, and the messages of the channel's records sorted by time.
   */
  ghost predicate Represents(c: Channel, doc: Document)
    reads c.messages
    requires ParseFailure(doc).None?
  {
    var ids := UserIDs(doc.meta.users).value;
    var h := ReadHeader(doc).value;
    && c.channelID == h.channelID && c.name == h.name && c.kind == h.kind
    && |c.users| == |ids| == |doc.meta.users|
    && (forall i :: 0 <= i < |c.users| ==>
          && c.users[i].userID == ids[i]
          && c.users[i].name == doc.meta.users[i].1.name
          && c.users[i].Valid())
    && c.messages.items == SortByTime(Messages(c.users, doc.meta.userindex, h.records))
  }

  // ----- facts about the parse -----

  /** The user IDs are the keys converted one by one, and the error is that of the first bad key. */
  lemma {:induction false} UserIDsSpec(entries: seq<(string, UserInfo)>)
    ensures UserIDs(entries).Success? <==> forall i :: 0 <= i < |entries| ==> ParseInt(entries[i].0).Some?
    ensures UserIDs(entries).Success? ==>
      && |UserIDs(entries).value| == |entries|
      && forall i :: 0 <= i < |entries| ==> UserIDs(entries).value[i] == ParseInt(entries[i].0).value
    ensures UserIDs(entries).Failure? ==>
      exists i :: 0 <= i < |entries| && ParseInt(entries[i].0).None? &&
        UserIDs(entries).error == ValueError(entries[i].0) &&
        forall j :: 0 <= j < i ==> ParseInt(entries[j].0).Some?
    decreases |entries|
  {
    if entries != [] {
      var p := entries[..|entries| - 1];
      UserIDsSpec(p);
      assert forall i :: 0 <= i < |p| ==> p[i] == entries[i];
    }
  }

  /** Once a prefix of the entries fails, the whole list fails with the same error. */
  lemma {:induction false} UserIDsKeepsFailure(entries: seq<(string, UserInfo)>, n: nat)
    requires n <= |entries| && UserIDs(entries[..n]).Failure?
    ensures UserIDs(entries) == UserIDs(entries[..n])
    decreases |entries| - n
  {
    if n < |entries| {
      var q := entries[..n + 1];
      assert q[..|q| - 1] == entries[..n];
      UserIDsKeepsFailure(entries, n + 1);
    } else {
      assert entries[..n] == entries;
    }
  }

  /** Once a prefix of the records fails, all of them fail with the same error. */
  lemma {:induction false} RecordsFailureKept(userindex: map<string, string>, records: seq<(string, Record)>, n: nat)
    requires n <= |records| && RecordsFailure(userindex, records[..n]).Some?
    ensures RecordsFailure(userindex, records) == RecordsFailure(userindex, records[..n])
    decreases |records| - n
  {
    if n < |records| {
      var q := records[..n + 1];
      assert q[..|q| - 1] == records[..n];
      RecordsFailureKept(userindex, records, n + 1);
    } else {
      assert records[..n] == records;
    }
  }

  /** The records fail exactly when one of them does, and then with the error of the first that does. */
  lemma {:induction false} RecordsFailureSpec(userindex: map<string, string>, records: seq<(string, Record)>)
    ensures RecordsFailure(userindex, records).None? <==>
      forall i :: 0 <= i < |records| ==> RecordFailure(userindex, records[i].1).None?
    ensures RecordsFailure(userindex, records).Some? ==>
      exists i :: 0 <= i < |records| && RecordsFailure(userindex, records) == RecordFailure(userindex, records[i].1) &&
        forall j :: 0 <= j < i ==> RecordFailure(userindex, records[j].1).None?
    decreases |records|
  {
    if records != [] {
      var p := records[..|records| - 1];
      RecordsFailureSpec(userindex, p);
      assert forall i :: 0 <= i < |p| ==> p[i] == records[i];
    }
  }

  /**
   * One message per record, in document order: its time is `t`, its text is `m` or ""
   * when the record has none, and its author is the first user whose ID is `int(userindex[u])`.
   */
  lemma {:induction false} MessagesSpec(users: seq<User>, userindex: map<string, string>, records: seq<(string, Record)>)
    requires RecordsFailure(userindex, records).None?
    ensures |Messages(users, userindex, records)| == |records|
    ensures forall i :: 0 <= i < |records| ==>
      var m, r := Messages(users, userindex, records)[i], records[i].1;
      && RecordFailure(userindex, r).None?
      && m.time == r.t
      && m.text == (if r.m.Some? then r.m.value else "")
      && m.user == FirstByKey(users, UserID, AuthorID(userindex, r))
    decreases |records|
  {
    RecordsFailureSpec(userindex, records);
    if records != [] {
      var p := records[..|records| - 1];
      MessagesSpec(users, userindex, p);
      assert forall i :: 0 <= i < |p| ==> p[i] == records[i];
    }
  }

  /** Every resolved author is one of the channel's users. */
  lemma MessagesAuthorsKnown(users: seq<User>, userindex: map<string, string>, records: seq<(string, Record)>)
    requires RecordsFailure(userindex, records).None?
    ensures forall m :: m in Messages(users, userindex, records) && m.user.Some? ==> m.user.value in users
  {
    MessagesSpec(users, userindex, records);
    forall i | 0 <= i < |records| {
      FirstByKeyIn(users, UserID, AuthorID(userindex, records[i].1));
    }
  }

  /** A record whose user ID belongs to no user gives a message without an author. */
  lemma UnresolvedAuthor(users: seq<User>, userindex: map<string, string>, records: seq<(string, Record)>, i: nat)
    requires RecordsFailure(userindex, records).None? && i < |records|
    requires RecordFailure(userindex, records[i].1).None?
    requires forall j :: 0 <= j < |users| ==> users[j].userID != AuthorID(userindex, records[i].1)
    ensures Messages(users, userindex, records)[i].user == None
  {
    MessagesSpec(users, userindex, records);
    FirstByKeySpec(users, UserID, AuthorID(userindex, records[i].1));
  }

  /** When the first key of `data` is written as `str` writes it, parse reads that key's records. */
  lemma ReadHeaderOfCanonicalKey(doc: Document)
    requires |doc.meta.servers| > 0 && |doc.data| > 0
    requires IsCanonical(doc.data[0].0)
    ensures ReadHeader(doc).Success?
    ensures ReadHeader(doc).value.channelID == ParseInt(doc.data[0].0).value
    ensures ReadHeader(doc).value.records == doc.data[0].1
  {
    IntToStringOfParseInt(doc.data[0].0);
  }

  lemma ChannelIDExample(records: seq<(string, Record)>, m: Meta)
    requires |m.servers| > 0
    ensures ReadHeader(Document(m, [("555", records)])).Success?
    ensures ReadHeader(Document(m, [("555", records)])).value.channelID == 555
  {
    var doc := Document(m, [("555", records)]);
    assert IsDigits("555");
    assert DigitsValue("555") == 555 by {
      assert "555"[..2] == "55" && "55"[..1] == "5" && "5"[..0] == "";
    }
    ReadHeaderOfCanonicalKey(doc);
  }

  // ----- the parse, step by step -----

  /** search(lst, attr, value): the first item whose `key` is `value`, None when there is none. */
  method Search<T, K(==)>(lst: seq<T>, key: T -> K, value: K) returns (r: Option<T>)
    ensures r == FirstByKey(lst, key, value)
  {
    for i := 0 to |lst|
      invariant FirstByKey(lst, key, value) == FirstByKey(lst[i..], key, value)
    {
      var item := lst[i];
      if key(item) == value {
        return Some(item);
      }
      assert lst[i..][1..] == lst[i + 1..];
    }
    return None;
  }

  /** The users loop of parse: one User(int(key), name) per `meta.users` entry, in order. */
  method BuildUsers(entries: seq<(string, UserInfo)>) returns (r: Result<seq<User>, ParseError>)
    ensures r.Failure? <==> UserIDs(entries).Failure?
    ensures r.Failure? ==> r.error == UserIDs(entries).error
    ensures r.Success? ==>
      && |r.value| == |entries| == |UserIDs(entries).value|
      && (forall k :: 0 <= k < |entries| ==>
            && r.value[k].userID == UserIDs(entries).value[k] && r.value[k].name == entries[k].1.name
            && r.value[k].Valid() && fresh(r.value[k]))
      && (forall k, l :: 0 <= k < l < |entries| ==> r.value[k] != r.value[l])
  {
    var users: seq<User> := [];
    ghost var ids: seq<int> := [];
    for i := 0 to |entries|
      invariant |users| == |ids| == i
      invariant UserIDs(entries[..i]) == Success(ids)
      invariant forall k :: 0 <= k < i ==>
        && users[k].userID == ids[k] && users[k].name == entries[k].1.name
        && users[k].Valid() && fresh(users[k])
      invariant forall k, l :: 0 <= k < l < i ==> users[k] != users[l]
    {
      var (userID, user) := entries[i];
      assert entries[..i + 1][..i] == entries[..i];
      var id := ParseInt(userID);
      if id.None? {
        UserIDsKeepsFailure(entries, i + 1);
        return Failure(ValueError(userID));
      }
      var u := new User(id.value, user.name);
      users := users + [u];
      ids := ids + [id.value];
    }
    assert entries[..|entries|] == entries;
    return Success(users);
  }

  /** The messages loop of parse: one message per record, appended in document order. */
  method BuildMessages(users: seq<User>, userindex: map<string, string>, records: seq<(string, Record)>)
    returns (r: Result<MessageList, ParseError>)
    ensures r.Failure? <==> RecordsFailure(userindex, records).Some?
    ensures r.Failure? ==> r.error == RecordsFailure(userindex, records).value
    ensures r.Success? ==> fresh(r.value) && r.value.items == Messages(users, userindex, records)
  {
    var messages := new MessageList();
    for i := 0 to |records|
      invariant fresh(messages)
      invariant RecordsFailure(userindex, records[..i]).None?
      invariant messages.items == Messages(users, userindex, records[..i])
    {
      var (messageID, message) := records[i];
      var q := records[..i + 1];
      assert q[..|q| - 1] == records[..i];
      var text := if message.m.Some? then message.m.value else "";
      if message.u !in userindex {
        RecordsFailureKept(userindex, records, i + 1);
        return Failure(KeyError(message.u));
      }
      var authorID := ParseInt(userindex[message.u]);
      if authorID.None? {
        RecordsFailureKept(userindex, records, i + 1);
        return Failure(ValueError(userindex[message.u]));
      }
      var author := Search(users, UserID, authorID.value);
      messages.Append(Message(text, message.t, author));
    }
    assert records[..|records|] == records;
    return Success(messages);
  }

  /**
   * parse, from the decoded document on: build the users, read the channel header,
   * build one message per record, sort the messages by time and assemble the channel.
   */
  method Parse(doc: Document) returns (r: Result<Channel, ParseError>)
    ensures r.Failure? <==> ParseFailure(doc).Some?
    ensures r.Failure? ==> r.error == ParseFailure(doc).value
    ensures r.Success? ==> ParseFailure(doc).None? && fresh(r.value) && fresh(r.value.messages) && Represents(r.value, doc)
    ensures r.Success? ==> forall i :: 0 <= i < |r.value.users| ==> fresh(r.value.users[i])
    ensures r.Success? ==> forall i, j :: 0 <= i < j < |r.value.users| ==> r.value.users[i] != r.value.users[j]
    ensures r.Success? ==> SortedByTime(r.value.messages.items)
    ensures r.Success? ==> forall m :: m in r.value.messages.items && m.user.Some? ==> m.user.value in r.value.users
  {
    var meta := doc.meta;
    var built := BuildUsers(meta.users);
    if built.Failure? {
      return Failure(built.error);
    }
    var users := built.value;
    var userindex := meta.userindex;
    if |meta.servers| == 0 {
      return Failure(IndexError);
    }
    var kind := meta.servers[0].kind;
    var name := meta.servers[0].name;
    var data := doc.data;
    if |data| == 0 {
      return Failure(IndexError);
    }
    var key := ParseInt(data[0].0);
    if key.None? {
      return Failure(ValueError(data[0].0));
    }
    var channelID := key.value;
    var found := Get(data, IntToString(channelID));
    if found.None? {
      return Failure(KeyError(IntToString(channelID)));
    }
    var records := found.value;
    var listed := BuildMessages(users, userindex, records);
    if listed.Failure? {
      return Failure(listed.error);
    }
    var messages := listed.value;
    ghost var unsorted := messages.items;
    messages.SortInPlaceByTime();
    MessagesAuthorsKnown(users, userindex, records);
    forall m | m in messages.items ensures m in unsorted {
      assert m in multiset(messages.items);
    }
    var channel := new Channel(channelID, users, messages, name, kind);
    return Success(channel);
  }
}
