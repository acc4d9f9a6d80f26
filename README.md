# DHTParser in Dafny

A model of DHTParser, a reader for the chat-history exports of Discord History Tracker (DHT).
An export is a snapshot of one channel: `meta` holds the users, the user index and the
servers, and `data` holds the channel's messages. The parser turns the export into a
`Channel`. A channel holds a list of `User`s and a `MessageList` sorted by time. Each
message's author is resolved through the `userindex` indirection. The message list then
offers filters by author, day, time range, substring and exact text.

Modules, following the structure of `dhtparser.py`:

- `Wrappers`: `Option` (Python's `None`) and `Result` (a value or a raised error).
- `Text`: the built-ins the parser relies on. These are substring `in`, ASCII `lower()`,
  `split(sep)[0]`, `int(s)` and `str(n)`.
- `Sequences`: the two scans the code is made of. `Select` collects every match in
  order. `FirstByKey` returns the first element whose key equals a value.
- `Entities`: the `User` class (a class, so users compare by identity like Python
  objects), the short-name rule, and the `Message` datatype.
- `MessageLists`: the filter criteria, the stable sort by time (`list.sort(key=...)`), and
  the `MessageList` class with its filter methods. Each filter fills a fresh list by
  appending in a loop.
- `Channels`: the `Channel` class with `FindUser` and `FindUserById`.
- `Parser`: the decoded document, the parse errors, the parse as functions of the
  document, `Search`, and the imperative `Parse`. `Parse` builds the users and the messages
  in loops through `BuildUsers` and `BuildMessages`, sorts in place, and is proved to
  produce exactly what those functions describe.

The input is the already-decoded document, typed after its schema.
- `meta.users` and the message maps are ordered dictionaries, kept as sequences of
  (key, value) pairs in document order.
- `userindex` is a map from index key to user-ID string.
- A message `time` is the record's `t`, in integer epoch milliseconds.

The errors a document of that shape can raise are modelled as `ParseError` values:
- `ValueError`: `int()` of a bad user key, channel key or user-index entry.
- `IndexError`: empty `servers` or empty `data`.
- `KeyError`: `data[str(channelID)]` missing, or a record's `u` missing from `userindex`.

Two behaviours of the code a reader may not expect, both kept by the model:
- The channel's messages are read from `data[str(int(first key))]`, not from the first key
  itself. A first key such as `"0555"` therefore leads to a `KeyError`, or to another
  entry's messages. `ReadHeaderOfCanonicalKey` proves that a key in canonical form reads its
  own records.
- `get_messages_with(case=True)` keeps every message when the substring is non-empty and
  none when it is empty. The model keeps this behaviour (see Findings).

## Model

| member | source | states |
|---|---|---|
| `Text.IsSubstring` | dhtparser.py:70 | Python's `sub in s`: `sub` is a prefix of `s` or occurs in `s` without its first character |
| `Text.Lower` | dhtparser.py:66 | `s.lower()` on ASCII: each character lowered, the length kept |
| `Text.UpTo` | dhtparser.py:93 | `s.split(sep)[0]`: the characters of `s` before the first `sep`, or all of `s` |
| `Text.ParseInt` | dhtparser.py:12 | `int(s)`: an optional `-` or `+` followed by decimal digits gives their value, anything else nothing, which the model reports as a ValueError (narrower than Python's `int()`, see Left out) |
| `Text.IntToString` | dhtparser.py:19 | `str(n)`: the canonical decimal form, with `-` for a negative number |
| `Sequences.Select` | dhtparser.py:59-75 | the collect-all loops: the elements that meet the criterion, in input order |
| `Sequences.FirstByKey` | dhtparser.py:31-35 | the first-match loops: the first element whose key equals the value, or None |
| `Entities.ShortName` | dhtparser.py:93 | `name.split(" ")[0].split("-")[0]` |
| `Entities.UserID` | dhtparser.py:34 | `getattr(user, 'userID')`, the key `search` compares |
| `MessageLists.Matches` | dhtparser.py:104-152 | the test of each filter: author by identity (:108), local day (:116), half-open interval (:124), non-empty substring when case-sensitive (:133), lowered containment otherwise (:137), containment as documented at :129, and exact or lowered equality (:146, :150) |
| `MessageLists.InsertByTime` | dhtparser.py:27 | inserts a message into a time-sorted list after the messages whose time is not greater and before those whose time is greater |
| `MessageLists.SortByTime` | dhtparser.py:27 | `list.sort(key=time)`, the stable sort by time, as an insertion sort |
| `Channels.NameMatches` | dhtparser.py:61-74 | the four tests of `find_user`: equal or contained, compared as given or lowered |
| `Parser.Get` | dhtparser.py:19 | `data[key]` on an ordered dictionary: the value of the first pair with that key, or None (a KeyError) |
| `Parser.UserIDs` | dhtparser.py:10-12 | `int` of each `meta.users` key in order, or the ValueError of the first bad key |
| `Parser.ReadHeader` | dhtparser.py:14-19 | `meta.servers[0]`, then `int` of the first key of `data`, then `data[str(channelID)]`, with an IndexError, ValueError or KeyError in that order |
| `Parser.RecordFailure` | dhtparser.py:24 | the error resolving one record's author: KeyError when `u` is not in `userindex`, ValueError when its entry is not an integer |
| `Parser.RecordsFailure` | dhtparser.py:19-24 | the error of the first record, in document order, whose author cannot be resolved |
| `Parser.ParseFailure` | dhtparser.py:10-24 | the first error the parse raises, in the order the code runs: users, then servers and data, then the records |
| `Parser.TextOf` | dhtparser.py:20-23 | the record's `m`, or "" when it has none |
| `Parser.AuthorID` | dhtparser.py:24 | `int(userindex[u])` |
| `Parser.MessageOf` | dhtparser.py:20-26 | the message one record gives: its text, its `t`, and the first user with its author ID |
| `Parser.Messages` | dhtparser.py:19-26 | one message per record, in document order, before the sort |
| `Parser.Represents` | dhtparser.py:28 | the channel parse returns: the header fields, one user per `meta.users` entry, and the sorted messages |
| `Text.IsSubstringAt` | dhtparser.py:137 | Python's `sub in s` holds iff `sub` starts at some position of `s`; the empty string occurs in every string |
| `Text.LowerKeepsSubstring` | dhtparser.py:73 | if `sub` occurs in `s` then `lower(sub)` occurs in `lower(s)`: under ASCII lowering, a case-sensitive hit is also a case-insensitive one |
| `Text.UpToSpec` | dhtparser.py:93 | `s.split(sep)[0]` is a prefix of `s` without `sep`, followed in `s` by `sep` or by nothing |
| `Text.ParseIntOfIntToString` | dhtparser.py:17-19 | `int(str(n)) == n` for every integer, and `str(n)` is canonical |
| `Text.IntToStringOfParseInt` | dhtparser.py:17-19 | `str(int(s)) == s` for every canonical decimal string `s` |
| `Sequences.SelectExactly` | dhtparser.py:59-75 | a collect-all scan returns the input read at increasing positions, and a position is among them iff its element matches |
| `Sequences.SelectMember` | dhtparser.py:106-110 | an element is in a scan's result iff it is in the input and matches |
| `Sequences.FirstByKeySpec` | dhtparser.py:31-35 | the first-match scan returns the element at the least position whose key equals the value, and None iff no element's key does |
| `Entities.ShortNameSpec` | dhtparser.py:93 | `shortname` is a prefix of `name` with no space or hyphen, followed in `name` by a space, a hyphen or nothing |
| `Entities.ShortNameUnique` | dhtparser.py:93 | any prefix with those properties is `shortname`: the name cut at its first space or hyphen, whichever comes first |
| `Entities.ShortNameOfPlainName` | dhtparser.py:93 | a name with neither a space nor a hyphen is its own short name |
| `Entities.ShortNameOfTwoWords` | dhtparser.py:93 | the short name of "Jane Doe" is "Jane" |
| `Entities.ShortNameOfHyphenated` | dhtparser.py:93 | the short name of "Anne-Marie" is "Anne" |
| `Entities.User.constructor` | dhtparser.py:90-93 | a user keeps its ID and name, and its short name is derived from the name |
| `MessageLists.SentByKeepsAuthor` | dhtparser.py:104-110 | `get_messages_from(user)` keeps a message iff its author is `user` (by identity) |
| `MessageLists.UnresolvedNeverSentBy` | dhtparser.py:108 | a message of the list with no resolved author is never returned when asking for a real user |
| `MessageLists.SentBetweenHalfOpen` | dhtparser.py:120-126 | `get_messages_between` keeps a message iff `fromdate <= time < todate` |
| `MessageLists.SentBetweenEmpty` | dhtparser.py:124 | an empty or reversed interval selects no message |
| `MessageLists.CaseSensitiveContainingIgnoresText` | dhtparser.py:131-134 | with `case=True` the result is the whole list when the substring is non-empty and empty otherwise |
| `MessageLists.CaseSensitiveContainingCounterexample` | dhtparser.py:131-134 | a message "xyz" is kept by a case-sensitive search for "abc", which it does not contain |
| `MessageLists.CaseInsensitiveContainingFindsMore` | dhtparser.py:128-139 | with the documented meaning and under ASCII lowering, every message found case-sensitively is also found case-insensitively |
| `MessageLists.CaseInsensitiveEmptySubstringKeepsAll` | dhtparser.py:135-138 | with `case=False` an empty substring keeps every message |
| `MessageLists.SortByTimeSorted` | dhtparser.py:27 | after the sort, times never decrease |
| `MessageLists.SortByTimePermutes` | dhtparser.py:27 | the sort keeps every message as often as it occurred |
| `MessageLists.SortByTimeStable` | dhtparser.py:27 | the sort is stable: the messages of any one time keep their document order |
| `MessageLists.SortedByGroupsUnique` | dhtparser.py:27 | two time-sorted lists with the same equal-time groups are equal |
| `MessageLists.SortByTimeIsTheStableSort` | dhtparser.py:27 | any time-sorted list with the same equal-time groups as the input is the sort's result |
| `MessageLists.MessageList.constructor` | dhtparser.py:101-102 | a new message list is empty |
| `MessageLists.MessageList.Append` | dhtparser.py:26 | appending adds the message at the end and changes nothing else |
| `MessageLists.MessageList.SortInPlaceByTime` | dhtparser.py:27 | the list becomes the stable sort of its old contents; it is sorted and a permutation of them |
| `MessageLists.MessageList.GetMessagesFrom` | dhtparser.py:104-110 | returns a fresh list of the messages whose author is `user`, in order; the receiver is not modified |
| `MessageLists.MessageList.GetMessagesOn` | dhtparser.py:112-118 | returns a fresh list of the messages whose local day (given by `dayOf`) is `day`, in order |
| `MessageLists.MessageList.GetMessagesBetween` | dhtparser.py:120-126 | returns a fresh list of the messages in `[fromTime, toTime)`, in order |
| `MessageLists.MessageList.GetMessagesWith` | dhtparser.py:128-139 | returns a fresh list selected by the code's own test: non-empty substring when case-sensitive, lowered containment otherwise |
| `MessageLists.MessageList.GetMessagesWithAsDocumented` | dhtparser.py:128-139 | returns exactly the messages whose text contains the substring, compared lowered when not case-sensitive |
| `MessageLists.MessageList.GetMessagesWithOnly` | dhtparser.py:141-152 | returns a fresh list of the messages whose text equals `string`, compared lowered when not case-sensitive |
| `Channels.NameMatchesWeakening` | dhtparser.py:55-75 | an exact name match is also a substring match, and under ASCII lowering a case-sensitive match is also a case-insensitive one |
| `Channels.FindUserStrictestIsLeast` | dhtparser.py:55-75 | a user found by the strict case-sensitive search is found by all four kinds of search |
| `Channels.Channel.constructor` | dhtparser.py:45-50 | a channel keeps its ID, users, messages, name and type as given |
| `Channels.Channel.FindUser` | dhtparser.py:55-75 | returns the users, in list order, whose name equals (strict) or contains (not strict) `name`, lowered when not case-sensitive |
| `Channels.Channel.FindUserById` | dhtparser.py:77-81 | returns the first user in the list with that ID, or None |
| `Parser.UserIDsSpec` | dhtparser.py:10-12 | the user IDs are `int` of each `meta.users` key in order; the error is the ValueError of the first bad key |
| `Parser.RecordsFailureSpec` | dhtparser.py:24 | the records fail iff one does, with the error of the first failing one: KeyError for a missing `u`, ValueError for a non-integer ID |
| `Parser.MessagesSpec` | dhtparser.py:18-26 | one message per record in document order, with time `t`, text `m` or "" when absent, and author the first user whose ID is `int(userindex[u])` |
| `Parser.MessagesAuthorsKnown` | dhtparser.py:24 | every resolved author is one of the channel's users |
| `Parser.UnresolvedAuthor` | dhtparser.py:24 | a record whose user ID belongs to no user gives a message with no author, and the parse goes on |
| `Parser.ReadHeaderOfCanonicalKey` | dhtparser.py:14-19 | for a canonical first key of `data`, the channel ID is that key's value and the records read are that key's |
| `Parser.ChannelIDExample` | dhtparser.py:17 | a document with `data = {"555": ...}` gives channel ID 555 |
| `Parser.Search` | dhtparser.py:31-35 | returns the first item whose attribute equals the value, or None |
| `Parser.BuildUsers` | dhtparser.py:10-12 | builds one fresh, distinct User(int(key), name) per entry in order, or fails with the first ValueError |
| `Parser.BuildMessages` | dhtparser.py:18-26 | appends one message per record in document order, or fails with the first record's KeyError or ValueError; an out-of-range `t` is not an error here (see Left out) |
| `Parser.Parse` | dhtparser.py:4-28 | fails iff the document raises one of the modelled errors (an out-of-range `t` is not one, see Left out), with the first error in evaluation order; otherwise builds the channel the functions describe, with messages sorted by time and authors among its users |

## Left out

- Opening the file and `eval` of its text (dhtparser.py:7-8) are left out. The model starts from the decoded document.
- Documents of another shape are left out: any missing key (`meta`, `users`, `userindex`, `servers`, `data`, a server's `type` or `name`, a user's `name`, a record's `u` or `t`), or a value of the wrong type. In the source each of these raises a KeyError, a TypeError or an AttributeError (a list in place of a dictionary at `.items()` or `.keys()`, a non-string name at `.split`), or is accepted unchecked (a float `t`, a non-string `m`). The typed document rules them out, so the model has no such error.
- Parser.Parse: a record whose `t` is outside the range of `datetime` is parsed, where `datetime.fromtimestamp(t / 1000)` (dhtparser.py:25) raises ValueError, OverflowError or OSError. The model has no such error, so `ParseFailure` and `BuildMessages` admit every integer `t`.
- `datetime.fromtimestamp(t / 1000)` (dhtparser.py:25) is left out. The time is kept as `t` in integer milliseconds. The source sorts and compares naive local datetimes. Across a daylight-saving fall-back those can order two messages against their absolute times, and the model does not capture that.
- Text.ParseInt: `int()` is modelled only for an optional sign followed by ASCII digits. Python also accepts surrounding whitespace, underscores between digits and non-ASCII digits, where the model reports a ValueError. This affects three places: the user keys in `UserIDs` and `BuildUsers` (dhtparser.py:12), the channel key in `ReadHeader` (dhtparser.py:17), and each user-index entry in `RecordFailure` (dhtparser.py:24). For such input the model aborts the parse, while the source goes on. For example, `RecordFailure(map["a" := " 42"], Record("a", 0, None))` is a ValueError, but `int(" 42")` is 42.
- Parser.BuildUsers: it inherits the narrower `int()` of `Text.ParseInt` above.
- Text.Lower: only ASCII letters are lowered, each on its own. Python's `str.lower()` uses the full Unicode case mapping, and it lowers a capital sigma according to its context (final sigma).
- Text.LowerKeepsSubstring: it holds for the model's ASCII lowering, not for Python's `lower()`. For example, `"Σ" in "ΑΣ"` is true, but `"Σ".lower() in "ΑΣ".lower()`, that is `"σ" in "ας"`, is false.
- MessageLists.CaseInsensitiveContainingFindsMore: it holds for the model's ASCII lowering, not for Python's `lower()`. With Python's `lower()`, a message "ΑΣ" contains "Σ", but the case-insensitive search for "Σ" does not keep it.
- Channels.NameMatchesWeakening: its case-sensitive to case-insensitive half holds for the model's ASCII lowering, not for Python's `lower()`. For example, `find_user("Σ", strict=False, case=True)` returns a user named "ΑΣ", but `case=False` does not.
- MessageLists.MessageList.GetMessagesOn: the local calendar date of a time is a function parameter `dayOf`, because it depends on the machine's time zone.
- The dictionaries are modelled as sequences of pairs whose keys are assumed distinct, as in a Python dict. Lookup returns the first pair with the key.
- `Message.messageID` is passed to the constructor (dhtparser.py:162-165) but not stored, so the model's `Message` has no such field.
- The keyword defaults `strict=True` and `case=False` are not modelled. Callers pass both flags.
- `__repr__` and `__str__` (dhtparser.py:52-53, 95-96, 167-171) are display only and left out.
- The list methods that `MessageList` inherits are left out, except `append` and `sort`, which the parser uses.

## Findings

| source | as written | input that shows it | evidently intended | confidence | as-written member | corrected member |
|---|---|---|---|---|---|---|
| dhtparser.py:131-134 | with `case=True` a message is kept when `substring` is non-empty, whatever its text | `get_messages_with("abc", case=True)` on a list holding a message "xyz" returns that message | keep the messages whose text contains `substring` (the docstring's case-sensitive search) | high, not executed | `MessageLists.CaseSensitiveContainingCounterexample` | `MessageLists.MessageList.GetMessagesWithAsDocumented` |
