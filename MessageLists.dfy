/**
 * MessageList: the ordered list of a channel's messages, the stable sort by time
 * the parser applies to it, and its filters, each of which builds a new list of the
 * matching messages in their original order and leaves the receiver as it was.
 */
module MessageLists {
  import opened Wrappers
  import opened Text
  import opened Sequences
  import opened Entities

  // ----- the filters' criteria -----

  /** One filter query of MessageList, as a value. */
  datatype Criterion =
    | SentBy(user: Option<User>)
    | SentOn(day: int, dayOf: int -> int)
    | SentBetween(fromTime: int, toTime: int)
    | Containing(substring: string, caseSensitive: bool)
    | ContainingAsDocumented(substring: string, caseSensitive: bool)
    | Exactly(text: string, caseSensitive: bool)

  /** Whether the filter for `c` keeps `m`. */
  predicate Matches(c: Criterion, m: Message)
  {
    match c
    case SentBy(user) => m.user == user
    case SentOn(day, dayOf) => dayOf(m.time) == day
    case SentBetween(fromTime, toTime) => fromTime <= m.time < toTime
    // as written: the case-sensitive branch tests only that the substring is non-empty
    case Containing(substring, caseSensitive) =>
      if caseSensitive then substring != "" else IsSubstring(Lower(substring), Lower(m.text))
    case ContainingAsDocumented(substring, caseSensitive) =>
      if caseSensitive then IsSubstring(substring, m.text) else IsSubstring(Lower(substring), Lower(m.text))
    case Exactly(text, caseSensitive) =>
      if caseSensitive then m.text == text else Lower(m.text) == Lower(text)
  }

  // ----- facts about the filters -----

  /** get_messages_from keeps exactly the messages whose author is `user`, in order. */
  lemma SentByKeepsAuthor(s: seq<Message>, user: Option<User>, m: Message)
    ensures m in Select(s, SentBy(user), Matches) <==> m in s && m.user == user
  {
    SelectMember(s, SentBy(user), Matches, m);
  }

  /** A message whose author was not resolved is never sent by a real user. */
  lemma UnresolvedNeverSentBy(s: seq<Message>, u: User)
    ensures forall m :: m in s && m.user.None? ==> m !in Select(s, SentBy(Some(u)), Matches)
  {
    forall m | m in s && m.user.None? ensures m !in Select(s, SentBy(Some(u)), Matches) {
      SelectMember(s, SentBy(Some(u)), Matches, m);
    }
  }

  /** get_messages_between is the half-open interval [fromTime, toTime). */
  lemma SentBetweenHalfOpen(s: seq<Message>, fromTime: int, toTime: int, m: Message)
    ensures m in Select(s, SentBetween(fromTime, toTime), Matches) <==> m in s && fromTime <= m.time < toTime
  {
    SelectMember(s, SentBetween(fromTime, toTime), Matches, m);
  }

  /** An empty or reversed interval selects nothing. */
  lemma SentBetweenEmpty(s: seq<Message>, fromTime: int, toTime: int)
    requires toTime <= fromTime
    ensures Select(s, SentBetween(fromTime, toTime), Matches) == []
  {
    SelectNone(s, SentBetween(fromTime, toTime), Matches);
  }

  /**
   * get_messages_with as written: with case sensitivity on, the list is all of `s`
   * when the substring is non-empty and empty otherwise, whatever the texts are.
   */
  lemma CaseSensitiveContainingIgnoresText(s: seq<Message>, substring: string)
    ensures Select(s, Containing(substring, true), Matches) == if substring != "" then s else []
  {
    if substring != "" {
      SelectAll(s, Containing(substring, true), Matches);
    } else {
      SelectNone(s, Containing(substring, true), Matches);
    }
  }

  /** A message with text "xyz" is kept by a case-sensitive search for "abc". */
  lemma CaseSensitiveContainingCounterexample()
    ensures var m := Message("xyz", 0, None);
      && !IsSubstring("abc", m.text)
      && Select([m], Containing("abc", true), Matches) == [m]
  {
    var m := Message("xyz", 0, None);
    NotSubstringWithoutFirstChar("abc", "xyz");
    SelectAll([m], Containing("abc", true), Matches);
  }

  /** Case-insensitive search matches every message a case-sensitive one does. */
  lemma CaseInsensitiveContainingFindsMore(s: seq<Message>, substring: string, m: Message)
    requires m in Select(s, ContainingAsDocumented(substring, true), Matches)
    ensures m in Select(s, ContainingAsDocumented(substring, false), Matches)
  {
    SelectMember(s, ContainingAsDocumented(substring, true), Matches, m);
    SelectMember(s, ContainingAsDocumented(substring, false), Matches, m);
    LowerKeepsSubstring(substring, m.text);
  }

  /** An empty substring matches every message when case is ignored. */
  lemma CaseInsensitiveEmptySubstringKeepsAll(s: seq<Message>)
    ensures Select(s, Containing("", false), Matches) == s
  {
    forall i | 0 <= i < |s| ensures Matches(Containing("", false), s[i]) {
      assert Lower("") <= Lower(s[i].text);
    }
    SelectAll(s, Containing("", false), Matches);
  }

  // ----- the stable sort by time -----

  ghost predicate SortedByTime(s: seq<Message>)
  {
    forall i, j :: 0 <= i < j < |s| ==> s[i].time <= s[j].time
  }

  /** The key by which equal-time groups are compared: the messages sent at time `t`. */
  predicate HasTime(t: int, m: Message)
  {
    m.time == t
  }

  /** `s` with `m` placed after every message of `s` whose time is at most m.time. */
  function InsertByTime(s: seq<Message>, m: Message): seq<Message>
  {
    if s == [] || s[|s| - 1].time <= m.time then s + [m]
    else InsertByTime(s[..|s| - 1], m) + [s[|s| - 1]]
  }

  /** `list.sort(key=lambda x: x.time)`: a stable sort by time (here, insertion sort). */
  function SortByTime(s: seq<Message>): seq<Message>
  {
    if s == [] then [] else InsertByTime(SortByTime(s[..|s| - 1]), s[|s| - 1])
  }

  lemma {:induction false} InsertByTimePermutes(s: seq<Message>, m: Message)
    ensures multiset(InsertByTime(s, m)) == multiset(s) + multiset{m}
    decreases |s|
  {
    if !(s == [] || s[|s| - 1].time <= m.time) {
      var p := s[..|s| - 1];
      InsertByTimePermutes(p, m);
      assert s == p + [s[|s| - 1]];
    }
  }

  lemma {:induction false} InsertByTimeSorted(s: seq<Message>, m: Message)
    requires SortedByTime(s)
    ensures SortedByTime(InsertByTime(s, m))
    decreases |s|
  {
    if !(s == [] || s[|s| - 1].time <= m.time) {
      var p, last := s[..|s| - 1], s[|s| - 1];
      InsertByTimeSorted(p, m);
      var q := InsertByTime(p, m);
      InsertByTimePermutes(p, m);
      forall i | 0 <= i < |q| ensures q[i].time <= last.time {
        assert q[i] in multiset(q);
        if q[i] != m {
          assert q[i] in multiset(p);
          var k :| 0 <= k < |p| && p[k] == q[i];
        }
      }
    }
  }

  lemma {:induction false} InsertByTimeAtTime(s: seq<Message>, m: Message, t: int)
    ensures Select(InsertByTime(s, m), t, HasTime) == Select(s, t, HasTime) + (if m.time == t then [m] else [])
    decreases |s|
  {
    if s == [] || s[|s| - 1].time <= m.time {
      SelectSnoc(s, m, t, HasTime);
    } else {
      var p, last := s[..|s| - 1], s[|s| - 1];
      var q := InsertByTime(p, m);
      assert InsertByTime(s, m) == q + [last];
      assert s == p + [last];
      InsertByTimeAtTime(p, m, t);
      SelectSnoc(q, last, t, HasTime);
      SelectSnoc(p, last, t, HasTime);
      var g := Select(p, t, HasTime);
      if t == m.time {
        assert !HasTime(t, last);
        assert Select(q + [last], t, HasTime) == g + [m];
        assert Select(s, t, HasTime) == g;
      } else if t == last.time {
        assert Select(q + [last], t, HasTime) == g + [last];
        assert Select(s, t, HasTime) == g + [last];
      } else {
        assert Select(q + [last], t, HasTime) == g;
        assert Select(s, t, HasTime) == g;
      }
    }
  }

  /** After the sort, times never decrease. */
  lemma {:induction false} SortByTimeSorted(s: seq<Message>)
    ensures SortedByTime(SortByTime(s))
    decreases |s|
  {
    if s != [] {
      SortByTimeSorted(s[..|s| - 1]);
      InsertByTimeSorted(SortByTime(s[..|s| - 1]), s[|s| - 1]);
    }
  }

  /** The sort only reorders: it keeps every message as often as it occurs. */
  lemma {:induction false} SortByTimePermutes(s: seq<Message>)
    ensures multiset(SortByTime(s)) == multiset(s)
    decreases |s|
  {
    if s != [] {
      SortByTimePermutes(s[..|s| - 1]);
      InsertByTimePermutes(SortByTime(s[..|s| - 1]), s[|s| - 1]);
      assert s == s[..|s| - 1] + [s[|s| - 1]];
    }
  }

  /** The sort is stable: the messages sent at any one time keep their relative order. */
  lemma {:induction false} SortByTimeStable(s: seq<Message>, t: int)
    ensures Select(SortByTime(s), t, HasTime) == Select(s, t, HasTime)
    decreases |s|
  {
    if s != [] {
      SortByTimeStable(s[..|s| - 1], t);
      InsertByTimeAtTime(SortByTime(s[..|s| - 1]), s[|s| - 1], t);
    }
  }

  /** In a sorted non-empty list the last message has the greatest time. */
  lemma LastHasGreatestTime(s: seq<Message>, m: Message)
    requires SortedByTime(s) && s != []
    requires m in s
    ensures m.time <= s[|s| - 1].time
  {
    var i :| 0 <= i < |s| && s[i] == m;
  }

  /** Two sorted lists with the same equal-time groups end with messages of one time. */
  lemma LastTimesAgree(a: seq<Message>, b: seq<Message>)
    requires SortedByTime(a) && SortedByTime(b) && a != [] && b != []
    requires Select(a, a[|a| - 1].time, HasTime) == Select(b, a[|a| - 1].time, HasTime)
    requires Select(a, b[|b| - 1].time, HasTime) == Select(b, b[|b| - 1].time, HasTime)
    ensures a[|a| - 1].time == b[|b| - 1].time
  {
    var x, y := a[|a| - 1], b[|b| - 1];
    SelectMember(a, x.time, HasTime, x);
    SelectMember(b, x.time, HasTime, x);
    SelectMember(a, y.time, HasTime, y);
    SelectMember(b, y.time, HasTime, y);
    LastHasGreatestTime(b, x);
    LastHasGreatestTime(a, y);
  }

  /**
   * A sorted list is fixed by its equal-time groups: two sorted lists that agree on the
   * messages sent at each time are the same list. So SortByTime is the only stable sort.
   */
  lemma {:induction false} SortedByGroupsUnique(a: seq<Message>, b: seq<Message>)
    requires SortedByTime(a) && SortedByTime(b)
    requires forall t :: Select(a, t, HasTime) == Select(b, t, HasTime)
    ensures a == b
    decreases |a| + |b|
  {
    if a == [] && b != [] {
      SelectMember(b, b[0].time, HasTime, b[0]);
    } else if a != [] && b == [] {
      SelectMember(a, a[0].time, HasTime, a[0]);
    } else if a != [] && b != [] {
      var a', x := a[..|a| - 1], a[|a| - 1];
      var b', y := b[..|b| - 1], b[|b| - 1];
      assert a == a' + [x] && b == b' + [y];
      LastTimesAgree(a, b);
      var ga, gb := Select(a', x.time, HasTime), Select(b', x.time, HasTime);
      SelectSnoc(a', x, x.time, HasTime);
      SelectSnoc(b', y, x.time, HasTime);
      assert ga + [x] == gb + [y];
      assert |ga| == |gb|;
      assert x == y by {
        assert (ga + [x])[|ga|] == x && (gb + [y])[|gb|] == y;
      }
      forall t ensures Select(a', t, HasTime) == Select(b', t, HasTime) {
        SelectSnoc(a', x, t, HasTime);
        SelectSnoc(b', y, t, HasTime);
        assert Select(a, t, HasTime) == Select(b, t, HasTime);
        if t == x.time {
          assert Select(a, t, HasTime) == ga + [x];
          assert Select(b, t, HasTime) == gb + [y];
          assert (ga + [x])[..|ga|] == ga && (gb + [y])[..|gb|] == gb;
          assert ga == gb;
          assert Select(a', t, HasTime) == Select(b', t, HasTime);
        } else {
          assert !HasTime(t, x) && !HasTime(t, y);
          assert Select(a, t, HasTime) == Select(a', t, HasTime);
          assert Select(b, t, HasTime) == Select(b', t, HasTime);
        }
      }
      SortedByGroupsUnique(a', b');
    }
  }

  /** A stable sort by time of `s` is SortByTime(s). */
  lemma SortByTimeIsTheStableSort(s: seq<Message>, r: seq<Message>)
    requires SortedByTime(r)
    requires forall t :: Select(r, t, HasTime) == Select(s, t, HasTime)
    ensures r == SortByTime(s)
  {
    SortByTimeSorted(s);
    forall t ensures Select(r, t, HasTime) == Select(SortByTime(s), t, HasTime) {
      SortByTimeStable(s, t);
    }
    SortedByGroupsUnique(r, SortByTime(s));
  }

  // ----- the list object -----

  /** A list of messages, with the filters of the original MessageList. */
  class MessageList {
    var items: seq<Message>

    constructor ()
      ensures items == []
    {
      items := [];
    }

    /** `list.append`. */
    method Append(m: Message)
      modifies this
      ensures items == old(items) + [m]
    {
      items := items + [m];
    }

    /** `list.sort(key=lambda x: x.time)`, in place. */
    method SortInPlaceByTime()
      modifies this
      ensures items == SortByTime(old(items))
      ensures SortedByTime(items) && multiset(items) == multiset(old(items))
    {
      SortByTimeSorted(items);
      SortByTimePermutes(items);
      items := SortByTime(items);
    }

    /** get_messages_from: the messages whose author is `user`. */
    method GetMessagesFrom(user: Option<User>) returns (out: MessageList)
      ensures fresh(out)
      ensures out.items == Select(items, SentBy(user), Matches)
    {
      out := new MessageList();
      var all := items;
      for i := 0 to |all|
        invariant fresh(out)
        invariant out.items == Select(all[..i], SentBy(user), Matches)
      {
        var message := all[i];
        if message.user == user {
          out.Append(message);
        }
        SelectPrefix(all, i, SentBy(user), Matches);
      }
      assert all[..|all|] == all;
    }

    /** get_messages_on: the messages whose local calendar day, given by `dayOf`, is `day`. */
    method GetMessagesOn(day: int, dayOf: int -> int) returns (out: MessageList)
      ensures fresh(out)
      ensures out.items == Select(items, SentOn(day, dayOf), Matches)
    {
      out := new MessageList();
      var all := items;
      for i := 0 to |all|
        invariant fresh(out)
        invariant out.items == Select(all[..i], SentOn(day, dayOf), Matches)
      {
        var message := all[i];
        if dayOf(message.time) == day {
          out.Append(message);
        }
        SelectPrefix(all, i, SentOn(day, dayOf), Matches);
      }
      assert all[..|all|] == all;
    }

    /** get_messages_between: the messages with fromTime <= time < toTime. */
    method GetMessagesBetween(fromTime: int, toTime: int) returns (out: MessageList)
      ensures fresh(out)
      ensures out.items == Select(items, SentBetween(fromTime, toTime), Matches)
    {
      out := new MessageList();
      var all := items;
      for i := 0 to |all|
        invariant fresh(out)
        invariant out.items == Select(all[..i], SentBetween(fromTime, toTime), Matches)
      {
        var message := all[i];
        if fromTime <= message.time < toTime {
          out.Append(message);
        }
        SelectPrefix(all, i, SentBetween(fromTime, toTime), Matches);
      }
      assert all[..|all|] == all;
    }

    /**
     * get_messages_with, as written: case-insensitive substring search, and with
     * case sensitivity on, every message when the substring is non-empty.
     */
    method GetMessagesWith(substring: string, caseSensitive: bool) returns (out: MessageList)
      ensures fresh(out)
      ensures out.items == Select(items, Containing(substring, caseSensitive), Matches)
    {
      out := new MessageList();
      var all := items;
      if caseSensitive {
        for i := 0 to |all|
          invariant fresh(out)
          invariant out.items == Select(all[..i], Containing(substring, caseSensitive), Matches)
        {
          var message := all[i];
          if substring != "" {
            out.Append(message);
          }
          SelectPrefix(all, i, Containing(substring, caseSensitive), Matches);
        }
      } else {
        for i := 0 to |all|
          invariant fresh(out)
          invariant out.items == Select(all[..i], Containing(substring, caseSensitive), Matches)
        {
          var message := all[i];
          if IsSubstring(Lower(substring), Lower(message.text)) {
            out.Append(message);
          }
          SelectPrefix(all, i, Containing(substring, caseSensitive), Matches);
        }
      }
      assert all[..|all|] == all;
    }

    /** get_messages_with as its documentation describes it: the messages containing `substring`. */
    method GetMessagesWithAsDocumented(substring: string, caseSensitive: bool) returns (out: MessageList)
      ensures fresh(out)
      ensures out.items == Select(items, ContainingAsDocumented(substring, caseSensitive), Matches)
      ensures forall m :: m in out.items <==> (m in items &&
        if caseSensitive then IsSubstring(substring, m.text) else IsSubstring(Lower(substring), Lower(m.text)))
    {
      out := new MessageList();
      var all := items;
      if caseSensitive {
        for i := 0 to |all|
          invariant fresh(out)
          invariant out.items == Select(all[..i], ContainingAsDocumented(substring, caseSensitive), Matches)
        {
          var message := all[i];
          if IsSubstring(substring, message.text) {
            out.Append(message);
          }
          SelectPrefix(all, i, ContainingAsDocumented(substring, caseSensitive), Matches);
        }
      } else {
        for i := 0 to |all|
          invariant fresh(out)
          invariant out.items == Select(all[..i], ContainingAsDocumented(substring, caseSensitive), Matches)
        {
          var message := all[i];
          if IsSubstring(Lower(substring), Lower(message.text)) {
            out.Append(message);
          }
          SelectPrefix(all, i, ContainingAsDocumented(substring, caseSensitive), Matches);
        }
      }
      assert all[..|all|] == all;
      forall m ensures m in out.items <==> m in items && Matches(ContainingAsDocumented(substring, caseSensitive), m) {
        SelectMember(items, ContainingAsDocumented(substring, caseSensitive), Matches, m);
      }
    }

    /** get_messages_with_only: the messages whose text is `text`, compared lowered when case is ignored. */
    method GetMessagesWithOnly(text: string, caseSensitive: bool) returns (out: MessageList)
      ensures fresh(out)
      ensures out.items == Select(items, Exactly(text, caseSensitive), Matches)
    {
      out := new MessageList();
      var all := items;
      if caseSensitive {
        for i := 0 to |all|
          invariant fresh(out)
          invariant out.items == Select(all[..i], Exactly(text, caseSensitive), Matches)
        {
          var message := all[i];
          if message.text == text {
            out.Append(message);
          }
          SelectPrefix(all, i, Exactly(text, caseSensitive), Matches);
        }
      } else {
        for i := 0 to |all|
          invariant fresh(out)
          invariant out.items == Select(all[..i], Exactly(text, caseSensitive), Matches)
        {
          var message := all[i];
          if Lower(message.text) == Lower(text) {
            out.Append(message);
          }
          SelectPrefix(all, i, Exactly(text, caseSensitive), Matches);
        }
      }
      assert all[..|all|] == all;
    }
  }
}
