/**
 * The two shapes of linear scan the parser uses: collecting every element that matches
 * (the filters and `find_user`) and returning the first element whose key equals a value
 * (`search` and `find_user_by_id`).
 */
module Sequences {
  import opened Wrappers

  // ----- collect-all scans -----

  /**
   * The elements `x` of `s` for which `holds(c, x)`, in their order in `s`.
   * The criterion `c` and the test `holds` are kept apart so that callers can name
   * each query as a value rather than as a lambda.
   */
  function Select<C, T>(s: seq<T>, c: C, holds: (C, T) -> bool): seq<T>
  {
    if s == [] then []
    else Select(s[..|s| - 1], c, holds) + (if holds(c, s[|s| - 1]) then [s[|s| - 1]] else [])
  }

  /** The positions in `s` of the elements Select keeps, in increasing order. */
  function SelectedIndices<C, T>(s: seq<T>, c: C, holds: (C, T) -> bool): seq<nat>
  {
    if s == [] then []
    else SelectedIndices(s[..|s| - 1], c, holds) + (if holds(c, s[|s| - 1]) then [|s| - 1] else [])
  }

  /** One more element seen by a scan adds it to the selection exactly when it matches. */
  lemma SelectSnoc<C, T>(s: seq<T>, x: T, c: C, holds: (C, T) -> bool)
    ensures Select(s + [x], c, holds) == Select(s, c, holds) + (if holds(c, x) then [x] else [])
  {
    assert (s + [x])[..|s|] == s;
  }

  /** Select over a prefix one element longer: what a scan has collected after one more step. */
  lemma SelectPrefix<C, T>(s: seq<T>, i: nat, c: C, holds: (C, T) -> bool)
    requires i < |s|
    ensures Select(s[..i + 1], c, holds) == Select(s[..i], c, holds) + (if holds(c, s[i]) then [s[i]] else [])
  {
    assert s[..i + 1][..i] == s[..i];
  }

  /**
   * Select keeps exactly the matching elements, in order: the result is `s` read at the
   * increasing positions SelectedIndices, and a position is among them iff its element matches.
   */
  lemma {:induction false} SelectExactly<C, T>(s: seq<T>, c: C, holds: (C, T) -> bool)
    ensures |SelectedIndices(s, c, holds)| == |Select(s, c, holds)|
    ensures forall k :: 0 <= k < |SelectedIndices(s, c, holds)| ==>
      SelectedIndices(s, c, holds)[k] < |s| && Select(s, c, holds)[k] == s[SelectedIndices(s, c, holds)[k]]
    ensures forall k, l :: 0 <= k < l < |SelectedIndices(s, c, holds)| ==>
      SelectedIndices(s, c, holds)[k] < SelectedIndices(s, c, holds)[l]
    ensures forall i :: 0 <= i < |s| ==> (i in SelectedIndices(s, c, holds) <==> holds(c, s[i]))
    decreases |s|
  {
    if s != [] {
      SelectExactly(s[..|s| - 1], c, holds);
    }
  }

  /** An element is in the selection iff it is in `s` and matches. */
  lemma {:induction false} SelectMember<C, T>(s: seq<T>, c: C, holds: (C, T) -> bool, x: T)
    ensures x in Select(s, c, holds) <==> x in s && holds(c, x)
    decreases |s|
  {
    if s != [] {
      SelectMember(s[..|s| - 1], c, holds, x);
      assert s == s[..|s| - 1] + [s[|s| - 1]];
    }
  }

  /** A selection that keeps every element is the whole sequence. */
  lemma {:induction false} SelectAll<C, T>(s: seq<T>, c: C, holds: (C, T) -> bool)
    requires forall i :: 0 <= i < |s| ==> holds(c, s[i])
    ensures Select(s, c, holds) == s
    decreases |s|
  {
    if s != [] {
      SelectAll(s[..|s| - 1], c, holds);
    }
  }

  /** A selection that keeps no element is empty. */
  lemma {:induction false} SelectNone<C, T>(s: seq<T>, c: C, holds: (C, T) -> bool)
    requires forall i :: 0 <= i < |s| ==> !holds(c, s[i])
    ensures Select(s, c, holds) == []
    decreases |s|
  {
    if s != [] {
      SelectNone(s[..|s| - 1], c, holds);
    }
  }

  // ----- first-match scans -----

  /** The first element of `s` whose key is `value`, or None when there is none. */
  function FirstByKey<T, K(==)>(s: seq<T>, key: T -> K, value: K): Option<T>
  {
    if s == [] then None
    else if key(s[0]) == value then Some(s[0])
    else FirstByKey(s[1..], key, value)
  }

  /** FirstByKey finds the element at the least position whose key matches, and fails only when none does. */
  lemma {:induction false} FirstByKeySpec<T, K>(s: seq<T>, key: T -> K, value: K)
    ensures FirstByKey(s, key, value).None? <==> forall i :: 0 <= i < |s| ==> key(s[i]) != value
    ensures FirstByKey(s, key, value).Some? ==>
      exists i :: 0 <= i < |s| && s[i] == FirstByKey(s, key, value).value && key(s[i]) == value &&
        forall j :: 0 <= j < i ==> key(s[j]) != value
    decreases |s|
  {
    if s != [] && key(s[0]) != value {
      FirstByKeySpec(s[1..], key, value);
      if FirstByKey(s, key, value).Some? {
        var i :| 0 <= i < |s[1..]| && s[1..][i] == FirstByKey(s, key, value).value && key(s[1..][i]) == value &&
          forall j :: 0 <= j < i ==> key(s[1..][j]) != value;
        assert s[i + 1] == s[1..][i];
        assert forall j :: 0 <= j < i + 1 ==> key(s[j]) != value by {
          forall j | 0 <= j < i + 1 ensures key(s[j]) != value {
            if j > 0 { assert s[j] == s[1..][j - 1]; }
          }
        }
      } else {
        assert forall i :: 0 <= i < |s| ==> key(s[i]) != value by {
          forall i | 0 <= i < |s| ensures key(s[i]) != value {
            if i > 0 { assert s[i] == s[1..][i - 1]; }
          }
        }
      }
    }
  }

  /** What FirstByKey finds is an element of the list. */
  lemma {:induction false} FirstByKeyIn<T, K>(s: seq<T>, key: T -> K, value: K)
    ensures FirstByKey(s, key, value).Some? ==> FirstByKey(s, key, value).value in s
  {
    FirstByKeySpec(s, key, value);
  }
}
