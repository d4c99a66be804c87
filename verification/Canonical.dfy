/** The order of strings, sorted duplicate-free lists, and the canonical form of a fuzzily ordered value set. */
module Canonical {

  /** Lexicographic by code point, which for UTF-8 is the order of the bytes. */
  predicate Less(a: string, b: string) {
    if b == "" then false
    else if a == "" then true
    else if a[0] != b[0] then a[0] < b[0]
    else Less(a[1..], b[1..])
  }

  /** The first difference decides, and a proper beginning comes before the whole. */
  lemma {:induction false} LessMeans(a: string, b: string)
    ensures Less(a, b) <==>
            exists k ::
              && 0 <= k <= |a| && k < |b| && a[..k] == b[..k]
              && (k == |a| || a[k] < b[k])
  {
    if Less(a, b) {
      if a == "" || a[0] != b[0] {
        assert a[..0] == b[..0];
      } else {
        LessMeans(a[1..], b[1..]);
        var k :| 0 <= k <= |a[1..]| && k < |b[1..]| && a[1..][..k] == b[1..][..k]
                 && (k == |a[1..]| || a[1..][k] < b[1..][k]);
        assert a[..k + 1] == [a[0]] + a[1..][..k] && b[..k + 1] == [b[0]] + b[1..][..k];
      }
    }
    if k :| 0 <= k <= |a| && k < |b| && a[..k] == b[..k] && (k == |a| || a[k] < b[k]) {
      if k > 0 {
        assert a[0] == a[..k][0] == b[..k][0] == b[0];
        assert a[1..][..k - 1] == a[..k][1..] && b[1..][..k - 1] == b[..k][1..];
        LessMeans(a[1..], b[1..]);
        assert a[1..][..k - 1] == b[1..][..k - 1];
      }
    }
  }

  lemma {:induction false} LessIrreflexive(a: string)
    ensures !Less(a, a)
  {
    if a != "" {
      LessIrreflexive(a[1..]);
    }
  }

  lemma {:induction false} LessTransitive(a: string, b: string, c: string)
    requires Less(a, b) && Less(b, c)
    ensures Less(a, c)
  {
    if a != "" && a[0] == b[0] && b[0] == c[0] {
      LessTransitive(a[1..], b[1..], c[1..]);
    }
  }

  lemma {:induction false} LessTotal(a: string, b: string)
    ensures Less(a, b) || a == b || Less(b, a)
  {
    if a != "" && b != "" && a[0] == b[0] {
      LessTotal(a[1..], b[1..]);
      assert a == [a[0]] + a[1..] && b == [b[0]] + b[1..];
    }
  }

  predicate AtMost(a: string, b: string) {
    a == b || Less(a, b)
  }

  predicate Sorted(s: seq<string>) {
    forall i, j :: 0 <= i < j < |s| ==> AtMost(s[i], s[j])
  }

  predicate StrictlySorted(s: seq<string>) {
    forall i, j :: 0 <= i < j < |s| ==> Less(s[i], s[j])
  }

  function Elements(s: seq<string>): set<string> {
    set x | x in s
  }

  /** There is only one strictly sorted list of given elements. */
  lemma {:induction false} StrictlySortedUnique(a: seq<string>, b: seq<string>)
    requires StrictlySorted(a) && StrictlySorted(b) && Elements(a) == Elements(b)
    ensures a == b
    decreases |a|
  {
    hide Less;
    if a == [] {
      assert forall i :: 0 <= i < |b| ==> b[i] in Elements(b);
    } else {
      assert a[0] in Elements(a);
      assert b[0] in Elements(b) by {
        assert a[0] in Elements(b);
      }
      HeadIsLeast(a, b[0]);
      HeadIsLeast(b, a[0]);
      if a[0] != b[0] {
        LessTransitive(a[0], b[0], a[0]);
        LessIrreflexive(a[0]);
      }
      TailElements(a);
      TailElements(b);
      StrictlySortedUnique(a[1..], b[1..]);
      assert a == [a[0]] + a[1..] && b == [b[0]] + b[1..];
    }
  }

  lemma HeadIsLeast(s: seq<string>, x: string)
    requires StrictlySorted(s) && x in s
    ensures AtMost(s[0], x)
  {
  }

  lemma TailElements(s: seq<string>)
    requires StrictlySorted(s) && s != []
    ensures Elements(s[1..]) == Elements(s) - {s[0]}
  {
    hide Less;
    assert s == [s[0]] + s[1..];
    if s[0] in s[1..] {
      LessIrreflexive(s[0]);
    }
  }

  /** The strictly sorted list of a set, which is how an ordered set or map is iterated. */
  ghost function SortedList(elements: set<string>): (s: seq<string>)
    ensures StrictlySorted(s) && Elements(s) == elements
  {
    SortedListExists(elements);
    var s :| StrictlySorted(s) && Elements(s) == elements;
    s
  }

  lemma {:induction false} SortedListExists(elements: set<string>)
    ensures exists s :: StrictlySorted(s) && Elements(s) == elements
  {
    if elements == {} {
      assert StrictlySorted([]) && Elements([]) == elements;
    } else {
      var x :| x in elements;
      SortedListExists(elements - {x});
      var s :| StrictlySorted(s) && Elements(s) == elements - {x};
      var t := InsertNew(s, x);
      assert Elements(t) == elements;
    }
  }

  lemma InsertNew(s: seq<string>, x: string) returns (t: seq<string>)
    requires StrictlySorted(s) && x !in s
    ensures StrictlySorted(t) && Elements(t) == Elements(s) + {x}
  {
    hide Less;
    var i := 0;
    while i < |s| && Less(s[i], x)
      invariant i <= |s| && forall k :: 0 <= k < i ==> Less(s[k], x)
    {
      i := i + 1;
    }
    t := s[..i] + [x] + s[i..];
    forall k | i <= k < |s|
      ensures Less(x, s[k])
    {
      LessTotal(s[i], x);
      if k > i {
        LessTransitive(x, s[i], s[k]);
      }
    }
    assert s == s[..i] + s[i..];
  }

  // ---------- canonical forms ----------

  /** `sort_unstable`: any sorting would do; this one inserts. */
  method Sort(values: seq<string>) returns (sorted: seq<string>)
    ensures Sorted(sorted) && multiset(sorted) == multiset(values)
  {
    sorted := [];
    for i := 0 to |values|
      invariant Sorted(sorted) && multiset(sorted) == multiset(values[..i])
    {
      var at := 0;
      while at < |sorted| && Less(sorted[at], values[i])
        invariant at <= |sorted| && forall k :: 0 <= k < at ==> Less(sorted[k], values[i])
      {
        at := at + 1;
      }
      InsertSorted(sorted, at, values[i]);
      assert sorted == sorted[..at] + sorted[at..];
      assert values[..i + 1] == values[..i] + [values[i]];
      sorted := sorted[..at] + [values[i]] + sorted[at..];
    }
    assert values[..|values|] == values;
  }

  lemma InsertSorted(sorted: seq<string>, at: nat, x: string)
    requires Sorted(sorted) && at <= |sorted|
    requires forall k :: 0 <= k < at ==> Less(sorted[k], x)
    requires at < |sorted| ==> !Less(sorted[at], x)
    ensures Sorted(sorted[..at] + [x] + sorted[at..])
  {
    hide Less;
    forall k | at <= k < |sorted|
      ensures AtMost(x, sorted[k])
    {
      LessTotal(sorted[at], x);
      if k > at && x != sorted[at] && sorted[at] != sorted[k] {
        LessTransitive(x, sorted[at], sorted[k]);
      }
    }
  }

  /** `dedup`: drops each value equal to the one kept before it. */
  method Dedup(values: seq<string>) returns (kept: seq<string>)
    requires Sorted(values)
    ensures StrictlySorted(kept) && Elements(kept) == Elements(values)
  {
    hide Less;
    kept := [];
    for i := 0 to |values|
      invariant StrictlySorted(kept) && Elements(kept) == Elements(values[..i])
      invariant if i == 0 then kept == [] else kept != [] && kept[|kept| - 1] == values[i - 1]
    {
      assert values[..i + 1] == values[..i] + [values[i]];
      if i == 0 || kept[|kept| - 1] != values[i] {
        assert i > 0 ==> AtMost(values[i - 1], values[i]);
        AppendGreater(kept, values[i]);
        kept := kept + [values[i]];
        assert Elements(kept) == Elements(values[..i]) + {values[i]} == Elements(values[..i + 1]);
      } else {
        assert kept[|kept| - 1] == values[i];
        assert Elements(values[..i + 1]) == Elements(values[..i]);
      }
    }
    assert values[..|values|] == values;
  }

  lemma AppendGreater(kept: seq<string>, x: string)
    requires StrictlySorted(kept) && (kept != [] ==> Less(kept[|kept| - 1], x))
    ensures StrictlySorted(kept + [x])
  {
    hide Less;
    forall k | 0 <= k < |kept|
      ensures Less(kept[k], x)
    {
      if k < |kept| - 1 {
        LessTransitive(kept[k], kept[|kept| - 1], x);
      }
    }
  }

  method Canonicalize(values: seq<string>) returns (canonical: seq<string>)
    ensures canonical == SortedList(Elements(values))
  {
    var sorted := Sort(values);
    canonical := Dedup(sorted);
    assert Elements(sorted) == Elements(values) by {
      forall x: string
        ensures x in sorted <==> x in values
      {
        assert x in multiset(sorted) <==> x in multiset(values);
      }
    }
    StrictlySortedUnique(canonical, SortedList(Elements(values)));
  }

  /** Two emissions are equal up to order exactly when they have the same elements. */
  method OrderFreeEq(a: seq<string>, b: seq<string>) returns (equal: bool)
    ensures equal <==> forall x :: x in a <==> x in b
  {
    var ca := Canonicalize(a);
    var cb := Canonicalize(b);
    equal := ca == cb;
    if equal {
      assert Elements(a) == Elements(ca) == Elements(b);
      assert forall x :: x in a <==> x in Elements(a);
      assert forall x :: x in b <==> x in Elements(b);
    } else {
      assert Elements(a) != Elements(b);
    }
  }

  /** The canonical form is the only strictly sorted list with the same elements, and is its own canonical form. */
  lemma CanonicalIsUnique(values: seq<string>, other: seq<string>)
    ensures StrictlySorted(other) && Elements(other) == Elements(values) <==> other == SortedList(Elements(values))
    ensures SortedList(Elements(SortedList(Elements(values)))) == SortedList(Elements(values))
  {
    if StrictlySorted(other) && Elements(other) == Elements(values) {
      StrictlySortedUnique(other, SortedList(Elements(values)));
    }
  }
}
