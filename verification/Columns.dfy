/** The columns of a query, and bringing them into a requested order. */
module Columns {
  import opened Wrappers

  datatype ColumnType = Property | Relation | CustomField | Computed

  datatype Column = Column(
    name: string,
    columnType: ColumnType,
    caption: Option<string>,
    sortable: bool,
    groupable: bool,
    customFieldId: Option<int>
  )

  function Names(columns: seq<Column>): seq<string> {
    seq(|columns|, i requires 0 <= i < |columns| => columns[i].name)
  }

  /** The index of the first column of that name, or the number of columns. */
  function Position(columns: seq<Column>, name: string): (i: nat)
    ensures i <= |columns|
    ensures i < |columns| ==> columns[i].name == name
    ensures forall k :: 0 <= k < i ==> columns[k].name != name
  {
    if columns == [] || columns[0].name == name then 0 else 1 + Position(columns[1..], name)
  }

  function RemoveAt(columns: seq<Column>, i: nat): seq<Column>
    requires i < |columns|
  {
    columns[..i] + columns[i + 1..]
  }

  /** The names in turn move their column to the front part; what is left follows. */
  function Reordered(columns: seq<Column>, names: seq<string>): seq<Column>
    decreases |names|
  {
    if names == [] then columns
    else
      var i := Position(columns, names[0]);
      if i == |columns| then Reordered(columns, names[1..])
      else [columns[i]] + Reordered(RemoveAt(columns, i), names[1..])
  }

  /** The columns with other names than these, in their order. */
  function Excluding(columns: seq<Column>, names: seq<string>): seq<Column> {
    if columns == [] then []
    else (if columns[0].name in names then [] else [columns[0]]) + Excluding(columns[1..], names)
  }

  class ColumnSet {
    var columns: seq<Column>

    constructor ()
      ensures columns == []
    {
      columns := [];
    }

    method Add(column: Column)
      modifies this
      ensures columns == old(columns) + [column]
    {
      columns := columns + [column];
    }

    method Remove(name: string)
      modifies this
      ensures columns == Excluding(old(columns), [name])
    {
      var before := columns;
      var kept := [];
      var i := |before|;
      while i > 0
        invariant 0 <= i <= |before|
        invariant kept == Excluding(before[i..], [name])
      {
        i := i - 1;
        assert before[i..][1..] == before[i + 1..];
        if before[i].name != name {
          kept := [before[i]] + kept;
        }
      }
      assert before[0..] == before;
      columns := kept;
    }

    method Reorder(names: seq<string>)
      modifies this
      ensures columns == Reordered(old(columns), names)
    {
      var reordered := [];
      for i := 0 to |names|
        invariant reordered + Reordered(columns, names[i..]) == Reordered(old(columns), names)
      {
        assert names[i..][1..] == names[i + 1..];
        var pos := Position(columns, names[i]);
        if pos < |columns| {
          var column := columns[pos];
          columns := RemoveAt(columns, pos);
          assert reordered + ([column] + Reordered(columns, names[i + 1..]))
                 == reordered + [column] + Reordered(columns, names[i + 1..]);
          reordered := reordered + [column];
        }
      }
      columns := reordered + columns;
    }
  }

  lemma RemoveAtTakesOne(columns: seq<Column>, i: nat)
    requires i < |columns|
    ensures multiset(columns) == multiset{columns[i]} + multiset(RemoveAt(columns, i))
  {
    assert columns == columns[..i] + [columns[i]] + columns[i + 1..];
  }

  /** Reordering loses and adds nothing. */
  lemma {:induction false} ReorderPermutes(columns: seq<Column>, names: seq<string>)
    ensures multiset(Reordered(columns, names)) == multiset(columns)
    decreases |names|
  {
    hide RemoveAt;
    if names != [] {
      var i := Position(columns, names[0]);
      if i == |columns| {
        ReorderPermutes(columns, names[1..]);
      } else {
        ReorderPermutes(RemoveAt(columns, i), names[1..]);
        RemoveAtTakesOne(columns, i);
      }
    }
  }

  lemma PositionFrom(columns: seq<Column>, name: string)
    requires columns != [] && columns[0].name == name
    ensures Position(columns, name) == 0 && RemoveAt(columns, 0) == columns[1..]
  {
  }

  lemma PermutationKeepsNames(a: seq<Column>, b: seq<Column>, name: string)
    requires multiset(a) == multiset(b)
    ensures Position(a, name) == |a| <==> Position(b, name) == |b|
  {
    if Position(a, name) < |a| {
      assert a[Position(a, name)] in multiset(b);
    }
    if Position(b, name) < |b| {
      assert b[Position(b, name)] in multiset(a);
    }
  }

  /** Reordering twice the same way changes nothing more. */
  lemma {:induction false} ReorderIsIdempotent(columns: seq<Column>, names: seq<string>)
    ensures Reordered(Reordered(columns, names), names) == Reordered(columns, names)
    decreases |names|
  {
    if names != [] {
      var i := Position(columns, names[0]);
      var result := Reordered(columns, names);
      if i == |columns| {
        ReorderPermutes(columns, names[1..]);
        PermutationKeepsNames(columns, result, names[0]);
        ReorderIsIdempotent(columns, names[1..]);
      } else {
        PositionFrom(result, names[0]);
        assert result[1..] == Reordered(RemoveAt(columns, i), names[1..]);
        ReorderIsIdempotent(RemoveAt(columns, i), names[1..]);
      }
    }
  }

  /** Columns that are not asked for keep their relative order. */
  lemma UnlistedKeepOrder(columns: seq<Column>, names: seq<string>)
    ensures Excluding(Reordered(columns, names), names) == Excluding(columns, names)
  {
    UnlistedKeepOrderAmong(columns, names, names);
  }

  lemma {:induction false} UnlistedKeepOrderAmong(columns: seq<Column>, names: seq<string>, all: seq<string>)
    requires forall name :: name in names ==> name in all
    ensures Excluding(Reordered(columns, names), all) == Excluding(columns, all)
    decreases |names|
  {
    hide RemoveAt;
    if names != [] {
      var i := Position(columns, names[0]);
      if i == |columns| {
        UnlistedKeepOrderAmong(columns, names[1..], all);
      } else {
        UnlistedKeepOrderAmong(RemoveAt(columns, i), names[1..], all);
        RemovingExcluded(columns, i, all);
        assert Reordered(columns, names)[1..] == Reordered(RemoveAt(columns, i), names[1..]);
      }
    }
  }

  lemma {:induction false} RemovingExcluded(columns: seq<Column>, i: nat, names: seq<string>)
    requires i < |columns| && columns[i].name in names
    ensures Excluding(RemoveAt(columns, i), names) == Excluding(columns, names)
  {
    if i == 0 {
      assert RemoveAt(columns, 0) == columns[1..];
    } else {
      RemovingExcluded(columns[1..], i - 1, names);
      assert RemoveAt(columns, i)[1..] == RemoveAt(columns[1..], i - 1);
    }
  }

  ghost predicate DistinctNames(columns: seq<Column>) {
    forall i, j :: 0 <= i < j < |columns| ==> columns[i].name != columns[j].name
  }

  ghost predicate HasName(columns: seq<Column>, name: string) {
    exists i :: 0 <= i < |columns| && columns[i].name == name
  }

  /** The requested names that exist, each at its first request. */
  ghost function Requested(columns: seq<Column>, names: seq<string>): seq<string>
    decreases |names|
  {
    if names == [] then []
    else
      var last := |names| - 1;
      Requested(columns, names[..last])
      + if HasName(columns, names[last]) && names[last] !in names[..last] then [names[last]] else []
  }

  /** With distinct column names, the requested columns that exist come first, in the order requested, and
      all others follow. */
  lemma RequestedComeFirst(columns: seq<Column>, names: seq<string>)
    requires DistinctNames(columns)
    ensures Names(Reordered(columns, names)) == Requested(columns, names) + Names(Excluding(columns, names))
  {
    ExcludingNone(columns);
    ReorderedShape(columns, [], names);
    assert [] + names == names;
    assert Requested(columns, []) == [];
  }

  lemma {:induction false} ExcludingNone(columns: seq<Column>)
    ensures Excluding(columns, []) == columns
  {
    if columns != [] {
      ExcludingNone(columns[1..]);
    }
  }

  /** Part-way, when the names in `done` have been served: the columns left are those with other names. */
  lemma {:induction false} ReorderedShape(columns: seq<Column>, done: seq<string>, names: seq<string>)
    requires DistinctNames(columns)
    ensures Requested(columns, done) + Names(Reordered(Excluding(columns, done), names))
            == Requested(columns, done + names) + Names(Excluding(columns, done + names))
    decreases |names|
  {
    hide RemoveAt, Excluding, HasName, DistinctNames;
    if names == [] {
      assert done + names == done;
    } else {
      var rest, next := Excluding(columns, done), done + [names[0]];
      var i := Position(rest, names[0]);
      assert next + names[1..] == done + names;
      assert next[..|done|] == done;
      ReorderedShape(columns, next, names[1..]);
      ServeOne(columns, done, names[0]);
      if i == |rest| {
        assert Requested(columns, next) == Requested(columns, done);
      } else {
        assert Requested(columns, next) == Requested(columns, done) + [names[0]];
        var tail := Reordered(RemoveAt(rest, i), names[1..]);
        assert Names([rest[i]] + tail) == [names[0]] + Names(tail);
      }
    }
  }

  lemma RemoveAtCons(head: Column, tail: seq<Column>, i: nat)
    requires i <= |tail|
    ensures RemoveAt([head] + tail, i) == if i == 0 then tail else [head] + RemoveAt(tail, i - 1)
  {
  }

  lemma PositionCons(head: Column, tail: seq<Column>, name: string)
    ensures Position([head] + tail, name) == if head.name == name then 0 else 1 + Position(tail, name)
  {
    assert ([head] + tail)[1..] == tail;
  }

  lemma DistinctTail(columns: seq<Column>)
    requires DistinctNames(columns) && columns != []
    ensures DistinctNames(columns[1..])
  {
  }

  lemma ExcludingCons(columns: seq<Column>, names: seq<string>)
    requires columns != []
    ensures Excluding(columns, names)
            == if columns[0].name in names then Excluding(columns[1..], names)
               else [columns[0]] + Excluding(columns[1..], names)
  {
  }

  /** A name is still to be served exactly if it exists and has not been served. */
  lemma {:induction false} LeftToServe(columns: seq<Column>, done: seq<string>, name: string)
    ensures Position(Excluding(columns, done), name) < |Excluding(columns, done)|
            <==> HasName(columns, name) && name !in done
  {
    hide HasName, Position, Excluding;
    if columns == [] {
      NoName(name);
      assert Excluding(columns, done) == [] by {
        ExcludingNothing(done);
      }
    } else {
      LeftToServe(columns[1..], done, name);
      HasNameSplit(columns, name);
      ExcludingCons(columns, done);
      PositionCons(columns[0], Excluding(columns[1..], done), name);
    }
  }

  lemma ExcludingNothing(names: seq<string>)
    ensures Excluding([], names) == []
  {
  }

  /** Serving one more name takes its column out of what is left, if it is there. */
  lemma {:induction false} ServeOne(columns: seq<Column>, done: seq<string>, name: string)
    requires DistinctNames(columns)
    ensures var rest := Excluding(columns, done);
            var i := Position(rest, name);
            && (i < |rest| <==> HasName(columns, name) && name !in done)
            && Excluding(columns, done + [name]) == if i == |rest| then rest else RemoveAt(rest, i)
  {
    hide RemoveAt, HasName, DistinctNames, Position, Excluding;
    LeftToServe(columns, done, name);
    if columns == [] {
      ExcludingNothing(done);
      ExcludingNothing(done + [name]);
    } else {
      var head, tail := columns[0], Excluding(columns[1..], done);
      ExcludingCons(columns, done);
      ExcludingCons(columns, done + [name]);
      DistinctTail(columns);
      ServeOne(columns[1..], done, name);
      if head.name !in done {
        PositionCons(head, tail, name);
        var i := Position(tail, name);
        if head.name == name {
          LastOfItsName(columns, name);
          RemoveAtCons(head, tail, 0);
        } else if i < |tail| {
          RemoveAtCons(head, tail, i + 1);
        }
      }
    }
  }

  lemma NoName(name: string)
    ensures !HasName([], name)
  {
  }

  lemma HasNameSplit(columns: seq<Column>, name: string)
    requires columns != []
    ensures HasName(columns, name) <==> columns[0].name == name || HasName(columns[1..], name)
  {
    if HasName(columns, name) {
      var i :| 0 <= i < |columns| && columns[i].name == name;
      if i > 0 {
        assert columns[1..][i - 1].name == name;
      }
    }
    if HasName(columns[1..], name) {
      var i :| 0 <= i < |columns[1..]| && columns[1..][i].name == name;
      assert columns[i + 1].name == name;
    }
  }

  lemma LastOfItsName(columns: seq<Column>, name: string)
    requires DistinctNames(columns) && columns != [] && columns[0].name == name
    ensures !HasName(columns[1..], name)
  {
  }
}
