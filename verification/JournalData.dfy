/** Snapshots of an entity's fields and the differences between them. */
module JournalData {
  import opened Wrappers

  datatype Json =
    | JNull
    | JBool(b: bool)
    | JNumber(text: string)
    | JString(s: string)
    | JArray(items: seq<Json>)
    | JObject(members: map<string, Json>)

  type Fields = map<string, Json>

  datatype Snapshot = Snapshot(dataType: string, fields: Fields)

  datatype ChangeType = Changed | Added | Removed

  datatype JournalDetails = JournalDetails(
    property: string,
    changeType: ChangeType,
    oldValue: Option<Json>,
    newValue: Option<Json>
  ) {

    /** The same change seen the other way round. */
    function Inverse(): JournalDetails {
      JournalDetails(
        property,
        match changeType { case Changed => Changed case Added => Removed case Removed => Added },
        newValue,
        oldValue)
    }
  }

  function ChangedDetail(property: string, oldValue: Json, newValue: Json): JournalDetails {
    JournalDetails(property, Changed, Some(oldValue), Some(newValue))
  }

  function AddedDetail(property: string, value: Json): JournalDetails {
    JournalDetails(property, Added, None, Some(value))
  }

  function RemovedDetail(property: string, value: Json): JournalDetails {
    JournalDetails(property, Removed, Some(value), None)
  }

  /** A diff is a list of changes. */
  type JournalDiff = seq<JournalDetails>

  /** What happened to one property, if anything. */
  function ChangeAt(before: Fields, after: Fields, property: string): Option<JournalDetails> {
    if property in before && property in after then
      if before[property] == after[property] then None
      else Some(ChangedDetail(property, before[property], after[property]))
    else if property in after then Some(AddedDetail(property, after[property]))
    else if property in before then Some(RemovedDetail(property, before[property]))
    else None
  }

  ghost predicate OncePerProperty(diff: JournalDiff) {
    forall i, j :: 0 <= i < j < |diff| ==> diff[i].property != diff[j].property
  }

  ghost predicate Mentions(diff: JournalDiff, property: string) {
    exists i :: 0 <= i < |diff| && diff[i].property == property
  }

  /** The diff lists what happened to each property, once, and nothing else. Hash maps are iterated in
      no particular order, so the order of the list is left open. */
  ghost predicate IsDiff(before: Fields, after: Fields, diff: JournalDiff) {
    && OncePerProperty(diff)
    && (forall i :: 0 <= i < |diff| ==> ChangeAt(before, after, diff[i].property) == Some(diff[i]))
    && (forall property :: ChangeAt(before, after, property).Some? ==> Mentions(diff, property))
  }

  /** The part of a diff that concerns the properties looked at so far. */
  ghost predicate IsDiffOn(before: Fields, after: Fields, seen: set<string>, diff: JournalDiff) {
    && OncePerProperty(diff)
    && (forall i :: 0 <= i < |diff| ==>
                      diff[i].property in seen && ChangeAt(before, after, diff[i].property) == Some(diff[i]))
    && (forall property :: property in seen && ChangeAt(before, after, property).Some? ==> Mentions(diff, property))
  }

  lemma SeeOneMore(before: Fields, after: Fields, seen: set<string>, diff: JournalDiff, property: string)
    requires IsDiffOn(before, after, seen, diff) && property !in seen
    ensures var change := ChangeAt(before, after, property);
            IsDiffOn(before, after, seen + {property}, if change.Some? then diff + [change.value] else diff)
  {
    var change := ChangeAt(before, after, property);
    var longer := if change.Some? then diff + [change.value] else diff;
    forall p | p in seen + {property} && ChangeAt(before, after, p).Some?
      ensures Mentions(longer, p)
    {
      if p == property {
        assert longer[|diff|].property == p;
      } else {
        var i :| 0 <= i < |diff| && diff[i].property == p;
        assert longer[i].property == p;
      }
    }
  }

  /** The difference between two snapshots, in two passes over the field maps. */
  method Compute(before: Snapshot, after: Snapshot) returns (diff: JournalDiff)
    ensures IsDiff(before.fields, after.fields, diff)
  {
    diff := [];
    ghost var seen := {};
    var rest := after.fields.Keys;
    while rest != {}
      invariant rest <= after.fields.Keys && seen == after.fields.Keys - rest
      invariant IsDiffOn(before.fields, after.fields, seen, diff)
    {
      var key :| key in rest;
      SeeOneMore(before.fields, after.fields, seen, diff, key);
      if key in before.fields {
        if before.fields[key] != after.fields[key] {
          diff := diff + [ChangedDetail(key, before.fields[key], after.fields[key])];
        }
      } else {
        diff := diff + [AddedDetail(key, after.fields[key])];
      }
      rest, seen := rest - {key}, seen + {key};
    }
    var remaining := before.fields.Keys;
    while remaining != {}
      invariant remaining <= before.fields.Keys
      invariant seen == after.fields.Keys + (before.fields.Keys - remaining)
      invariant IsDiffOn(before.fields, after.fields, seen, diff)
    {
      var key :| key in remaining;
      if key !in after.fields {
        SeeOneMore(before.fields, after.fields, seen, diff, key);
        diff := diff + [RemovedDetail(key, before.fields[key])];
      }
      remaining, seen := remaining - {key}, seen + {key};
    }
  }

  // ---------- applying diffs ----------

  function ApplyOne(fields: Fields, change: JournalDetails): Fields {
    match change.newValue
    case Some(value) => fields[change.property := value]
    case None => fields - {change.property}
  }

  function Apply(fields: Fields, diff: JournalDiff): Fields
    decreases |diff|
  {
    if diff == [] then fields
    else Apply(ApplyOne(fields, diff[0]), diff[1..])
  }

  function Value(fields: Fields, property: string): Option<Json> {
    if property in fields then Some(fields[property]) else None
  }

  /** Applying a diff changes the properties it mentions, to the value it gives, and no others. */
  lemma {:induction false} ApplyAt(fields: Fields, diff: JournalDiff, property: string)
    ensures !Mentions(diff, property) ==> Value(Apply(fields, diff), property) == Value(fields, property)
    ensures OncePerProperty(diff) ==>
              forall i :: 0 <= i < |diff| && diff[i].property == property ==>
                            Value(Apply(fields, diff), property) == diff[i].newValue
    decreases |diff|
  {
    if diff != [] {
      var first := ApplyOne(fields, diff[0]);
      ApplyAt(first, diff[1..], property);
      if Mentions(diff[1..], property) {
        var i :| 0 <= i < |diff[1..]| && diff[1..][i].property == property;
        assert diff[i + 1].property == property;
      }
      if OncePerProperty(diff) {
        assert forall i, j :: 0 <= i < j < |diff[1..]| ==> diff[1..][i] == diff[i + 1] && diff[1..][j] == diff[j + 1];
        forall i | 0 <= i < |diff| && diff[i].property == property
          ensures Value(Apply(fields, diff), property) == diff[i].newValue
        {
          if i > 0 {
            assert diff[1..][i - 1] == diff[i];
          }
        }
      }
    }
  }

  /** Applying a diff to the old fields gives the new ones. */
  lemma ApplyDiff(before: Fields, after: Fields, diff: JournalDiff)
    requires IsDiff(before, after, diff)
    ensures Apply(before, diff) == after
  {
    forall property
      ensures Value(Apply(before, diff), property) == Value(after, property)
    {
      ApplyAt(before, diff, property);
      if ChangeAt(before, after, property).Some? {
        var i :| 0 <= i < |diff| && diff[i].property == property;
        assert diff[i].newValue == Value(after, property);
      }
    }
    assert forall property :: property in Apply(before, diff) <==> Value(Apply(before, diff), property).Some?;
    assert forall property :: property in after <==> Value(after, property).Some?;
  }

  /** What a diff tells of a property, in terms of the two maps: it mentions those whose value is not the same before
      and after, with both values, and says rightly whether they were changed, added or removed. */
  lemma DiffTells(before: Fields, after: Fields, diff: JournalDiff, property: string)
    requires IsDiff(before, after, diff)
    ensures Mentions(diff, property) <==> Value(before, property) != Value(after, property)
    ensures forall change :: change in diff && change.property == property ==>
                               && change.oldValue == Value(before, property)
                               && change.newValue == Value(after, property)
                               && (change.changeType == Added <==> property !in before)
                               && (change.changeType == Removed <==> property !in after)
  {
    forall change | change in diff && change.property == property
      ensures ChangeAt(before, after, property) == Some(change)
    {
    }
  }

  function InverseDiff(diff: JournalDiff): JournalDiff {
    seq(|diff|, i requires 0 <= i < |diff| => diff[i].Inverse())
  }

  /** Inverting a diff gives a diff the other way, so applying it undoes the change. */
  lemma InverseIsDiff(before: Fields, after: Fields, diff: JournalDiff)
    requires IsDiff(before, after, diff)
    ensures IsDiff(after, before, InverseDiff(diff))
    ensures Apply(Apply(before, diff), InverseDiff(diff)) == before
  {
    var inverse := InverseDiff(diff);
    forall property | ChangeAt(after, before, property).Some?
      ensures Mentions(inverse, property)
    {
      assert Mentions(diff, property);
      var i :| 0 <= i < |diff| && diff[i].property == property;
      assert inverse[i].property == property;
    }
    ApplyDiff(before, after, diff);
    ApplyDiff(after, before, inverse);
  }

  /** A diff is empty exactly when nothing changed. */
  lemma EmptyIffEqual(before: Fields, after: Fields, diff: JournalDiff)
    requires IsDiff(before, after, diff)
    ensures diff == [] <==> before == after
  {
    if diff == [] {
      ApplyDiff(before, after, diff);
    } else {
      assert ChangeAt(before, after, diff[0].property).Some?;
    }
  }

  /** Two diffs of the same pair of snapshots have the same changes, in whatever order. */
  lemma DiffIsUnique(before: Fields, after: Fields, a: JournalDiff, b: JournalDiff)
    requires IsDiff(before, after, a) && IsDiff(before, after, b)
    ensures forall change :: change in a <==> change in b
    ensures |a| == |b|
  {
    ApplyDiff(before, after, a);
    ApplyDiff(before, after, b);
    DiffIsMinimal(before, after, a, b);
    DiffIsMinimal(before, after, b, a);
    DiffKeepsWithin(before, after, a, b);
    DiffKeepsWithin(before, after, b, a);
  }

  lemma DiffKeepsWithin(before: Fields, after: Fields, a: JournalDiff, b: JournalDiff)
    requires IsDiff(before, after, a) && IsDiff(before, after, b)
    ensures forall change :: change in a ==> change in b
  {
    forall change | change in a
      ensures change in b
    {
      var i :| 0 <= i < |a| && a[i] == change;
      assert Mentions(b, change.property);
      var j :| 0 <= j < |b| && b[j].property == change.property;
      assert Some(b[j]) == ChangeAt(before, after, b[j].property) == Some(a[i]);
    }
  }

  function Properties(diff: JournalDiff): set<string> {
    set change | change in diff :: change.property
  }

  lemma {:induction false} PropertiesAtMost(diff: JournalDiff)
    ensures |Properties(diff)| <= |diff|
    ensures OncePerProperty(diff) ==> |Properties(diff)| == |diff|
  {
    if diff != [] {
      var last := |diff| - 1;
      PropertiesAtMost(diff[..last]);
      assert diff == diff[..last] + [diff[last]];
      assert Properties(diff) == Properties(diff[..last]) + {diff[last].property};
    }
  }

  /** No list of changes that leads from the old fields to the new ones mentions fewer properties or is shorter. */
  lemma DiffIsMinimal(before: Fields, after: Fields, diff: JournalDiff, other: JournalDiff)
    requires IsDiff(before, after, diff)
    requires Apply(before, other) == after
    ensures Properties(diff) <= Properties(other)
    ensures |diff| <= |other|
  {
    forall property | property in Properties(diff)
      ensures property in Properties(other)
    {
      var i :| 0 <= i < |diff| && diff[i].property == property;
      assert ChangeAt(before, after, diff[i].property) == Some(diff[i]);
      ApplyAt(before, other, property);
      assert Mentions(other, property);
      var j :| 0 <= j < |other| && other[j].property == property;
      assert other[j] in other;
    }
    PropertiesAtMost(diff);
    PropertiesAtMost(other);
    SubsetSize(Properties(diff), Properties(other));
  }

  lemma {:induction false} SubsetSize(a: set<string>, b: set<string>)
    requires a <= b
    ensures |a| <= |b|
  {
    if a != {} {
      var x :| x in a;
      SubsetSize(a - {x}, b - {x});
    }
  }
}
