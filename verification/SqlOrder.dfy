/** Sort orders, the ORDER BY clause printed for them, and the ordering of rows it denotes. */
module SqlOrder {
  import opened Wrappers
  import opened Strings
  import opened SqlLexer
  import opened SqlLike
  import opened SqlGrammar
  import SqlConditions

  datatype SortDirection = Asc | Desc {
    function Reverse(): SortDirection {
      match this
      case Asc => Desc
      case Desc => Asc
    }
  }

  datatype SortCriterion = SortCriterion(attribute: string, direction: SortDirection) {
    function Reversed(): SortCriterion {
      this.(direction := direction.Reverse())
    }
  }

  function SortAttributeToColumn(attribute: string): Option<string> {
    match attribute
    case "id" => Some("wp.id")
    case "subject" => Some("wp.subject")
    case "project" => Some("wp.project_id")
    case "type" => Some("t.position")
    case "status" => Some("s.position")
    case "priority" => Some("p.position")
    case "author" => Some("wp.author_id")
    case "assigned_to" => Some("wp.assigned_to_id")
    case "responsible" => Some("wp.responsible_id")
    case "start_date" => Some("wp.start_date")
    case "due_date" => Some("wp.due_date")
    case "estimated_hours" => Some("wp.estimated_hours")
    case "done_ratio" => Some("wp.done_ratio")
    case "created_at" => Some("wp.created_at")
    case "updated_at" => Some("wp.updated_at")
    case "version" => Some("wp.version_id")
    case "category" => Some("wp.category_id")
    case "parent" => Some("wp.parent_id")
    case _ => None
  }

  function DirectionText(direction: SortDirection): string {
    if direction == Asc then "ASC" else "DESC"
  }

  function NullsText(direction: SortDirection): string {
    if direction == Asc then "NULLS LAST" else "NULLS FIRST"
  }

  function SortToSql(criterion: SortCriterion): Option<string> {
    match SortAttributeToColumn(criterion.attribute)
    case None => None
    case Some(column) => Some(column + " " + DirectionText(criterion.direction) + " " + NullsText(criterion.direction))
  }

  function OrderParts(sorts: seq<SortCriterion>): seq<string> {
    if sorts == [] then []
    else
      (match SortToSql(sorts[0]) { case Some(sql) => [sql] case None => [] }) + OrderParts(sorts[1..])
  }

  const DEFAULT_ORDER := "ORDER BY wp.id DESC"

  function BuildOrderClause(sorts: seq<SortCriterion>): string {
    if sorts == [] then DEFAULT_ORDER
    else
      var parts := OrderParts(sorts);
      if parts == [] then DEFAULT_ORDER else "ORDER BY " + Join(parts, ", ")
  }

  // ---------- reading the clause ----------

  datatype SortKey = SortKey(column: string, descending: bool, nullsFirst: bool)

  /** A key. Where NULLS is not given, PostgreSQL puts them last when ascending and first when descending. */
  function ParseKey(ts: seq<Terminal>): (r: Parse<SortKey>)
    ensures r.Some? ==> |r.value.1| < |ts|
  {
    if ts == [] || !ts[0].Column? then None
    else
      var directed := |ts| > 1 && (ts[1].KwAsc? || ts[1].KwDesc?);
      var descending := directed && ts[1].KwDesc?;
      var rest := if directed then ts[2..] else ts[1..];
      if |rest| > 1 && rest[0].KwNulls? && (rest[1].KwFirst? || rest[1].KwLast?)
      then Some((SortKey(ts[0].name, descending, rest[1].KwFirst?), rest[2..]))
      else Some((SortKey(ts[0].name, descending, descending), rest))
  }

  function ParseKeys(ts: seq<Terminal>): Option<seq<SortKey>>
    decreases |ts|
  {
    match ParseKey(ts)
    case None => None
    case Some((key, rest)) =>
      if rest == [] then Some([key])
      else if rest[0].Comma? then Prepend(key, ParseKeys(rest[1..]))
      else None
  }

  function ReadOrder(clause: string): Option<seq<SortKey>> {
    match Scan(clause)
    case None => None
    case Some(ts) => if |ts| >= 2 && ts[0].KwOrder? && ts[1].KwBy? then ParseKeys(ts[2..]) else None
  }

  // ---------- the ordering a clause denotes ----------

  /** How the values of a column compare: `le(column, a, b)`. */
  type ValueOrder = (string, string, string) -> bool

  ghost predicate IsTotalPreorder(le: ValueOrder) {
    && (forall c, x, y :: le(c, x, y) || le(c, y, x))
    && (forall c, x, y, z :: le(c, x, y) && le(c, y, z) ==> le(c, x, z))
  }

  /** Row a need not come after row b as far as one key is concerned. */
  predicate KeyAllows(le: ValueOrder, key: SortKey, a: Row, b: Row) {
    match (a(key.column), b(key.column))
    case (None, None) => true
    case (None, Some(_)) => key.nullsFirst
    case (Some(_), None) => !key.nullsFirst
    case (Some(x), Some(y)) => if key.descending then le(key.column, y, x) else le(key.column, x, y)
  }

  /** Later keys only break the ties of earlier ones. */
  predicate KeysAllow(le: ValueOrder, keys: seq<SortKey>, a: Row, b: Row) {
    if keys == [] then true
    else if KeyAllows(le, keys[0], a, b) && KeyAllows(le, keys[0], b, a) then KeysAllow(le, keys[1..], a, b)
    else KeyAllows(le, keys[0], a, b)
  }

  /** The ordering denoted by the clause of a sort order. */
  ghost predicate Ordered(le: ValueOrder, sorts: seq<SortCriterion>, a: Row, b: Row)
    requires ReadOrder(BuildOrderClause(sorts)).Some?
  {
    KeysAllow(le, ReadOrder(BuildOrderClause(sorts)).value, a, b)
  }

  // ---------- the clause reads back ----------

  predicate Supported(criterion: SortCriterion) {
    SortAttributeToColumn(criterion.attribute).Some?
  }

  function KeyOf(criterion: SortCriterion): SortKey
    requires Supported(criterion)
  {
    SortKey(
      SortAttributeToColumn(criterion.attribute).value, criterion.direction == Desc, criterion.direction == Desc)
  }

  function SupportedOnly(sorts: seq<SortCriterion>): seq<SortCriterion> {
    if sorts == [] then []
    else (if Supported(sorts[0]) then [sorts[0]] else []) + SupportedOnly(sorts[1..])
  }

  function SupportedKeys(sorts: seq<SortCriterion>): seq<SortKey> {
    if sorts == [] then []
    else (if Supported(sorts[0]) then [KeyOf(sorts[0])] else []) + SupportedKeys(sorts[1..])
  }

  const DEFAULT_KEY := SortKey("wp.id", true, true)

  /** The keys intended for a sort order. */
  function IntendedKeys(sorts: seq<SortCriterion>): seq<SortKey> {
    if SupportedKeys(sorts) == [] then [DEFAULT_KEY] else SupportedKeys(sorts)
  }

  lemma SortColumnsAreQualified(attribute: string)
    requires SortAttributeToColumn(attribute).Some?
    ensures SqlConditions.IsColumnName(SortAttributeToColumn(attribute).value)
  {
    SqlConditions.ColumnNames1();
    SqlConditions.ColumnNames2();
    SqlConditions.ColumnNames3();
    SqlConditions.ColumnNames4();
    assert SqlConditions.IsColumnName("t.position");
    assert SqlConditions.IsColumnName("s.position");
    hide SqlConditions.IsColumnName;
  }

  lemma ScanColumn(column: string)
    requires SqlConditions.IsColumnName(column)
    ensures Scan(column) == Some([Column(column)])
  {
    hide Scan;
    assert '.' in column && !IsNumeralText(column);
    ScanWord(column);
  }

  lemma ScanDirection(direction: SortDirection)
    ensures Scan(DirectionText(direction)) == Some([if direction == Asc then KwAsc else KwDesc])
  {
    hide Scan;
    if direction == Asc {
      ScanWord("ASC");
    } else {
      ScanWord("DESC");
    }
  }

  lemma ScanNulls(direction: SortDirection)
    ensures Scan(NullsText(direction)) == Some([KwNulls, if direction == Asc then KwLast else KwFirst])
  {
    hide Scan;
    ScanNullsWord();
    ScanPlaces();
    var place := if direction == Asc then "LAST" else "FIRST";
    ScanSpace("NULLS", place);
    assert "NULLS" + " " + place == NullsText(direction);
    var t := if direction == Asc then KwLast else KwFirst;
    assert [KwNulls] + [t] == [KwNulls, t];
  }

  lemma ScanPlaces()
    ensures Scan("LAST") == Some([KwLast]) && Scan("FIRST") == Some([KwFirst])
  {
    hide Scan;
    ScanWord("LAST");
    ScanWord("FIRST");
  }

  lemma ScanNullsWord()
    ensures Scan("NULLS") == Some([KwNulls])
  {
    hide Scan;
    ScanWord("NULLS");
  }

  lemma ScanCriterion(criterion: SortCriterion)
    requires Supported(criterion)
    ensures Scan(SortToSql(criterion).value)
            == Some([Column(KeyOf(criterion).column), if criterion.direction == Asc then KwAsc else KwDesc,
                     KwNulls, if criterion.direction == Asc then KwLast else KwFirst])
  {
    hide Scan, SortAttributeToColumn, DirectionText, NullsText;
    var column := SortAttributeToColumn(criterion.attribute).value;
    SortColumnsAreQualified(criterion.attribute);
    ScanColumn(column);
    ScanDirection(criterion.direction);
    ScanNulls(criterion.direction);
    ScanSpace(column, DirectionText(criterion.direction));
    ScanSpace(column + " " + DirectionText(criterion.direction), NullsText(criterion.direction));
    assert Scan(SortToSql(criterion).value).value
           == [Column(column), if criterion.direction == Asc then KwAsc else KwDesc,
               KwNulls, if criterion.direction == Asc then KwLast else KwFirst];
  }

  lemma KeyParses(criterion: SortCriterion, rest: seq<Terminal>)
    requires Supported(criterion)
    ensures Scan(SortToSql(criterion).value).Some?
    ensures ParseKey(Scan(SortToSql(criterion).value).value + rest) == Some((KeyOf(criterion), rest))
  {
    hide Scan, SortAttributeToColumn;
    ScanCriterion(criterion);
    var ts := Scan(SortToSql(criterion).value).value + rest;
    assert ts[2..][0] == ts[2] && ts[2..][1] == ts[3];
    assert ts[2..][2..] == rest;
  }

  lemma {:induction false} PartsParse(sorts: seq<SortCriterion>)
    requires SupportedKeys(sorts) != []
    ensures OrderParts(sorts) != []
    ensures var list := Join(OrderParts(sorts), ", ");
            Scan(list).Some? && ParseKeys(Scan(list).value) == Some(SupportedKeys(sorts))
  {
    hide Scan, ParseKey, SortAttributeToColumn, KeyOf;
    var rest := sorts[1..];
    if !Supported(sorts[0]) {
      PartsParse(rest);
      assert OrderParts(sorts) == OrderParts(rest) && SupportedKeys(sorts) == SupportedKeys(rest);
    } else {
      var sql := SortToSql(sorts[0]).value;
      KeyParses(sorts[0], []);
      PartsExistIffSupported(rest);
      if SupportedKeys(rest) == [] {
        assert OrderParts(sorts) == [sql];
        assert Scan(sql).value + [] == Scan(sql).value;
        assert SupportedKeys(sorts) == [KeyOf(sorts[0])];
      } else {
        PartsParse(rest);
        var tail := Join(OrderParts(rest), ", ");
        assert OrderParts(sorts)[1..] == OrderParts(rest);
        ScanEmpty();
        ScanSpace("", tail);
        assert "" + " " + tail == " " + tail;
        ScanMark(sql, ',', " " + tail);
        assert Join(OrderParts(sorts), ", ") == sql + "," + (" " + tail);
        var after := [Comma] + Scan(tail).value;
        KeyParses(sorts[0], after);
        assert Scan(Join(OrderParts(sorts), ", ")).value == Scan(sql).value + after;
        assert after[1..] == Scan(tail).value;
      }
    }
  }

  lemma {:induction false} PartsExistIffSupported(sorts: seq<SortCriterion>)
    ensures OrderParts(sorts) == [] <==> SupportedKeys(sorts) == []
  {
    if sorts != [] {
      PartsExistIffSupported(sorts[1..]);
    }
  }

  lemma ScanOrderBy(list: string)
    requires Scan(list).Some?
    ensures Scan("ORDER BY " + list) == Some([KwOrder, KwBy] + Scan(list).value)
  {
    hide Scan;
    ScanWord("ORDER");
    ScanWord("BY");
    ScanSpace("ORDER", "BY");
    assert "ORDER" + " " + "BY" == "ORDER BY";
    ScanSpace("ORDER BY", list);
    assert "ORDER BY" + " " + list == "ORDER BY " + list;
    assert [KwOrder] + [KwBy] == [KwOrder, KwBy];
  }

  lemma DefaultOrderReads()
    ensures ReadOrder(DEFAULT_ORDER) == Some([DEFAULT_KEY])
  {
    hide Scan;
    SqlConditions.ColumnNames1();
    ScanColumn("wp.id");
    ScanDirection(Desc);
    ScanSpace("wp.id", "DESC");
    assert "wp.id" + " " + "DESC" == "wp.id DESC";
    ScanOrderBy("wp.id DESC");
    assert "ORDER BY " + "wp.id DESC" == DEFAULT_ORDER;
    var ts := [Column("wp.id"), KwDesc];
    assert Scan(DEFAULT_ORDER).value[2..] == ts;
    assert ts[2..] == [];
  }

  /** The clause printed for a sort order reads back as one key for each supported criterion, in order, and
      as `wp.id` descending when there is none. */
  lemma OrderClauseReadsBack(sorts: seq<SortCriterion>)
    ensures ReadOrder(BuildOrderClause(sorts)) == Some(IntendedKeys(sorts))
  {
    hide Scan, ParseKeys;
    PartsExistIffSupported(sorts);
    if SupportedKeys(sorts) == [] {
      DefaultOrderReads();
    } else {
      PartsParse(sorts);
      var list := Join(OrderParts(sorts), ", ");
      ScanOrderBy(list);
      assert ([KwOrder, KwBy] + Scan(list).value)[2..] == Scan(list).value;
    }
  }

  // ---------- properties of the ordering ----------

  /** On every column NULL is greatest: last when ascending, first when descending. */
  predicate NullIsGreatest(key: SortKey) {
    key.nullsFirst == key.descending
  }

  /** The comparison of column values with NULL added above all others. */
  predicate WithNullOnTop(le: ValueOrder, column: string, x: Option<string>, y: Option<string>) {
    y.None? || (x.Some? && le(column, x.value, y.value))
  }

  lemma {:induction false} IntendedKeysPutNullOnTop(sorts: seq<SortCriterion>)
    ensures forall key :: key in IntendedKeys(sorts) ==> NullIsGreatest(key)
    ensures forall key :: key in SupportedKeys(sorts) ==> NullIsGreatest(key)
  {
    hide SortAttributeToColumn;
    if sorts != [] {
      IntendedKeysPutNullOnTop(sorts[1..]);
    }
  }

  lemma {:induction false} KeysAreTotal(le: ValueOrder, keys: seq<SortKey>, a: Row, b: Row)
    requires IsTotalPreorder(le)
    ensures KeysAllow(le, keys, a, b) || KeysAllow(le, keys, b, a)
  {
    if keys != [] {
      KeysAreTotal(le, keys[1..], a, b);
    }
  }

  lemma KeyIsTransitive(le: ValueOrder, key: SortKey, a: Row, b: Row, c: Row)
    requires IsTotalPreorder(le)
    requires KeyAllows(le, key, a, b) && KeyAllows(le, key, b, c)
    ensures KeyAllows(le, key, a, c)
  {
  }

  lemma {:induction false} KeysAreTransitive(le: ValueOrder, keys: seq<SortKey>, a: Row, b: Row, c: Row)
    requires IsTotalPreorder(le)
    requires KeysAllow(le, keys, a, b) && KeysAllow(le, keys, b, c)
    ensures KeysAllow(le, keys, a, c)
  {
    hide KeyAllows, IsTotalPreorder;
    if keys != [] {
      KeyIsTransitive(le, keys[0], a, b, c);
      if KeyAllows(le, keys[0], c, a) {
        KeyIsTransitive(le, keys[0], c, a, b);
        KeyIsTransitive(le, keys[0], b, c, a);
        KeysAreTransitive(le, keys[1..], a, b, c);
      }
    }
  }

  /** Whatever the sort order, its clause denotes a total preorder on rows, in which NULL is the greatest value of
      every column. */
  lemma OrderIsTotalPreorder(le: ValueOrder, sorts: seq<SortCriterion>, a: Row, b: Row, c: Row)
    requires IsTotalPreorder(le)
    ensures ReadOrder(BuildOrderClause(sorts)).Some?
    ensures Ordered(le, sorts, a, b) || Ordered(le, sorts, b, a)
    ensures Ordered(le, sorts, a, b) && Ordered(le, sorts, b, c) ==> Ordered(le, sorts, a, c)
    ensures forall key :: key in ReadOrder(BuildOrderClause(sorts)).value ==>
                            (KeyAllows(le, key, a, b) <==>
                             if key.descending then WithNullOnTop(le, key.column, b(key.column), a(key.column))
                             else WithNullOnTop(le, key.column, a(key.column), b(key.column)))
  {
    hide ReadOrder, BuildOrderClause, IntendedKeys;
    OrderClauseReadsBack(sorts);
    var keys := IntendedKeys(sorts);
    KeysAreTotal(le, keys, a, b);
    if KeysAllow(le, keys, a, b) && KeysAllow(le, keys, b, c) {
      KeysAreTransitive(le, keys, a, b, c);
    }
    IntendedKeysPutNullOnTop(sorts);
  }

  function ReverseAll(sorts: seq<SortCriterion>): seq<SortCriterion> {
    seq(|sorts|, i requires 0 <= i < |sorts| => sorts[i].Reversed())
  }

  function Flip(keys: seq<SortKey>): seq<SortKey> {
    seq(|keys|, i requires 0 <= i < |keys| => SortKey(keys[i].column, !keys[i].descending, !keys[i].nullsFirst))
  }

  lemma {:induction false} ReversedKeys(sorts: seq<SortCriterion>)
    ensures SupportedKeys(ReverseAll(sorts)) == Flip(SupportedKeys(sorts))
  {
    hide SortAttributeToColumn;
    if sorts != [] {
      ReversedKeys(sorts[1..]);
      assert ReverseAll(sorts)[1..] == ReverseAll(sorts[1..]);
      var head := if Supported(sorts[0]) then [KeyOf(sorts[0])] else [];
      assert Flip(head + SupportedKeys(sorts[1..])) == Flip(head) + Flip(SupportedKeys(sorts[1..]));
    }
  }

  lemma {:induction false} FlippedKeysAllowTheConverse(le: ValueOrder, keys: seq<SortKey>, a: Row, b: Row)
    ensures KeysAllow(le, Flip(keys), a, b) <==> KeysAllow(le, keys, b, a)
  {
    if keys != [] {
      FlippedKeysAllowTheConverse(le, keys[1..], a, b);
      assert Flip(keys)[1..] == Flip(keys[1..]);
    }
  }

  /** Reversing every criterion gives exactly the converse ordering, for all pairs of rows, when and only when some
      criterion is supported; otherwise both clauses fall back to the same default. `x` and `y` are two ids, x
      after y. */
  lemma ReversalIsConverseIff(le: ValueOrder, sorts: seq<SortCriterion>, x: string, y: string)
    requires IsTotalPreorder(le) && !le("wp.id", x, y)
    ensures ReadOrder(BuildOrderClause(sorts)).Some? && ReadOrder(BuildOrderClause(ReverseAll(sorts))).Some?
    ensures (forall a, b :: Ordered(le, ReverseAll(sorts), a, b) <==> Ordered(le, sorts, b, a))
            <==> exists criterion :: criterion in sorts && Supported(criterion)
  {
    hide ReadOrder, BuildOrderClause, SupportedKeys;
    OrderClauseReadsBack(sorts);
    OrderClauseReadsBack(ReverseAll(sorts));
    ReversedKeys(sorts);
    KeysExistIffSupported(sorts);
    if SupportedKeys(sorts) != [] {
      forall a, b
        ensures Ordered(le, ReverseAll(sorts), a, b) <==> Ordered(le, sorts, b, a)
      {
        FlippedKeysAllowTheConverse(le, SupportedKeys(sorts), a, b);
      }
    } else {
      var a: Row := column => Some(x);
      var b: Row := column => Some(y);
      assert KeyAllows(le, DEFAULT_KEY, a, b) && !KeyAllows(le, DEFAULT_KEY, b, a);
      assert Ordered(le, ReverseAll(sorts), a, b) && !Ordered(le, sorts, b, a);
    }
  }

  lemma {:induction false} KeysExistIffSupported(sorts: seq<SortCriterion>)
    ensures SupportedKeys(sorts) != [] <==> exists criterion :: criterion in sorts && Supported(criterion)
  {
    if sorts != [] {
      KeysExistIffSupported(sorts[1..]);
      assert sorts == [sorts[0]] + sorts[1..];
      if Supported(sorts[0]) {
        assert sorts[0] in sorts;
      }
    }
  }

  /** Criteria on unsupported attributes do not influence the clause at all. */
  lemma {:induction false} UnsupportedCriteriaVanish(sorts: seq<SortCriterion>)
    ensures OrderParts(SupportedOnly(sorts)) == OrderParts(sorts)
    ensures BuildOrderClause(SupportedOnly(sorts)) == BuildOrderClause(sorts)
  {
    hide SortAttributeToColumn, Join;
    if sorts != [] {
      UnsupportedCriteriaVanish(sorts[1..]);
      if Supported(sorts[0]) {
        assert SupportedOnly(sorts)[1..] == SupportedOnly(sorts[1..]);
      } else {
        assert SupportedOnly(sorts) == SupportedOnly(sorts[1..]);
        assert OrderParts(sorts) == OrderParts(sorts[1..]);
      }
    }
  }
}
