/** Which columns filters and sort criteria reach: those named after their attributes. */
module SqlColumns {
  import opened Wrappers
  import opened Strings
  import opened Texts
  import opened SqlGrammar
  import opened SqlFilters
  import opened SqlWhere
  import opened SqlOrder

  /** The columns of work packages that can be filtered by, under their own names. */
  const WORK_PACKAGE_COLUMNS := {
    "id", "subject", "description", "project_id", "type_id", "status_id", "priority_id", "author_id", "assigned_to_id",
    "responsible_id", "category_id", "version_id", "parent_id", "start_date", "due_date", "estimated_hours",
    "done_ratio", "created_at", "updated_at"
  }

  /** The tables joined to work packages, whose aliases are their first letters. They stand for their `name`. */
  const JOINED_TABLES := {"status", "type", "priority"}

  /** Other columns of joined tables: the table, an underscore, the column. */
  const JOINED_COLUMNS := {"status_is_closed", "priority_position"}

  /** The column an attribute is the name of. */
  function NamedColumn(attribute: string): Option<string> {
    if attribute in WORK_PACKAGE_COLUMNS then Some("wp." + attribute)
    else if attribute in JOINED_TABLES then Some(attribute[..1] + ".name")
    else if attribute in JOINED_COLUMNS then
      match SplitOnce(attribute, '_')
      case Some((table, column)) => Some(table[..1] + "." + column)
      case None => None
    else None
  }

  lemma JoinedColumnsSplit()
    ensures SplitOnce("status_is_closed", '_') == Some(("status", "is_closed"))
    ensures SplitOnce("priority_position", '_') == Some(("priority", "position"))
  {
    hide SplitOnce;
    SplitOnceOf("status", '_', "is_closed");
    SplitOnceOf("priority", '_', "position");
    assert "status" + "_" + "is_closed" == "status_is_closed" && "priority" + "_" + "position" == "priority_position";
  }

  lemma OwnColumns1(attribute: string)
    requires attribute in {"id", "subject", "description", "project_id", "type_id"}
    ensures AttributeToColumn(attribute) == Some("wp." + attribute)
  {
    match attribute {
      case "id" => assert "wp." + "id" == "wp.id";
      case "subject" => assert "wp." + "subject" == "wp.subject";
      case "description" => assert "wp." + "description" == "wp.description";
      case "project_id" => assert "wp." + "project_id" == "wp.project_id";
      case "type_id" => assert "wp." + "type_id" == "wp.type_id";
    }
  }

  lemma OwnColumns2(attribute: string)
    requires attribute in {"status_id", "priority_id", "author_id", "assigned_to_id", "responsible_id"}
    ensures AttributeToColumn(attribute) == Some("wp." + attribute)
  {
    match attribute {
      case "status_id" => assert "wp." + "status_id" == "wp.status_id";
      case "priority_id" => assert "wp." + "priority_id" == "wp.priority_id";
      case "author_id" => assert "wp." + "author_id" == "wp.author_id";
      case "assigned_to_id" => assert "wp." + "assigned_to_id" == "wp.assigned_to_id";
      case "responsible_id" => assert "wp." + "responsible_id" == "wp.responsible_id";
    }
  }

  lemma OwnColumns3(attribute: string)
    requires attribute in {"category_id", "version_id", "parent_id", "start_date"}
    ensures AttributeToColumn(attribute) == Some("wp." + attribute)
  {
    match attribute {
      case "category_id" => assert "wp." + "category_id" == "wp.category_id";
      case "version_id" => assert "wp." + "version_id" == "wp.version_id";
      case "parent_id" => assert "wp." + "parent_id" == "wp.parent_id";
      case "start_date" => assert "wp." + "start_date" == "wp.start_date";
    }
  }

  lemma OwnColumns4(attribute: string)
    requires attribute in {"due_date", "estimated_hours", "done_ratio"}
    ensures AttributeToColumn(attribute) == Some("wp." + attribute)
  {
    match attribute {
      case "due_date" => assert "wp." + "due_date" == "wp.due_date";
      case "estimated_hours" => assert "wp." + "estimated_hours" == "wp.estimated_hours";
      case "done_ratio" => assert "wp." + "done_ratio" == "wp.done_ratio";
    }
  }

  lemma OwnColumns5(attribute: string)
    requires attribute in {"created_at", "updated_at"}
    ensures AttributeToColumn(attribute) == Some("wp." + attribute)
  {
    match attribute {
      case "created_at" => assert "wp." + "created_at" == "wp.created_at";
      case "updated_at" => assert "wp." + "updated_at" == "wp.updated_at";
    }
  }

  lemma JoinedTables(attribute: string)
    requires attribute in JOINED_TABLES
    ensures AttributeToColumn(attribute) == Some(attribute[..1] + ".name")
  {
    match attribute {
      case "status" => assert "status"[..1] + ".name" == "s.name";
      case "type" => assert "type"[..1] + ".name" == "t.name";
      case "priority" => assert "priority"[..1] + ".name" == "p.name";
    }
  }

  lemma JoinedColumns(attribute: string)
    requires attribute in JOINED_COLUMNS
    ensures AttributeToColumn(attribute) == NamedColumn(attribute)
  {
    hide SplitOnce;
    JoinedColumnsSplit();
    match attribute {
      case "status_is_closed" => assert "status"[..1] + "." + "is_closed" == "s.is_closed";
      case "priority_position" => assert "priority"[..1] + "." + "position" == "p.position";
    }
  }

  lemma NoOtherColumns(attribute: string)
    requires attribute !in WORK_PACKAGE_COLUMNS + JOINED_TABLES + JOINED_COLUMNS
    ensures AttributeToColumn(attribute) == None
  {
  }

  /** The column of a filter is the one its attribute names, and no other attribute has one. */
  lemma ColumnsAreNamed(attribute: string)
    ensures AttributeToColumn(attribute) == NamedColumn(attribute)
  {
    hide AttributeToColumn, SplitOnce;
    if attribute in {"id", "subject", "description", "project_id", "type_id"} {
      OwnColumns1(attribute);
    } else if attribute in {"status_id", "priority_id", "author_id", "assigned_to_id", "responsible_id"} {
      OwnColumns2(attribute);
    } else if attribute in {"category_id", "version_id", "parent_id", "start_date"} {
      OwnColumns3(attribute);
    } else if attribute in {"due_date", "estimated_hours", "done_ratio"} {
      OwnColumns4(attribute);
    } else if attribute in {"created_at", "updated_at"} {
      OwnColumns5(attribute);
    } else if attribute in JOINED_TABLES {
      JoinedTables(attribute);
    } else if attribute in JOINED_COLUMNS {
      JoinedColumns(attribute);
    } else {
      NoOtherColumns(attribute);
    }
  }

  /** The clause of a single Equals filter compares the column its attribute names with the value wanted; an attribute
      that names none leaves the clause empty. */
  lemma FilterComparesItsColumn(attribute: string, n: int, user: Option<int>)
    ensures var clause := WhereClause([Filter(attribute, Equals, Id(n))], user);
            match NamedColumn(attribute)
            case None => clause == ""
            case Some(column) =>
              && clause == column + " = " + IntText(n)
              && ReadWhere(clause) == Some([[Compare(column, Eq, Integer(n))]])
  {
    hide AttributeToColumn, NamedColumn, IntText, ReadWhere;
    var f := Filter(attribute, Equals, Id(n));
    ColumnsAreNamed(attribute);
    assert [f][..0] == [];
    WhereClauseMeansFilters([f], user);
    if TakesPart(f, user) {
      var column := NamedColumn(attribute).value;
      assert Conditions([f], user) == [column + " = " + IntText(n)];
      assert ClauseConds([f], user) == Some([Compare(column, Eq, Integer(n))]) by {
        assert [] + [Compare(column, Eq, Integer(n))] == [Compare(column, Eq, Integer(n))];
      }
    } else {
      assert Conditions([f], user) == [];
    }
  }

  lemma NamesAreDistinct(a: string, b: string)
    requires a != b && NamedColumn(a).Some? && NamedColumn(b).Some?
    ensures NamedColumn(a) != NamedColumn(b)
  {
    hide SplitOnce;
    JoinedColumnsSplit();
    var x, y := NamedColumn(a).value, NamedColumn(b).value;
    if a in WORK_PACKAGE_COLUMNS {
      assert x[0] == 'w' && x[3..] == a;
    }
    if b in WORK_PACKAGE_COLUMNS {
      assert y[0] == 'w' && y[3..] == b;
    }
    if a !in WORK_PACKAGE_COLUMNS && b !in WORK_PACKAGE_COLUMNS {
      assert x[0] == a[0] && y[0] == b[0];
      assert a in JOINED_TABLES ==> x[2] == 'n';
      assert b in JOINED_TABLES ==> y[2] == 'n';
      assert a in JOINED_COLUMNS ==> x[2] != 'n';
      assert b in JOINED_COLUMNS ==> y[2] != 'n';
    }
  }

  /** Filters on different attributes never look at the same column. */
  lemma DistinctAttributesDistinctClauses(a: string, b: string, n: int, user: Option<int>)
    requires a != b && AttributeToColumn(a).Some? && AttributeToColumn(b).Some?
    ensures WhereClause([Filter(a, Equals, Id(n))], user) != WhereClause([Filter(b, Equals, Id(n))], user)
  {
    hide AttributeToColumn, NamedColumn, IntText, WhereClause, ReadWhere;
    ColumnsAreNamed(a);
    ColumnsAreNamed(b);
    FilterComparesItsColumn(a, n, user);
    FilterComparesItsColumn(b, n, user);
    NamesAreDistinct(a, b);
    var x, y, rest := NamedColumn(a).value, NamedColumn(b).value, " = " + IntText(n);
    assert x + " = " + IntText(n) == x + rest && y + " = " + IntText(n) == y + rest;
    SuffixCancels(x, y, rest);
  }

  lemma SuffixCancels(a: string, b: string, suffix: string)
    ensures a + suffix == b + suffix <==> a == b
  {
    if |a| == |b| {
      assert (a + suffix)[..|a|] == a && (b + suffix)[..|b|] == b;
    }
  }

  // ---------- sorting ----------

  /** Attributes sorted by under their own names. */
  const SORTED_COLUMNS :=
    {"id", "subject", "start_date", "due_date", "estimated_hours", "done_ratio", "created_at", "updated_at"}

  /** Attributes sorted by through the reference to them. */
  const SORTED_REFERENCES := {"project", "author", "assigned_to", "responsible", "version", "category", "parent"}

  /** The column a sort attribute is the name of; a joined table has its own order. */
  function NamedSortColumn(attribute: string): Option<string> {
    if attribute in JOINED_TABLES then Some(attribute[..1] + ".position")
    else if attribute in SORTED_REFERENCES then Some("wp." + attribute + "_id")
    else if attribute in SORTED_COLUMNS then Some("wp." + attribute)
    else None
  }

  lemma SortTables(attribute: string)
    requires attribute in {"type", "status", "priority"}
    ensures SortAttributeToColumn(attribute) == Some(attribute[..1] + ".position")
  {
    match attribute {
      case "type" => assert "type"[..1] + ".position" == "t.position";
      case "status" => assert "status"[..1] + ".position" == "s.position";
      case "priority" => assert "priority"[..1] + ".position" == "p.position";
    }
  }

  lemma SortReferences1(attribute: string)
    requires attribute in {"project", "author", "assigned_to", "responsible"}
    ensures SortAttributeToColumn(attribute) == Some("wp." + attribute + "_id")
  {
    match attribute {
      case "project" => assert "wp." + "project" + "_id" == "wp.project_id";
      case "author" => assert "wp." + "author" + "_id" == "wp.author_id";
      case "assigned_to" => assert "wp." + "assigned_to" + "_id" == "wp.assigned_to_id";
      case "responsible" => assert "wp." + "responsible" + "_id" == "wp.responsible_id";
    }
  }

  lemma SortReferences2(attribute: string)
    requires attribute in {"version", "category", "parent"}
    ensures SortAttributeToColumn(attribute) == Some("wp." + attribute + "_id")
  {
    match attribute {
      case "version" => assert "wp." + "version" + "_id" == "wp.version_id";
      case "category" => assert "wp." + "category" + "_id" == "wp.category_id";
      case "parent" => assert "wp." + "parent" + "_id" == "wp.parent_id";
    }
  }

  lemma SortOwn1(attribute: string)
    requires attribute in {"id", "subject", "start_date", "due_date"}
    ensures SortAttributeToColumn(attribute) == Some("wp." + attribute)
  {
    match attribute {
      case "id" => assert "wp." + "id" == "wp.id";
      case "subject" => assert "wp." + "subject" == "wp.subject";
      case "start_date" => assert "wp." + "start_date" == "wp.start_date";
      case "due_date" => assert "wp." + "due_date" == "wp.due_date";
    }
  }

  lemma SortOwn2(attribute: string)
    requires attribute in {"estimated_hours", "done_ratio", "created_at", "updated_at"}
    ensures SortAttributeToColumn(attribute) == Some("wp." + attribute)
  {
    match attribute {
      case "estimated_hours" => assert "wp." + "estimated_hours" == "wp.estimated_hours";
      case "done_ratio" => assert "wp." + "done_ratio" == "wp.done_ratio";
      case "created_at" => assert "wp." + "created_at" == "wp.created_at";
      case "updated_at" => assert "wp." + "updated_at" == "wp.updated_at";
    }
  }

  lemma NoOtherSortColumns(attribute: string)
    requires attribute !in JOINED_TABLES + SORTED_REFERENCES + SORTED_COLUMNS
    ensures SortAttributeToColumn(attribute) == None
  {
  }

  lemma SortColumnsAreNamed(attribute: string)
    ensures SortAttributeToColumn(attribute) == NamedSortColumn(attribute)
  {
    hide SortAttributeToColumn;
    if attribute in JOINED_TABLES {
      SortTables(attribute);
    } else if attribute in {"project", "author", "assigned_to", "responsible"} {
      SortReferences1(attribute);
    } else if attribute in SORTED_REFERENCES {
      SortReferences2(attribute);
    } else if attribute in {"id", "subject", "start_date", "due_date"} {
      SortOwn1(attribute);
    } else if attribute in SORTED_COLUMNS {
      SortOwn2(attribute);
    } else {
      NoOtherSortColumns(attribute);
    }
  }

  /** The clause of a single sort criterion sorts by the column its attribute names, in its direction; an attribute that
      names none gives the default. */
  lemma CriterionSortsByItsColumn(attribute: string, direction: SortDirection)
    ensures var read := ReadOrder(BuildOrderClause([SortCriterion(attribute, direction)]));
            match NamedSortColumn(attribute)
            case None => read == Some([SortKey("wp.id", true, true)])
            case Some(column) => read == Some([SortKey(column, direction.Desc?, direction.Desc?)])
  {
    hide SortAttributeToColumn, NamedSortColumn, ReadOrder, BuildOrderClause;
    var sorts := [SortCriterion(attribute, direction)];
    OrderClauseReadsBack(sorts);
    SortColumnsAreNamed(attribute);
    assert sorts[1..] == [] && SupportedKeys(sorts[1..]) == [];
    if Supported(sorts[0]) {
      assert IntendedKeys(sorts) == [KeyOf(sorts[0])];
    }
    assert IntendedKeys(sorts) == ReadOrder(BuildOrderClause(sorts)).value;
  }
}
