/** The whole WHERE clause: when its text reads as the conditions of its filters, and which rows it keeps. */
module SqlWhere {
  import opened Wrappers
  import opened Strings
  import opened SqlLexer
  import opened SqlLike
  import opened SqlGrammar
  import opened SqlFilters
  import opened SqlConditions
  import opened SqlDates

  /** What the executor's query selects by: no WHERE at all when the clause is empty. */
  function ReadWhere(clause: string): Option<Search> {
    if clause == "" then Some([[]])
    else
      match Scan(clause)
      case Some(ts) => ParseSearch(ts)
      case None => None
  }

  /** A row is kept when the search condition is true; neither false nor unknown will do. */
  ghost predicate Keeps(db: Database, row: Row, clause: string)
    requires ReadWhere(clause).Some?
  {
    EvalSearch(db, row, ReadWhere(clause).value) == True
  }

  ghost function ClauseConds(filters: seq<Filter>, user: Option<int>): Option<seq<Cond>> {
    if filters == [] then Some([])
    else
      var last := |filters| - 1;
      var f := filters[last];
      var before := ClauseConds(filters[..last], user);
      if !TakesPart(f, user) then before
      else Both(before, if LacksValues(f, user) then None else Some(IntendedConds(f, user)))
  }

  lemma {:induction false} ClauseSays(filters: seq<Filter>, user: Option<int>)
    requires forall f :: f in filters && TakesPart(f, user) ==> DatesArePlain(f)
    ensures Conditions(filters, user) == [] ==>
              ClauseConds(filters, user) == Some([])
    ensures Conditions(filters, user) != [] ==>
              WhereClause(filters, user) != "" && Says(WhereClause(filters, user), ClauseConds(filters, user))
    decreases |filters|
  {
    hide Says, FilterToSql, TakesPart, LacksValues, IntendedConds;
    if filters != [] {
      var last := |filters| - 1;
      var f, front := filters[last], filters[..last];
      ClauseSays(front, user);
      ProducesIffTakesPart(f, user);
      if TakesPart(f, user) {
        EveryFilterSays(f, user);
        var sql := FilterToSql(f, user).value;
        var own := if LacksValues(f, user) then None else Some(IntendedConds(f, user));
        ConditionsAreNotEmpty(f, user);
        JoinAppend(Conditions(front, user), sql, " AND ");
        assert Conditions(filters, user) == Conditions(front, user) + [sql];
        assert ClauseConds(filters, user) == Both(ClauseConds(front, user), own);
        if Conditions(front, user) != [] {
          SaysTogether(WhereClause(front, user), ClauseConds(front, user), sql, own);
          assert WhereClause(filters, user) == WhereClause(front, user) + " AND " + sql;
        } else {
          assert own.Some? ==> [] + own.value == own.value;
          assert WhereClause(filters, user) == sql;
          assert ClauseConds(filters, user) == own;
        }
      } else {
        assert Conditions(filters, user) == Conditions(front, user);
      }
    }
  }

  /** Whatever follows the text, what is read does not begin with the given conditions. */
  ghost predicate Derails(sql: string, conds: seq<Cond>) {
    forall tail ::
      EndsText(tail) && Scan(sql + tail).Some? && ParseSearch(Scan(sql + tail).value).Some?
      ==> !(conds <= ParseSearch(Scan(sql + tail).value).value[0])
  }

  lemma FilterDerails(f: Filter, user: Option<int>)
    requires TakesPart(f, user) && !DatesArePlain(f)
    ensures FilterToSql(f, user).Some? && !LacksValues(f, user)
    ensures Derails(FilterToSql(f, user).value, IntendedConds(f, user))
  {
    hide Scan, ParseSearch, ParseCond, AttributeToColumn, FilterToSql, LacksValues, IntendedConds, DatesArePlain;
    EveryFilterSays(f, user);
    var sql, conds := FilterToSql(f, user).value, IntendedConds(f, user);
    forall tail | EndsText(tail) && Scan(sql + tail).Some? && ParseSearch(Scan(sql + tail).value).Some?
      ensures !(conds <= ParseSearch(Scan(sql + tail).value).value[0])
    {
      ParsesFirst(Scan(sql + tail).value);
    }
  }

  lemma PrefixCancels<T>(a: seq<T>, b: seq<T>, c: seq<T>)
    ensures a + b <= a + c <==> b <= c
  {
    assert (a + b)[|a|..] == b && (a + c)[|a|..] == c;
    if a + b <= a + c {
      assert b == c[..|b|];
    }
  }

  /** A text that derails does so after any conditions that are read as they should. */
  lemma DerailsAfter(a: string, ca: seq<Cond>, b: string, cb: seq<Cond>)
    requires Says(a, Some(ca)) && Derails(b, cb)
    ensures Derails(a + " AND " + b, ca + cb)
  {
    hide Scan, ParseCond;
    ScanWord("AND");
    ScanSpace(a, "AND");
    var sql := a + " AND " + b;
    forall tail | EndsText(tail) && Scan(sql + tail).Some? && ParseSearch(Scan(sql + tail).value).Some?
      ensures !(ca + cb <= ParseSearch(Scan(sql + tail).value).value[0])
    {
      assert sql + tail == a + " " + "AND" + " " + (b + tail);
      ScanAfter(a + " " + "AND", ' ', b + tail);
      var more := Scan(b + tail).value;
      assert Scan(sql + tail).value == Scan(a).value + ([KwAnd] + more);
      assert EndsCond([KwAnd] + more) && ([KwAnd] + more)[1..] == more;
      assert ParseSearch(Scan(sql + tail).value) == Connect(ca, KwAnd, ParseSearch(more));
      PrefixCancels(ca, cb, ParseSearch(more).value[0]);
    }
  }

  /** And it does so whatever conditions follow. */
  lemma DerailsBefore(a: string, ca: seq<Cond>, b: string, cb: seq<Cond>)
    requires Derails(a, ca)
    ensures Derails(a + " AND " + b, ca + cb)
  {
    hide Scan, ParseSearch;
    var sql := a + " AND " + b;
    forall tail | EndsText(tail) && Scan(sql + tail).Some? && ParseSearch(Scan(sql + tail).value).Some?
      ensures !(ca + cb <= ParseSearch(Scan(sql + tail).value).value[0])
    {
      var after := " AND " + b + tail;
      assert sql + tail == a + after && EndsText(after);
      assert ca <= ca + cb;
    }
  }

  predicate AllPlain(filters: seq<Filter>, user: Option<int>) {
    forall f :: f in filters && TakesPart(f, user) ==> DatesArePlain(f)
  }

  /** The first date with a quote in it decides, wherever it stands in the clause. */
  lemma {:induction false} ClauseDerails(filters: seq<Filter>, user: Option<int>)
    requires ClauseConds(filters, user).Some? && !AllPlain(filters, user)
    ensures Conditions(filters, user) != []
    ensures Derails(WhereClause(filters, user), ClauseConds(filters, user).value)
    decreases |filters|
  {
    hide Says, Derails, FilterToSql, TakesPart, LacksValues, IntendedConds, DatesArePlain;
    var last := |filters| - 1;
    var f, front := filters[last], filters[..last];
    assert filters == front + [f];
    ProducesIffTakesPart(f, user);
    if !TakesPart(f, user) {
      ClauseDerails(front, user);
      assert Conditions(filters, user) == Conditions(front, user);
    } else {
      var sql, conds, own := FilterToSql(f, user).value, ClauseConds(front, user).value, IntendedConds(f, user);
      JoinAppend(Conditions(front, user), sql, " AND ");
      assert Conditions(filters, user) == Conditions(front, user) + [sql];
      if !AllPlain(front, user) {
        ClauseDerails(front, user);
        DerailsBefore(WhereClause(front, user), conds, sql, own);
      } else {
        FilterDerails(f, user);
        ClauseSays(front, user);
        if Conditions(front, user) != [] {
          DerailsAfter(WhereClause(front, user), conds, sql, own);
        } else {
          assert conds + own == own;
        }
      }
    }
  }

  lemma ConditionsAreNotEmpty(f: Filter, user: Option<int>)
    requires FilterToSql(f, user).Some?
    ensures FilterToSql(f, user).value != ""
  {
    hide AttributeToColumn, ValuesToSql, PatternSql, Ago, FromNow, WEEK_START_TEXT, IsWordText, Join;
    ColumnsAreQualified(f.attribute);
  }

  lemma {:induction false} ClauseCondsExist(filters: seq<Filter>, user: Option<int>)
    ensures ClauseConds(filters, user).Some?
            <==> forall f :: f in filters && TakesPart(f, user) ==> !LacksValues(f, user)
    decreases |filters|
  {
    hide TakesPart, LacksValues, IntendedConds;
    if filters != [] {
      var last := |filters| - 1;
      ClauseCondsExist(filters[..last], user);
      assert filters == filters[..last] + [filters[last]];
    }
  }

  lemma {:induction false} ClauseCondsMean(db: Database, row: Row, filters: seq<Filter>, user: Option<int>)
    requires ClauseConds(filters, user).Some?
    ensures (forall c :: c in ClauseConds(filters, user).value ==> Eval(db, row, c) == True)
            <==> forall f :: f in filters && TakesPart(f, user) ==> Passes(db, row, user, f)
    decreases |filters|
  {
    hide TakesPart, LacksValues, IntendedConds, Passes, Eval;
    if filters != [] {
      var last := |filters| - 1;
      var f := filters[last];
      ClauseCondsMean(db, row, filters[..last], user);
      assert filters == filters[..last] + [f];
      if TakesPart(f, user) {
        IntendedMeansPasses(db, row, user, f);
      }
    }
  }

  /** A search condition without OR. */
  function WithoutOr(conds: Option<seq<Cond>>): Option<Search> {
    match conds
    case Some(c) => Some([c])
    case None => None
  }

  /** The clause is read as the conditions intended for its filters exactly when no date it prints has a quote in it. */
  lemma ClauseReadsIff(filters: seq<Filter>, user: Option<int>)
    ensures AllPlain(filters, user) ==>
              ReadWhere(WhereClause(filters, user)) == WithoutOr(ClauseConds(filters, user))
    ensures ClauseConds(filters, user).Some? && !AllPlain(filters, user) ==>
              ReadWhere(WhereClause(filters, user)) != WithoutOr(ClauseConds(filters, user))
  {
    hide Scan, ParseSearch, TakesPart, LacksValues, ClauseConds, DatesArePlain;
    var clause := WhereClause(filters, user);
    if AllPlain(filters, user) {
      ClauseSays(filters, user);
      if Conditions(filters, user) != [] {
        assert Scan(clause).value + [] == Scan(clause).value;
        assert EndsCond([]);
      }
    } else if ClauseConds(filters, user).Some? {
      ClauseDerails(filters, user);
      ClauseIsNotEmpty(filters, user);
      assert clause + "" == clause && EndsText("");
    }
  }

  lemma {:induction false} ClauseIsNotEmpty(filters: seq<Filter>, user: Option<int>)
    requires Conditions(filters, user) != []
    ensures WhereClause(filters, user) != ""
    decreases |filters|
  {
    hide FilterToSql;
    var last := |filters| - 1;
    var f, front := filters[last], filters[..last];
    if FilterToSql(f, user).Some? {
      ConditionsAreNotEmpty(f, user);
      JoinAppend(Conditions(front, user), FilterToSql(f, user).value, " AND ");
    } else {
      ClauseIsNotEmpty(front, user);
      assert Conditions(filters, user) == Conditions(front, user);
    }
  }

  /** The rendered WHERE clause, for every list of filters. It is read as the conditions intended for its filters
      exactly when each Equals and NotEquals filter has a value to compare with and no date that gets printed has a
      quote in it. Then, over every database and every row, it keeps the row iff the row passes every filter that
      takes part. Without quotes, a filter that lacks values is also the only way to a syntax error. */
  lemma WhereClauseMeansFilters(filters: seq<Filter>, user: Option<int>)
    ensures var read := ReadWhere(WhereClause(filters, user));
            read.Some? && read == WithoutOr(ClauseConds(filters, user))
            <==> forall f :: f in filters && TakesPart(f, user) ==> !LacksValues(f, user) && DatesArePlain(f)
    ensures (forall f :: f in filters && TakesPart(f, user) ==> !LacksValues(f, user) && DatesArePlain(f)) ==>
              forall db, row ::
                Keeps(db, row, WhereClause(filters, user))
                <==> forall f :: f in filters && TakesPart(f, user) ==> Passes(db, row, user, f)
    ensures (forall f :: f in filters && TakesPart(f, user) ==> DatesArePlain(f)) ==>
              (ReadWhere(WhereClause(filters, user)).Some?
               <==> forall f :: f in filters && TakesPart(f, user) ==> !LacksValues(f, user))
  {
    hide Scan, TakesPart, LacksValues, Passes, Eval, ClauseConds, DatesArePlain, WhereClause, ReadWhere;
    var clause := WhereClause(filters, user);
    ClauseReadsIff(filters, user);
    ClauseCondsExist(filters, user);
    if ReadWhere(clause).Some? && ReadWhere(clause) == WithoutOr(ClauseConds(filters, user)) {
      forall db, row
        ensures Keeps(db, row, clause)
                <==> forall f :: f in filters && TakesPart(f, user) ==> Passes(db, row, user, f)
      {
        var conds := ClauseConds(filters, user).value;
        EvalSearchTrueIff(db, row, [conds]);
        assert conds in [conds];
        EvalAllTrueIff(db, row, conds);
        ClauseCondsMean(db, row, filters, user);
      }
    }
  }

  lemma ComparedTextSays(column: string, op: string, comparison: Comparison, text: string)
    requires Scan(column) == Some([Column(column)]) && IsPlain(text)
    requires (op, comparison) == ("=", Eq) || (op, comparison) == (">", Gt)
    ensures Says(column + " " + op + " " + RawQuote(text), Some([Compare(column, comparison, Text(text))]))
  {
    hide Says, Scan, Denotes;
    ScanOperators();
    DateDenotesIff(text);
    CompareSays(column, op, comparison, RawQuote(text), Text(text));
  }

  lemma SaysEither(a: string, ca: seq<Cond>, b: string, cb: seq<Cond>)
    requires Says(a, Some(ca)) && Says(b, Some(cb))
    ensures ReadWhere(a + " OR " + b) == Some([ca, cb])
  {
    hide Scan, ParseSearch;
    ScanWord("OR");
    ScanSpace(a, "OR");
    ScanSpace(a + " " + "OR", b);
    assert a + " " + "OR" + " " + b == a + " OR " + b;
    var tail := [KwOr] + Scan(b).value;
    assert Scan(a + " OR " + b).value == Scan(a).value + tail;
    assert EndsCond(tail) && tail[1..] == Scan(b).value + [] && EndsCond([]);
    assert [ca] + [cb] == [ca, cb];
  }

  lemma OneFilterPrints(column: string, f: Filter)
    requires AttributeToColumn(f.attribute) == Some(column) && f.operator.Equals? && f.values.Date?
    ensures WhereClause([f], None) == column + " = " + RawQuote(f.values.date)
  {
    hide AttributeToColumn, RawQuote;
    assert [f][..0] == [];
    assert Conditions([f], None) == [column + " = " + RawQuote(f.values.date)];
  }

  lemma TextsOfExamples()
    ensures "wp.due_date" + " = " + RawQuote("2024-01-01' AND wp.id = '1")
            == ("wp.due_date" + " " + "=" + " " + RawQuote("2024-01-01")) + " AND "
               + ("wp.id" + " " + "=" + " " + RawQuote("1"))
    ensures "wp.due_date" + " = " + RawQuote("x' OR wp.id > '0")
            == ("wp.due_date" + " " + "=" + " " + RawQuote("x")) + " OR " + ("wp.id" + " " + ">" + " " + RawQuote("0"))
  {
  }

  lemma ColumnsOfExamples()
    ensures AttributeToColumn("due_date") == Some("wp.due_date")
    ensures Scan("wp.due_date") == Some([Column("wp.due_date")]) && Scan("wp.id") == Some([Column("wp.id")])
  {
    hide Scan;
    ColumnsScan("due_date");
    ColumnsScan("id");
  }

  /** A date that closes its own literal: the one filter is read as two conditions, neither of which it asked for. */
  lemma DateReadAsTwoConditions()
    ensures var f := Filter("due_date", Equals, FilterValue.Date("2024-01-01' AND wp.id = '1"));
            ReadWhere(WhereClause([f], None))
            == Some([[Compare("wp.due_date", Eq, Text("2024-01-01")), Compare("wp.id", Eq, Text("1"))]])
  {
    hide AttributeToColumn, Scan, ParseSearch, WhereClause, RawQuote;
    var f := Filter("due_date", Equals, FilterValue.Date("2024-01-01' AND wp.id = '1"));
    var a, b := "wp.due_date" + " " + "=" + " " + RawQuote("2024-01-01"), "wp.id" + " " + "=" + " " + RawQuote("1");
    var one, two := Compare("wp.due_date", Eq, Text("2024-01-01")), Compare("wp.id", Eq, Text("1"));
    ColumnsOfExamples();
    assert IsPlain("2024-01-01") && IsPlain("1");
    ComparedTextSays("wp.due_date", "=", Eq, "2024-01-01");
    ComparedTextSays("wp.id", "=", Eq, "1");
    SaysTogether(a, Some([one]), b, Some([two]));
    OneFilterPrints("wp.due_date", f);
    TextsOfExamples();
    assert EndsCond([]) && Scan(a + " AND " + b).value + [] == Scan(a + " AND " + b).value;
    assert [one] + [two] == [one, two];
  }

  /** A date that brings in an alternative: a filter for a due date keeps rows that have none. */
  lemma DateReadAsAlternative(db: Database, row: Row)
    requires row("wp.due_date").None?
    requires row("wp.id").Some? && db.cmp(row("wp.id").value, Text("0")) > 0
    ensures var f := Filter("due_date", Equals, FilterValue.Date("x' OR wp.id > '0"));
            && TakesPart(f, None) && !Passes(db, row, None, f)
            && ReadWhere(WhereClause([f], None))
               == Some([[Compare("wp.due_date", Eq, Text("x"))], [Compare("wp.id", Gt, Text("0"))]])
            && Keeps(db, row, WhereClause([f], None))
  {
    hide AttributeToColumn, Scan, ParseSearch, WhereClause, ReadWhere, RawQuote, Says;
    var f := Filter("due_date", Equals, FilterValue.Date("x' OR wp.id > '0"));
    var a, b := "wp.due_date" + " " + "=" + " " + RawQuote("x"), "wp.id" + " " + ">" + " " + RawQuote("0");
    var one, two := Compare("wp.due_date", Eq, Text("x")), Compare("wp.id", Gt, Text("0"));
    ColumnsOfExamples();
    ComparedTextSays("wp.due_date", "=", Eq, "x");
    ComparedTextSays("wp.id", ">", Gt, "0");
    SaysEither(a, [one], b, [two]);
    OneFilterPrints("wp.due_date", f);
    TextsOfExamples();
    EvalSearchTrueIff(db, row, [[one], [two]]);
    EvalAllTrueIff(db, row, [two]);
    assert [two] in [[one], [two]] && Eval(db, row, two) == True;
  }

  /** A NULL column fails every filter on it but IsNull, also once the filter is rendered. `DateReadAsAlternative` shows
      why its dates must have no quote in them. */
  lemma NullFailsAllButIsNull(db: Database, row: Row, user: Option<int>, f: Filter)
    requires TakesPart(f, user) && row(AttributeToColumn(f.attribute).value).None?
    requires DatesArePlain(f) && !LacksValues(f, user)
    ensures ReadWhere(WhereClause([f], user)).Some?
    ensures Keeps(db, row, WhereClause([f], user)) <==> f.operator.IsNull?
  {
    hide AttributeToColumn, WhereClause, ReadWhere, LacksValues, DatesArePlain, ClauseConds;
    WhereClauseMeansFilters([f], user);
    assert f in [f];
  }
}
