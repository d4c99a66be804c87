/** Dates are printed between quotes as they are. A date with a quote in it is misread, and so is its condition. */
module SqlDates {
  import opened Wrappers
  import opened Strings
  import opened SqlLexer
  import opened SqlGrammar
  import opened SqlFilters
  import opened SqlConditions

  /** What is read after a space or a punctuation mark depends only on what stands there, even if it does not scan. */
  lemma ScanAfter(a: string, c: char, b: string)
    requires IsBreak(c) && Scan(a).Some?
    ensures Scan(a + [c] + b) == Both(Some(Scan(a).value + ClassifyAll(BreakTokens(c))), Scan(b))
  {
    ReadUpToBreak(a, c);
    ReadConcat(Idle, a + [c], b);
    if Lex(b).Some? {
      ScanSplit(a, c, b);
    }
  }

  /** A date with a quote in it, printed after a text that scans, is not read as that date, whatever follows. */
  lemma DateIsMisread(a: string, c: char, date: string, tail: string)
    requires IsBreak(c) && Scan(a).Some? && !IsPlain(date) && (tail == "" || tail[0] != '\'')
    requires Scan(a + [c] + (RawQuote(date) + tail)).Some?
    ensures Misread(
              Scan(a + [c] + (RawQuote(date) + tail)).value, Scan(a).value + ClassifyAll(BreakTokens(c)), date)
  {
    hide Scan, RawQuote;
    ScanAfter(a, c, RawQuote(date) + tail);
    RawQuoteIsMisread(date, tail);
  }

  /** The terminals start with another condition than the intended one, or with none. */
  predicate ReadsOther(ts: seq<Terminal>, cond: Cond) {
    match ParseCond(ts)
    case None => true
    case Some((c, _)) => c != cond
  }

  /** What can come after the text of a condition. */
  predicate EndsText(tail: string) {
    tail == "" || tail[0] == ' '
  }

  /** Whatever follows the text, it does not read as the condition. */
  ghost predicate Misleads(sql: string, cond: Cond) {
    forall tail :: EndsText(tail) && Scan(sql + tail).Some? ==> ReadsOther(Scan(sql + tail).value, cond)
  }

  lemma ColumnFirst(column: string, ts: seq<Terminal>)
    requires ts != [] && ts[0] == Column(column)
    ensures ParseCond(ts) == ParsePredicate(column, ts[1..])
  {
    hide ParsePredicate;
    if |ts| >= 3 {
      assert ts[..3][0] == ts[0];
    }
  }

  lemma ComparisonReadsOther(column: string, op: Terminal, comparison: Comparison, date: string, ts: seq<Terminal>)
    requires ComparisonOf(op) == Some(comparison)
    requires Misread(ts, [Column(column), op], date)
    ensures ReadsOther(ts, Compare(column, comparison, Text(date)))
  {
    ColumnFirst(column, ts);
    assert ts[1..][0] == op && ts[1..][1..] == ts[2..] && ts[2..][0] == ts[2];
  }

  /** The terminals of a pair of dates before the k-th, which the mark follows that separates them. */
  function Preceding(dates: seq<string>, mark: Terminal, k: nat): seq<Terminal>
    requires |dates| == 2
  {
    if k == 0 then [] else [Terminal.Str(dates[0]), mark]
  }

  lemma ListOperandsDiffer(dates: seq<string>, k: nat, ts: seq<Terminal>)
    requires |dates| == 2 && k < 2 && Misread(ts, Preceding(dates, Comma, k), dates[k])
    ensures ParseList(ts).Some? ==>
              |ParseList(ts).value.0| > k && ParseList(ts).value.0[k] != Text(dates[k])
  {
    if k == 1 {
      assert ts[0] == Terminal.Str(dates[0]) && ts[1] == Comma;
      assert ts[1..][1..] == ts[2..] && ts[2..][0] == ts[2];
    }
  }

  lemma ListReadsOther(column: string, negated: bool, dates: seq<string>, k: nat, ts: seq<Terminal>)
    requires |dates| == 2 && k < 2
    requires Misread(ts, [Column(column)] + ListOpening(negated) + Preceding(dates, Comma, k), dates[k])
    ensures var wanted := [Text(dates[0]), Text(dates[1])];
            ReadsOther(ts, if negated then NotIn(column, wanted) else In(column, wanted))
  {
    hide ParseOperand, ParseList, ParsePredicate;
    var opening, before := ListOpening(negated), Preceding(dates, Comma, k);
    var tail := ts[1 + |opening|..];
    assert ts[1..] == opening + tail && tail[|before|] == ts[1 + |opening| + |before|];
    assert tail[..|before|] == before;
    ColumnFirst(column, ts);
    InParses(column, negated, tail);
    ListOperandsDiffer(dates, k, tail);
  }

  lemma BetweenReadsOther(column: string, dates: seq<string>, k: nat, ts: seq<Terminal>)
    requires |dates| == 2 && k < 2
    requires Misread(ts, [Column(column), KwBetween] + Preceding(dates, KwAnd, k), dates[k])
    ensures ReadsOther(ts, Cond.Between(column, Text(dates[0]), Text(dates[1])))
  {
    var tail := ts[2..];
    assert ts[1..] == [KwBetween] + tail;
    ColumnFirst(column, ts);
    BetweenParses(column, tail);
    assert tail[0] == ts[2];
    if k == 1 {
      assert tail[1] == ts[3] && tail[2] == ts[4];
      assert tail[1..][1..] == tail[2..] && tail[2..][0] == tail[2];
    }
  }

  lemma ComparisonMisleads(column: string, op: string, comparison: Comparison, date: string)
    requires Scan(column) == Some([Column(column)]) && !IsPlain(date)
    requires Scan(op).Some? && |Scan(op).value| == 1 && ComparisonOf(Scan(op).value[0]) == Some(comparison)
    ensures Misleads(column + " " + op + " " + RawQuote(date), Compare(column, comparison, Text(date)))
  {
    hide Scan, RawQuote, ComparisonOf, ReadsOther, IsPlain;
    var before := column + " " + op;
    var sql := before + " " + RawQuote(date);
    ScanSpace(column, op);
    forall tail | EndsText(tail) && Scan(sql + tail).Some?
      ensures ReadsOther(Scan(sql + tail).value, Compare(column, comparison, Text(date)))
    {
      assert sql + tail == before + " " + (RawQuote(date) + tail);
      DateIsMisread(before, ' ', date, tail);
      assert Scan(before).value + ClassifyAll(BreakTokens(' ')) == [Column(column), Scan(op).value[0]];
      ComparisonReadsOther(column, Scan(op).value[0], comparison, date, Scan(sql + tail).value);
    }
  }

  /** The text of a list up to the break before its k-th date. */
  function ListBefore(column: string, negated: bool, dates: seq<string>, k: nat): (string, char)
    requires |dates| == 2
  {
    var opening := column + " " + ListKeywords(negated) + " ";
    if k == 0 then (opening, '(') else (opening + "(" + RawQuote(dates[0]) + ",", ' ')
  }

  lemma ScanListBefore(column: string, negated: bool, dates: seq<string>, k: nat)
    requires Scan(column) == Some([Column(column)]) && |dates| == 2 && k < 2
    requires k == 1 ==> IsPlain(dates[0])
    ensures var (a, c) := ListBefore(column, negated, dates, k);
            && IsBreak(c) && Scan(a).Some?
            && Scan(a).value + ClassifyAll(BreakTokens(c))
               == [Column(column)] + ListOpening(negated) + Preceding(dates, Comma, k)
  {
    hide Scan, RawQuote, IsPlain;
    var opening := column + " " + ListKeywords(negated) + " ";
    ScanListKeywords(negated);
    ScanEmpty();
    ScanSpace(column, ListKeywords(negated));
    ScanSpace(column + " " + ListKeywords(negated), "");
    assert column + " " + ListKeywords(negated) + " " + "" == opening;
    if k == 0 {
      assert ClassifyAll(BreakTokens('(')) == [LParen];
    } else {
      PlainDateScans(dates[0]);
      ScanMark(opening, '(', RawQuote(dates[0]));
      ScanMark(opening + "(" + RawQuote(dates[0]), ',', "");
      assert opening + "(" + RawQuote(dates[0]) + "," + "" == opening + "(" + RawQuote(dates[0]) + ",";
    }
  }

  lemma ListMisleads(column: string, negated: bool, dates: seq<string>, k: nat)
    requires Scan(column) == Some([Column(column)]) && |dates| == 2 && k < 2
    requires !IsPlain(dates[k]) && (k == 1 ==> IsPlain(dates[0]))
    ensures var wanted := [Text(dates[0]), Text(dates[1])];
            Misleads(
              column + " " + ListKeywords(negated) + " (" + RawQuote(dates[0]) + ", " + RawQuote(dates[1]) + ")",
              if negated then NotIn(column, wanted) else In(column, wanted))
  {
    hide Scan, RawQuote, ReadsOther, IsPlain, ListKeywords, ListOpening;
    var wanted := [Text(dates[0]), Text(dates[1])];
    var cond := if negated then NotIn(column, wanted) else In(column, wanted);
    var sql := column + " " + ListKeywords(negated) + " (" + RawQuote(dates[0]) + ", " + RawQuote(dates[1]) + ")";
    var (a, c) := ListBefore(column, negated, dates, k);
    ScanListBefore(column, negated, dates, k);
    forall tail | EndsText(tail) && Scan(sql + tail).Some?
      ensures ReadsOther(Scan(sql + tail).value, cond)
    {
      var after := if k == 0 then ", " + RawQuote(dates[1]) + ")" + tail else ")" + tail;
      assert sql + tail == a + [c] + (RawQuote(dates[k]) + after);
      DateIsMisread(a, c, dates[k], after);
      ListReadsOther(column, negated, dates, k, Scan(sql + tail).value);
    }
  }

  function BetweenBefore(column: string, dates: seq<string>, k: nat): string
    requires |dates| == 2
  {
    if k == 0 then column + " BETWEEN" else column + " BETWEEN " + RawQuote(dates[0]) + " AND"
  }

  lemma ScanBetweenBefore(column: string, dates: seq<string>, k: nat)
    requires Scan(column) == Some([Column(column)]) && |dates| == 2 && k < 2
    requires k == 1 ==> IsPlain(dates[0])
    ensures var scanned := Scan(BetweenBefore(column, dates, k));
            && scanned.Some?
            && scanned.value + ClassifyAll(BreakTokens(' '))
               == [Column(column), KwBetween] + Preceding(dates, KwAnd, k)
  {
    hide Scan, RawQuote, IsPlain;
    ScanWord("BETWEEN");
    ScanSpace(column, "BETWEEN");
    assert column + " " + "BETWEEN" == column + " BETWEEN";
    if k == 1 {
      PlainDateScans(dates[0]);
      ScanWord("AND");
      ScanSpace(column + " BETWEEN", RawQuote(dates[0]));
      ScanSpace(column + " BETWEEN" + " " + RawQuote(dates[0]), "AND");
      assert column + " BETWEEN" + " " + RawQuote(dates[0]) + " " + "AND" == BetweenBefore(column, dates, 1);
    }
  }

  lemma BetweenMisleads(column: string, dates: seq<string>, k: nat)
    requires Scan(column) == Some([Column(column)]) && |dates| == 2 && k < 2
    requires !IsPlain(dates[k]) && (k == 1 ==> IsPlain(dates[0]))
    ensures Misleads(
              column + " BETWEEN " + RawQuote(dates[0]) + " AND " + RawQuote(dates[1]),
              Cond.Between(column, Text(dates[0]), Text(dates[1])))
  {
    hide Scan, RawQuote, ReadsOther, IsPlain;
    var cond := Cond.Between(column, Text(dates[0]), Text(dates[1]));
    var sql := column + " BETWEEN " + RawQuote(dates[0]) + " AND " + RawQuote(dates[1]);
    var a := BetweenBefore(column, dates, k);
    ScanBetweenBefore(column, dates, k);
    forall tail | EndsText(tail) && Scan(sql + tail).Some?
      ensures ReadsOther(Scan(sql + tail).value, cond)
    {
      var after := if k == 0 then " AND " + RawQuote(dates[1]) + tail else tail;
      assert sql + tail == a + " " + (RawQuote(dates[k]) + after);
      DateIsMisread(a, ' ', dates[k], after);
      BetweenReadsOther(column, dates, k, Scan(sql + tail).value);
    }
  }

  ghost predicate FilterMisleads(f: Filter, user: Option<int>)
    requires TakesPart(f, user)
  {
    && FilterToSql(f, user).Some?
    && !LacksValues(f, user) && |IntendedConds(f, user)| == 1
    && Misleads(FilterToSql(f, user).value, IntendedConds(f, user)[0])
  }

  predicate ComparesFirst(operator: FilterOperator) {
    operator.Equals? || operator.NotEquals? || operator.GreaterThan? || operator.GreaterThanOrEqual?
    || operator.LessThan? || operator.LessThanOrEqual?
  }

  function OperatorSign(operator: FilterOperator): (string, Comparison)
    requires ComparesFirst(operator)
  {
    match operator
    case Equals => ("=", Eq)
    case NotEquals => ("!=", Ne)
    case GreaterThan => (">", Gt)
    case GreaterThanOrEqual => (">=", Ge)
    case LessThan => ("<", Lt)
    case LessThanOrEqual => ("<=", Le)
  }

  /** Comparisons with a single date: all of them, or the first of a range. */
  lemma ComparisonFilterMisleads(f: Filter, user: Option<int>)
    requires TakesPart(f, user) && !DatesArePlain(f) && ComparesFirst(f.operator) && |PrintedDates(f)| == 1
    ensures FilterMisleads(f, user)
  {
    hide AttributeToColumn, Scan, RawQuote, Misleads, IsPlain, ComparisonOf;
    var column, date := AttributeToColumn(f.attribute).value, PrintedDates(f)[0];
    var (op, comparison) := OperatorSign(f.operator);
    ColumnsScan(f.attribute);
    ScanOperators();
    assert ComparisonOf(Scan(op).value[0]) == Some(comparison) by {
      ComparisonSigns();
    }
    ComparisonMisleads(column, op, comparison, date);
    OperatorText(column, RawQuote(date));
    assert column + " != " + RawQuote(date) == column + " " + "!=" + " " + RawQuote(date);
  }

  lemma ComparisonSigns()
    ensures ComparisonOf(Equal) == Some(Eq) && ComparisonOf(NotEqual) == Some(Ne)
    ensures ComparisonOf(Less) == Some(Lt) && ComparisonOf(LessEqual) == Some(Le)
    ensures ComparisonOf(Greater) == Some(Gt) && ComparisonOf(GreaterEqual) == Some(Ge)
  {
  }

  lemma DateListPrints(f: Filter, user: Option<int>)
    requires TakesPart(f, user) && f.values.DateRange? && (f.operator.Equals? || f.operator.NotEquals?)
    ensures var column := AttributeToColumn(f.attribute).value;
            FilterToSql(f, user)
            == Some(column + " " + ListKeywords(f.operator.NotEquals?) + " ("
                    + RawQuote(f.values.from) + ", " + RawQuote(f.values.to) + ")")
  {
    hide AttributeToColumn, RawQuote;
    var column := AttributeToColumn(f.attribute).value;
    var from, to := RawQuote(f.values.from), RawQuote(f.values.to);
    assert Join([from, to], ", ") == from + ", " + to;
    assert column + " NOT IN (" + (from + ", " + to) + ")" == column + " " + "NOT IN" + " (" + from + ", " + to + ")";
    assert column + " IN (" + (from + ", " + to) + ")" == column + " " + "IN" + " (" + from + ", " + to + ")";
  }

  lemma RangeFilterMisleads(f: Filter, user: Option<int>)
    requires TakesPart(f, user) && !DatesArePlain(f) && |PrintedDates(f)| == 2
    ensures FilterMisleads(f, user)
  {
    hide AttributeToColumn, Scan, RawQuote, Misleads, IsPlain;
    var column, dates := AttributeToColumn(f.attribute).value, PrintedDates(f);
    var k := if IsPlain(dates[0]) then 1 else 0;
    assert dates == [dates[0], dates[1]];
    ColumnsScan(f.attribute);
    if f.operator.Between? {
      BetweenMisleads(column, dates, k);
    } else {
      hide FilterToSql, ListKeywords;
      ListMisleads(column, f.operator.NotEquals?, dates, k);
      DateListPrints(f, user);
    }
  }

  /** The condition printed for a filter reads back as the conditions intended for it exactly when no date it prints
      has a quote in it. An Equals or NotEquals filter without values prints an empty list, which does not parse. */
  lemma EveryFilterSays(f: Filter, user: Option<int>)
    requires TakesPart(f, user)
    ensures FilterSays(f, user) <==> DatesArePlain(f)
    ensures !DatesArePlain(f) ==> FilterMisleads(f, user)
  {
    hide AttributeToColumn, LacksValues, IntendedConds, FilterToSql, Scan, ParseSearch, ParseCond, IsPlain;
    if DatesArePlain(f) {
      PlainFilterSays(f, user);
    } else {
      if |PrintedDates(f)| == 1 {
        ComparisonFilterMisleads(f, user);
      } else {
        RangeFilterMisleads(f, user);
      }
      var sql, cond := FilterToSql(f, user).value, IntendedConds(f, user)[0];
      MisleadingSaysNothing(sql, cond);
      assert IntendedConds(f, user) == [cond];
    }
  }

  lemma ParsesFirst(ts: seq<Terminal>)
    requires ParseSearch(ts).Some?
    ensures ParseCond(ts).Some? && [ParseCond(ts).value.0] <= ParseSearch(ts).value[0]
  {
    hide ParseCond;
  }

  lemma MisleadingSaysNothing(sql: string, cond: Cond)
    requires Misleads(sql, cond)
    ensures !Says(sql, Some([cond]))
  {
    hide Scan, ParseCond, ParseSearch;
    if Scan(sql).Some? {
      assert sql + "" == sql && EndsText("");
      assert Scan(sql).value + [] == Scan(sql).value;
      if ParseSearch(Scan(sql).value).Some? {
        ParsesFirst(Scan(sql).value);
        assert ReadsOther(Scan(sql + "").value, cond);
        assert ParseSearch(Scan(sql).value).value[0][0] != cond;
      }
      assert Followed(Some([cond]), []).value[0] == [cond];
      assert EndsCond([]);
    }
  }
}
