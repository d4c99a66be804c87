/** Query filters, the SQL conditions printed for them, and the proof that the text means what the filters say. */
module SqlFilters {
  import opened Wrappers
  import opened Strings
  import opened SqlLexer
  import opened SqlLike
  import opened SqlGrammar

  datatype FilterOperator =
    | Equals | NotEquals | Contains | NotContains | StartsWith | EndsWith
    | GreaterThan | GreaterThanOrEqual | LessThan | LessThanOrEqual
    | Between | IsNull | IsNotNull | Today | ThisWeek
    | DaysAgo(n: int) | DaysFromNow(n: int)
    | LessThanDaysAgo(n: int) | MoreThanDaysAgo(n: int)
    | LessThanDaysFromNow(n: int) | MoreThanDaysFromNow(n: int)
    | CurrentUser

  /** The printed form of a finite float: sign and decimal digits. */
  datatype Decimal = Decimal(negative: bool, digits: string)

  type Number = d: Decimal | IsNumeralText(d.digits) witness Decimal(false, "0")

  datatype FilterValue =
    | Id(id: int)
    | Ids(ids: seq<int>)
    | Str(s: string)
    | Strs(ss: seq<string>)
    | Bool(b: bool)
    | Date(date: string)
    | DateRange(from: string, to: string)
    | Num(number: Number)
    | Me
    | Nothing

  datatype Filter = Filter(attribute: string, operator: FilterOperator, values: FilterValue)

  function AttributeToColumn(attribute: string): Option<string> {
    match attribute
    case "id" => Some("wp.id")
    case "subject" => Some("wp.subject")
    case "description" => Some("wp.description")
    case "project_id" => Some("wp.project_id")
    case "type_id" => Some("wp.type_id")
    case "status_id" => Some("wp.status_id")
    case "priority_id" => Some("wp.priority_id")
    case "author_id" => Some("wp.author_id")
    case "assigned_to_id" => Some("wp.assigned_to_id")
    case "responsible_id" => Some("wp.responsible_id")
    case "category_id" => Some("wp.category_id")
    case "version_id" => Some("wp.version_id")
    case "parent_id" => Some("wp.parent_id")
    case "start_date" => Some("wp.start_date")
    case "due_date" => Some("wp.due_date")
    case "estimated_hours" => Some("wp.estimated_hours")
    case "done_ratio" => Some("wp.done_ratio")
    case "created_at" => Some("wp.created_at")
    case "updated_at" => Some("wp.updated_at")
    case "status" => Some("s.name")
    case "status_is_closed" => Some("s.is_closed")
    case "type" => Some("t.name")
    case "priority" => Some("p.name")
    case "priority_position" => Some("p.position")
    case _ => None
  }

  // ---------- printing ----------

  function Map<A, B>(f: A -> B, xs: seq<A>): seq<B> {
    seq(|xs|, i requires 0 <= i < |xs| => f(xs[i]))
  }

  function RawQuote(s: string): string {
    "'" + s + "'"
  }

  function BoolText(b: bool): string {
    if b then "true" else "false"
  }

  function ValuesToSql(values: FilterValue, user: Option<int>): seq<string> {
    match values
    case Id(id) => [IntText(id)]
    case Ids(ids) => Map(IntText, ids)
    case Str(s) => [Quote(s)]
    case Strs(ss) => Map(Quote, ss)
    case Bool(b) => [BoolText(b)]
    case Date(date) => [RawQuote(date)]
    case DateRange(from, to) => [RawQuote(from), RawQuote(to)]
    case Num(number) => [NumberText(number.negative, number.digits)]
    case Me => if user.Some? then [IntText(user.value)] else []
    case Nothing => []
  }

  function FirstCompared(column: string, op: string, values: seq<string>): Option<string> {
    if values == [] then None else Some(column + " " + op + " " + values[0])
  }

  function Interval(n: int): string {
    "'" + IntText(n) + " days'"
  }

  function Ago(n: int): string {
    "CURRENT_DATE - interval " + Interval(n)
  }

  function FromNow(n: int): string {
    "CURRENT_DATE + interval " + Interval(n)
  }

  const WEEK_START_TEXT := "date_trunc('week', CURRENT_DATE)"

  function FilterToSql(f: Filter, user: Option<int>): Option<string> {
    match AttributeToColumn(f.attribute)
    case None => None
    case Some(column) =>
      var values := ValuesToSql(f.values, user);
      match f.operator
      case Equals =>
        if |values| == 1 then Some(column + " = " + values[0])
        else Some(column + " IN (" + Join(values, ", ") + ")")
      case NotEquals =>
        if |values| == 1 then Some(column + " != " + values[0])
        else Some(column + " NOT IN (" + Join(values, ", ") + ")")
      case Contains => if f.values.Str? then Some(column + " ILIKE " + PatternSql("%", f.values.s, "%")) else None
      case NotContains =>
        if f.values.Str? then Some(column + " NOT ILIKE " + PatternSql("%", f.values.s, "%")) else None
      case StartsWith => if f.values.Str? then Some(column + " ILIKE " + PatternSql("", f.values.s, "%")) else None
      case EndsWith => if f.values.Str? then Some(column + " ILIKE " + PatternSql("%", f.values.s, "")) else None
      case GreaterThan => FirstCompared(column, ">", values)
      case GreaterThanOrEqual => FirstCompared(column, ">=", values)
      case LessThan => FirstCompared(column, "<", values)
      case LessThanOrEqual => FirstCompared(column, "<=", values)
      case Between =>
        if f.values.DateRange?
        then Some(column + " BETWEEN " + RawQuote(f.values.from) + " AND " + RawQuote(f.values.to))
        else None
      case IsNull => Some(column + " IS NULL")
      case IsNotNull => Some(column + " IS NOT NULL")
      case Today => Some(column + " = CURRENT_DATE")
      case ThisWeek =>
        Some(column + " >= " + WEEK_START_TEXT + " AND " + column + " < " + WEEK_START_TEXT + " + interval '1 week'")
      case DaysAgo(n) => Some(column + " = " + Ago(n))
      case DaysFromNow(n) => Some(column + " = " + FromNow(n))
      case LessThanDaysAgo(n) => Some(column + " > " + Ago(n))
      case MoreThanDaysAgo(n) => Some(column + " < " + Ago(n))
      case LessThanDaysFromNow(n) => Some(column + " < " + FromNow(n))
      case MoreThanDaysFromNow(n) => Some(column + " > " + FromNow(n))
      case CurrentUser => if user.Some? then Some(column + " = " + IntText(user.value)) else Some("1 = 0")
  }

  /** The conditions of the filters that produce one. */
  function Conditions(filters: seq<Filter>, user: Option<int>): seq<string> {
    if filters == [] then []
    else
      var last := |filters| - 1;
      Conditions(filters[..last], user)
      + match FilterToSql(filters[last], user) { case Some(sql) => [sql] case None => [] }
  }

  function WhereClause(filters: seq<Filter>, user: Option<int>): string {
    Join(Conditions(filters, user), " AND ")
  }

  method BuildWhereClause(filters: seq<Filter>, user: Option<int>) returns (sql: string)
    ensures sql == WhereClause(filters, user)
  {
    var conditions := [];
    for i := 0 to |filters|
      invariant conditions == Conditions(filters[..i], user)
    {
      assert filters[..i + 1][..i] == filters[..i];
      var condition := FilterToSql(filters[i], user);
      if condition.Some? {
        conditions := conditions + [condition.value];
      }
    }
    assert filters[..|filters|] == filters;
    sql := Join(conditions, " AND ");
  }

  // ---------- what the filters say ----------

  /** The operands a filter's values stand for. */
  function Resolve(values: FilterValue, user: Option<int>): seq<Operand> {
    match values
    case Id(id) => [Integer(id)]
    case Ids(ids) => Map(n => Integer(n), ids)
    case Str(s) => [Text(s)]
    case Strs(ss) => Map(s => Text(s), ss)
    case Bool(b) => [Boolean(b)]
    case Date(date) => [Text(date)]
    case DateRange(from, to) => [Text(from), Text(to)]
    case Num(number) => [NumberOperand(number.negative, number.digits)]
    case Me => if user.Some? then [Integer(user.value)] else []
    case Nothing => []
  }

  /** Filters on unknown attributes, or whose values do not fit the operator, take no part in the query. */
  predicate TakesPart(f: Filter, user: Option<int>) {
    && AttributeToColumn(f.attribute).Some?
    && match f.operator {
         case Contains => f.values.Str?
         case NotContains => f.values.Str?
         case StartsWith => f.values.Str?
         case EndsWith => f.values.Str?
         case GreaterThan => Resolve(f.values, user) != []
         case GreaterThanOrEqual => Resolve(f.values, user) != []
         case LessThan => Resolve(f.values, user) != []
         case LessThanOrEqual => Resolve(f.values, user) != []
         case Between => f.values.DateRange?
         case _ => true
       }
  }

  /** Whether a row passes a filter, in two-valued terms. */
  ghost predicate Passes(db: Database, row: Row, user: Option<int>, f: Filter)
    requires TakesPart(f, user)
  {
    var cell := row(AttributeToColumn(f.attribute).value);
    var wanted := Resolve(f.values, user);
    if f.operator.IsNull? then cell.None?
    else if cell.None? then false
    else
      match f.operator
      case IsNull => false
      case IsNotNull => true
      case Equals => exists o :: o in wanted && db.cmp(cell.value, o) == 0
      case NotEquals => forall o :: o in wanted ==> db.cmp(cell.value, o) != 0
      case Contains => HasSubstring(db.fold, f.values.s, cell.value)
      case NotContains => !HasSubstring(db.fold, f.values.s, cell.value)
      case StartsWith => HasPrefix(db.fold, f.values.s, cell.value)
      case EndsWith => HasSuffix(db.fold, f.values.s, cell.value)
      case GreaterThan => db.cmp(cell.value, wanted[0]) > 0
      case GreaterThanOrEqual => db.cmp(cell.value, wanted[0]) >= 0
      case LessThan => db.cmp(cell.value, wanted[0]) < 0
      case LessThanOrEqual => db.cmp(cell.value, wanted[0]) <= 0
      case Between => db.cmp(cell.value, Text(f.values.from)) >= 0 && db.cmp(cell.value, Text(f.values.to)) <= 0
      case Today => db.cmp(cell.value, Day(0)) == 0
      case ThisWeek => db.cmp(cell.value, WeekStart) >= 0 && db.cmp(cell.value, NextWeekStart) < 0
      case DaysAgo(n) => db.cmp(cell.value, Day(-n)) == 0
      case DaysFromNow(n) => db.cmp(cell.value, Day(n)) == 0
      case LessThanDaysAgo(n) => db.cmp(cell.value, Day(-n)) > 0
      case MoreThanDaysAgo(n) => db.cmp(cell.value, Day(-n)) < 0
      case LessThanDaysFromNow(n) => db.cmp(cell.value, Day(n)) < 0
      case MoreThanDaysFromNow(n) => db.cmp(cell.value, Day(n)) > 0
      case CurrentUser => user.Some? && db.cmp(cell.value, Integer(user.value)) == 0
  }

  /** What each kind of value means to an Equals filter: one of the values given, the current user for `Me`, or nothing
      at all. */
  lemma EqualsMeans(db: Database, row: Row, user: Option<int>, attribute: string, values: FilterValue)
    requires AttributeToColumn(attribute).Some?
    ensures var f, cell := Filter(attribute, Equals, values), row(AttributeToColumn(attribute).value);
            Passes(db, row, user, f) <==>
            && cell.Some?
            && match values
               case Id(id) => db.cmp(cell.value, Integer(id)) == 0
               case Ids(ids) => exists id :: id in ids && db.cmp(cell.value, Integer(id)) == 0
               case Str(s) => db.cmp(cell.value, Text(s)) == 0
               case Strs(ss) => exists s :: s in ss && db.cmp(cell.value, Text(s)) == 0
               case Bool(b) => db.cmp(cell.value, Boolean(b)) == 0
               case Date(date) => db.cmp(cell.value, Text(date)) == 0
               case DateRange(from, to) => db.cmp(cell.value, Text(from)) == 0 || db.cmp(cell.value, Text(to)) == 0
               case Num(number) => db.cmp(cell.value, NumberOperand(number.negative, number.digits)) == 0
               case Me => user.Some? && db.cmp(cell.value, Integer(user.value)) == 0
               case Nothing => false
  {
    hide AttributeToColumn, NumberOperand;
    var wanted := Resolve(values, user);
    match values {
      case Ids(ids) => MappedIn(n => Integer(n), ids);
      case Strs(ss) => MappedIn(s => Text(s), ss);
      case DateRange(from, to) => assert wanted[0] in wanted && wanted[1] in wanted;
      case Nothing =>
      case Me =>
        if user.Some? {
          assert wanted[0] in wanted;
        }
      case _ => assert wanted[0] in wanted;
    }
  }

  lemma MappedIn<A, B>(f: A -> B, xs: seq<A>)
    ensures forall x :: x in xs ==> f(x) in Map(f, xs)
    ensures forall y :: y in Map(f, xs) ==> exists x :: x in xs && f(x) == y
  {
    forall x | x in xs
      ensures f(x) in Map(f, xs)
    {
      var i :| 0 <= i < |xs| && xs[i] == x;
      assert Map(f, xs)[i] == f(x);
    }
  }

  /** An Equals or NotEquals filter with nothing to compare with. */
  predicate LacksValues(f: Filter, user: Option<int>) {
    (f.operator.Equals? || f.operator.NotEquals?) && Resolve(f.values, user) == []
  }

  function DatesIn(values: FilterValue): seq<string> {
    match values
    case Date(date) => [date]
    case DateRange(from, to) => [from, to]
    case _ => []
  }

  /** The dates that get into the text of a filter's condition. Comparisons print the first value only, and most
      operators print none. */
  function PrintedDates(f: Filter): seq<string> {
    var dates := DatesIn(f.values);
    match f.operator
    case Equals => dates
    case NotEquals => dates
    case Between => dates
    case GreaterThan => if dates == [] then [] else [dates[0]]
    case GreaterThanOrEqual => if dates == [] then [] else [dates[0]]
    case LessThan => if dates == [] then [] else [dates[0]]
    case LessThanOrEqual => if dates == [] then [] else [dates[0]]
    case _ => []
  }

  /** Dates are printed between quotes as they are, so a quote in one matters. */
  predicate IsPlain(date: string) {
    '\'' !in date
  }

  predicate DatesArePlain(f: Filter) {
    forall date :: date in PrintedDates(f) ==> IsPlain(date)
  }

  /** The conditions intended for a filter. */
  function IntendedConds(f: Filter, user: Option<int>): seq<Cond>
    requires TakesPart(f, user) && !LacksValues(f, user)
  {
    var column := AttributeToColumn(f.attribute).value;
    var wanted := Resolve(f.values, user);
    match f.operator
    case Equals => if |wanted| == 1 then [Compare(column, Eq, wanted[0])] else [In(column, wanted)]
    case NotEquals => if |wanted| == 1 then [Compare(column, Ne, wanted[0])] else [NotIn(column, wanted)]
    case Contains => [Like(column, [AnyText] + Literally(f.values.s) + [AnyText])]
    case NotContains => [NotLike(column, [AnyText] + Literally(f.values.s) + [AnyText])]
    case StartsWith => [Like(column, Literally(f.values.s) + [AnyText])]
    case EndsWith => [Like(column, [AnyText] + Literally(f.values.s))]
    case GreaterThan => [Compare(column, Gt, wanted[0])]
    case GreaterThanOrEqual => [Compare(column, Ge, wanted[0])]
    case LessThan => [Compare(column, Lt, wanted[0])]
    case LessThanOrEqual => [Compare(column, Le, wanted[0])]
    case Between => [Cond.Between(column, Text(f.values.from), Text(f.values.to))]
    case IsNull => [Null(column)]
    case IsNotNull => [NotNull(column)]
    case Today => [Compare(column, Eq, Day(0))]
    case ThisWeek => [Compare(column, Ge, WeekStart), Compare(column, Lt, NextWeekStart)]
    case DaysAgo(n) => [Compare(column, Eq, Day(-n))]
    case DaysFromNow(n) => [Compare(column, Eq, Day(n))]
    case LessThanDaysAgo(n) => [Compare(column, Gt, Day(-n))]
    case MoreThanDaysAgo(n) => [Compare(column, Lt, Day(-n))]
    case LessThanDaysFromNow(n) => [Compare(column, Lt, Day(n))]
    case MoreThanDaysFromNow(n) => [Compare(column, Gt, Day(n))]
    case CurrentUser => if user.Some? then [Compare(column, Eq, Integer(user.value))] else [Never]
  }

  lemma EqualityMeansPasses(db: Database, row: Row, user: Option<int>, f: Filter)
    requires f.operator.Equals? || f.operator.NotEquals?
    requires TakesPart(f, user) && !LacksValues(f, user)
    ensures (forall c :: c in IntendedConds(f, user) ==> Eval(db, row, c) == True) <==> Passes(db, row, user, f)
  {
    hide AttributeToColumn, Resolve;
    var column := AttributeToColumn(f.attribute).value;
    var wanted := Resolve(f.values, user);
    AnyEqualMeans(db, row, column, wanted);
    var conds := IntendedConds(f, user);
    assert |conds| == 1 && conds[0] in conds;
    if |wanted| == 1 {
      assert wanted == [wanted[0]];
    }
  }

  lemma SearchMeansPasses(db: Database, row: Row, user: Option<int>, f: Filter)
    requires f.operator.Contains? || f.operator.NotContains? || f.operator.StartsWith? || f.operator.EndsWith?
    requires TakesPart(f, user)
    ensures (forall c :: c in IntendedConds(f, user) ==> Eval(db, row, c) == True) <==> Passes(db, row, user, f)
  {
    hide AttributeToColumn, Resolve, Matches, HasSubstring, HasPrefix, HasSuffix, Literally;
    var column := AttributeToColumn(f.attribute).value;
    if row(column).Some? {
      MatchContains(db.fold, f.values.s, row(column).value);
      MatchStartsWith(db.fold, f.values.s, row(column).value);
      MatchEndsWith(db.fold, f.values.s, row(column).value);
    }
    var conds := IntendedConds(f, user);
    assert |conds| == 1 && conds[0] in conds;
  }

  lemma ComparisonMeansPasses(db: Database, row: Row, user: Option<int>, f: Filter)
    requires f.operator.GreaterThan? || f.operator.GreaterThanOrEqual? || f.operator.LessThan?
             || f.operator.LessThanOrEqual? || f.operator.Between? || f.operator.IsNull? || f.operator.IsNotNull?
    requires TakesPart(f, user)
    ensures (forall c :: c in IntendedConds(f, user) ==> Eval(db, row, c) == True) <==> Passes(db, row, user, f)
  {
    hide AttributeToColumn, Resolve, Matches, HasSubstring, HasPrefix, HasSuffix, Literally, AnyEqual;
    var conds := IntendedConds(f, user);
    assert |conds| == 1 && conds[0] in conds;
  }

  lemma RelativeDateMeansPasses(db: Database, row: Row, user: Option<int>, f: Filter)
    requires f.operator.Today? || f.operator.ThisWeek? || f.operator.CurrentUser?
             || f.operator.DaysAgo? || f.operator.DaysFromNow? || f.operator.LessThanDaysAgo?
             || f.operator.MoreThanDaysAgo? || f.operator.LessThanDaysFromNow? || f.operator.MoreThanDaysFromNow?
    requires TakesPart(f, user)
    ensures (forall c :: c in IntendedConds(f, user) ==> Eval(db, row, c) == True) <==> Passes(db, row, user, f)
  {
    hide AttributeToColumn, Resolve, Matches, HasSubstring, HasPrefix, HasSuffix, Literally, AnyEqual;
    var conds := IntendedConds(f, user);
    if f.operator.ThisWeek? {
      assert conds[0] in conds && conds[1] in conds;
    } else {
      assert |conds| == 1 && conds[0] in conds;
    }
  }

  /** The intended conditions are true together exactly for the rows that pass the filter. */
  lemma IntendedMeansPasses(db: Database, row: Row, user: Option<int>, f: Filter)
    requires TakesPart(f, user) && !LacksValues(f, user)
    ensures (forall c :: c in IntendedConds(f, user) ==> Eval(db, row, c) == True) <==> Passes(db, row, user, f)
  {
    hide AttributeToColumn, Resolve, Eval, Passes, IntendedConds;
    match f.operator {
      case Equals => EqualityMeansPasses(db, row, user, f);
      case NotEquals => EqualityMeansPasses(db, row, user, f);
      case Contains => SearchMeansPasses(db, row, user, f);
      case NotContains => SearchMeansPasses(db, row, user, f);
      case StartsWith => SearchMeansPasses(db, row, user, f);
      case EndsWith => SearchMeansPasses(db, row, user, f);
      case GreaterThan => ComparisonMeansPasses(db, row, user, f);
      case GreaterThanOrEqual => ComparisonMeansPasses(db, row, user, f);
      case LessThan => ComparisonMeansPasses(db, row, user, f);
      case LessThanOrEqual => ComparisonMeansPasses(db, row, user, f);
      case Between => ComparisonMeansPasses(db, row, user, f);
      case IsNull => ComparisonMeansPasses(db, row, user, f);
      case IsNotNull => ComparisonMeansPasses(db, row, user, f);
      case _ => RelativeDateMeansPasses(db, row, user, f);
    }
  }
}
