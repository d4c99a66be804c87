/** The text of one condition, read back by the grammar, says what its filter says. */
module SqlConditions {
  import opened Wrappers
  import opened Strings
  import opened SqlLexer
  import opened SqlLike
  import opened SqlGrammar
  import opened SqlFilters

  // ---------- operands ----------

  /** What can come after an operand. */
  predicate EndsOperand(rest: seq<Terminal>) {
    rest == [] || IsConnective(rest[0]) || rest[0].Comma? || rest[0].RParen?
  }

  /** The text reads as the operand, whatever follows. */
  ghost predicate Denotes(sql: string, operand: Operand) {
    && Scan(sql).Some?
    && forall rest :: EndsOperand(rest) ==> ParseOperand(Scan(sql).value + rest) == Some((operand, rest))
  }

  lemma OneTerminalDenotes(sql: string, t: Terminal, operand: Operand)
    requires Scan(sql) == Some([t])
    requires match t {
               case Str(text) => operand == Text(text)
               case Numeral(digits) => operand == NumberOperand(false, digits)
               case KwTrue => operand == Boolean(true)
               case KwFalse => operand == Boolean(false)
               case KwCurrentDate => operand == Day(0)
               case _ => false
             }
    ensures Denotes(sql, operand)
  {
    hide Scan;
    forall rest | EndsOperand(rest)
      ensures ParseOperand(Scan(sql).value + rest) == Some((operand, rest))
    {
      assert ([t] + rest)[1..] == rest;
    }
  }

  lemma NumberDenotes(negative: bool, digits: string)
    requires IsNumeralText(digits)
    ensures Denotes(NumberText(negative, digits), NumberOperand(negative, digits))
  {
    hide Scan;
    ScanNumber(negative, digits);
    if negative {
      forall rest | EndsOperand(rest)
        ensures ParseOperand([Minus, Numeral(digits)] + rest) == Some((NumberOperand(true, digits), rest))
      {
        assert ([Minus, Numeral(digits)] + rest)[2..] == rest;
      }
    } else {
      OneTerminalDenotes(NumberText(false, digits), Numeral(digits), NumberOperand(false, digits));
    }
  }

  lemma IntDenotes(n: int)
    ensures Denotes(IntText(n), Integer(n))
  {
    var digits := NatText(if n < 0 then -n else n);
    DigitsOfNatText(if n < 0 then -n else n);
    NumberDenotes(n < 0, digits);
  }

  lemma QuoteDenotes(s: string)
    ensures Denotes(Quote(s), Text(s))
  {
    ScanQuoted(s);
    OneTerminalDenotes(Quote(s), Terminal.Str(s), Text(s));
  }

  function Both<T>(a: Option<seq<T>>, b: Option<seq<T>>): Option<seq<T>> {
    if a.Some? && b.Some? then Some(a.value + b.value) else None
  }

  /** The terminals begin with `before` and then a literal other than the date. */
  predicate Misread(ts: seq<Terminal>, before: seq<Terminal>, date: string) {
    before < ts && ts[|before|].Str? && ts[|before|].text != date
  }

  lemma RawQuoteIsMisread(date: string, tail: string)
    requires !IsPlain(date) && (tail == "" || tail[0] != '\'') && Scan(RawQuote(date) + tail).Some?
    ensures Misread(Scan(RawQuote(date) + tail).value, [], date)
  {
    hide Lex;
    UnescapedIsMisread(date, tail);
    var tokens := Lex(RawQuote(date) + tail).value;
    assert ClassifyAll(tokens)[0] == Classify(tokens[0]);
  }

  lemma PlainDateScans(date: string)
    requires IsPlain(date)
    ensures Scan(RawQuote(date)) == Some([Terminal.Str(date)])
  {
    EscapeWithoutQuotes(date);
    ScanQuoted(date);
  }

  lemma DateDenotesIff(date: string)
    ensures Denotes(RawQuote(date), Text(date)) <==> IsPlain(date)
  {
    hide Scan, RawQuote;
    if IsPlain(date) {
      PlainDateScans(date);
      OneTerminalDenotes(RawQuote(date), Terminal.Str(date), Text(date));
    } else if Scan(RawQuote(date)).Some? {
      assert RawQuote(date) + "" == RawQuote(date);
      RawQuoteIsMisread(date, "");
      var ts := Scan(RawQuote(date)).value;
      assert EndsOperand([]) && ParseOperand(ts + []) != Some((Text(date), []));
    }
  }

  lemma BoolDenotes(b: bool)
    ensures Denotes(BoolText(b), Boolean(b))
  {
    hide Scan;
    if b {
      ScanWord("true");
    } else {
      ScanWord("false");
    }
    OneTerminalDenotes(BoolText(b), if b then KwTrue else KwFalse, Boolean(b));
  }

  lemma ScanToday()
    ensures Scan("CURRENT_DATE") == Some([KwCurrentDate])
  {
    hide Scan;
    ScanWord("CURRENT_DATE");
  }

  lemma TodayDenotes()
    ensures Denotes("CURRENT_DATE", Day(0))
  {
    hide Scan;
    ScanToday();
    OneTerminalDenotes("CURRENT_DATE", KwCurrentDate, Day(0));
  }

  lemma ScanOperators()
    ensures Scan("+") == Some([Plus]) && Scan("-") == Some([Minus])
    ensures Scan("=") == Some([Equal]) && Scan("!=") == Some([NotEqual])
    ensures Scan("<") == Some([Less]) && Scan("<=") == Some([LessEqual])
    ensures Scan(">") == Some([Greater]) && Scan(">=") == Some([GreaterEqual])
  {
    hide Scan;
    LexOperator("+");
    LexOperator("-");
    LexOperator("=");
    LexOperator("<");
    LexOperator(">");
    LexDoubleOperator("!=");
    LexDoubleOperator("<=");
    LexDoubleOperator(">=");
  }

  lemma LexOperator(s: string)
    requires |s| == 1 && (s[0] == '=' || s[0] == '+' || IsOpStart(s[0]))
    ensures Scan(s) == Some([Symbol(s)])
  {
    ReadOne(Idle, s[0]);
    assert [s[0]] == s;
    assert Lex(s).value == [Sym(s)];
    assert ClassifyAll([Sym(s)]) == [Symbol(s)];
  }

  lemma LexDoubleOperator(s: string)
    requires |s| == 2 && IsOpStart(s[0]) && s[0] != '-' && s[1] == '='
    ensures Scan(s) == Some([Symbol(s)])
  {
    ReadSilent(Idle, s);
    ReadOne(InOp(s[0]), '=');
    assert s[1..] == "=" && [s[0], '='] == s;
    assert Lex(s).value == [Sym(s)];
    assert ClassifyAll([Sym(s)]) == [Symbol(s)];
  }

  lemma ScanInterval(n: int)
    ensures Scan(Interval(n)) == Some([Terminal.Str(IntText(n) + DAYS)])
    ensures ParseDays(IntText(n) + DAYS) == Some(n)
  {
    hide Scan;
    var text := IntText(n) + DAYS;
    EscapeWithoutQuotes(text);
    assert Interval(n) == Quote(text);
    ScanQuoted(text);
    IntRoundTrip(n);
    assert text[..|text| - |DAYS|] == IntText(n) && text[|text| - |DAYS|..] == DAYS;
  }

  function Shifted(sign: string, n: int): string {
    "CURRENT_DATE" + " " + sign + " " + "interval" + " " + Interval(n)
  }

  lemma ScanShifted(sign: string, n: int)
    requires sign == "+" || sign == "-"
    ensures Scan(Shifted(sign, n))
            == Some([KwCurrentDate, if sign == "+" then Plus else Minus, KwInterval, Terminal.Str(IntText(n) + DAYS)])
  {
    hide Scan, IntText, Interval;
    ScanToday();
    ScanOperators();
    ScanWord("interval");
    ScanInterval(n);
    ScanSpace("CURRENT_DATE", sign);
    ScanSpace("CURRENT_DATE" + " " + sign, "interval");
    ScanSpace("CURRENT_DATE" + " " + sign + " " + "interval", Interval(n));
    var op := if sign == "+" then Plus else Minus;
    assert Scan(Shifted(sign, n)).value == [KwCurrentDate, op, KwInterval, Terminal.Str(IntText(n) + DAYS)];
  }

  lemma ShiftDenotes(sign: string, n: int)
    requires sign == "+" || sign == "-"
    ensures Denotes(Shifted(sign, n), Day(if sign == "+" then n else -n))
  {
    hide Scan, IntText, Interval, Shifted;
    ScanShifted(sign, n);
    ScanInterval(n);
    var op := if sign == "+" then Plus else Minus;
    var ts := [KwCurrentDate, op, KwInterval, Terminal.Str(IntText(n) + DAYS)];
    forall rest | EndsOperand(rest)
      ensures ParseOperand(ts + rest) == Some((Day(if sign == "+" then n else -n), rest))
    {
      assert (ts + rest)[4..] == rest;
    }
  }

  lemma ScanWeekArguments()
    ensures Scan("date_trunc" + "(" + "'" + "week" + "'") == Some([KwDateTrunc, LParen, Terminal.Str("week")])
    ensures Scan("" + " " + "CURRENT_DATE") == Some([KwCurrentDate])
  {
    hide Scan;
    ScanEmpty();
    ScanToday();
    ScanWord("date_trunc");
    PlainDateScans("week");
    ScanSpace("", "CURRENT_DATE");
    ScanMark("date_trunc", '(', "'" + "week" + "'");
    assert "date_trunc" + "(" + ("'" + "week" + "'") == "date_trunc" + "(" + "'" + "week" + "'";
    assert [KwDateTrunc] + [LParen] + [Terminal.Str("week")] == [KwDateTrunc, LParen, Terminal.Str("week")];
    assert [] + [KwCurrentDate] == [KwCurrentDate];
  }

  lemma ScanWeekStart()
    ensures Scan(WEEK_START_TEXT) == Some(WEEK_START)
  {
    hide Scan, Keyword;
    var open, argument := "date_trunc" + "(" + "'" + "week" + "'", "" + " " + "CURRENT_DATE";
    ScanEmpty();
    ScanWeekArguments();
    ScanMark(open, ',', argument);
    ScanMark(open + "," + argument, ')', "");
    assert Scan(open + "," + argument + ")" + "").value == WEEK_START;
    assert open + "," + argument + ")" + "" == WEEK_START_TEXT;
  }

  const NEXT_WEEK_TEXT := WEEK_START_TEXT + " " + "+" + " " + "interval" + " " + "'1 week'"

  lemma ScanNextWeek()
    ensures Scan(NEXT_WEEK_TEXT) == Some(WEEK_START + ONE_WEEK)
  {
    hide Scan;
    ScanWeekStart();
    ScanOperators();
    ScanWord("interval");
    PlainDateScans("1 week");
    hide WEEK_START_TEXT;
    var start := WEEK_START_TEXT;
    assert "'" + "1 week" + "'" == "'1 week'";
    ScanSpace(start, "+");
    ScanSpace(start + " " + "+", "interval");
    ScanSpace(start + " " + "+" + " " + "interval", "'1 week'");
    assert Scan(NEXT_WEEK_TEXT).value == WEEK_START + ONE_WEEK;
  }

  lemma WeekDenotes()
    ensures Denotes(WEEK_START_TEXT, WeekStart)
    ensures Denotes(NEXT_WEEK_TEXT, NextWeekStart)
  {
    hide Scan;
    ScanWeekStart();
    ScanNextWeek();
    var start, next := WEEK_START, WEEK_START + ONE_WEEK;
    assert |start| == 6 && |next| == 9 && start[0] == next[0] == KwDateTrunc;
    forall rest | EndsOperand(rest)
      ensures ParseOperand(start + rest) == Some((WeekStart, rest))
      ensures ParseOperand(next + rest) == Some((NextWeekStart, rest))
    {
      assert (start + rest)[6..] == rest;
      assert (start + rest)[..6] == start;
      assert (next + rest)[9..] == rest;
      assert (next + rest)[..6] == start;
      assert (next + rest)[6..9] == ONE_WEEK;
      if |rest| >= 3 {
        assert (start + rest)[6..9][0] == rest[0];
      }
    }
  }

  /** Every printed value reads back as the operand it stands for, except a date with a quote in it. */
  lemma ValueDenotes(values: FilterValue, user: Option<int>, i: nat)
    requires i < |ValuesToSql(values, user)|
    ensures |ValuesToSql(values, user)| == |Resolve(values, user)|
    ensures Denotes(ValuesToSql(values, user)[i], Resolve(values, user)[i])
            <==> (i < |DatesIn(values)| ==> IsPlain(DatesIn(values)[i]))
  {
    hide Denotes, IsPlain, RawQuote, Quote, IntText, NumberText, BoolText;
    match values {
      case Id(id) => IntDenotes(id);
      case Ids(ids) => IntDenotes(ids[i]);
      case Str(s) => QuoteDenotes(s);
      case Strs(ss) => QuoteDenotes(ss[i]);
      case Bool(b) => BoolDenotes(b);
      case Date(date) => DateDenotesIff(date);
      case DateRange(from, to) => DateDenotesIff(if i == 0 then from else to);
      case Num(number) => NumberDenotes(number.negative, number.digits);
      case Me => IntDenotes(user.value);
      case Nothing =>
    }
  }

  // ---------- conditions ----------

  /** What can come after a condition. */
  predicate EndsCond(rest: seq<Terminal>) {
    rest == [] || IsConnective(rest[0])
  }

  function Followed(conds: Option<seq<Cond>>, rest: seq<Terminal>): Option<Search> {
    match conds
    case None => None
    case Some(c) => if rest == [] then Some([c]) else Connect(c, rest[0], ParseSearch(rest[1..]))
  }

  /** The text reads as those conditions joined by AND, or as a syntax error, whatever follows. */
  ghost predicate Says(sql: string, conds: Option<seq<Cond>>) {
    && Scan(sql).Some?
    && forall rest :: EndsCond(rest) ==> ParseSearch(Scan(sql).value + rest) == Followed(conds, rest)
  }

  function Parsed(cond: Option<Cond>, rest: seq<Terminal>): Parse<Cond> {
    match cond
    case Some(c) => Some((c, rest))
    case None => None
  }

  function Only(cond: Option<Cond>): Option<seq<Cond>> {
    match cond
    case Some(c) => Some([c])
    case None => None
  }

  /** One condition says what it parses to. */
  lemma CondSays(sql: string, cond: Option<Cond>)
    requires Scan(sql).Some?
    requires forall rest :: EndsCond(rest) ==>
                              ParseCond(Scan(sql).value + rest) == Parsed(cond, rest)
    ensures Says(sql, Only(cond))
  {
    hide Scan, ParseCond;
    forall rest | EndsCond(rest)
      ensures ParseSearch(Scan(sql).value + rest) == Followed(Only(cond), rest)
    {
    }
  }

  lemma PredicateSays(column: string, text: string, cond: Option<Cond>)
    requires Scan(column) == Some([Column(column)]) && Scan(text).Some?
    requires forall rest :: EndsCond(rest) ==>
                              ParsePredicate(column, Scan(text).value + rest) == Parsed(cond, rest)
    ensures Says(column + " " + text, Only(cond))
  {
    hide Scan, ParsePredicate;
    ScanSpace(column, text);
    forall rest | EndsCond(rest)
      ensures ParseCond(Scan(column + " " + text).value + rest)
              == Parsed(cond, rest)
    {
      var ts := Scan(column + " " + text).value + rest;
      assert ts[0] == Column(column);
      assert ts[1..] == Scan(text).value + rest;
      if |ts| >= 3 {
        assert ts[..3][0] == ts[0];
      }
    }
    CondSays(column + " " + text, cond);
  }

  lemma ConnectTogether(ca: seq<Cond>, cb: seq<Cond>, rest: seq<Terminal>)
    ensures Connect(ca, KwAnd, Followed(Some(cb), rest)) == Followed(Some(ca + cb), rest)
  {
    hide ParseSearch;
    if rest == [] {
      assert [cb][1..] == [] && [ca + cb] + [] == [ca + cb];
    } else {
      var more := ParseSearch(rest[1..]);
      if more.Some? && more.value != [] {
        var search := more.value;
        assert ca + (cb + search[0]) == ca + cb + search[0];
        assert ([cb + search[0]] + search[1..])[1..] == search[1..] && ([cb] + search)[1..] == search;
      }
    }
  }

  lemma SaysTogether(a: string, ca: Option<seq<Cond>>, b: string, cb: Option<seq<Cond>>)
    requires Says(a, ca) && Says(b, cb)
    ensures Says(a + " AND " + b, Both(ca, cb))
  {
    hide Scan, ParseSearch, Connect;
    ScanWord("AND");
    ScanSpace(a, "AND");
    ScanSpace(a + " " + "AND", b);
    assert a + " " + "AND" + " " + b == a + " AND " + b;
    forall rest | EndsCond(rest)
      ensures ParseSearch(Scan(a + " AND " + b).value + rest) == Followed(Both(ca, cb), rest)
    {
      var tail := [KwAnd] + Scan(b).value + rest;
      assert Scan(a + " AND " + b).value + rest == Scan(a).value + tail;
      assert EndsCond(tail) && tail[1..] == Scan(b).value + rest;
      assert ParseSearch(Scan(b).value + rest) == Followed(cb, rest);
      if ca.Some? {
        if cb.Some? {
          ConnectTogether(ca.value, cb.value, rest);
        } else {
          assert Connect(ca.value, KwAnd, None) == None by {
            NothingConnects(ca.value, KwAnd);
          }
        }
      }
    }
  }

  lemma NothingConnects(conds: seq<Cond>, connective: Terminal)
    ensures Connect(conds, connective, None) == None
  {
  }

  lemma CompareSays(column: string, op: string, comparison: Comparison, value: string, operand: Operand)
    requires Scan(column) == Some([Column(column)])
    requires Scan(op).Some? && |Scan(op).value| == 1 && ComparisonOf(Scan(op).value[0]) == Some(comparison)
    requires Denotes(value, operand)
    ensures Says(column + " " + op + " " + value, Some([Compare(column, comparison, operand)]))
  {
    hide Scan, ParseOperand;
    ScanSpace(op, value);
    forall rest | EndsCond(rest)
      ensures ParsePredicate(column, Scan(op + " " + value).value + rest)
              == Some((Compare(column, comparison, operand), rest))
    {
      var ts := Scan(op + " " + value).value + rest;
      assert ts[1..] == Scan(value).value + rest;
      assert EndsOperand(rest);
    }
    PredicateSays(column, op + " " + value, Some(Compare(column, comparison, operand)));
    assert column + " " + (op + " " + value) == column + " " + op + " " + value;
  }

  // ---------- lists ----------

  lemma {:induction false} ListScans(texts: seq<string>, operands: seq<Operand>)
    requires |texts| == |operands| > 0
    requires forall i :: 0 <= i < |texts| ==> Denotes(texts[i], operands[i])
    ensures Scan(Join(texts, ", ")).Some?
    ensures forall rest :: ParseList(Scan(Join(texts, ", ")).value + [RParen] + rest) == Some((operands, rest))
    decreases |texts|
  {
    hide Scan, ParseOperand;
    var sql := Join(texts, ", ");
    if |texts| == 1 {
      forall rest
        ensures ParseList(Scan(sql).value + [RParen] + rest) == Some((operands, rest))
      {
        assert Scan(sql).value + [RParen] + rest == Scan(sql).value + ([RParen] + rest);
        assert ([RParen] + rest)[1..] == rest;
        assert [operands[0]] == operands;
      }
    } else {
      ListScans(texts[1..], operands[1..]);
      var tail := Join(texts[1..], ", ");
      ScanEmpty();
      ScanSpace("", tail);
      assert "" + " " + tail == " " + tail;
      ScanMark(texts[0], ',', " " + tail);
      assert texts[0] + "," + (" " + tail) == sql;
      forall rest
        ensures ParseList(Scan(sql).value + [RParen] + rest) == Some((operands, rest))
      {
        var after := [Comma] + (Scan(tail).value + [RParen] + rest);
        assert Scan(sql).value + [RParen] + rest == Scan(texts[0]).value + after;
        assert EndsOperand(after) && after[1..] == Scan(tail).value + [RParen] + rest;
        assert [operands[0]] + operands[1..] == operands;
      }
    }
  }

  lemma ScanListKeywords(negated: bool)
    ensures Scan(if negated then "NOT IN" else "IN") == Some(if negated then [KwNot, KwIn] else [KwIn])
  {
    hide Scan;
    ScanWord("IN");
    if negated {
      ScanWord("NOT");
      ScanSpace("NOT", "IN");
      assert "NOT" + " " + "IN" == "NOT IN";
      assert [KwNot] + [KwIn] == [KwNot, KwIn];
    }
  }

  lemma EmptyListIsAnError(rest: seq<Terminal>)
    ensures ParseList([RParen] + rest) == None
  {
    assert ParseOperand([RParen] + rest) == None;
  }

  function ListKeywords(negated: bool): string {
    if negated then "NOT IN" else "IN"
  }

  function ListOpening(negated: bool): seq<Terminal> {
    if negated then [KwNot, KwIn, LParen] else [KwIn, LParen]
  }

  lemma ListScansWhole(negated: bool, inner: string)
    requires Scan(inner).Some?
    ensures Scan(ListKeywords(negated) + " " + "(" + inner + ")")
            == Some(ListOpening(negated) + Scan(inner).value + [RParen])
  {
    hide Scan;
    ScanListKeywords(negated);
    ScanEmpty();
    ScanMark("", '(', inner);
    ScanMark("" + "(" + inner, ')', "");
    var list := "" + "(" + inner + ")" + "";
    ScanSpace(ListKeywords(negated), list);
    var text := ListKeywords(negated) + " " + list;
    assert text == ListKeywords(negated) + " " + "(" + inner + ")";
    assert Scan(text).value == ListOpening(negated) + Scan(inner).value + [RParen];
  }

  lemma InParses(column: string, negated: bool, tail: seq<Terminal>)
    ensures ParsePredicate(column, ListOpening(negated) + tail)
            == match ParseList(tail)
               case None => None
               case Some((operands, rest)) =>
                 Some((if negated then NotIn(column, operands) else In(column, operands), rest))
  {
    hide ParseList, ParseOperand, ParseBetween, ParsePattern;
    var ts := ListOpening(negated) + tail;
    if negated {
      assert ts[3..] == tail;
    } else {
      assert ts[2..] == tail;
    }
  }

  lemma ILikeParses(column: string, negated: bool, pattern: string, rest: seq<Terminal>)
    requires DecodePattern(pattern).Some?
    ensures var items := DecodePattern(pattern).value;
            ParsePredicate(column, (if negated then [KwNot, KwILike] else [KwILike]) + [Terminal.Str(pattern)] + rest)
            == Some((if negated then NotLike(column, items) else Like(column, items), rest))
  {
    hide ParseList, ParseOperand, ParseBetween, DecodePattern;
    var at := if negated then 2 else 1;
    var ts := (if negated then [KwNot, KwILike] else [KwILike]) + [Terminal.Str(pattern)] + rest;
    assert ts[at..] == [Terminal.Str(pattern)] + rest;
    assert ([Terminal.Str(pattern)] + rest)[1..] == rest;
  }

  /** An IN list says membership in its operands; an empty one is a syntax error. */
  lemma ListSays(column: string, negated: bool, texts: seq<string>, operands: seq<Operand>)
    requires Scan(column) == Some([Column(column)])
    requires |texts| == |operands|
    requires forall i :: 0 <= i < |texts| ==> Denotes(texts[i], operands[i])
    ensures Says(
              column + " " + (ListKeywords(negated) + " " + "(" + Join(texts, ", ") + ")"),
              if texts == [] then None
              else Some([if negated then NotIn(column, operands) else In(column, operands)]))
  {
    hide Scan, ParseOperand, ParseList, ParsePredicate, ListOpening, ListKeywords, Says;
    var inner := Join(texts, ", ");
    if texts == [] {
      ScanEmpty();
    } else {
      ListScans(texts, operands);
    }
    ListScansWhole(negated, inner);
    var text := ListKeywords(negated) + " " + "(" + inner + ")";
    var opening := ListOpening(negated);
    var cond := if texts == [] then None
                else Some(if negated then NotIn(column, operands) else In(column, operands));
    forall rest | EndsCond(rest)
      ensures ParsePredicate(column, Scan(text).value + rest)
              == Parsed(cond, rest)
    {
      var tail := Scan(inner).value + [RParen] + rest;
      assert Scan(text).value + rest == opening + tail;
      InParses(column, negated, tail);
      if texts == [] {
        assert tail == [RParen] + rest;
        EmptyListIsAnError(rest);
      }
    }
    PredicateSays(column, text, cond);
  }

  // ---------- patterns ----------

  function LikeKeywords(negated: bool): string {
    if negated then "NOT ILIKE" else "ILIKE"
  }

  lemma ScanLikeKeywords(negated: bool)
    ensures Scan(LikeKeywords(negated)) == Some(if negated then [KwNot, KwILike] else [KwILike])
  {
    hide Scan;
    ScanWord("ILIKE");
    if negated {
      ScanWord("NOT");
      ScanSpace("NOT", "ILIKE");
      assert "NOT" + " " + "ILIKE" == "NOT ILIKE";
      assert [KwNot] + [KwILike] == [KwNot, KwILike];
    }
  }

  lemma LikeSays(column: string, negated: bool, before: string, s: string, after: string)
    requires Scan(column) == Some([Column(column)])
    requires IsWildcard(before) && IsWildcard(after)
    ensures var items := Wildcard(before) + Literally(s) + Wildcard(after);
            Says(
              column + " " + (LikeKeywords(negated) + " " + PatternSql(before, s, after)),
              Some([if negated then NotLike(column, items) else Like(column, items)]))
  {
    hide Scan, Says, PatternSql, ParsePredicate, DecodePattern, EscapeEach, Literally, LikeKeywords;
    var items := Wildcard(before) + Literally(s) + Wildcard(after);
    var pattern := before + EscapeEach(s) + after;
    var sql := PatternSql(before, s, after);
    PatternSqlIsQuoted(before, s, after);
    ScanQuoted(pattern);
    DecodeWildcards(before, s, after);
    ScanLikeKeywords(negated);
    ScanSpace(LikeKeywords(negated), sql);
    var text := LikeKeywords(negated) + " " + sql;
    var cond := if negated then NotLike(column, items) else Like(column, items);
    forall rest | EndsCond(rest)
      ensures ParsePredicate(column, Scan(text).value + rest) == Some((cond, rest))
    {
      ILikeParses(column, negated, pattern, rest);
    }
    PredicateSays(column, text, Some(cond));
  }

  // ---------- the other forms ----------

  lemma ScanNullTests()
    ensures Scan("IS NULL") == Some([KwIs, KwNull]) && Scan("IS NOT NULL") == Some([KwIs, KwNot, KwNull])
  {
    hide Scan;
    ScanWord("IS");
    ScanWord("NOT");
    ScanWord("NULL");
    ScanSpace("IS", "NULL");
    ScanSpace("IS", "NOT");
    assert "IS" + " " + "NOT" == "IS NOT";
    ScanSpace("IS NOT", "NULL");
    assert "IS" + " " + "NULL" == "IS NULL" && "IS NOT" + " " + "NULL" == "IS NOT NULL";
    assert Scan("IS NULL").value == [KwIs, KwNull];
    assert Scan("IS NOT NULL").value == [KwIs, KwNot, KwNull];
  }

  lemma NullSays(column: string)
    requires Scan(column) == Some([Column(column)])
    ensures Says(column + " IS NULL", Some([Null(column)]))
    ensures Says(column + " IS NOT NULL", Some([NotNull(column)]))
  {
    hide Scan, ParseOperand, ParseList, ParseBetween, ParsePattern, Says;
    ScanNullTests();
    forall rest | EndsCond(rest)
      ensures ParsePredicate(column, [KwIs, KwNull] + rest) == Some((Null(column), rest))
      ensures ParsePredicate(column, [KwIs, KwNot, KwNull] + rest) == Some((NotNull(column), rest))
    {
      assert ([KwIs, KwNull] + rest)[2..] == rest;
      assert ([KwIs, KwNot, KwNull] + rest)[3..] == rest;
    }
    PredicateSays(column, "IS NULL", Some(Null(column)));
    PredicateSays(column, "IS NOT NULL", Some(NotNull(column)));
    assert column + " " + "IS NULL" == column + " IS NULL";
    assert column + " " + "IS NOT NULL" == column + " IS NOT NULL";
  }

  lemma BetweenParses(column: string, tail: seq<Terminal>)
    requires tail != []
    ensures ParsePredicate(column, [KwBetween] + tail) == ParseBetween(column, tail)
  {
    hide ParseOperand, ParseList, ParsePattern, ParseBetween;
    assert ([KwBetween] + tail)[1..] == tail;
  }

  lemma ScanBetween(from: string, to: string)
    requires Scan(from).Some? && Scan(to).Some?
    ensures Scan("BETWEEN " + from + " AND " + to)
            == Some([KwBetween] + Scan(from).value + [KwAnd] + Scan(to).value)
  {
    hide Scan;
    ScanWord("BETWEEN");
    ScanWord("AND");
    ScanSpace("BETWEEN", from);
    ScanSpace("BETWEEN" + " " + from, "AND");
    ScanSpace("BETWEEN" + " " + from + " " + "AND", to);
    assert "BETWEEN" + " " + from + " " + "AND" + " " + to == "BETWEEN " + from + " AND " + to;
  }

  lemma BetweenSays(column: string, from: string, low: Operand, to: string, high: Operand)
    requires Scan(column) == Some([Column(column)])
    requires Denotes(from, low) && Denotes(to, high)
    ensures Says(column + " BETWEEN " + from + " AND " + to, Some([Cond.Between(column, low, high)]))
  {
    hide Scan, ParseOperand, ParsePredicate, Says;
    var text := "BETWEEN " + from + " AND " + to;
    ScanBetween(from, to);
    forall rest | EndsCond(rest)
      ensures ParsePredicate(column, Scan(text).value + rest) == Some((Cond.Between(column, low, high), rest))
    {
      var tail := [KwAnd] + (Scan(to).value + rest);
      assert Scan(text).value + rest == [KwBetween] + (Scan(from).value + tail);
      assert EndsOperand(tail) && tail[1..] == Scan(to).value + rest && EndsOperand(rest);
      BetweenParses(column, Scan(from).value + tail);
    }
    PredicateSays(column, text, Some(Cond.Between(column, low, high)));
    assert column + " " + text == column + " BETWEEN " + from + " AND " + to;
  }

  lemma NeverSays()
    ensures Says("1 = 0", Some([Never]))
  {
    hide Scan;
    ScanNumber(false, "1");
    ScanNumber(false, "0");
    ScanOperators();
    ScanSpace("1", "=");
    assert "1" + " " + "=" == "1 =";
    ScanSpace("1 =", "0");
    assert "1 =" + " " + "0" == "1 = 0";
    assert Scan("1 = 0").value == NEVER;
    forall rest | EndsCond(rest)
      ensures ParseCond(NEVER + rest) == Some((Never, rest))
    {
      assert (NEVER + rest)[..3] == NEVER && (NEVER + rest)[3..] == rest;
    }
    CondSays("1 = 0", Some(Never));
  }

  predicate IsColumnName(s: string) {
    |s| > 2 && IsWordText(s) && !IsDigit(s[0]) && (s[1] == '.' || s[2] == '.')
  }

  lemma ColumnNames1()
    ensures IsColumnName("wp.id")
    ensures IsColumnName("wp.subject")
    ensures IsColumnName("wp.description")
    ensures IsColumnName("wp.project_id")
    ensures IsColumnName("wp.type_id")
    ensures IsColumnName("wp.status_id")
  {
  }

  lemma ColumnNames2()
    ensures IsColumnName("wp.priority_id")
    ensures IsColumnName("wp.author_id")
    ensures IsColumnName("wp.assigned_to_id")
    ensures IsColumnName("wp.responsible_id")
    ensures IsColumnName("wp.category_id")
    ensures IsColumnName("wp.version_id")
  {
  }

  lemma ColumnNames3()
    ensures IsColumnName("wp.parent_id")
    ensures IsColumnName("wp.start_date")
    ensures IsColumnName("wp.due_date")
    ensures IsColumnName("wp.estimated_hours")
    ensures IsColumnName("wp.done_ratio")
    ensures IsColumnName("wp.created_at")
  {
  }

  lemma ColumnNames4()
    ensures IsColumnName("wp.updated_at")
    ensures IsColumnName("s.name")
    ensures IsColumnName("s.is_closed")
    ensures IsColumnName("t.name")
    ensures IsColumnName("p.name")
    ensures IsColumnName("p.position")
  {
  }

  lemma ColumnsAreQualified(attribute: string)
    requires AttributeToColumn(attribute).Some?
    ensures IsColumnName(AttributeToColumn(attribute).value)
  {
    hide IsColumnName;
    ColumnNames1();
    ColumnNames2();
    ColumnNames3();
    ColumnNames4();
  }

  lemma ColumnsScan(attribute: string)
    requires AttributeToColumn(attribute).Some?
    ensures var column := AttributeToColumn(attribute).value;
            Scan(column) == Some([Column(column)])
  {
    hide Scan, AttributeToColumn;
    var column := AttributeToColumn(attribute).value;
    ColumnsAreQualified(attribute);
    assert '.' in column && !IsNumeralText(column);
    ScanWord(column);
  }

  // ---------- filters ----------

  lemma SameNumberOfValues(values: FilterValue, user: Option<int>)
    ensures |ValuesToSql(values, user)| == |Resolve(values, user)|
  {
  }

  /** A filter produces a condition exactly when it takes part. */
  lemma ProducesIffTakesPart(f: Filter, user: Option<int>)
    ensures FilterToSql(f, user).Some? <==> TakesPart(f, user)
  {
    hide AttributeToColumn, ValuesToSql, Resolve, PatternSql;
    SameNumberOfValues(f.values, user);
  }

  ghost predicate FilterSays(f: Filter, user: Option<int>)
    requires TakesPart(f, user)
  {
    && FilterToSql(f, user).Some?
    && Says(FilterToSql(f, user).value, if LacksValues(f, user) then None else Some(IntendedConds(f, user)))
  }

  lemma ValuesDenote(f: Filter, user: Option<int>)
    requires DatesArePlain(f) && (f.operator.Equals? || f.operator.NotEquals?)
    ensures var texts, wanted := ValuesToSql(f.values, user), Resolve(f.values, user);
            |texts| == |wanted| && forall i :: 0 <= i < |texts| ==> Denotes(texts[i], wanted[i])
  {
    hide ValuesToSql, Resolve, Denotes, IsPlain;
    SameNumberOfValues(f.values, user);
    forall i | 0 <= i < |ValuesToSql(f.values, user)|
      ensures Denotes(ValuesToSql(f.values, user)[i], Resolve(f.values, user)[i])
    {
      ValueDenotes(f.values, user, i);
    }
  }

  lemma OneValueSays(f: Filter, user: Option<int>)
    requires TakesPart(f, user) && DatesArePlain(f) && |ValuesToSql(f.values, user)| == 1
    requires f.operator.Equals? || f.operator.NotEquals?
    ensures FilterSays(f, user)
  {
    hide AttributeToColumn, ValuesToSql, Resolve, Says, Scan, Denotes, Join, DatesArePlain;
    var column := AttributeToColumn(f.attribute).value;
    ColumnsScan(f.attribute);
    ValuesDenote(f, user);
    ScanOperators();
    var text, wanted := ValuesToSql(f.values, user)[0], Resolve(f.values, user)[0];
    if f.operator.Equals? {
      CompareSays(column, "=", Eq, text, wanted);
      assert column + " = " + text == column + " " + "=" + " " + text;
    } else {
      CompareSays(column, "!=", Ne, text, wanted);
      assert column + " != " + text == column + " " + "!=" + " " + text;
    }
  }

  lemma ManyValuesSay(f: Filter, user: Option<int>)
    requires TakesPart(f, user) && DatesArePlain(f) && |ValuesToSql(f.values, user)| != 1
    requires f.operator.Equals? || f.operator.NotEquals?
    ensures FilterSays(f, user)
  {
    hide AttributeToColumn, ValuesToSql, Resolve, Says, Scan, Denotes, Join, DatesArePlain;
    var column := AttributeToColumn(f.attribute).value;
    var texts, wanted := ValuesToSql(f.values, user), Resolve(f.values, user);
    ColumnsScan(f.attribute);
    ValuesDenote(f, user);
    var inner := Join(texts, ", ");
    ListSays(column, f.operator.NotEquals?, texts, wanted);
    if f.operator.Equals? {
      assert column + " IN (" + inner + ")" == column + " " + ("IN" + " " + "(" + inner + ")");
    } else {
      assert column + " NOT IN (" + inner + ")" == column + " " + ("NOT IN" + " " + "(" + inner + ")");
    }
  }

  lemma EqualityFilterSays(f: Filter, user: Option<int>)
    requires TakesPart(f, user) && DatesArePlain(f)
    requires f.operator.Equals? || f.operator.NotEquals?
    ensures FilterSays(f, user)
  {
    hide FilterSays, TakesPart, DatesArePlain, ValuesToSql;
    if |ValuesToSql(f.values, user)| == 1 {
      OneValueSays(f, user);
    } else {
      ManyValuesSay(f, user);
    }
  }

  lemma SearchFilterSays(f: Filter, user: Option<int>)
    requires TakesPart(f, user)
    requires f.operator.Contains? || f.operator.NotContains? || f.operator.StartsWith? || f.operator.EndsWith?
    ensures FilterSays(f, user)
  {
    hide AttributeToColumn, ValuesToSql, Resolve, Says, Scan, PatternSql, Literally;
    var column := AttributeToColumn(f.attribute).value;
    ColumnsScan(f.attribute);
    var negated := f.operator.NotContains?;
    var before := if f.operator.StartsWith? then "" else "%";
    var after := if f.operator.EndsWith? then "" else "%";
    var sql := PatternSql(before, f.values.s, after);
    LikeSays(column, negated, before, f.values.s, after);
    if negated {
      assert column + " NOT ILIKE " + sql == column + " " + ("NOT ILIKE" + " " + sql);
    } else {
      assert column + " ILIKE " + sql == column + " " + ("ILIKE" + " " + sql);
    }
    assert [] + Literally(f.values.s) + [AnyText] == Literally(f.values.s) + [AnyText];
    assert [AnyText] + Literally(f.values.s) + [] == [AnyText] + Literally(f.values.s);
  }

  lemma ComparisonFilterSays(f: Filter, user: Option<int>)
    requires TakesPart(f, user) && DatesArePlain(f)
    requires f.operator.GreaterThan? || f.operator.GreaterThanOrEqual? || f.operator.LessThan?
             || f.operator.LessThanOrEqual?
    ensures FilterSays(f, user)
  {
    hide AttributeToColumn, ValuesToSql, Resolve, Says, Scan, Denotes;
    var column := AttributeToColumn(f.attribute).value;
    ColumnsScan(f.attribute);
    ScanOperators();
    SameNumberOfValues(f.values, user);
    ValueDenotes(f.values, user, 0);
    var text, wanted := ValuesToSql(f.values, user)[0], Resolve(f.values, user)[0];
    match f.operator {
      case GreaterThan => CompareSays(column, ">", Gt, text, wanted);
      case GreaterThanOrEqual => CompareSays(column, ">=", Ge, text, wanted);
      case LessThan => CompareSays(column, "<", Lt, text, wanted);
      case LessThanOrEqual => CompareSays(column, "<=", Le, text, wanted);
    }
  }

  lemma AgoIsShifted(n: int)
    ensures Ago(n) == Shifted("-", n)
  {
    hide Interval;
    assert "CURRENT_DATE" + " " + "-" + " " + "interval" + " " == "CURRENT_DATE - interval ";
  }

  lemma FromNowIsShifted(n: int)
    ensures FromNow(n) == Shifted("+", n)
  {
    hide Interval;
    assert "CURRENT_DATE" + " " + "+" + " " + "interval" + " " == "CURRENT_DATE + interval ";
  }

  lemma RelativeDateFilterSays(f: Filter, user: Option<int>)
    requires TakesPart(f, user)
    requires f.operator.DaysAgo? || f.operator.DaysFromNow? || f.operator.LessThanDaysAgo?
             || f.operator.MoreThanDaysAgo? || f.operator.LessThanDaysFromNow? || f.operator.MoreThanDaysFromNow?
    ensures FilterSays(f, user)
  {
    hide AttributeToColumn, ValuesToSql, Resolve, Says, Scan, Ago, FromNow, Shifted, Denotes;
    var column := AttributeToColumn(f.attribute).value;
    ColumnsScan(f.attribute);
    ScanOperators();
    var n := f.operator.n;
    AgoIsShifted(n);
    FromNowIsShifted(n);
    ShiftDenotes("-", n);
    ShiftDenotes("+", n);
    OperatorText(column, Ago(n));
    OperatorText(column, FromNow(n));
    match f.operator {
      case DaysAgo(_) => CompareSays(column, "=", Eq, Ago(n), Day(-n));
      case DaysFromNow(_) => CompareSays(column, "=", Eq, FromNow(n), Day(n));
      case LessThanDaysAgo(_) => CompareSays(column, ">", Gt, Ago(n), Day(-n));
      case MoreThanDaysAgo(_) => CompareSays(column, "<", Lt, Ago(n), Day(-n));
      case LessThanDaysFromNow(_) => CompareSays(column, "<", Lt, FromNow(n), Day(n));
      case MoreThanDaysFromNow(_) => CompareSays(column, ">", Gt, FromNow(n), Day(n));
    }
  }

  lemma OperatorText(column: string, value: string)
    ensures column + " = " + value == column + " " + "=" + " " + value
    ensures column + " < " + value == column + " " + "<" + " " + value
    ensures column + " > " + value == column + " " + ">" + " " + value
  {
  }

  lemma ThisWeekSays(column: string)
    requires Scan(column) == Some([Column(column)])
    ensures Says(
              column + " >= " + WEEK_START_TEXT + " AND " + column + " < " + WEEK_START_TEXT + " + interval '1 week'",
              Some([Compare(column, Ge, WeekStart), Compare(column, Lt, NextWeekStart)]))
  {
    hide Says, Scan, Denotes, WEEK_START_TEXT;
    ScanOperators();
    WeekDenotes();
    var start := WEEK_START_TEXT;
    var from := column + " " + ">=" + " " + start;
    var to := column + " " + "<" + " " + NEXT_WEEK_TEXT;
    CompareSays(column, ">=", Ge, start, WeekStart);
    CompareSays(column, "<", Lt, NEXT_WEEK_TEXT, NextWeekStart);
    SaysTogether(from, Some([Compare(column, Ge, WeekStart)]), to, Some([Compare(column, Lt, NextWeekStart)]));
    assert [Compare(column, Ge, WeekStart)] + [Compare(column, Lt, NextWeekStart)]
           == [Compare(column, Ge, WeekStart), Compare(column, Lt, NextWeekStart)];
    assert from + " AND " + to
           == column + " >= " + start + " AND " + column + " < " + start + " + interval '1 week'";
  }

  lemma OtherFilterSays(f: Filter, user: Option<int>)
    requires TakesPart(f, user) && DatesArePlain(f)
    requires f.operator.Between? || f.operator.IsNull? || f.operator.IsNotNull? || f.operator.Today?
             || f.operator.ThisWeek? || f.operator.CurrentUser?
    ensures FilterSays(f, user)
  {
    hide AttributeToColumn, ValuesToSql, Resolve, Says, Scan, Denotes, WEEK_START_TEXT, IntText;
    var column := AttributeToColumn(f.attribute).value;
    ColumnsScan(f.attribute);
    ScanOperators();
    match f.operator {
      case Between =>
        assert f.values.from in PrintedDates(f) && f.values.to in PrintedDates(f);
        DateDenotesIff(f.values.from);
        DateDenotesIff(f.values.to);
        BetweenSays(column, RawQuote(f.values.from), Text(f.values.from), RawQuote(f.values.to), Text(f.values.to));
      case Today =>
        TodayDenotes();
        CompareSays(column, "=", Eq, "CURRENT_DATE", Day(0));
        assert column + " = CURRENT_DATE" == column + " " + "=" + " " + "CURRENT_DATE";
      case ThisWeek => ThisWeekSays(column);
      case CurrentUser =>
        if user.Some? {
          IntDenotes(user.value);
          CompareSays(column, "=", Eq, IntText(user.value), Integer(user.value));
          assert column + " = " + IntText(user.value) == column + " " + "=" + " " + IntText(user.value);
        } else {
          NeverSays();
        }
      case _ => NullSays(column);
    }
  }

  lemma PlainFilterSays(f: Filter, user: Option<int>)
    requires TakesPart(f, user) && DatesArePlain(f)
    ensures FilterSays(f, user)
  {
    hide FilterSays;
    match f.operator {
      case Equals => EqualityFilterSays(f, user);
      case NotEquals => EqualityFilterSays(f, user);
      case Contains => SearchFilterSays(f, user);
      case NotContains => SearchFilterSays(f, user);
      case StartsWith => SearchFilterSays(f, user);
      case EndsWith => SearchFilterSays(f, user);
      case GreaterThan => ComparisonFilterSays(f, user);
      case GreaterThanOrEqual => ComparisonFilterSays(f, user);
      case LessThan => ComparisonFilterSays(f, user);
      case LessThanOrEqual => ComparisonFilterSays(f, user);
      case DaysAgo(_) => RelativeDateFilterSays(f, user);
      case DaysFromNow(_) => RelativeDateFilterSays(f, user);
      case LessThanDaysAgo(_) => RelativeDateFilterSays(f, user);
      case MoreThanDaysAgo(_) => RelativeDateFilterSays(f, user);
      case LessThanDaysFromNow(_) => RelativeDateFilterSays(f, user);
      case MoreThanDaysFromNow(_) => RelativeDateFilterSays(f, user);
      case _ => OtherFilterSays(f, user);
    }
  }
}
