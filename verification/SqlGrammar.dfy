/** The conditions of a WHERE clause: their concrete syntax, read from the lexer's tokens, and their meaning
    in three-valued logic (sections 8.2 to 8.8 of ISO/IEC 9075-2). */
module SqlGrammar {
  import opened Wrappers
  import opened Strings
  import opened SqlLexer
  import opened SqlLike

  datatype Terminal =
    | Column(name: string)
    | Numeral(digits: string)
    | Str(text: string)
    | KwAnd | KwOr | KwNot | KwIn | KwIs | KwNull | KwILike | KwBetween | KwTrue | KwFalse
    | KwCurrentDate | KwInterval | KwDateTrunc
    | KwOrder | KwBy | KwAsc | KwDesc | KwNulls | KwFirst | KwLast
    | LParen | RParen | Comma | Equal | NotEqual | Less | LessEqual | Greater | GreaterEqual | Plus | Minus
    | Unknown

  predicate IsNumeralText(s: string) {
    s != "" && IsDigit(s[0]) && forall i :: 0 <= i < |s| ==> IsDigit(s[i]) || s[i] == '.'
  }

  function Keyword(w: string): Terminal {
    match w
    case "AND" => KwAnd
    case "OR" => KwOr
    case "NOT" => KwNot
    case "IN" => KwIn
    case "IS" => KwIs
    case "NULL" => KwNull
    case "ILIKE" => KwILike
    case "BETWEEN" => KwBetween
    case "true" => KwTrue
    case "false" => KwFalse
    case "CURRENT_DATE" => KwCurrentDate
    case "interval" => KwInterval
    case "date_trunc" => KwDateTrunc
    case "ORDER" => KwOrder
    case "BY" => KwBy
    case "ASC" => KwAsc
    case "DESC" => KwDesc
    case "NULLS" => KwNulls
    case "FIRST" => KwFirst
    case "LAST" => KwLast
    case _ => Unknown
  }

  function Symbol(s: string): Terminal {
    match s
    case "(" => LParen
    case ")" => RParen
    case "," => Comma
    case "=" => Equal
    case "!=" => NotEqual
    case "<" => Less
    case "<=" => LessEqual
    case ">" => Greater
    case ">=" => GreaterEqual
    case "+" => Plus
    case "-" => Minus
    case _ => Unknown
  }

  /** Column references are qualified names: `wp.subject`. */
  function Classify(token: Token): Terminal {
    match token
    case Lit(text) => Str(text)
    case Sym(text) => Symbol(text)
    case Word(text) =>
      if IsNumeralText(text) then Numeral(text)
      else if '.' in text then Column(text)
      else Keyword(text)
  }

  function ClassifyAll(tokens: seq<Token>): seq<Terminal> {
    seq(|tokens|, i requires 0 <= i < |tokens| => Classify(tokens[i]))
  }

  function Scan(sql: string): Option<seq<Terminal>> {
    match Lex(sql)
    case Some(tokens) => Some(ClassifyAll(tokens))
    case None => None
  }

  // ---------- abstract syntax ----------

  /** What a column is compared with. */
  datatype Operand =
    | Text(text: string)
    | Integer(n: int)
    | Fraction(negative: bool, digits: string)
    | Boolean(b: bool)
    | Day(offset: int)
    | WeekStart
    | NextWeekStart

  datatype Comparison = Eq | Ne | Lt | Le | Gt | Ge

  datatype Cond =
    | Never
    | Compare(column: string, op: Comparison, operand: Operand)
    | In(column: string, operands: seq<Operand>)
    | NotIn(column: string, operands: seq<Operand>)
    | Like(column: string, items: seq<PatternItem>)
    | NotLike(column: string, items: seq<PatternItem>)
    | Between(column: string, low: Operand, high: Operand)
    | Null(column: string)
    | NotNull(column: string)

  type Parse<T> = Option<(T, seq<Terminal>)>

  function NumberOperand(negative: bool, digits: string): Operand {
    if AllDigits(digits) then Integer(if negative then 0 - DigitsValue(digits) else DigitsValue(digits))
    else Fraction(negative, digits)
  }

  const DAYS := " days"

  /** The n of `n days`. */
  function ParseDays(s: string): Option<int> {
    if |s| > |DAYS| && s[|s| - |DAYS|..] == DAYS then ParseInt(s[..|s| - |DAYS|]) else None
  }

  const WEEK_START := [KwDateTrunc, LParen, Str("week"), Comma, KwCurrentDate, RParen]
  const ONE_WEEK := [Plus, KwInterval, Str("1 week")]

  function ParseOperand(ts: seq<Terminal>): (r: Parse<Operand>)
    ensures r.Some? ==> |r.value.1| < |ts|
  {
    if ts == [] then None
    else
      match ts[0]
      case Str(text) => Some((Text(text), ts[1..]))
      case Numeral(digits) => Some((NumberOperand(false, digits), ts[1..]))
      case Minus =>
        if |ts| > 1 && ts[1].Numeral? then Some((NumberOperand(true, ts[1].digits), ts[2..])) else None
      case KwTrue => Some((Boolean(true), ts[1..]))
      case KwFalse => Some((Boolean(false), ts[1..]))
      case KwCurrentDate =>
        if |ts| > 1 && (ts[1].Plus? || ts[1].Minus?) then
          if |ts| > 3 && ts[2].KwInterval? && ts[3].Str? && ParseDays(ts[3].text).Some? then
            var n := ParseDays(ts[3].text).value;
            Some((Day(if ts[1].Plus? then n else -n), ts[4..]))
          else None
        else Some((Day(0), ts[1..]))
      case KwDateTrunc =>
        if |ts| >= 6 && ts[..6] == WEEK_START then
          if |ts| >= 9 && ts[6..9] == ONE_WEEK then Some((NextWeekStart, ts[9..]))
          else Some((WeekStart, ts[6..]))
        else None
      case _ => None
  }

  /** The rest of a parenthesised list: at least one operand, separated by commas. */
  function ParseList(ts: seq<Terminal>): (r: Parse<seq<Operand>>)
    ensures r.Some? ==> |r.value.1| < |ts|
    decreases |ts|
  {
    match ParseOperand(ts)
    case None => None
    case Some((operand, rest)) =>
      if rest == [] then None
      else if rest[0].RParen? then Some(([operand], rest[1..]))
      else if rest[0].Comma? then
        match ParseList(rest[1..])
        case None => None
        case Some((operands, after)) => Some(([operand] + operands, after))
      else None
  }

  function ComparisonOf(t: Terminal): Option<Comparison> {
    match t
    case Equal => Some(Eq)
    case NotEqual => Some(Ne)
    case Less => Some(Lt)
    case LessEqual => Some(Le)
    case Greater => Some(Gt)
    case GreaterEqual => Some(Ge)
    case _ => None
  }

  /** A string literal that is a well-formed pattern. */
  function ParsePattern(ts: seq<Terminal>): (r: Parse<seq<PatternItem>>)
    ensures r.Some? ==> |r.value.1| < |ts|
  {
    if ts != [] && ts[0].Str? && DecodePattern(ts[0].text).Some?
    then Some((DecodePattern(ts[0].text).value, ts[1..]))
    else None
  }

  function ParseBetween(column: string, ts: seq<Terminal>): (r: Parse<Cond>)
    ensures r.Some? ==> |r.value.1| < |ts|
  {
    match ParseOperand(ts)
    case None => None
    case Some((low, rest)) =>
      if rest == [] || !rest[0].KwAnd? then None
      else
        match ParseOperand(rest[1..])
        case None => None
        case Some((high, after)) => Some((Between(column, low, high), after))
  }

  /** What may follow a column name. */
  function ParsePredicate(column: string, ts: seq<Terminal>): (r: Parse<Cond>)
    ensures r.Some? ==> |r.value.1| < |ts|
  {
    if ts == [] then None
    else if ComparisonOf(ts[0]).Some? then
      match ParseOperand(ts[1..])
      case None => None
      case Some((operand, rest)) => Some((Compare(column, ComparisonOf(ts[0]).value, operand), rest))
    else if |ts| == 1 then None
    else if ts[0].KwIn? && ts[1].LParen? then
      match ParseList(ts[2..])
      case None => None
      case Some((operands, rest)) => Some((In(column, operands), rest))
    else if ts[0].KwILike? then
      match ParsePattern(ts[1..])
      case None => None
      case Some((items, rest)) => Some((Like(column, items), rest))
    else if ts[0].KwBetween? then ParseBetween(column, ts[1..])
    else if ts[0].KwIs? && ts[1].KwNull? then Some((Null(column), ts[2..]))
    else if ts[0].KwIs? && ts[1].KwNot? && |ts| > 2 && ts[2].KwNull? then Some((NotNull(column), ts[3..]))
    else if ts[0].KwNot? && ts[1].KwIn? && |ts| > 2 && ts[2].LParen? then
      match ParseList(ts[3..])
      case None => None
      case Some((operands, rest)) => Some((NotIn(column, operands), rest))
    else if ts[0].KwNot? && ts[1].KwILike? then
      match ParsePattern(ts[2..])
      case None => None
      case Some((items, rest)) => Some((NotLike(column, items), rest))
    else None
  }

  const NEVER := [Numeral("1"), Equal, Numeral("0")]

  function ParseCond(ts: seq<Terminal>): (r: Parse<Cond>)
    ensures r.Some? ==> |r.value.1| < |ts|
  {
    if |ts| >= 3 && ts[..3] == NEVER then Some((Never, ts[3..]))
    else if ts != [] && ts[0].Column? then ParsePredicate(ts[0].name, ts[1..])
    else None
  }

  /** A search condition: alternatives joined by OR, each of which is a list of conditions joined by AND. */
  type Search = seq<seq<Cond>>

  predicate IsConnective(t: Terminal) {
    t.KwAnd? || t.KwOr?
  }

  /** Conditions, a connective, and what was read after it. AND binds tighter than OR, so it adds the conditions to the
      first alternative only. */
  function Connect(conds: seq<Cond>, connective: Terminal, more: Option<Search>): Option<Search> {
    match more
    case None => None
    case Some(search) =>
      if search == [] then None
      else if connective.KwAnd? then Some([conds + search[0]] + search[1..])
      else Some([conds] + search)
  }

  function ParseSearch(ts: seq<Terminal>): (r: Option<Search>)
    ensures r.Some? ==> r.value != []
    decreases |ts|
  {
    match ParseCond(ts)
    case None => None
    case Some((cond, rest)) =>
      if rest == [] then Some([[cond]])
      else if IsConnective(rest[0]) then Connect([cond], rest[0], ParseSearch(rest[1..]))
      else None
  }

  // ---------- meaning ----------

  datatype Truth = True | False | Unknown3

  function And(a: Truth, b: Truth): Truth {
    if a == False || b == False then False
    else if a == True && b == True then True
    else Unknown3
  }

  function Not(a: Truth): Truth {
    match a
    case True => False
    case False => True
    case Unknown3 => Unknown3
  }

  function Or(a: Truth, b: Truth): Truth {
    Not(And(Not(a), Not(b)))
  }

  /** What the database contributes: how a column's value compares with an operand (negative, zero or
      positive), and how ILIKE folds characters. */
  datatype Database = Database(cmp: (string, Operand) -> int, fold: Fold)

  /** The value of each column in a row, None standing for NULL. */
  type Row = string -> Option<string>

  predicate Satisfies(op: Comparison, sign: int) {
    match op
    case Eq => sign == 0
    case Ne => sign != 0
    case Lt => sign < 0
    case Le => sign <= 0
    case Gt => sign > 0
    case Ge => sign >= 0
  }

  function Known(b: bool): Truth {
    if b then True else False
  }

  function Compared(db: Database, row: Row, column: string, op: Comparison, operand: Operand): Truth {
    match row(column)
    case None => Unknown3
    case Some(cell) => Known(Satisfies(op, db.cmp(cell, operand)))
  }

  /** IN is the disjunction of equalities. */
  function AnyEqual(db: Database, row: Row, column: string, operands: seq<Operand>): Truth {
    if operands == [] then False
    else Or(Compared(db, row, column, Eq, operands[0]), AnyEqual(db, row, column, operands[1..]))
  }

  ghost function Liked(db: Database, row: Row, column: string, items: seq<PatternItem>): Truth {
    match row(column)
    case None => Unknown3
    case Some(cell) => Known(Matches(db.fold, items, cell))
  }

  ghost function Eval(db: Database, row: Row, cond: Cond): Truth {
    match cond
    case Never => False
    case Compare(column, op, operand) => Compared(db, row, column, op, operand)
    case In(column, operands) => AnyEqual(db, row, column, operands)
    case NotIn(column, operands) => Not(AnyEqual(db, row, column, operands))
    case Like(column, items) => Liked(db, row, column, items)
    case NotLike(column, items) => Not(Liked(db, row, column, items))
    case Between(column, low, high) =>
      And(Compared(db, row, column, Ge, low), Compared(db, row, column, Le, high))
    case Null(column) => Known(row(column).None?)
    case NotNull(column) => Known(row(column).Some?)
  }

  ghost function EvalAll(db: Database, row: Row, conds: seq<Cond>): Truth {
    if conds == [] then True else And(Eval(db, row, conds[0]), EvalAll(db, row, conds[1..]))
  }

  ghost function EvalSearch(db: Database, row: Row, search: Search): Truth {
    if search == [] then False else Or(EvalAll(db, row, search[0]), EvalSearch(db, row, search[1..]))
  }

  /** A search condition is true when one alternative is. */
  lemma {:induction false} EvalSearchTrueIff(db: Database, row: Row, search: Search)
    ensures EvalSearch(db, row, search) == True
            <==> exists conds :: conds in search && EvalAll(db, row, conds) == True
  {
    hide EvalAll;
    if search != [] {
      EvalSearchTrueIff(db, row, search[1..]);
      assert forall conds :: conds in search <==> conds == search[0] || conds in search[1..];
      var head, tail := EvalAll(db, row, search[0]), EvalSearch(db, row, search[1..]);
      assert Or(head, tail) == True <==> head == True || tail == True;
      assert tail == True <==> exists conds :: conds in search[1..] && EvalAll(db, row, conds) == True;
    }
  }

  lemma {:induction false} EvalAllTrueIff(db: Database, row: Row, conds: seq<Cond>)
    ensures EvalAll(db, row, conds) == True <==> forall c :: c in conds ==> Eval(db, row, c) == True
  {
    if conds != [] {
      EvalAllTrueIff(db, row, conds[1..]);
      assert conds == [conds[0]] + conds[1..];
    }
  }

  lemma {:induction false} AnyEqualMeans(db: Database, row: Row, column: string, operands: seq<Operand>)
    requires operands != []
    ensures row(column).None? ==> AnyEqual(db, row, column, operands) == Unknown3
    ensures row(column).Some? ==>
              AnyEqual(db, row, column, operands)
              == Known(exists o :: o in operands && db.cmp(row(column).value, o) == 0)
  {
    assert operands == [operands[0]] + operands[1..];
    if |operands| > 1 {
      AnyEqualMeans(db, row, column, operands[1..]);
    }
  }

  // ---------- scanning ----------

  /** Scanning, like lexing, is compositional at spaces and punctuation. */
  lemma ScanSplit(a: string, c: char, b: string)
    requires IsBreak(c) && Scan(a).Some? && Scan(b).Some?
    ensures Scan(a + [c] + b) == Some(Scan(a).value + ClassifyAll(BreakTokens(c)) + Scan(b).value)
  {
    LexSplit(a, c, b);
    var left, middle, right := Lex(a).value, BreakTokens(c), Lex(b).value;
    assert ClassifyAll(left + middle + right) == ClassifyAll(left) + ClassifyAll(middle) + ClassifyAll(right);
  }

  lemma ScanSpace(a: string, b: string)
    requires Scan(a).Some? && Scan(b).Some?
    ensures Scan(a + " " + b) == Some(Scan(a).value + Scan(b).value)
  {
    ScanSplit(a, ' ', b);
    assert Scan(a).value + ClassifyAll(BreakTokens(' ')) + Scan(b).value == Scan(a).value + Scan(b).value;
  }

  lemma ScanMark(a: string, c: char, b: string)
    requires IsPunctuation(c) && Scan(a).Some? && Scan(b).Some?
    ensures Scan(a + [c] + b) == Some(Scan(a).value + [Symbol([c])] + Scan(b).value)
  {
    ScanSplit(a, c, b);
    assert ClassifyAll(BreakTokens(c)) == [Symbol([c])];
  }

  lemma ScanEmpty()
    ensures Scan("") == Some([])
  {
    assert Read(Idle, "") == Reading([], Idle);
    assert Lex("").value == [] && Scan("").value == [];
  }

  lemma ScanWord(w: string)
    requires w != "" && IsWordText(w)
    ensures Scan(w) == Some([Classify(Word(w))])
  {
    LexWord(w);
    assert ClassifyAll([Word(w)]) == [Classify(Word(w))];
  }

  lemma ScanQuoted(s: string)
    ensures Scan(Quote(s)) == Some([Str(s)])
  {
    LexQuoted(s);
    assert ClassifyAll([Lit(s)]) == [Str(s)];
  }

  /** How a number is printed, and which terminals its text gives. */
  function NumberText(negative: bool, digits: string): string {
    if negative then "-" + digits else digits
  }

  function NumberTerminals(negative: bool, digits: string): seq<Terminal> {
    if negative then [Minus, Numeral(digits)] else [Numeral(digits)]
  }

  lemma ScanNumber(negative: bool, digits: string)
    requires IsNumeralText(digits)
    ensures Scan(NumberText(negative, digits)) == Some(NumberTerminals(negative, digits))
  {
    if negative {
      LexNegative(digits);
      assert ClassifyAll([Sym("-"), Word(digits)]) == [Minus, Numeral(digits)];
    } else {
      ScanWord(digits);
    }
  }
}
