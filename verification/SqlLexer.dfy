/** The lexical level of SQL text, as far as the query printer uses it: words, string literals
    (section 5.3 of ISO/IEC 9075-2, with standard_conforming_strings on, so that a backslash is
    an ordinary character) and symbols. The lexer is an automaton that reads one character at a time. */
module SqlLexer {
  import opened Wrappers
  import opened Strings

  datatype Token =
    | Word(text: string)
    | Lit(text: string)
    | Sym(text: string)

  /** Where the automaton is. `AfterQuote` has seen a quote inside a literal and does not know yet
      whether it ends the literal or is the first half of a doubled one. */
  datatype Mode =
    | Idle
    | InWord(text: string)
    | InLit(text: string)
    | AfterQuote(text: string)
    | InOp(c: char)
    | Bad

  datatype Reading = Reading(tokens: seq<Token>, mode: Mode)

  predicate IsWordChar(c: char) {
    'a' <= c <= 'z' || 'A' <= c <= 'Z' || IsDigit(c) || c == '_' || c == '.'
  }

  /** A symbol that ends whatever stands before it and combines with nothing after it. */
  predicate IsPunctuation(c: char) {
    c == '(' || c == ')' || c == ','
  }

  predicate IsOpStart(c: char) {
    c == '!' || c == '<' || c == '>' || c == '-'
  }

  function Start(c: char): Reading {
    if c == ' ' then Reading([], Idle)
    else if IsWordChar(c) then Reading([], InWord([c]))
    else if c == '\'' then Reading([], InLit(""))
    else if IsOpStart(c) then Reading([], InOp(c))
    else if IsPunctuation(c) || c == '=' || c == '+' then Reading([Sym([c])], Idle)
    else Reading([], Bad)
  }

  function After(token: Token, c: char): Reading {
    Reading([token] + Start(c).tokens, Start(c).mode)
  }

  /** A quote glued to a word would make it a prefixed literal such as E'..', and two dashes start a
      comment; neither is supported. */
  function ReadChar(mode: Mode, c: char): Reading {
    match mode
    case Idle => Start(c)
    case InWord(text) =>
      if IsWordChar(c) then Reading([], InWord(text + [c]))
      else if c == '\'' then Reading([], Bad)
      else After(Word(text), c)
    case InLit(text) =>
      if c == '\'' then Reading([], AfterQuote(text)) else Reading([], InLit(text + [c]))
    case AfterQuote(text) =>
      if c == '\'' then Reading([], InLit(text + [c])) else After(Lit(text), c)
    case InOp(o) =>
      if o == '-' && c == '-' then Reading([], Bad)
      else if o != '-' && c == '=' then Reading([Sym([o, c])], Idle)
      else After(Sym([o]), c)
    case Bad => Reading([], Bad)
  }

  function Read(mode: Mode, s: string): Reading
    decreases |s|
  {
    if s == "" then Reading([], mode)
    else
      var first := ReadChar(mode, s[0]);
      var rest := Read(first.mode, s[1..]);
      Reading(first.tokens + rest.tokens, rest.mode)
  }

  /** What is still pending when the text ends. A text must not end inside a literal. */
  function Pending(mode: Mode): Option<seq<Token>> {
    match mode
    case Idle => Some([])
    case InWord(text) => Some([Word(text)])
    case AfterQuote(text) => Some([Lit(text)])
    case InOp(c) => Some([Sym([c])])
    case InLit(_) => None
    case Bad => None
  }

  function Lex(s: string): Option<seq<Token>> {
    var all := Read(Idle, s);
    match Pending(all.mode)
    case Some(tokens) => Some(all.tokens + tokens)
    case None => None
  }

  /** A text in single quotes, with the quotes inside it doubled. */
  function Quote(s: string): string {
    "'" + EscapeString(s) + "'"
  }

  function EscapeString(s: string): string {
    ReplaceChar(s, '\'', "''")
  }

  lemma {:induction false} ReadConcat(mode: Mode, a: string, b: string)
    ensures var first := Read(mode, a);
            Read(mode, a + b) == Reading(first.tokens + Read(first.mode, b).tokens, Read(first.mode, b).mode)
    decreases |a|
  {
    hide ReadChar;
    if a == "" {
      assert a + b == b;
    } else {
      var first := ReadChar(mode, a[0]);
      var left := Read(first.mode, a[1..]);
      var right := Read(left.mode, b);
      ReadConcat(first.mode, a[1..], b);
      assert (a + b)[0] == a[0] && (a + b)[1..] == a[1..] + b;
      assert first.tokens + (left.tokens + right.tokens) == first.tokens + left.tokens + right.tokens;
    }
  }

  lemma ReadOne(mode: Mode, c: char)
    ensures Read(mode, [c]) == ReadChar(mode, c)
  {
    assert [c][1..] == "";
  }

  predicate IsBreak(c: char) {
    c == ' ' || IsPunctuation(c)
  }

  function BreakTokens(c: char): seq<Token> {
    if c == ' ' then [] else [Sym([c])]
  }

  lemma ReadBreak(mode: Mode, c: char)
    requires IsBreak(c) && Pending(mode).Some?
    ensures ReadChar(mode, c).mode == Idle
    ensures ReadChar(mode, c).tokens == Pending(mode).value + BreakTokens(c)
  {
  }

  lemma ReadUpToBreak(a: string, c: char)
    requires IsBreak(c) && Lex(a).Some?
    ensures Read(Idle, a + [c]) == Reading(Lex(a).value + BreakTokens(c), Idle)
  {
    var left := Read(Idle, a);
    assert Pending(left.mode).Some?;
    ReadBreak(left.mode, c);
    ReadOne(left.mode, c);
    ReadConcat(Idle, a, [c]);
    assert left.tokens + (Pending(left.mode).value + BreakTokens(c)) == Lex(a).value + BreakTokens(c);
  }

  /** Reading is compositional at a space or a punctuation mark, whatever stands on either side. */
  lemma LexSplit(a: string, c: char, b: string)
    requires IsBreak(c)
    requires Lex(a).Some? && Lex(b).Some?
    ensures Lex(a + [c] + b) == Some(Lex(a).value + BreakTokens(c) + Lex(b).value)
  {
    ReadUpToBreak(a, c);
    ReadConcat(Idle, a + [c], b);
    var left, right := Lex(a).value + BreakTokens(c), Read(Idle, b);
    assert Lex(b) == Some(right.tokens + Pending(right.mode).value);
    assert left + right.tokens + Pending(right.mode).value == left + (right.tokens + Pending(right.mode).value);
  }

  /** A character that completes no token only moves the automaton on. */
  lemma ReadSilent(mode: Mode, s: string)
    requires s != "" && ReadChar(mode, s[0]).tokens == []
    ensures Read(mode, s) == Read(ReadChar(mode, s[0]).mode, s[1..])
  {
    var rest := Read(ReadChar(mode, s[0]).mode, s[1..]);
    assert [] + rest.tokens == rest.tokens;
  }

  predicate IsWordText(s: string) {
    forall i :: 0 <= i < |s| ==> IsWordChar(s[i])
  }

  lemma {:induction false} ReadWord(text: string, s: string)
    requires IsWordText(s)
    ensures Read(InWord(text), s) == Reading([], InWord(text + s))
    decreases |s|
  {
    if s == "" {
      assert text + s == text;
    } else {
      ReadWord(text + [s[0]], s[1..]);
      assert text + [s[0]] + s[1..] == text + s;
    }
  }

  lemma LexWord(s: string)
    requires s != "" && IsWordText(s)
    ensures Lex(s) == Some([Word(s)])
  {
    ReadSilent(Idle, s);
    ReadWord([s[0]], s[1..]);
    assert [s[0]] + s[1..] == s;
    assert Lex(s).value == [Word(s)];
  }

  lemma LexNegative(s: string)
    requires s != "" && IsWordText(s)
    ensures Lex("-" + s) == Some([Sym("-"), Word(s)])
  {
    var dashed := "-" + s;
    ReadSilent(Idle, dashed);
    assert dashed[1..] == s;
    assert ReadChar(InOp('-'), s[0]) == After(Sym("-"), s[0]);
    ReadWord([s[0]], s[1..]);
    assert [s[0]] + s[1..] == s;
    assert Read(InOp('-'), s).tokens == [Sym("-")];
    assert Lex(dashed).value == [Sym("-"), Word(s)];
  }

  lemma {:induction false} ReadEscaped(text: string, s: string)
    ensures Read(InLit(text), EscapeString(s)) == Reading([], InLit(text + s))
    decreases |s|
  {
    if s == "" {
      assert text + s == text;
    } else {
      var head := if s[0] == '\'' then "''" else [s[0]];
      assert EscapeString(s) == head + EscapeString(s[1..]);
      assert Read(InLit(text), head) == Reading([], InLit(text + [s[0]])) by {
        if s[0] == '\'' {
          assert head[1..] == "'";
          ReadOne(AfterQuote(text), '\'');
        } else {
          ReadOne(InLit(text), s[0]);
        }
      }
      ReadConcat(InLit(text), head, EscapeString(s[1..]));
      ReadEscaped(text + [s[0]], s[1..]);
      assert text + [s[0]] + s[1..] == text + s;
    }
  }

  /** An escaped text in quotes is read back as one literal holding exactly that text: no
      character in it can end the literal early. */
  lemma LexQuoted(s: string)
    ensures Lex(Quote(s)) == Some([Lit(s)])
  {
    assert Quote(s) == "'" + (EscapeString(s) + "'");
    assert Quote(s)[1..] == EscapeString(s) + "'";
    ReadSilent(Idle, Quote(s));
    ReadEscaped("", s);
    assert "" + s == s;
    ReadConcat(InLit(""), EscapeString(s), "'");
    ReadOne(InLit(s), '\'');
    assert Lex(Quote(s)).value == [Lit(s)];
  }

  lemma {:induction false} EscapeWithoutQuotes(s: string)
    requires '\'' !in s
    ensures EscapeString(s) == s
  {
    if s != "" {
      EscapeWithoutQuotes(s[1..]);
    }
  }

  /** What the first literal holds when reading starts just inside it: everything up to the first quote
      that is not doubled. */
  function FirstLiteral(s: string): Option<string> {
    if s == "" then None
    else if s[0] != '\'' then
      match FirstLiteral(s[1..])
      case Some(text) => Some([s[0]] + text)
      case None => None
    else if |s| > 1 && s[1] == '\'' then
      match FirstLiteral(s[2..])
      case Some(text) => Some("'" + text)
      case None => None
    else Some("")
  }

  lemma {:induction false} ReadFirst(text: string, s: string)
    ensures var all := Read(InLit(text), s);
            match FirstLiteral(s)
            case None => all.mode.InLit?
            case Some(rest) =>
              Pending(all.mode).Some? ==> [Lit(text + rest)] <= all.tokens + Pending(all.mode).value
    decreases |s|
  {
    if s == "" {
    } else if s[0] != '\'' {
      ReadSilent(InLit(text), s);
      ReadFirst(text + [s[0]], s[1..]);
      if FirstLiteral(s).Some? {
        assert text + [s[0]] + FirstLiteral(s[1..]).value == text + FirstLiteral(s).value;
      }
    } else {
      ReadSilent(InLit(text), s);
      if |s| == 1 {
        assert text + "" == text;
      } else {
        assert s[1..][0] == s[1] && s[1..][1..] == s[2..];
        if s[1] == '\'' {
          ReadSilent(AfterQuote(text), s[1..]);
          ReadFirst(text + "'", s[2..]);
          if FirstLiteral(s).Some? {
            assert text + "'" + FirstLiteral(s[2..]).value == text + FirstLiteral(s).value;
          }
        } else {
          assert text + "" == text;
          assert ReadChar(AfterQuote(text), s[1]) == After(Lit(text), s[1]);
        }
      }
    }
  }

  function Quotes(n: nat): string {
    seq(n, _ => '\'')
  }

  /** A text with a quote in it is not what a literal holds that has been printed around it as it is. Each doubled
      quote makes what is read lag behind the text by one more quote; `n` counts them. */
  lemma {:induction false} NeverTheText(s: string, n: nat, tail: string)
    requires n > 0 || '\'' in s
    requires tail == "" || tail[0] != '\''
    ensures FirstLiteral(s + "'" + tail) != Some(Quotes(n) + s)
    decreases |s|
  {
    var text, whole := s + "'" + tail, Quotes(n) + s;
    if s == "" {
      assert text[0] == '\'' && (|text| > 1 ==> text[1] == tail[0]);
      assert |whole| == n;
    } else if s[0] != '\'' {
      assert text[1..] == s[1..] + "'" + tail;
      if n == 0 {
        NeverTheText(s[1..], 0, tail);
        assert whole[1..] == Quotes(0) + s[1..];
        assert FirstLiteral(text).Some? ==> FirstLiteral(text).value[1..] == FirstLiteral(text[1..]).value;
      } else {
        assert whole[0] == '\'';
      }
    } else if |s| == 1 {
      assert text[1] == '\'' && text[2..] == tail;
      assert whole == "'" + Quotes(n);
    } else {
      assert text[1] == s[1] && text[2..] == s[2..] + "'" + tail;
      if s[1] == '\'' {
        NeverTheText(s[2..], n + 1, tail);
        assert whole[1..] == Quotes(n + 1) + s[2..];
        assert FirstLiteral(text).Some? ==> FirstLiteral(text).value[1..] == FirstLiteral(text[2..]).value;
      }
    }
  }

  /** A text with a quote in it, put between quotes as it is, is not the first literal read, whatever follows. */
  lemma UnescapedIsMisread(s: string, tail: string)
    requires '\'' in s
    requires tail == "" || tail[0] != '\''
    ensures var tokens := Lex("'" + s + "'" + tail);
            tokens.Some? ==> tokens.value != [] && tokens.value[0].Lit? && tokens.value[0].text != s
  {
    var text := "'" + s + "'" + tail;
    assert text[1..] == s + "'" + tail;
    ReadSilent(Idle, text);
    ReadFirst("", text[1..]);
    NeverTheText(s, 0, tail);
    assert Quotes(0) + s == s;
    if FirstLiteral(text[1..]).Some? {
      assert "" + FirstLiteral(text[1..]).value == FirstLiteral(text[1..]).value;
    }
  }

  /** A text put between quotes as it is, which is what the printer does with dates, is read back as
      that text exactly when it has no quote in it. */
  lemma UnescapedLiteralIff(s: string)
    ensures Lex("'" + s + "'") == Some([Lit(s)]) <==> '\'' !in s
  {
    if '\'' !in s {
      EscapeWithoutQuotes(s);
      LexQuoted(s);
    } else {
      UnescapedIsMisread(s, "");
      assert "'" + s + "'" + "" == "'" + s + "'";
    }
  }
}
