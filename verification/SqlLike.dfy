/** LIKE patterns with the backslash as escape character (section 8.5 of ISO/IEC 9075-2), matched
    up to a folding of characters as PostgreSQL's ILIKE does, and the escaping that protects them. */
module SqlLike {
  import opened Wrappers
  import opened Strings
  import opened SqlLexer

  datatype PatternItem = AnyText | AnyChar | Exactly(c: char)

  type Fold = char -> char

  predicate IsSpecial(c: char) {
    c == '\\' || c == '%' || c == '_'
  }

  /** Reads a pattern. An escape character must be followed by one that needs it. */
  function DecodePattern(p: string): Option<seq<PatternItem>> {
    if p == "" then Some([])
    else if p[0] == '\\' then
      if |p| > 1 && IsSpecial(p[1]) then Prepend(Exactly(p[1]), DecodePattern(p[2..])) else None
    else
      Prepend(if p[0] == '%' then AnyText else if p[0] == '_' then AnyChar else Exactly(p[0]), DecodePattern(p[1..]))
  }

  function Prepend<T>(head: T, tail: Option<seq<T>>): Option<seq<T>> {
    match tail
    case Some(items) => Some([head] + items)
    case None => None
  }

  ghost predicate Matches(fold: Fold, items: seq<PatternItem>, t: string)
    decreases |items|
  {
    if items == [] then t == ""
    else
      match items[0]
      case AnyText => exists k :: 0 <= k <= |t| && Matches(fold, items[1..], t[k..])
      case AnyChar => t != "" && Matches(fold, items[1..], t[1..])
      case Exactly(c) => t != "" && fold(c) == fold(t[0]) && Matches(fold, items[1..], t[1..])
  }

  // ---------- what the filters promise ----------

  ghost predicate SameText(fold: Fold, a: string, b: string) {
    |a| == |b| && forall i :: 0 <= i < |a| ==> fold(a[i]) == fold(b[i])
  }

  ghost predicate HasPrefix(fold: Fold, s: string, t: string) {
    |s| <= |t| && SameText(fold, s, t[..|s|])
  }

  ghost predicate HasSuffix(fold: Fold, s: string, t: string) {
    |s| <= |t| && SameText(fold, s, t[|t| - |s|..])
  }

  ghost predicate HasSubstring(fold: Fold, s: string, t: string) {
    exists k :: 0 <= k <= |t| && HasPrefix(fold, s, t[k..])
  }

  // ---------- the escaping ----------

  /** The first three of the four replacements, which concern the pattern. */
  function EscapePattern(s: string): string {
    ReplaceChar(ReplaceChar(ReplaceChar(s, '\\', "\\\\"), '%', "\\%"), '_', "\\_")
  }

  /** All four replacements; the last one is that of string literals. */
  function EscapeLike(s: string): string {
    ReplaceChar(ReplaceChar(ReplaceChar(ReplaceChar(s, '\\', "\\\\"), '%', "\\%"), '_', "\\_"), '\'', "''")
  }

  /** Each character on its own: a special one gets a backslash, the others stay. */
  function EscapeEach(s: string): string {
    if s == "" then ""
    else (if IsSpecial(s[0]) then ['\\', s[0]] else [s[0]]) + EscapeEach(s[1..])
  }

  lemma EscapePatternHead(c: char)
    ensures EscapePattern([c]) == if IsSpecial(c) then ['\\', c] else [c]
  {
    ReplaceCharOne([c], '\\', "\\\\");
    if c == '\\' {
      ReplaceCharTwo("\\\\", '%', "\\%");
      ReplaceCharTwo("\\\\", '_', "\\_");
    } else {
      ReplaceCharOne([c], '%', "\\%");
      ReplaceCharTwo("\\%", '_', "\\_");
      ReplaceCharOne([c], '_', "\\_");
    }
  }

  /** The successive replacements do not disturb each other: no backslash that one of them
      introduces is escaped again by a later one. */
  lemma {:induction false} ReplacementsAreIndependent(s: string)
    ensures EscapePattern(s) == EscapeEach(s)
  {
    if s != "" {
      assert s == [s[0]] + s[1..];
      ReplaceCharConcat([s[0]], s[1..], '\\', "\\\\");
      ReplaceCharConcat(ReplaceChar([s[0]], '\\', "\\\\"), ReplaceChar(s[1..], '\\', "\\\\"), '%', "\\%");
      ReplaceCharConcat(
        ReplaceChar(ReplaceChar([s[0]], '\\', "\\\\"), '%', "\\%"),
        ReplaceChar(ReplaceChar(s[1..], '\\', "\\\\"), '%', "\\%"), '_', "\\_");
      assert EscapePattern(s) == EscapePattern([s[0]]) + EscapePattern(s[1..]);
      EscapePatternHead(s[0]);
      ReplacementsAreIndependent(s[1..]);
    }
  }

  /** The pattern items that stand for a text itself. */
  function Literally(s: string): seq<PatternItem> {
    seq(|s|, i requires 0 <= i < |s| => Exactly(s[i]))
  }

  lemma DecodeHead(c: char, tail: string)
    ensures DecodePattern((if IsSpecial(c) then ['\\', c] else [c]) + tail) == Prepend(Exactly(c), DecodePattern(tail))
  {
    if IsSpecial(c) {
      assert (['\\', c] + tail)[2..] == tail;
    } else {
      assert ([c] + tail)[1..] == tail;
    }
  }

  /** Escaped text contributes only its own characters to a pattern: no live wildcard, no stray escape. */
  lemma {:induction false} DecodeEscaped(s: string, rest: string)
    requires DecodePattern(rest).Some?
    ensures DecodePattern(EscapeEach(s) + rest) == Some(Literally(s) + DecodePattern(rest).value)
  {
    hide DecodePattern;
    var items := DecodePattern(rest).value;
    if s == "" {
      assert EscapeEach(s) + rest == rest;
      assert Literally(s) + items == items;
    } else {
      DecodeEscaped(s[1..], rest);
      DecodeHead(s[0], EscapeEach(s[1..]) + rest);
      var head := if IsSpecial(s[0]) then ['\\', s[0]] else [s[0]];
      assert EscapeEach(s) + rest == head + (EscapeEach(s[1..]) + rest);
      assert [Exactly(s[0])] + (Literally(s[1..]) + items) == Literally(s) + items;
    }
  }

  lemma {:induction false} MatchLiterally(fold: Fold, s: string, tail: seq<PatternItem>, t: string)
    ensures Matches(fold, Literally(s) + tail, t)
            <==> HasPrefix(fold, s, t) && Matches(fold, tail, t[|s|..])
    decreases |s|
  {
    var items := Literally(s) + tail;
    if s == "" {
      assert items == tail && t[0..] == t;
    } else {
      assert items[1..] == Literally(s[1..]) + tail;
      if t != "" {
        MatchLiterally(fold, s[1..], tail, t[1..]);
        if |s| <= |t| {
          assert t[1..][|s| - 1..] == t[|s|..];
          assert t[1..][..|s| - 1] == t[..|s|][1..];
          assert HasPrefix(fold, s, t) <==> fold(s[0]) == fold(t[0]) && HasPrefix(fold, s[1..], t[1..]) by {
            if fold(s[0]) == fold(t[0]) && HasPrefix(fold, s[1..], t[1..]) {
              forall i | 0 <= i < |s|
                ensures fold(s[i]) == fold(t[..|s|][i])
              {
                if i > 0 {
                  assert fold(s[1..][i - 1]) == fold(t[1..][..|s| - 1][i - 1]);
                }
              }
            }
          }
        }
      }
    }
  }

  lemma MatchAnything(fold: Fold, t: string)
    ensures Matches(fold, [AnyText], t)
  {
    assert [AnyText][1..] == [];
    assert t[|t|..] == "";
    assert Matches(fold, [AnyText][1..], t[|t|..]);
  }

  /** `%s%` matches the texts that contain s. */
  lemma MatchContains(fold: Fold, s: string, t: string)
    ensures Matches(fold, [AnyText] + Literally(s) + [AnyText], t) <==> HasSubstring(fold, s, t)
  {
    var items := [AnyText] + Literally(s) + [AnyText];
    assert items[1..] == Literally(s) + [AnyText];
    forall k | 0 <= k <= |t|
      ensures Matches(fold, items[1..], t[k..]) <==> HasPrefix(fold, s, t[k..])
    {
      MatchLiterally(fold, s, [AnyText], t[k..]);
      if |s| <= |t[k..]| {
        MatchAnything(fold, t[k..][|s|..]);
      }
    }
  }

  /** `s%` matches the texts that start with s. */
  lemma MatchStartsWith(fold: Fold, s: string, t: string)
    ensures Matches(fold, Literally(s) + [AnyText], t) <==> HasPrefix(fold, s, t)
  {
    MatchLiterally(fold, s, [AnyText], t);
    if |s| <= |t| {
      MatchAnything(fold, t[|s|..]);
    }
  }

  /** `%s` matches the texts that end with s. */
  lemma MatchEndsWith(fold: Fold, s: string, t: string)
    ensures Matches(fold, [AnyText] + Literally(s), t) <==> HasSuffix(fold, s, t)
  {
    var items := [AnyText] + Literally(s);
    assert items[1..] == Literally(s) == Literally(s) + [];
    forall k | 0 <= k <= |t|
      ensures Matches(fold, items[1..], t[k..]) <==> HasPrefix(fold, s, t[k..]) && |t| - k == |s|
    {
      MatchLiterally(fold, s, [], t[k..]);
    }
    if |s| <= |t| {
      var k := |t| - |s|;
      assert t[k..][..|s|] == t[k..];
      assert HasSuffix(fold, s, t) <==> HasPrefix(fold, s, t[k..]);
    }
  }

  /** Decoding what the printer emits, first as a literal, then as a pattern. */
  function ReadPattern(sql: string): Option<seq<PatternItem>> {
    match Lex(sql)
    case None => None
    case Some(tokens) => if |tokens| == 1 && tokens[0].Lit? then DecodePattern(tokens[0].text) else None
  }

  /** `before` and `after` are the wildcards around the search text, none or one `%`. */
  function PatternSql(before: string, s: string, after: string): string {
    "'" + before + EscapeLike(s) + after + "'"
  }

  predicate IsWildcard(s: string) {
    s == "" || s == "%"
  }

  function Wildcard(s: string): seq<PatternItem>
    requires IsWildcard(s)
  {
    if s == "" then [] else [AnyText]
  }

  lemma EscapeLikeIsEscapedPattern(s: string)
    ensures EscapeLike(s) == EscapeString(EscapePattern(s))
  {
    hide ReplaceChar;
  }

  /** The emitted literal is a quoted pattern: the wildcards around the escaped text. */
  lemma PatternSqlIsQuoted(before: string, s: string, after: string)
    requires IsWildcard(before) && IsWildcard(after)
    ensures PatternSql(before, s, after) == Quote(before + EscapeEach(s) + after)
  {
    hide EscapeEach, ReplaceChar, EscapePattern;
    ReplacementsAreIndependent(s);
    EscapeLikeIsEscapedPattern(s);
    var pattern := EscapeEach(s);
    ReplaceCharConcat(before + pattern, after, '\'', "''");
    ReplaceCharConcat(before, pattern, '\'', "''");
    EscapeWithoutQuotes(before);
    EscapeWithoutQuotes(after);
    assert EscapeString(before + pattern + after) == before + EscapeLike(s) + after;
    assert PatternSql(before, s, after) == "'" + (before + EscapeLike(s) + after) + "'";
  }

  lemma DecodeWildcards(before: string, s: string, after: string)
    requires IsWildcard(before) && IsWildcard(after)
    ensures DecodePattern(before + EscapeEach(s) + after)
            == Some(Wildcard(before) + Literally(s) + Wildcard(after))
  {
    assert "%"[1..] == "";
    assert DecodePattern(after) == Some(Wildcard(after)) by {
      if after == "%" {
        assert [AnyText] + [] == [AnyText];
      }
    }
    DecodeEscaped(s, after);
    var text := before + EscapeEach(s) + after;
    if before == "" {
      assert text == EscapeEach(s) + after;
      assert [] + Literally(s) + Wildcard(after) == Literally(s) + Wildcard(after);
    } else {
      assert text[1..] == EscapeEach(s) + after;
      assert [AnyText] + (Literally(s) + Wildcard(after)) == [AnyText] + Literally(s) + Wildcard(after);
    }
  }

  /** Whatever the search text, the emitted literal reads back as the wildcards around that very text. */
  lemma PatternReadsBack(before: string, s: string, after: string)
    requires IsWildcard(before) && IsWildcard(after)
    ensures ReadPattern(PatternSql(before, s, after)) == Some(Wildcard(before) + Literally(s) + Wildcard(after))
  {
    PatternSqlIsQuoted(before, s, after);
    LexQuoted(before + EscapeEach(s) + after);
    DecodeWildcards(before, s, after);
  }

  /** The law the escaping is for: for every search text and every column text, the emitted ILIKE literal
      matches for Contains iff the text contains it, for StartsWith iff it is a prefix and for EndsWith
      iff it is a suffix, up to folding. */
  lemma SearchMeansSearch(fold: Fold, s: string, t: string)
    ensures var p := ReadPattern(PatternSql("%", s, "%"));
            p.Some? && (Matches(fold, p.value, t) <==> HasSubstring(fold, s, t))
    ensures var p := ReadPattern(PatternSql("", s, "%"));
            p.Some? && (Matches(fold, p.value, t) <==> HasPrefix(fold, s, t))
    ensures var p := ReadPattern(PatternSql("%", s, ""));
            p.Some? && (Matches(fold, p.value, t) <==> HasSuffix(fold, s, t))
  {
    PatternReadsBack("%", s, "%");
    PatternReadsBack("", s, "%");
    PatternReadsBack("%", s, "");
    MatchContains(fold, s, t);
    MatchStartsWith(fold, s, t);
    MatchEndsWith(fold, s, t);
    assert [] + Literally(s) + [AnyText] == Literally(s) + [AnyText];
    assert [AnyText] + Literally(s) + [] == [AnyText] + Literally(s);
  }
}
