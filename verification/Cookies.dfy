/** Session cookies: printing a Set-Cookie value and finding a cookie in a header
    (section 4.2.1 of RFC 6265: pairs `name=value` separated by a semicolon and a space). */
module Cookies {
  import opened Wrappers
  import opened Strings
  import opened Texts

  datatype SameSite = Strict | Lax | NoRestriction

  datatype CookieConfig = CookieConfig(
    name: string,
    path: string,
    domain: Option<string>,
    secure: bool,
    httpOnly: bool,
    sameSite: SameSite,
    maxAge: Option<int>
  )

  /** Unicode white space. */
  predicate IsWhite(c: char) {
    var n := c as int;
    || 0x09 <= n <= 0x0D || n == 0x20 || n == 0x85 || n == 0xA0 || n == 0x1680
    || 0x2000 <= n <= 0x200A || n == 0x2028 || n == 0x2029 || n == 0x202F || n == 0x205F || n == 0x3000
  }

  lemma WhiteSpaceCharacters(c: char)
    ensures IsWhite(c) <==>
            c as int in {9, 10, 11, 12, 13, 32, 133, 160, 5760, 8192, 8193, 8194, 8195, 8196, 8197, 8198, 8199, 8200,
                         8201, 8202, 8232, 8233, 8239, 8287, 12288}
  {
  }

  function TrimStart(s: string): string {
    if s != "" && IsWhite(s[0]) then TrimStart(s[1..]) else s
  }

  function TrimEnd(s: string): string {
    if s != "" && IsWhite(s[|s| - 1]) then TrimEnd(s[..|s| - 1]) else s
  }

  function Trim(s: string): string {
    TrimEnd(TrimStart(s))
  }

  predicate NoEdgeWhite(s: string) {
    s == "" || (!IsWhite(s[0]) && !IsWhite(s[|s| - 1]))
  }

  function DomainPart(domain: Option<string>): seq<string> {
    match domain { case Some(d) => ["Domain=" + d] case None => [] }
  }

  function FlagPart(on: bool, flag: string): seq<string> {
    if on then [flag] else []
  }

  function SameSiteText(sameSite: SameSite): string {
    match sameSite
    case Strict => "SameSite=Strict"
    case Lax => "SameSite=Lax"
    case NoRestriction => "SameSite=None"
  }

  function MaxAgePart(maxAge: Option<int>): seq<string> {
    match maxAge { case Some(age) => ["Max-Age=" + IntText(age)] case None => [] }
  }

  /** The attributes that follow the pair. */
  function Attributes(config: CookieConfig): seq<string> {
    ["Path=" + config.path] + DomainPart(config.domain)
    + FlagPart(config.secure, "Secure") + FlagPart(config.httpOnly, "HttpOnly")
    + [SameSiteText(config.sameSite)] + MaxAgePart(config.maxAge)
  }

  function CookieText(config: CookieConfig, sessionId: string): string {
    Join([config.name + "=" + sessionId] + Attributes(config), "; ")
  }

  method BuildCookie(config: CookieConfig, sessionId: string) returns (cookie: string)
    ensures cookie == CookieText(config, sessionId)
  {
    var parts := [config.name + "=" + sessionId];
    ghost var upToPath := parts + ["Path=" + config.path];
    parts := parts + ["Path=" + config.path];
    if config.domain.Some? {
      parts := parts + ["Domain=" + config.domain.value];
    }
    assert parts == upToPath + DomainPart(config.domain);
    ghost var upToDomain := parts;
    if config.secure {
      parts := parts + ["Secure"];
    }
    assert parts == upToDomain + FlagPart(config.secure, "Secure");
    ghost var upToSecure := parts;
    if config.httpOnly {
      parts := parts + ["HttpOnly"];
    }
    assert parts == upToSecure + FlagPart(config.httpOnly, "HttpOnly");
    match config.sameSite {
      case Strict => parts := parts + ["SameSite=Strict"];
      case Lax => parts := parts + ["SameSite=Lax"];
      case NoRestriction => parts := parts + ["SameSite=None"];
    }
    ghost var upToSameSite := parts;
    if config.maxAge.Some? {
      parts := parts + ["Max-Age=" + IntText(config.maxAge.value)];
    }
    assert parts == upToSameSite + MaxAgePart(config.maxAge);
    PartsTogether(
      config.name + "=" + sessionId, "Path=" + config.path, DomainPart(config.domain),
      FlagPart(config.secure, "Secure"), FlagPart(config.httpOnly, "HttpOnly"), SameSiteText(config.sameSite),
      MaxAgePart(config.maxAge));
    cookie := Join(parts, "; ");
  }

  lemma PartsTogether(
    pair: string, path: string, a: seq<string>, b: seq<string>, c: seq<string>, site: string, d: seq<string>)
    ensures [pair] + [path] + a + b + c + [site] + d == [pair] + ([path] + a + b + c + [site] + d)
  {
  }

  /** The value a part of the header gives to the cookie, if it is about it. */
  function ValueIn(part: string, name: string): Option<string> {
    match SplitOnce(Trim(part), '=')
    case None => None
    case Some((n, value)) => if Trim(n) == name then Some(Trim(value)) else None
  }

  function FirstValue(parts: seq<string>, name: string): Option<string> {
    if parts == [] then None
    else if ValueIn(parts[0], name).Some? then ValueIn(parts[0], name)
    else FirstValue(parts[1..], name)
  }

  function Extract(header: string, name: string): Option<string> {
    FirstValue(Split(header, ';'), name)
  }

  method ExtractSessionId(header: string, name: string) returns (value: Option<string>)
    ensures value == Extract(header, name)
  {
    var parts := Split(header, ';');
    for i := 0 to |parts|
      invariant FirstValue(parts, name) == FirstValue(parts[i..], name)
    {
      assert parts[i..][1..] == parts[i + 1..];
      var part := Trim(parts[i]);
      var split := SplitOnce(part, '=');
      if split.Some? && Trim(split.value.0) == name {
        return Some(Trim(split.value.1));
      }
    }
    return None;
  }

  // ---------- round trips ----------

  predicate IsTidyName(s: string) {
    ';' !in s && '=' !in s && NoEdgeWhite(s)
  }

  predicate IsTidyValue(s: string) {
    ';' !in s && NoEdgeWhite(s)
  }

  datatype Pair = Pair(name: string, value: string)

  predicate IsTidy(pair: Pair) {
    IsTidyName(pair.name) && IsTidyValue(pair.value)
  }

  function PairText(pair: Pair): string {
    pair.name + "=" + pair.value
  }

  function PairTexts(pairs: seq<Pair>): seq<string> {
    seq(|pairs|, i requires 0 <= i < |pairs| => PairText(pairs[i]))
  }

  /** The header a client sends. */
  function Header(pairs: seq<Pair>): string {
    Join(PairTexts(pairs), "; ")
  }

  /** The value of the first pair of that name. */
  function Lookup(pairs: seq<Pair>, name: string): Option<string> {
    if pairs == [] then None
    else if pairs[0].name == name then Some(pairs[0].value)
    else Lookup(pairs[1..], name)
  }

  lemma TrimTidy(s: string)
    requires NoEdgeWhite(s)
    ensures Trim(s) == s && Trim(" " + s) == s
  {
    assert (" " + s)[1..] == s;
  }

  lemma {:induction false} TrimEndShortens(s: string)
    ensures |TrimEnd(s)| <= |s| && forall c :: c in TrimEnd(s) ==> c in s
    ensures TrimEnd(s) != "" ==> TrimEnd(s)[0] == s[0] && !IsWhite(TrimEnd(s)[|TrimEnd(s)| - 1])
  {
    if s != "" && IsWhite(s[|s| - 1]) {
      TrimEndShortens(s[..|s| - 1]);
    }
  }

  lemma {:induction false} TrimStartShortens(s: string)
    ensures |TrimStart(s)| <= |s| && forall c :: c in TrimStart(s) ==> c in s
    ensures TrimStart(s) != "" ==> !IsWhite(TrimStart(s)[0])
  {
    if s != "" && IsWhite(s[0]) {
      TrimStartShortens(s[1..]);
    }
  }

  /** Trimming leaves no white space at either end, and brings in nothing. */
  lemma TrimLeavesTidy(s: string)
    ensures NoEdgeWhite(Trim(s)) && |Trim(s)| <= |s|
    ensures forall c :: c in Trim(s) ==> c in s
  {
    TrimStartShortens(s);
    TrimEndShortens(TrimStart(s));
  }

  lemma ValueOfPair(pair: Pair, lead: string, name: string)
    requires IsTidy(pair) && (lead == "" || lead == " ")
    ensures ValueIn(lead + PairText(pair), name) == if pair.name == name then Some(pair.value) else None
  {
    hide IsWhite, Trim, SplitOnce;
    var text := PairText(pair);
    assert NoEdgeWhite(text) by {
      EqualsIsNotWhite();
    }
    TrimTidy(text);
    assert "" + text == text;
    SplitOnceOf(pair.name, '=', pair.value);
    assert pair.name + ['='] + pair.value == text;
    TrimTidy(pair.name);
    TrimTidy(pair.value);
  }

  lemma EqualsIsNotWhite()
    ensures !IsWhite('=')
  {
  }

  /** The parts of the header after the first start with a space. */
  function Spaced(parts: seq<string>): seq<string> {
    seq(|parts|, i requires 0 <= i < |parts| => if i == 0 then parts[i] else " " + parts[i])
  }

  lemma {:induction false} JoinSpaced(parts: seq<string>)
    ensures Join(parts, "; ") == Join(Spaced(parts), ";")
  {
    if |parts| > 1 {
      JoinSpaced(parts[1..]);
      JoinHead(parts[1..], " ");
      assert Spaced(parts)[1..] == [" " + parts[1]] + Spaced(parts[1..])[1..];
      assert parts[0] + "; " + Join(parts[1..], "; ") == parts[0] + ";" + (" " + Join(parts[1..], "; "));
    }
  }

  /** A text before a joined list is a text before its first part. */
  lemma JoinHead(parts: seq<string>, lead: string)
    requires parts != []
    ensures lead + Join(Spaced(parts), ";") == Join([lead + parts[0]] + Spaced(parts)[1..], ";")
  {
    var spaced := Spaced(parts);
    var led := [lead + parts[0]] + spaced[1..];
    assert led[1..] == spaced[1..];
    if |parts| > 1 {
      assert lead + (spaced[0] + ";" + Join(spaced[1..], ";")) == lead + spaced[0] + ";" + Join(spaced[1..], ";");
    }
  }

  lemma {:induction false} FirstValueOfPairs(pairs: seq<Pair>, parts: seq<string>, name: string)
    requires |parts| == |pairs| && forall i :: 0 <= i < |pairs| ==> IsTidy(pairs[i])
    requires forall i :: 0 <= i < |parts| ==>
                           parts[i] == "" + PairText(pairs[i]) || parts[i] == " " + PairText(pairs[i])
    ensures FirstValue(parts, name) == Lookup(pairs, name)
  {
    hide IsTidy, PairText, ValueIn;
    if pairs != [] {
      ValueOfPair(pairs[0], if parts[0] == "" + PairText(pairs[0]) then "" else " ", name);
      FirstValueOfPairs(pairs[1..], parts[1..], name);
    }
  }

  /** Cookie round trip: from a header of tidy pairs, a name gets the value of the first pair of that name,
      or nothing if there is none. */
  lemma ExtractFromHeader(pairs: seq<Pair>, name: string)
    requires forall i :: 0 <= i < |pairs| ==> IsTidy(pairs[i])
    ensures Extract(Header(pairs), name) == Lookup(pairs, name)
  {
    hide ValueIn, NoEdgeWhite, SplitOnce;
    if pairs == [] {
      SplitJoin([""], ';');
      assert Header(pairs) == "" && Join([""], ";") == "";
      NothingInNothing(name);
      assert [""][1..] == [];
      assert FirstValue([""], name) == FirstValue([], name);
    } else {
      var parts := PairTexts(pairs);
      JoinSpaced(parts);
      forall i | 0 <= i < |parts|
        ensures ';' !in Spaced(parts)[i]
      {
        assert IsTidy(pairs[i]);
      }
      SplitJoin(Spaced(parts), ';');
      forall i | 0 <= i < |parts|
        ensures Spaced(parts)[i] == "" + PairText(pairs[i]) || Spaced(parts)[i] == " " + PairText(pairs[i])
      {
        assert "" + PairText(pairs[i]) == PairText(pairs[i]);
      }
      FirstValueOfPairs(pairs, Spaced(parts), name);
    }
  }

  lemma NothingInNothing(name: string)
    ensures ValueIn("", name) == None
  {
  }

  lemma AttributesListed(config: CookieConfig, attribute: string)
    ensures attribute in Attributes(config) <==>
            || attribute == "Path=" + config.path
            || (config.domain.Some? && attribute == "Domain=" + config.domain.value)
            || (config.secure && attribute == "Secure")
            || (config.httpOnly && attribute == "HttpOnly")
            || attribute == (match config.sameSite
                             case Strict => "SameSite=Strict"
                             case Lax => "SameSite=Lax"
                             case NoRestriction => "SameSite=None")
            || (config.maxAge.Some? && attribute == "Max-Age=" + IntText(config.maxAge.value))
  {
    hide IntText;
  }

  /** What a client reads after the pair of a built cookie: the flags that are set and no others, and the one SameSite
      mode. Its texts are those without a semicolon, which would start another part. */
  lemma FlagsReadBack(config: CookieConfig, sessionId: string)
    requires ';' !in config.name && ';' !in sessionId && ';' !in config.path
    requires config.domain.Some? ==> ';' !in config.domain.value
    ensures var parts := Split(CookieText(config, sessionId), ';');
            && parts[0] == config.name + "=" + sessionId
            && (" Secure" in parts[1..] <==> config.secure)
            && (" HttpOnly" in parts[1..] <==> config.httpOnly)
            && (" SameSite=Strict" in parts[1..] <==> config.sameSite.Strict?)
            && (" SameSite=Lax" in parts[1..] <==> config.sameSite.Lax?)
            && (" SameSite=None" in parts[1..] <==> config.sameSite.NoRestriction?)
  {
    hide Attributes, Split;
    var pair, attributes := config.name + "=" + sessionId, Attributes(config);
    var parts := [pair] + attributes;
    PartsHaveNoSemicolon(config);
    JoinSpaced(parts);
    SplitJoin(Spaced(parts), ';');
    FlagsListed(config);
    FlagsSpaced(pair, attributes);
  }

  lemma FlagsSpaced(first: string, others: seq<string>)
    ensures var spaced := Spaced([first] + others);
            && spaced != [] && spaced[0] == first
            && (" Secure" in spaced[1..] <==> "Secure" in others)
            && (" HttpOnly" in spaced[1..] <==> "HttpOnly" in others)
            && (" SameSite=Strict" in spaced[1..] <==> "SameSite=Strict" in others)
            && (" SameSite=Lax" in spaced[1..] <==> "SameSite=Lax" in others)
            && (" SameSite=None" in spaced[1..] <==> "SameSite=None" in others)
  {
    hide Spaced;
    SpacedHas(first, others, "Secure");
    SpacedHas(first, others, "HttpOnly");
    SpacedHas(first, others, "SameSite=Strict");
    SpacedHas(first, others, "SameSite=Lax");
    SpacedHas(first, others, "SameSite=None");
    assert " " + "Secure" == " Secure" && " " + "HttpOnly" == " HttpOnly";
    assert " " + "SameSite=Strict" == " SameSite=Strict";
    assert " " + "SameSite=Lax" == " SameSite=Lax" && " " + "SameSite=None" == " SameSite=None";
  }

  lemma FlagsListed(config: CookieConfig)
    ensures var attributes := Attributes(config);
            && ("Secure" in attributes <==> config.secure)
            && ("HttpOnly" in attributes <==> config.httpOnly)
            && ("SameSite=Strict" in attributes <==> config.sameSite.Strict?)
            && ("SameSite=Lax" in attributes <==> config.sameSite.Lax?)
            && ("SameSite=None" in attributes <==> config.sameSite.NoRestriction?)
  {
    hide Attributes, IntText;
    assert ("Path=" + config.path)[0] == 'P';
    assert config.domain.Some? ==> ("Domain=" + config.domain.value)[0] == 'D';
    assert config.maxAge.Some? ==> ("Max-Age=" + IntText(config.maxAge.value))[0] == 'M';
    AttributesListed(config, "Secure");
    AttributesListed(config, "HttpOnly");
    AttributesListed(config, "SameSite=Strict");
    AttributesListed(config, "SameSite=Lax");
    AttributesListed(config, "SameSite=None");
  }

  lemma PartsHaveNoSemicolon(config: CookieConfig)
    requires ';' !in config.path && (config.domain.Some? ==> ';' !in config.domain.value)
    ensures forall i :: 0 <= i < |Attributes(config)| ==> ';' !in Attributes(config)[i]
  {
    hide Attributes;
    forall i | 0 <= i < |Attributes(config)|
      ensures ';' !in Attributes(config)[i]
    {
      AttributesListed(config, Attributes(config)[i]);
    }
  }

  lemma SpacedHas(first: string, others: seq<string>, text: string)
    ensures Spaced([first] + others) != [] && Spaced([first] + others)[0] == first
    ensures " " + text in Spaced([first] + others)[1..] <==> text in others
  {
    var spaced := Spaced([first] + others);
    if text in others {
      var i :| 0 <= i < |others| && others[i] == text;
      assert spaced[1..][i] == " " + text;
    }
    if " " + text in spaced[1..] {
      var i :| 0 <= i < |spaced[1..]| && spaced[1..][i] == " " + text;
      assert (" " + others[i])[1..] == others[i] && (" " + text)[1..] == text;
    }
  }

  /** Only a tidy name can be found in a header. */
  lemma {:induction false} FoundNameIsTidy(parts: seq<string>, name: string)
    requires forall i :: 0 <= i < |parts| ==> ';' !in parts[i]
    requires FirstValue(parts, name).Some?
    ensures IsTidyName(name)
  {
    hide Trim, NoEdgeWhite;
    if ValueIn(parts[0], name).Some? {
      var part := Trim(parts[0]);
      TrimLeavesTidy(parts[0]);
      TrimLeavesTidy(SplitOnce(part, '=').value.0);
    } else {
      FoundNameIsTidy(parts[1..], name);
    }
  }

  /** Extracting from a built cookie gives the session id back, whatever attributes follow, exactly when the cookie's
      name and the id have no semicolon and no white space at their ends, and the name has no equals sign. */
  lemma ExtractFromBuiltIff(config: CookieConfig, sessionId: string)
    ensures Extract(CookieText(config, sessionId), config.name) == Some(sessionId)
            <==> IsTidyName(config.name) && IsTidyValue(sessionId)
  {
    hide FirstValue, IsTidyName, IsTidyValue;
    var cookie := CookieText(config, sessionId);
    if IsTidyName(config.name) {
      TidyNameIsFound(config, sessionId);
    } else if Extract(cookie, config.name).Some? {
      JoinSplit(cookie, ';');
      FoundNameIsTidy(Split(cookie, ';'), config.name);
    }
  }

  lemma TidyNameIsFound(config: CookieConfig, sessionId: string)
    requires IsTidyName(config.name)
    ensures Extract(CookieText(config, sessionId), config.name) == Some(sessionId) <==> IsTidyValue(sessionId)
  {
    hide IsWhite, Attributes, Trim;
    var attributes := Attributes(config);
    assert attributes != [] by {
      HasAttributes(config);
    }
    var parts := [config.name + "=" + sessionId] + attributes;
    assert parts[1..] == attributes;
    var rest := " " + Join(attributes, "; ");
    var cookie := CookieText(config, sessionId);
    assert cookie == config.name + "=" + sessionId + ";" + rest;
    FirstPart(config.name, sessionId, rest);
    var value := if ';' in sessionId then SplitOnce(sessionId, ';').value.0 else sessionId;
    assert Extract(cookie, config.name) == Some(Trim(value));
    TrimLeavesTidy(value);
    if NoEdgeWhite(sessionId) {
      TrimTidy(sessionId);
    }
  }

  lemma HasAttributes(config: CookieConfig)
    ensures Attributes(config) != []
  {
  }

  lemma FirstCut(name: string, value: string, tail: string)
    requires IsTidyName(name) && ';' !in value
    ensures Extract(name + "=" + value + ";" + tail, name) == Some(Trim(value))
  {
    hide IsWhite, Trim, NoEdgeWhite, ValueIn, SplitOnce;
    var pair := name + "=" + value;
    SplitOnceOf(pair, ';', tail);
    assert pair + [';'] + tail == name + "=" + value + ";" + tail;
    assert Split(pair + [';'] + tail, ';') == [pair] + Split(tail, ';');
    FirstPairValue(name, value);
  }

  /** The first part of a cookie reaches to the first semicolon, in the id or after it. */
  lemma FirstPart(name: string, sessionId: string, rest: string)
    requires IsTidyName(name)
    ensures var value := if ';' in sessionId then SplitOnce(sessionId, ';').value.0 else sessionId;
            Extract(name + "=" + sessionId + ";" + rest, name) == Some(Trim(value))
  {
    hide IsWhite, Trim, NoEdgeWhite, Extract, SplitOnce;
    if ';' in sessionId {
      var (value, more) := SplitOnce(sessionId, ';').value;
      FirstCut(name, value, more + ";" + rest);
      assert name + "=" + sessionId + ";" + rest == name + "=" + value + ";" + (more + ";" + rest);
    } else {
      FirstCut(name, sessionId, rest);
    }
  }

  /** A pair with a tidy name gives its value, trimmed, even if that is untidy. */
  lemma FirstPairValue(name: string, value: string)
    requires IsTidyName(name)
    ensures ValueIn(name + "=" + value, name) == Some(Trim(value))
  {
    hide IsWhite, SplitOnce;
    EqualsIsNotWhite();
    var text := name + "=" + value;
    assert !IsWhite(text[0]);
    assert TrimStart(text) == text;
    TrimEndAfter(name + "=", value);
    TrimBothEnds(value);
    var trimmed := TrimEnd(value);
    assert Trim(text) == name + ['='] + trimmed;
    SplitOnceOf(name, '=', trimmed);
    TrimTidy(name);
  }

  /** White space is trimmed off the end as far as it goes. */
  lemma {:induction false} TrimEndAfter(head: string, tail: string)
    requires head != "" && !IsWhite(head[|head| - 1])
    ensures TrimEnd(head + tail) == head + TrimEnd(tail)
    decreases |tail|
  {
    hide IsWhite;
    if tail == "" {
      assert head + tail == head;
    } else if IsWhite(tail[|tail| - 1]) {
      assert (head + tail)[..|head + tail| - 1] == head + tail[..|tail| - 1];
      TrimEndAfter(head, tail[..|tail| - 1]);
    }
  }

  lemma {:induction false} TrimBothEnds(s: string)
    ensures Trim(TrimEnd(s)) == Trim(s)
    decreases |s|
  {
    hide IsWhite;
    if s != "" && IsWhite(s[|s| - 1]) {
      TrimBothEnds(s[..|s| - 1]);
      TrimDropsLast(s);
    }
  }

  lemma {:induction false} TrimDropsLast(s: string)
    requires s != "" && IsWhite(s[|s| - 1])
    ensures Trim(s[..|s| - 1]) == Trim(s)
    decreases |s|
  {
    hide IsWhite;
    if IsWhite(s[0]) {
      if |s| == 1 {
        assert s[1..] == "" && s[..0] == "";
      } else {
        assert s[1..][..|s| - 2] == s[..|s| - 1][1..];
        TrimDropsLast(s[1..]);
      }
    }
  }
}
