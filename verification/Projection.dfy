/** The projection of a list of triples to a table schema. */
module Projection {
  import opened Wrappers
  import opened Strings
  import opened Texts
  import opened Canonical

  datatype Triple = Triple(s: string, p: string, o: string, f: real, c: real)

  datatype ColumnKind = Any | Int | Record(target: string)

  datatype DefineField = DefineField(name: string, required: bool, kind: ColumnKind)

  datatype DefineTable = DefineTable(name: string, fields: seq<DefineField>)

  datatype OpSurrealConst = OpSurrealConst(tables: seq<DefineTable>, triples: seq<Triple>)

  const PRED_OGIT_TYPE := "rdf:type"
  const OBJ_OBJECT_TYPE := "ogit:ObjectType"
  const OBJ_PROPERTY := "ogit:Property"
  const PRED_READS_FIELD := "reads_field"
  const VALIDATE_FN_SUFFIX := "._validate"
  const NAMESPACE_PREFIX := "openproject:"

  /** The upper case of a character, which may be several characters. */
  type Upper = char -> string

  function Capitalize(upper: Upper, word: string): string {
    if word == "" then "" else upper(word[0]) + word[1..]
  }

  function CapitalizeAll(upper: Upper, words: seq<string>): string {
    if words == [] then ""
    else CapitalizeAll(upper, words[..|words| - 1]) + Capitalize(upper, words[|words| - 1])
  }

  /** `work_package` becomes `WorkPackage`. */
  function Pascal(upper: Upper, snake: string): string {
    CapitalizeAll(upper, Split(snake, '_'))
  }

  method SnakeToPascal(upper: Upper, snake: string) returns (out: string)
    ensures out == Pascal(upper, snake)
  {
    hide Split;
    out := "";
    var words := Split(snake, '_');
    for i := 0 to |words|
      invariant out == CapitalizeAll(upper, words[..i])
    {
      CapitalizeNext(upper, words, i);
      if words[i] != "" {
        out := out + upper(words[i][0]) + words[i][1..];
      }
    }
    assert words[..|words|] == words;
  }

  lemma CapitalizeNext(upper: Upper, words: seq<string>, i: nat)
    requires i < |words|
    ensures CapitalizeAll(upper, words[..i + 1])
            == if words[i] == "" then CapitalizeAll(upper, words[..i])
               else CapitalizeAll(upper, words[..i]) + upper(words[i][0]) + words[i][1..]
  {
    assert words[..i + 1][..i] == words[..i];
  }

  /** The Pascal form of a name, a character at a time: underscores vanish, a character at the start or after an
      underscore is put in upper case, and all others stay. */
  function PascalForm(upper: Upper, s: string, start: bool): string {
    if s == "" then ""
    else if s[0] == '_' then PascalForm(upper, s[1..], true)
    else (if start then upper(s[0]) else [s[0]]) + PascalForm(upper, s[1..], false)
  }

  lemma {:induction false} PascalFormOfRest(upper: Upper, word: string, rest: string)
    requires '_' !in word
    ensures PascalForm(upper, word + rest, false) == word + PascalForm(upper, rest, false)
  {
    if word == "" {
      assert word + rest == rest;
    } else {
      assert (word + rest)[1..] == word[1..] + rest;
      PascalFormOfRest(upper, word[1..], rest);
    }
  }

  lemma PascalFormOfWord(upper: Upper, word: string, rest: string)
    requires '_' !in word && (rest == "" || rest[0] == '_')
    ensures PascalForm(upper, word + rest, true) == Capitalize(upper, word) + PascalForm(upper, rest, true)
  {
    if word == "" {
      assert word + rest == rest;
    } else {
      assert (word + rest)[1..] == word[1..] + rest;
      PascalFormOfRest(upper, word[1..], rest);
    }
  }

  lemma {:induction false} CapitalizeAllHead(upper: Upper, word: string, words: seq<string>)
    ensures CapitalizeAll(upper, [word] + words) == Capitalize(upper, word) + CapitalizeAll(upper, words)
    decreases |words|
  {
    hide Capitalize;
    var all := [word] + words;
    if words == [] {
      assert all[..0] == [] && CapitalizeAll(upper, all) == "" + Capitalize(upper, word);
    } else {
      var last := |words| - 1;
      assert all[..last + 1] == [word] + words[..last];
      CapitalizeAllHead(upper, word, words[..last]);
    }
  }

  /** Capitalising the words between underscores gives the Pascal form. */
  lemma {:induction false} PascalIsPascalForm(upper: Upper, snake: string)
    ensures Pascal(upper, snake) == PascalForm(upper, snake, true)
    decreases |snake|
  {
    hide Capitalize;
    match SplitOnce(snake, '_') {
      case None =>
        PascalFormOfWord(upper, snake, "");
        assert snake + "" == snake && [snake] + [] == [snake];
        CapitalizeAllHead(upper, snake, []);
      case Some((head, tail)) =>
        PascalFormOfWord(upper, head, "_" + tail);
        assert head + ("_" + tail) == snake && ("_" + tail)[1..] == tail;
        PascalIsPascalForm(upper, tail);
        CapitalizeAllHead(upper, head, Split(tail, '_'));
    }
  }

  const ID_SUFFIX := "_id"

  /** The kind of a field, from its name and the tables that exist. */
  function Infer(upper: Upper, field: string, known: set<string>): ColumnKind {
    match StripSuffix(field, ID_SUFFIX)
    case None => Any
    case Some(stem) =>
      if stem == "" then Int
      else
        var pascal := Pascal(upper, stem);
        if pascal in known then Record(pascal) else Int
  }

  // ---------- what single triples declare ----------

  /** What of a triple matters: its truth value does not. */
  type Fact = (string, string, string)

  function FactOf(t: Triple): Fact {
    (t.s, t.p, t.o)
  }

  function Facts(triples: seq<Triple>): set<Fact> {
    set t | t in triples :: FactOf(t)
  }

  function DeclaredTable(fact: Fact): Option<string> {
    if fact.1 == PRED_OGIT_TYPE && fact.2 == OBJ_OBJECT_TYPE then
      match StripPrefix(fact.0, NAMESPACE_PREFIX)
      case Some(local) => if '.' in local then None else Some(local)
      case None => None
    else None
  }

  function DeclaredField(fact: Fact): Option<(string, string)> {
    if fact.1 == PRED_OGIT_TYPE && fact.2 == OBJ_PROPERTY then
      match StripPrefix(fact.0, NAMESPACE_PREFIX)
      case Some(local) => SplitOnce(local, '.')
      case None => None
    else None
  }

  function RequiredColumn(fact: Fact): Option<(string, string)> {
    if fact.1 != PRED_READS_FIELD then None
    else
      match StripPrefix(fact.0, NAMESPACE_PREFIX)
      case None => None
      case Some(subject) =>
        match StripSuffix(subject, VALIDATE_FN_SUFFIX)
        case None => None
        case Some(table) =>
          match StripPrefix(fact.2, NAMESPACE_PREFIX)
          case None => None
          case Some(target) =>
            match SplitOnce(target, '.')
            case None => None
            case Some((objectTable, column)) => if objectTable == table then Some((table, column)) else None
  }

  // ---------- the declarative schema ----------

  function Tables(facts: set<Fact>): set<string> {
    set fact | fact in facts && DeclaredTable(fact).Some? :: DeclaredTable(fact).value
  }

  function FieldsOf(facts: set<Fact>, table: string): set<string> {
    set fact | fact in facts && DeclaredField(fact).Some? && DeclaredField(fact).value.0 == table
      :: DeclaredField(fact).value.1
  }

  function RequiredColumns(facts: set<Fact>): set<(string, string)> {
    set fact | fact in facts && RequiredColumn(fact).Some? :: RequiredColumn(fact).value
  }

  ghost function FieldSchema(upper: Upper, facts: set<Fact>, table: string, field: string): DefineField {
    DefineField(field, (table, field) in RequiredColumns(facts), Infer(upper, field, Tables(facts)))
  }

  ghost function TableSchema(upper: Upper, facts: set<Fact>, table: string): DefineTable {
    var names := SortedList(FieldsOf(facts, table));
    DefineTable(table, seq(|names|, i requires 0 <= i < |names| => FieldSchema(upper, facts, table, names[i])))
  }

  /** The schema of a set of facts: tables and fields in order of their names. */
  ghost function Schema(upper: Upper, facts: set<Fact>): seq<DefineTable> {
    var names := SortedList(Tables(facts));
    seq(|names|, i requires 0 <= i < |names| => TableSchema(upper, facts, names[i]))
  }

  lemma FactsAppend(triples: seq<Triple>, t: Triple)
    ensures Facts(triples + [t]) == Facts(triples) + {FactOf(t)}
  {
  }

  type TableMap = map<string, set<string>>

  /** First pass. */
  method CollectTables(triples: seq<Triple>) returns (tables: TableMap)
    ensures tables.Keys == Tables(Facts(triples))
    ensures forall table :: table in tables ==> tables[table] == {}
  {
    tables := map[];
    for i := 0 to |triples|
      invariant tables.Keys == Tables(Facts(triples[..i]))
      invariant forall table :: table in tables ==> tables[table] == {}
    {
      var t := triples[i];
      assert triples[..i + 1] == triples[..i] + [t];
      FactsAppend(triples[..i], t);
      TablesAppend(Facts(triples[..i]), FactOf(t));
      if t.p == PRED_OGIT_TYPE && t.o == OBJ_OBJECT_TYPE {
        var local := StripPrefix(t.s, NAMESPACE_PREFIX);
        if local.Some? && '.' !in local.value {
          if local.value !in tables {
            tables := tables[local.value := {}];
          }
        }
      }
    }
    assert triples[..|triples|] == triples;
  }

  lemma TablesAppend(facts: set<Fact>, fact: Fact)
    ensures Tables(facts + {fact})
            == Tables(facts) + match DeclaredTable(fact) { case Some(table) => {table} case None => {} }
  {
    hide DeclaredTable;
  }

  /** Second pass. */
  method CollectFields(triples: seq<Triple>, declared: TableMap) returns (tables: TableMap)
    requires forall table :: table in declared ==> declared[table] == {}
    ensures tables.Keys == declared.Keys
    ensures forall table :: table in tables ==> tables[table] == FieldsOf(Facts(triples), table)
  {
    hide Facts, FieldsOf, StripPrefix, SplitOnce;
    tables := declared;
    NoFields(declared);
    assert triples[..0] == [];
    for i := 0 to |triples|
      invariant tables.Keys == declared.Keys
      invariant forall table :: table in tables ==> tables[table] == FieldsOf(Facts(triples[..i]), table)
    {
      var t := triples[i];
      assert triples[..i + 1] == triples[..i] + [t];
      FactsAppend(triples[..i], t);
      FieldsAppend(Facts(triples[..i]), FactOf(t));
      if t.p == PRED_OGIT_TYPE && t.o == OBJ_PROPERTY {
        var local := StripPrefix(t.s, NAMESPACE_PREFIX);
        if local.Some? {
          var parts := SplitOnce(local.value, '.');
          if parts.Some? && parts.value.0 in tables {
            tables := tables[parts.value.0 := tables[parts.value.0] + {parts.value.1}];
          }
        }
      }
    }
    assert triples[..|triples|] == triples;
  }

  lemma NoFields(declared: TableMap)
    ensures forall table :: table in declared ==> FieldsOf(Facts([]), table) == {}
  {
  }

  lemma FieldsAppend(facts: set<Fact>, fact: Fact)
    ensures forall table ::
              FieldsOf(facts + {fact}, table)
              == FieldsOf(facts, table)
                 + match DeclaredField(fact) { case Some((t, f)) => if t == table then {f} else {} case None => {} }
  {
    hide DeclaredField;
  }

  /** Third pass. */
  method CollectRequired(triples: seq<Triple>) returns (required: set<(string, string)>)
    ensures required == RequiredColumns(Facts(triples))
  {
    required := {};
    for i := 0 to |triples|
      invariant required == RequiredColumns(Facts(triples[..i]))
    {
      var t := triples[i];
      assert triples[..i + 1] == triples[..i] + [t];
      FactsAppend(triples[..i], t);
      RequiredAppend(Facts(triples[..i]), FactOf(t));
      if t.p != PRED_READS_FIELD {
        continue;
      }
      var subject := StripPrefix(t.s, NAMESPACE_PREFIX);
      if subject == None {
        continue;
      }
      var table := StripSuffix(subject.value, VALIDATE_FN_SUFFIX);
      if table == None {
        continue;
      }
      var target := StripPrefix(t.o, NAMESPACE_PREFIX);
      if target == None {
        continue;
      }
      var parts := SplitOnce(target.value, '.');
      if parts.Some? && parts.value.0 == table.value {
        required := required + {(table.value, parts.value.1)};
      }
    }
    assert triples[..|triples|] == triples;
  }

  lemma RequiredAppend(facts: set<Fact>, fact: Fact)
    ensures RequiredColumns(facts + {fact})
            == RequiredColumns(facts) + match RequiredColumn(fact) { case Some(column) => {column} case None => {} }
  {
    hide RequiredColumn;
  }

  /** Iteration of an ordered set. */
  method InOrder(elements: set<string>) returns (s: seq<string>)
    ensures s == SortedList(elements)
  {
    var listed: seq<string> := [];
    var rest := elements;
    while rest != {}
      invariant rest <= elements && Elements(listed) == elements - rest
    {
      var x :| x in rest;
      assert Elements(listed + [x]) == Elements(listed) + {x};
      listed, rest := listed + [x], rest - {x};
    }
    assert Elements(listed) == elements;
    s := Canonicalize(listed);
  }

  method DefineFields(
    upper: Upper, table: string, fields: set<string>, required: set<(string, string)>, known: set<string>,
    ghost facts: set<Fact>)
    returns (defined: seq<DefineField>)
    requires fields == FieldsOf(facts, table) && required == RequiredColumns(facts) && known == Tables(facts)
    ensures defined == TableSchema(upper, facts, table).fields
  {
    hide FieldsOf, RequiredColumns, Tables, Infer;
    var names := InOrder(fields);
    defined := [];
    for i := 0 to |names|
      invariant |defined| == i
      invariant forall k :: 0 <= k < i ==> defined[k] == FieldSchema(upper, facts, table, names[k])
    {
      defined := defined + [DefineField(names[i], (table, names[i]) in required, Infer(upper, names[i], known))];
    }
  }

  function Decompile(projected: OpSurrealConst): seq<Triple> {
    projected.triples
  }

  /** The projection: three passes over the triples, then the tables and fields in order. */
  method Project(upper: Upper, triples: seq<Triple>) returns (projected: OpSurrealConst)
    ensures projected.tables == Schema(upper, Facts(triples))
    ensures Decompile(projected) == triples
  {
    hide FieldsOf, RequiredColumns, Tables, TableSchema, Facts;
    ghost var facts := Facts(triples);
    var declared := CollectTables(triples);
    var tables := CollectFields(triples, declared);
    var required := CollectRequired(triples);
    var known := tables.Keys;
    var names := InOrder(known);
    var structured := [];
    for i := 0 to |names|
      invariant |structured| == i
      invariant forall k :: 0 <= k < i ==> structured[k] == TableSchema(upper, facts, names[k])
    {
      assert names[i] in Elements(names);
      var fields := DefineFields(upper, names[i], tables[names[i]], required, known, facts);
      NamedTable(upper, facts, names[i]);
      structured := structured + [DefineTable(names[i], fields)];
    }
    assert structured == Schema(upper, facts);
    projected := OpSurrealConst(structured, triples);
  }

  lemma NamedTable(upper: Upper, facts: set<Fact>, table: string)
    ensures TableSchema(upper, facts, table) == DefineTable(table, TableSchema(upper, facts, table).fields)
  {
    hide FieldsOf;
  }

  // ---------- what the schema says ----------

  /** Some triple, whatever its truth value, says this. */
  ghost predicate Told(triples: seq<Triple>, s: string, p: string, o: string) {
    exists i :: 0 <= i < |triples| && triples[i].s == s && triples[i].p == p && triples[i].o == o
  }

  lemma ToldIffFact(triples: seq<Triple>, s: string, p: string, o: string)
    ensures Told(triples, s, p, o) <==> (s, p, o) in Facts(triples)
  {
    if (s, p, o) in Facts(triples) {
      var t :| t in triples && FactOf(t) == (s, p, o);
      var i :| 0 <= i < |triples| && triples[i] == t;
      assert triples[i].s == s && triples[i].p == p && triples[i].o == o;
    }
    if i :| 0 <= i < |triples| && triples[i].s == s && triples[i].p == p && triples[i].o == o {
      assert triples[i] in triples && FactOf(triples[i]) == (s, p, o);
    }
  }

  lemma TableDeclared(facts: set<Fact>, table: string)
    ensures table in Tables(facts)
            <==> '.' !in table && (NAMESPACE_PREFIX + table, PRED_OGIT_TYPE, OBJ_OBJECT_TYPE) in facts
  {
    StripPrefixOf(NAMESPACE_PREFIX, table);
    var fact := (NAMESPACE_PREFIX + table, PRED_OGIT_TYPE, OBJ_OBJECT_TYPE);
    if '.' !in table && fact in facts {
      assert DeclaredTable(fact) == Some(table);
    }
  }

  lemma FieldDeclared(facts: set<Fact>, table: string, field: string)
    requires '.' !in table
    ensures field in FieldsOf(facts, table)
            <==> (NAMESPACE_PREFIX + (table + "." + field), PRED_OGIT_TYPE, OBJ_PROPERTY) in facts
  {
    StripPrefixOf(NAMESPACE_PREFIX, table + "." + field);
    SplitOnceOf(table, '.', field);
    var fact := (NAMESPACE_PREFIX + (table + "." + field), PRED_OGIT_TYPE, OBJ_PROPERTY);
    if fact in facts {
      assert DeclaredField(fact) == Some((table, field));
    }
  }

  lemma RequirementDeclared(facts: set<Fact>, table: string, field: string)
    requires '.' !in table
    ensures (table, field) in RequiredColumns(facts)
            <==> (NAMESPACE_PREFIX + (table + VALIDATE_FN_SUFFIX), PRED_READS_FIELD,
                  NAMESPACE_PREFIX + (table + "." + field)) in facts
  {
    StripPrefixOf(NAMESPACE_PREFIX, table + VALIDATE_FN_SUFFIX);
    StripSuffixOf(table, VALIDATE_FN_SUFFIX);
    StripPrefixOf(NAMESPACE_PREFIX, table + "." + field);
    SplitOnceOf(table, '.', field);
    var fact := (NAMESPACE_PREFIX + (table + VALIDATE_FN_SUFFIX), PRED_READS_FIELD,
                 NAMESPACE_PREFIX + (table + "." + field));
    if fact in facts {
      assert RequiredColumn(fact) == Some((table, field));
    }
  }

  ghost predicate HasTable(tables: seq<DefineTable>, name: string) {
    exists i :: 0 <= i < |tables| && tables[i].name == name
  }

  ghost predicate HasField(tables: seq<DefineTable>, table: string, field: DefineField) {
    exists i, j :: 0 <= i < |tables| && 0 <= j < |tables[i].fields|
                   && tables[i].name == table && tables[i].fields[j] == field
  }

  ghost predicate InStrictOrder(tables: seq<DefineTable>) {
    && (forall i, j :: 0 <= i < j < |tables| ==> Less(tables[i].name, tables[j].name))
    && (forall i, j, k :: 0 <= i < |tables| && 0 <= j < k < |tables[i].fields| ==>
                            Less(tables[i].fields[j].name, tables[i].fields[k].name))
  }

  lemma HasTableIff(upper: Upper, facts: set<Fact>, table: string)
    ensures HasTable(Schema(upper, facts), table) <==> table in Tables(facts)
  {
    hide Tables, FieldsOf, FieldSchema;
    var names := SortedList(Tables(facts));
    if table in Tables(facts) {
      assert table in Elements(names);
      var i :| 0 <= i < |names| && names[i] == table;
      assert Schema(upper, facts)[i].name == table;
    }
    if HasTable(Schema(upper, facts), table) {
      var i :| 0 <= i < |names| && Schema(upper, facts)[i].name == table;
      assert names[i] in Elements(names);
    }
  }

  lemma HasFieldIff(upper: Upper, facts: set<Fact>, table: string, field: DefineField)
    ensures HasField(Schema(upper, facts), table, field)
            <==> table in Tables(facts) && field.name in FieldsOf(facts, table)
                 && field == FieldSchema(upper, facts, table, field.name)
  {
    hide Tables, FieldsOf, RequiredColumns, Infer;
    var schema := Schema(upper, facts);
    var tableNames := SortedList(Tables(facts));
    var names := SortedList(FieldsOf(facts, table));
    if table in Tables(facts) && field.name in FieldsOf(facts, table)
       && field == FieldSchema(upper, facts, table, field.name) {
      assert table in Elements(tableNames) && field.name in Elements(names);
      var i :| 0 <= i < |tableNames| && tableNames[i] == table;
      var j :| 0 <= j < |names| && names[j] == field.name;
      assert schema[i] == TableSchema(upper, facts, table);
      assert schema[i].name == table && schema[i].fields[j] == field;
    }
    if HasField(schema, table, field) {
      var i, j :| 0 <= i < |schema| && 0 <= j < |schema[i].fields|
                  && schema[i].name == table && schema[i].fields[j] == field;
      assert schema[i] == TableSchema(upper, facts, tableNames[i]);
      assert tableNames[i] in Elements(tableNames) && names[j] in Elements(names);
    }
  }

  lemma SchemaInStrictOrder(upper: Upper, facts: set<Fact>)
    ensures InStrictOrder(Schema(upper, facts))
  {
    hide Tables, FieldsOf, RequiredColumns, Infer, Less;
  }

  /** The kind of a field, from its name and the tables that exist: anything unless the name ends in `_id`, a link to
      the table whose name is the Pascal form of what stands before that, and a number if there is no such table. */
  ghost predicate IsKindOf(upper: Upper, name: string, tables: seq<DefineTable>, kind: ColumnKind) {
    var cut := |name| - 3;
    if cut < 0 || name[cut..] != "_id" then kind == Any
    else if cut > 0 && HasTable(tables, PascalForm(upper, name[..cut], true))
    then kind == Record(PascalForm(upper, name[..cut], true))
    else kind == Int
  }

  lemma InferMeans(upper: Upper, facts: set<Fact>, name: string, kind: ColumnKind)
    ensures kind == Infer(upper, name, Tables(facts)) <==> IsKindOf(upper, name, Schema(upper, facts), kind)
  {
    hide Tables, Schema, HasTable, Pascal, PascalForm;
    var cut := |name| - 3;
    if cut >= 0 && name[cut..] == "_id" {
      var stem := name[..cut];
      assert name == stem + ID_SUFFIX;
      StripSuffixOf(stem, ID_SUFFIX);
      PascalIsPascalForm(upper, stem);
      HasTableIff(upper, facts, PascalForm(upper, stem, true));
    }
  }

  /** What the projection declares, in terms of the triples themselves: a table for every name without a dot that
      is typed as an object type; under it a field for every property typed so under that table's name; required
      when the table's own `_validate` reads it; of the kind its name tells. Tables and fields are strictly sorted by
      name. */
  lemma ProjectionMeans(upper: Upper, triples: seq<Triple>, table: string, field: DefineField)
    ensures var tables := Schema(upper, Facts(triples));
            && InStrictOrder(tables)
            && (HasTable(tables, table) <==>
                '.' !in table && Told(triples, "openproject:" + table, "rdf:type", "ogit:ObjectType"))
            && (HasField(tables, table, field) <==>
                && HasTable(tables, table)
                && Told(triples, "openproject:" + (table + "." + field.name), "rdf:type", "ogit:Property")
                && (field.required <==>
                    Told(triples, "openproject:" + (table + "._validate"), "reads_field",
                         "openproject:" + (table + "." + field.name)))
                && IsKindOf(upper, field.name, tables, field.kind))
  {
    hide Tables, FieldsOf, RequiredColumns, Infer, Facts, Schema, Told, HasTable, HasField, InStrictOrder, IsKindOf;
    var facts := Facts(triples);
    SchemaInStrictOrder(upper, facts);
    HasTableIff(upper, facts, table);
    HasFieldIff(upper, facts, table, field);
    InferMeans(upper, facts, field.name, field.kind);
    TableDeclared(facts, table);
    ToldIffFact(triples, NAMESPACE_PREFIX + table, PRED_OGIT_TYPE, OBJ_OBJECT_TYPE);
    if '.' !in table {
      FieldDeclared(facts, table, field.name);
      RequirementDeclared(facts, table, field.name);
      ToldIffFact(triples, NAMESPACE_PREFIX + (table + "." + field.name), PRED_OGIT_TYPE, OBJ_PROPERTY);
      ToldIffFact(triples, NAMESPACE_PREFIX + (table + VALIDATE_FN_SUFFIX), PRED_READS_FIELD,
                  NAMESPACE_PREFIX + (table + "." + field.name));
    }
  }

  /** The tables depend only on which (s, p, o) occur: not on their order, on repetitions or on truth values. */
  lemma OrderAndTruthDoNotMatter(upper: Upper, a: seq<Triple>, b: seq<Triple>)
    requires forall t :: t in a ==> exists u :: u in b && FactOf(u) == FactOf(t)
    requires forall u :: u in b ==> exists t :: t in a && FactOf(t) == FactOf(u)
    ensures Schema(upper, Facts(a)) == Schema(upper, Facts(b))
  {
    hide Schema, FactOf;
    assert Facts(a) == Facts(b);
  }

  /** Every record link points to a table of the same projection. */
  lemma RecordsPointToTables(upper: Upper, facts: set<Fact>, table: string, field: DefineField)
    requires HasField(Schema(upper, facts), table, field) && field.kind.Record?
    ensures HasTable(Schema(upper, facts), field.kind.target)
  {
    hide Tables, FieldsOf, RequiredColumns, Schema, HasField, HasTable, Pascal;
    HasFieldIff(upper, facts, table, field);
    HasTableIff(upper, facts, field.kind.target);
  }

  /** A kind that a field may have after more triples came in. */
  predicate MayBecome(before: ColumnKind, after: ColumnKind) {
    after == before || (before == Int && after.Record?)
  }

  /** More triples never take anything away: every table and every field stays, required fields stay required,
      and a kind at most changes from Int to Record. */
  lemma MoreTriplesOnlyAdd(
    upper: Upper, triples: seq<Triple>, more: seq<Triple>, table: string, field: DefineField)
    requires forall t :: t in triples ==> t in more
    ensures HasTable(Schema(upper, Facts(triples)), table) ==> HasTable(Schema(upper, Facts(more)), table)
    ensures HasField(Schema(upper, Facts(triples)), table, field) ==>
              exists later ::
                && HasField(Schema(upper, Facts(more)), table, later)
                && later.name == field.name
                && (field.required ==> later.required)
                && MayBecome(field.kind, later.kind)
  {
    hide Schema, HasTable, HasField, Pascal, FactOf;
    var a, b := Facts(triples), Facts(more);
    assert a <= b;
    FactsOnlyAdd(a, b, table);
    HasTableIff(upper, a, table);
    HasTableIff(upper, b, table);
    HasFieldIff(upper, a, table, field);
    if HasField(Schema(upper, a), table, field) {
      var later := FieldSchema(upper, b, table, field.name);
      HasFieldIff(upper, b, table, later);
      assert HasField(Schema(upper, b), table, later);
    }
  }

  lemma FactsOnlyAdd(a: set<Fact>, b: set<Fact>, table: string)
    requires a <= b
    ensures Tables(a) <= Tables(b) && FieldsOf(a, table) <= FieldsOf(b, table)
    ensures RequiredColumns(a) <= RequiredColumns(b)
  {
    hide DeclaredTable, DeclaredField, RequiredColumn;
  }

  /** Words without underscore, joined by underscores, become their capitalised concatenation. */
  lemma PascalOfWords(upper: Upper, words: seq<string>)
    requires words != [] && forall i :: 0 <= i < |words| ==> '_' !in words[i]
    ensures Pascal(upper, Join(words, "_")) == CapitalizeAll(upper, words)
  {
    SplitJoin(words, '_');
  }

  // ---------- lowering to the schema tree ----------

  datatype Kind = AnyKind | IntKind | RecordKind(targets: seq<string>) | OptionKind(inner: Kind) {
    function Optional(): Kind {
      if OptionKind? then this else OptionKind(this)
    }
  }

  datatype FieldDefinition = FieldDefinition(name: string, table: string, kind: Kind)

  datatype IndexDefinition = IndexDefinition(name: string, table: string, fields: seq<string>)

  datatype TableDefinition =
    TableDefinition(name: string, fields: seq<FieldDefinition>, indices: seq<IndexDefinition>)

  function ColumnKindToAstKind(kind: ColumnKind): Kind {
    match kind
    case Any => AnyKind
    case Int => IntKind
    case Record(target) => RecordKind([target])
  }

  predicate IsFkIndexable(kind: ColumnKind) {
    kind.Int? || kind.Record?
  }

  function LowerField(table: string, field: DefineField): FieldDefinition {
    var kind := ColumnKindToAstKind(field.kind);
    FieldDefinition(field.name, table, if field.required then kind else kind.Optional())
  }

  function IndexOf(table: string, field: DefineField): IndexDefinition {
    IndexDefinition("idx_" + table + "_" + field.name, table, [field.name])
  }

  function LowerFields(table: string, fields: seq<DefineField>): seq<FieldDefinition> {
    seq(|fields|, i requires 0 <= i < |fields| => LowerField(table, fields[i]))
  }

  function LowerIndices(table: string, fields: seq<DefineField>): seq<IndexDefinition> {
    if fields == [] then []
    else
      var last := |fields| - 1;
      LowerIndices(table, fields[..last])
      + if IsFkIndexable(fields[last].kind) then [IndexOf(table, fields[last])] else []
  }

  function LowerTable(table: DefineTable): TableDefinition {
    TableDefinition(table.name, LowerFields(table.name, table.fields), LowerIndices(table.name, table.fields))
  }

  function LowerTables(tables: seq<DefineTable>): seq<TableDefinition> {
    seq(|tables|, i requires 0 <= i < |tables| => LowerTable(tables[i]))
  }

  method BuildAstSchema(projected: OpSurrealConst) returns (schema: seq<TableDefinition>)
    ensures schema == LowerTables(projected.tables)
  {
    schema := [];
    for i := 0 to |projected.tables|
      invariant schema == LowerTables(projected.tables[..i])
    {
      var table := projected.tables[i];
      var t := TableDefinition(table.name, [], []);
      for j := 0 to |table.fields|
        invariant t.name == table.name && t.fields == LowerFields(table.name, table.fields[..j])
        invariant t.indices == LowerIndices(table.name, table.fields[..j])
      {
        var field := table.fields[j];
        var kind := ColumnKindToAstKind(field.kind);
        if !field.required {
          kind := kind.Optional();
        }
        assert table.fields[..j + 1][..j] == table.fields[..j];
        t := t.(fields := t.fields + [FieldDefinition(field.name, table.name, kind)]);
        if IsFkIndexable(field.kind) {
          var index := IndexDefinition("idx_" + table.name + "_" + field.name, table.name, [field.name]);
          t := t.(indices := t.indices + [index]);
        }
      }
      assert table.fields[..|table.fields|] == table.fields;
      assert t == LowerTable(table);
      schema := schema + [t];
    }
    assert projected.tables[..|projected.tables|] == projected.tables;
  }

  /** The tree has the tables and fields of the projection in their order; a field is optional exactly when it is
      not required, and a record field links to the one table inferred. */
  lemma LoweringKeepsFields(tables: seq<DefineTable>, t: nat, f: nat)
    requires t < |tables| && f < |tables[t].fields|
    ensures |LowerTables(tables)| == |tables| && |LowerTables(tables)[t].fields| == |tables[t].fields|
    ensures var field := tables[t].fields[f];
            var lowered := LowerTables(tables)[t].fields[f];
            && LowerTables(tables)[t].name == lowered.table == tables[t].name
            && lowered.name == field.name
            && (lowered.kind.OptionKind? <==> !field.required)
            && var kind := if lowered.kind.OptionKind? then lowered.kind.inner else lowered.kind;
               && (kind == AnyKind <==> field.kind == Any)
               && (kind == IntKind <==> field.kind == Int)
               && (forall target :: kind == RecordKind([target]) <==> field.kind == Record(target))
  {
    hide LowerIndices;
  }

  /** The tree determines the tables it was lowered from: nothing is lost or confused. */
  lemma LoweringIsInjective(a: seq<DefineTable>, b: seq<DefineTable>)
    requires LowerTables(a) == LowerTables(b)
    ensures a == b
  {
    hide LowerField, LowerIndices;
    assert |a| == |LowerTables(a)| == |b|;
    forall t | 0 <= t < |a|
      ensures a[t] == b[t]
    {
      assert LowerTables(a)[t] == LowerTables(b)[t];
      assert |LowerTables(a)[t].fields| == |a[t].fields| && |LowerTables(b)[t].fields| == |b[t].fields|;
      forall f | 0 <= f < |a[t].fields|
        ensures a[t].fields[f] == b[t].fields[f]
      {
        FieldIsDetermined(a, b, t, f);
      }
      assert a[t].name == LowerTables(a)[t].name;
    }
  }

  lemma FieldIsDetermined(a: seq<DefineTable>, b: seq<DefineTable>, t: nat, f: nat)
    requires LowerTables(a) == LowerTables(b)
    requires t < |a| && f < |a[t].fields| && t < |b| && f < |b[t].fields|
    ensures a[t].fields[f] == b[t].fields[f]
  {
    hide LowerTables;
    LoweringKeepsFields(a, t, f);
    LoweringKeepsFields(b, t, f);
    var lowered := LowerTables(a)[t].fields[f];
    var kind := if lowered.kind.OptionKind? then lowered.kind.inner else lowered.kind;
    var one, other := a[t].fields[f].kind, b[t].fields[f].kind;
    assert one.Record? ==> kind == RecordKind([one.target]);
    assert other.Record? ==> kind == RecordKind([other.target]);
  }

  lemma {:induction false} IndexedIffIndexable(table: string, fields: seq<DefineField>, index: IndexDefinition)
    ensures index in LowerIndices(table, fields)
            <==> exists field :: field in fields && IsFkIndexable(field.kind) && index == IndexOf(table, field)
    decreases |fields|
  {
    hide IsFkIndexable;
    if fields != [] {
      var last := |fields| - 1;
      IndexedIffIndexable(table, fields[..last], index);
      assert fields == fields[..last] + [fields[last]];
    }
  }

  lemma IndexableIffIdSuffix(upper: Upper, name: string, known: set<string>)
    ensures IsFkIndexable(Infer(upper, name, known)) <==> |name| >= 3 && name[|name| - 3..] == "_id"
  {
    hide Pascal;
    if |name| >= 3 && name[|name| - 3..] == "_id" {
      assert name == name[..|name| - 3] + ID_SUFFIX;
    }
  }

  /** In the schema tree of a projection an index stands under a table exactly for its fields whose names end
      in `_id`. */
  lemma IndexedIffIdField(upper: Upper, facts: set<Fact>, t: nat, index: IndexDefinition)
    requires t < |Schema(upper, facts)|
    ensures var table := Schema(upper, facts)[t];
            index in LowerTables(Schema(upper, facts))[t].indices
            <==> exists j ::
              && 0 <= j < |table.fields|
              && var name := table.fields[j].name;
                 && index == IndexDefinition("idx_" + table.name + "_" + name, table.name, [name])
                 && |name| >= 3 && name[|name| - 3..] == "_id"
  {
    hide FieldsOf, Tables, RequiredColumns, Infer, IsFkIndexable, LowerIndices;
    var table := Schema(upper, facts)[t];
    IndexedIffIndexable(table.name, table.fields, index);
    forall j | 0 <= j < |table.fields|
      ensures var name := table.fields[j].name;
              IsFkIndexable(table.fields[j].kind) <==> |name| >= 3 && name[|name| - 3..] == "_id"
    {
      IndexableIffIdSuffix(upper, table.fields[j].name, Tables(facts));
    }
  }
}
