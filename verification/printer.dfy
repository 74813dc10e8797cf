/** The schema printer (`GraphQL::Schema::Printer`): renders a schema as
    schema-definition-language text. Directives and types are filtered, types
    are sorted by name, and each type is rendered by the printer for its kind.
    Descriptions are never printed: `print_description` returns `''` before
    looking at its argument, so a description only decides whether an
    argument list is laid out on one line or on several. Rendering a default
    value can raise; such renderers return a `Result`. Float
    conversions are left abstract: they are the `floats` parameter. */
module Printer {
  import opened Wrappers
  import opened Seqs
  import opened Text
  import opened TypeSystem
  import opened RubyValues

  // ---------------------------------------------------------------------------
  // Which directives and types are printed.

  const BuiltinScalars: set<string> := {"String", "Boolean", "Int", "Float", "ID"}

  predicate IsSpecDirective(d: Directive) {
    d.name in ["skip", "include", "deprecated"]
  }

  predicate IsIntrospectionType(t: GraphType) {
    StartsWith(t.name, "__")
  }

  predicate IsDefinedType(t: GraphType) {
    !IsIntrospectionType(t) && t.name !in BuiltinScalars
  }

  predicate NotSpecDirective(d: Directive) {
    !IsSpecDirective(d)
  }

  // ---------------------------------------------------------------------------
  // Ordering types by name: `sort_by(&:name)`.

  predicate SortedByName(ts: seq<GraphType>) {
    forall i, j :: 0 <= i < j < |ts| ==> LexLe(ts[i].name, ts[j].name)
  }

  function InsertByName(t: GraphType, ts: seq<GraphType>): (r: seq<GraphType>)
    requires SortedByName(ts)
    ensures SortedByName(r)
    ensures multiset(r) == multiset(ts) + multiset{t}
  {
    if |ts| == 0 then [t]
    else if LexLe(t.name, ts[0].name) then
      SortedBefore(t, ts);
      [t] + ts
    else
      LexLeTotal(t.name, ts[0].name);
      var rest := InsertByName(t, ts[1..]);
      assert ts == [ts[0]] + ts[1..];
      HeadBelowRest(ts);
      SortedCons(ts[0], rest);
      [ts[0]] + rest
  }

  /** A type no later than the head of a sorted list may go in front of it. */
  lemma SortedBefore(t: GraphType, ts: seq<GraphType>)
    requires SortedByName(ts) && |ts| > 0 && LexLe(t.name, ts[0].name)
    ensures SortedByName([t] + ts)
  {
    forall j | 0 <= j < |ts| ensures LexLe(t.name, ts[j].name) {
      if j > 0 {
        LexLeTransitive(t.name, ts[0].name, ts[j].name);
      }
    }
    var r := [t] + ts;
    forall i, j | 0 <= i < j < |r| ensures LexLe(r[i].name, r[j].name) {
      assert r[j] == ts[j - 1];
      if i > 0 {
        assert r[i] == ts[i - 1];
      }
    }
  }

  /** In a sorted list every later element is no earlier than the head. */
  lemma HeadBelowRest(ts: seq<GraphType>)
    requires SortedByName(ts) && |ts| > 0
    ensures forall x :: x in multiset(ts[1..]) ==> LexLe(ts[0].name, x.name)
  {
    forall x | x in multiset(ts[1..]) ensures LexLe(ts[0].name, x.name) {
      var k :| 0 <= k < |ts[1..]| && ts[1..][k] == x;
      assert ts[k + 1] == x;
    }
  }

  lemma SortedCons(x: GraphType, rest: seq<GraphType>)
    requires SortedByName(rest)
    requires forall y :: y in multiset(rest) ==> LexLe(x.name, y.name)
    ensures SortedByName([x] + rest)
  {
    var r := [x] + rest;
    forall i, j | 0 <= i < j < |r| ensures LexLe(r[i].name, r[j].name) {
      assert r[j] == rest[j - 1] && r[j] in multiset(rest);
      if i > 0 {
        assert r[i] == rest[i - 1];
      }
    }
  }

  /** The types in name order; the same types, each as often as before. */
  function SortByName(ts: seq<GraphType>): (r: seq<GraphType>)
    ensures SortedByName(r)
    ensures multiset(r) == multiset(ts)
  {
    if |ts| == 0 then []
    else
      assert ts == [ts[0]] + ts[1..];
      InsertByName(ts[0], SortByName(ts[1..]))
  }

  /** No two different types share a name. */
  predicate NamesIdentify(ts: multiset<GraphType>) {
    forall x, y :: x in ts && y in ts && x.name == y.name ==> x == y
  }

  /** Sorting by name leaves no choice when names identify types: any two
      name-ordered arrangements of the same types are equal. So the unstable
      `sort_by` still prints the types in one order only. */
  lemma {:induction false} SortedUnique(a: seq<GraphType>, b: seq<GraphType>)
    requires SortedByName(a) && SortedByName(b)
    requires multiset(a) == multiset(b) && NamesIdentify(multiset(a))
    ensures a == b
    decreases |a|
  {
    if |a| == 0 {
      assert |multiset(b)| == 0;
    } else {
      SortedHeads(a, b);
      SortedTails(a, b);
      SortedTail(a);
      SortedTail(b);
      SortedUnique(a[1..], b[1..]);
      assert a == [a[0]] + a[1..] && b == [b[0]] + b[1..];
    }
  }

  /** The head of a sorted list comes no later than any of its elements. */
  lemma SortedHeadFirst(a: seq<GraphType>, x: GraphType)
    requires SortedByName(a) && x in multiset(a)
    ensures |a| > 0 && LexLe(a[0].name, x.name)
  {
    var j :| 0 <= j < |a| && a[j] == x;
    if j == 0 {
      LexLeTotal(x.name, x.name);
    }
  }

  lemma SortedHeads(a: seq<GraphType>, b: seq<GraphType>)
    requires SortedByName(a) && SortedByName(b) && |a| > 0
    requires multiset(a) == multiset(b) && NamesIdentify(multiset(a))
    ensures |b| > 0 && a[0] == b[0]
  {
    assert a[0] in multiset(a);
    SortedHeadFirst(b, a[0]);
    assert b[0] in multiset(b);
    SortedHeadFirst(a, b[0]);
    LexLeAntisymmetric(a[0].name, b[0].name);
  }

  lemma SortedTails(a: seq<GraphType>, b: seq<GraphType>)
    requires |a| > 0 && |b| > 0 && a[0] == b[0]
    requires multiset(a) == multiset(b) && NamesIdentify(multiset(a))
    ensures multiset(a[1..]) == multiset(b[1..]) && NamesIdentify(multiset(a[1..]))
  {
    assert a == [a[0]] + a[1..] && b == [b[0]] + b[1..];
    assert multiset(a[1..]) == multiset(a) - multiset{a[0]};
    assert multiset(b[1..]) == multiset(b) - multiset{b[0]};
    assert multiset(a[1..]) <= multiset(a);
  }

  lemma SortedTail(ts: seq<GraphType>)
    requires SortedByName(ts) && |ts| > 0
    ensures SortedByName(ts[1..])
  {
    forall i, j | 0 <= i < j < |ts[1..]| ensures LexLe(ts[1..][i].name, ts[1..][j].name) {
      assert ts[1..][i] == ts[i + 1] && ts[1..][j] == ts[j + 1];
    }
  }

  // ---------------------------------------------------------------------------
  // Default values: `print_value`.

  /** How deeply a type reference nests list and non-null wrappers. */
  function TypeSize(t: TypeRef): nat {
    match t
    case Named(_) => 0
    case List(inner) => 1 + TypeSize(inner)
    case NonNull(inner) => 1 + TypeSize(inner)
  }

  /** `t` names the scalar `name` of `types`. Ruby compares the type object
      with the built-in `Float`, `Int` and `Boolean` types; the model finds
      the scalar by name, as a schema holds one type per name. */
  predicate NamesScalar(types: seq<GraphType>, t: TypeRef, name: string) {
    t.Named? && t.name == name && FindType(types, name).Some? && FindType(types, name).value.ScalarType?
  }

  /** Ruby `print_value(value, type)`: the text of a default value, directed by
      the declared type; named types are looked up in `types`. Lists print
      the items of `value.to_a`, input objects the entries of `value.to_h`. */
  function PrintValue(types: seq<GraphType>, floats: FloatOps, value: Literal, t: TypeRef): (r: Result<string>)
    ensures t.Named? && FindType(types, t.name).Some? && FindType(types, t.name).value.EnumType? ==>
              r == Success(ToS(value))
    ensures t.Named? && (FindType(types, t.name).None? || FindType(types, t.name).value.ObjectType?
              || FindType(types, t.name).value.InterfaceType? || FindType(types, t.name).value.UnionType?) ==>
              r.Failure?
    decreases Size(value), 1, TypeSize(t)
  {
    match t
    case NonNull(inner) => PrintValue(types, floats, value, inner)
    case List(inner) => PrintListValue(types, floats, value, inner)
    case Named(n) =>
      match FindType(types, n)
      case Some(ScalarType(_, _)) =>
        // Ruby tests the three built-in scalars before the kind of the type.
        if n == "Float" then floats.inspect(value)
        else if n == "Int" then IntText(floats, value)
        else if n == "Boolean" then Success(BoolText(value))
        else Success(Quote(ToS(value)))
      case Some(EnumType(_, _, _)) => Success(ToS(value))
      case Some(InputObjectType(_, _, inputFields)) => PrintObjectValue(types, floats, value, inputFields)
      case _ => Failure("NotImplementedError")
  }

  /** A value of a list type: the items of `value.to_a`, each printed with
      the item type. */
  function PrintListValue(types: seq<GraphType>, floats: FloatOps, value: Literal, itemType: TypeRef): Result<string>
    decreases Size(value), 0, 0
  {
    var items :- ToA(value);
    var texts :- PrintItems(types, floats, items, itemType);
    Success("[" + Join(texts, ", ") + "]")
  }

  /** A value of an input-object type: the entries of `value.to_h`, each
      printed with the type of the field its key names. */
  function PrintObjectValue(types: seq<GraphType>, floats: FloatOps, value: Literal, fields: seq<InputValue>): Result<string>
    decreases Size(value), 0, 0
  {
    var entries :- ToH(value);
    var texts :- PrintEntries(types, floats, entries, fields);
    Success("{ " + Join(texts, ", ") + " }")
  }

  /** The items of a list value printed in order (Ruby `map`); the first
      failure otherwise. */
  function PrintItems(types: seq<GraphType>, floats: FloatOps, items: seq<Literal>, t: TypeRef): (r: Result<seq<string>>)
    ensures r.Success? <==> forall i :: 0 <= i < |items| ==> PrintValue(types, floats, items[i], t).Success?
    ensures r.Success? ==> |r.value| == |items|
    ensures r.Success? ==> forall i :: 0 <= i < |items| ==> PrintValue(types, floats, items[i], t) == Success(r.value[i])
    decreases ItemsSize(items), 2, 0
  {
    if |items| == 0 then Success([])
    else
      assert ItemsSize(items) == Size(items[0]) + ItemsSize(items[1..]);
      var text :- PrintValue(types, floats, items[0], t);
      var more :- PrintItems(types, floats, items[1..], t);
      Success([text] + more)
  }

  /** The built-in scalars: `Float` is `value.to_f.inspect`, `Int` is
      `value.to_i.inspect`, `Boolean` is `(!!value).inspect`; any other
      scalar is `value.to_s.inspect`. */
  lemma ScalarValueText(types: seq<GraphType>, floats: FloatOps, value: Literal, t: TypeRef)
    requires t.Named? && FindType(types, t.name).Some? && FindType(types, t.name).value.ScalarType?
    ensures t.name == "Float" ==> PrintValue(types, floats, value, t) == floats.inspect(value)
    ensures t.name == "Int" ==> (PrintValue(types, floats, value, t).Success? <==> IntText(floats, value).Success?)
    ensures t.name == "Int" && value.IntLit? ==> PrintValue(types, floats, value, t) == Success(Decimal(value.i))
    ensures t.name == "Int" && value.StringLit? ==>
              PrintValue(types, floats, value, t) == Success(Decimal(StringToI(value.s)))
    ensures t.name == "Boolean" ==>
              PrintValue(types, floats, value, t) == Success(if value == NullLit || value == BoolLit(false) then "false" else "true")
    ensures t.name !in ["Float", "Int", "Boolean"] ==> PrintValue(types, floats, value, t) == Success(Quote(ToS(value)))
  {
  }

  /** Joined texts between an opening and a closing delimiter; no texts
      leave the two delimiters side by side. */
  lemma Enclosed(open: string, texts: seq<string>, close: string)
    ensures StartsWith(open + Join(texts, ", ") + close, open)
    ensures EndsWith(open + Join(texts, ", ") + close, close)
    ensures texts == [] ==> open + Join(texts, ", ") + close == open + close
  {
    StartsWithAppend(open, Join(texts, ", ") + close);
    assert open + Join(texts, ", ") + close == open + (Join(texts, ", ") + close);
    EndsWithAppend(open + Join(texts, ", "), close);
  }

  /** A list prints the items of `value.to_a` in brackets: nil prints `[]`,
      and a value without `to_a` raises. */
  lemma ListValueText(types: seq<GraphType>, floats: FloatOps, value: Literal, t: TypeRef)
    requires t.List?
    ensures PrintValue(types, floats, value, t).Success? ==>
              StartsWith(PrintValue(types, floats, value, t).value, "[") && EndsWith(PrintValue(types, floats, value, t).value, "]")
    ensures PrintValue(types, floats, value, t).Success? <==>
              ToA(value).Success? && PrintItems(types, floats, ToA(value).value, t.ofType).Success?
    ensures ToA(value).Failure? ==> PrintValue(types, floats, value, t) == Failure(NoMethod)
    ensures value == NullLit ==> PrintValue(types, floats, value, t) == Success("[]")
  {
    var r := PrintValue(types, floats, value, t);
    assert r == PrintListValue(types, floats, value, t.ofType);
    if ToA(value).Success? && PrintItems(types, floats, ToA(value).value, t.ofType).Success? {
      var texts := PrintItems(types, floats, ToA(value).value, t.ofType).value;
      assert r == Success("[" + Join(texts, ", ") + "]");
      Enclosed("[", texts, "]");
      if value == NullLit {
        assert ToA(value).value == [] && texts == [];
        assert "[" + "]" == "[]";
      }
    }
  }

  /** An input object prints the entries of `value.to_h` in braces: nil
      prints `{  }`, and a value without `to_h`, or an array whose items
      are not all pairs, raises. */
  lemma ObjectValueText(types: seq<GraphType>, floats: FloatOps, value: Literal, t: TypeRef)
    requires t.Named? && FindType(types, t.name).Some? && FindType(types, t.name).value.InputObjectType?
    ensures PrintValue(types, floats, value, t).Success? ==>
              StartsWith(PrintValue(types, floats, value, t).value, "{ ") && EndsWith(PrintValue(types, floats, value, t).value, " }")
    ensures PrintValue(types, floats, value, t).Success? <==>
              ToH(value).Success? && PrintEntries(types, floats, ToH(value).value, FindType(types, t.name).value.inputFields).Success?
    ensures ToH(value).Failure? ==> PrintValue(types, floats, value, t).Failure?
    ensures value == NullLit ==> PrintValue(types, floats, value, t) == Success("{  }")
  {
    var fields := FindType(types, t.name).value.inputFields;
    assert PrintValue(types, floats, value, t) == PrintObjectValue(types, floats, value, fields);
    if ToH(value).Success? && PrintEntries(types, floats, ToH(value).value, fields).Success? {
      var texts := PrintEntries(types, floats, ToH(value).value, fields).value;
      Enclosed("{ ", texts, " }");
      if value == NullLit {
        assert ToH(value).value == [] && texts == [];
        assert "{ " + " }" == "{  }";
      }
    }
  }

  /** The field of an input object an entry's key names; Ruby
      `input_fields.fetch(key)`. */
  function EntryField(fields: seq<InputValue>, e: Entry): Option<InputValue> {
    FindNamed(fields, InputValueName, e.key)
  }

  /** The entries of an input-object value printed in order as `key: value`,
      each value directed by the type of the field its key names; a key that
      names no field raises `KeyError`. */
  function PrintEntries(types: seq<GraphType>, floats: FloatOps, entries: seq<Entry>, fields: seq<InputValue>): (r: Result<seq<string>>)
    ensures r.Success? <==> forall i :: 0 <= i < |entries| ==>
              EntryField(fields, entries[i]).Some? &&
              PrintValue(types, floats, entries[i].value, EntryField(fields, entries[i]).value.typeRef).Success?
    ensures r.Success? ==> |r.value| == |entries|
    ensures r.Success? ==> forall i :: 0 <= i < |entries| ==>
              r.value[i] == entries[i].key + ": " + PrintValue(types, floats, entries[i].value, EntryField(fields, entries[i]).value.typeRef).value
    decreases EntriesSize(entries), 2, 0
  {
    if |entries| == 0 then Success([])
    else
      assert EntriesSize(entries) == 2 + Size(entries[0].value) + EntriesSize(entries[1..]);
      match EntryField(fields, entries[0])
      case None => Failure("KeyError")
      case Some(field) =>
        var text :- PrintValue(types, floats, entries[0].value, field.typeRef);
        var more :- PrintEntries(types, floats, entries[1..], fields);
        Success([entries[0].key + ": " + text] + more)
  }

  // ---------------------------------------------------------------------------
  // Arguments, fields and deprecation.

  /** Ruby `print_deprecated`: nil prints nothing. */
  function PrintDeprecated(reason: Option<string>): (r: string)
    ensures r == "" <==> reason.None?
  {
    match reason
    case None => ""
    case Some(text) =>
      if text == "" then " @deprecated" else " @deprecated(reason: " + Quote(text) + ")"
  }

  /** Ruby `print_input_value`: `name: Type`, then ` = default` unless the
      default is nil. */
  function PrintInputValue(types: seq<GraphType>, floats: FloatOps, arg: InputValue): (r: Result<string>)
    ensures r.Success? <==> arg.defaultValue == NullLit || PrintValue(types, floats, arg.defaultValue, arg.typeRef).Success?
    ensures r.Success? ==> StartsWith(r.value, arg.name + ": " + TypeRefString(arg.typeRef))
  {
    var head := arg.name + ": " + TypeRefString(arg.typeRef);
    if arg.defaultValue == NullLit then Success(head)
    else
      var text :- PrintValue(types, floats, arg.defaultValue, arg.typeRef);
      assert (head + " = " + text)[..|head|] == head;
      Success(head + " = " + text)
  }

  predicate Undescribed(arg: InputValue) {
    arg.description.None?
  }

  function InputValueTexts(types: seq<GraphType>, floats: FloatOps, args: seq<InputValue>): (r: Result<seq<string>>)
    ensures r.Success? <==> forall i :: 0 <= i < |args| ==> PrintInputValue(types, floats, args[i]).Success?
    ensures r.Success? ==> |r.value| == |args|
    ensures r.Success? ==> forall i :: 0 <= i < |args| ==> PrintInputValue(types, floats, args[i]) == Success(r.value[i])
  {
    Collect(Map(args, arg => PrintInputValue(types, floats, arg)))
  }

  /** One argument line of the multi-line layout. */
  function Indented(indentation: string, text: string): string {
    "  " + indentation + text
  }

  function IndentLines(indentation: string, texts: seq<string>): (r: seq<string>)
    ensures |r| == |texts|
    ensures forall i :: 0 <= i < |texts| ==> r[i] == Indented(indentation, texts[i])
  {
    if |texts| == 0 then [] else [Indented(indentation, texts[0])] + IndentLines(indentation, texts[1..])
  }

  /** Ruby `print_args`: nothing when there are no arguments; inline
      `(a: T, b: T = d)` when no argument has a description; otherwise one
      argument per line. */
  function PrintArgs(types: seq<GraphType>, floats: FloatOps, args: seq<InputValue>, indentation: string): (r: Result<string>)
    ensures r.Success? <==> forall i :: 0 <= i < |args| ==> PrintInputValue(types, floats, args[i]).Success?
    ensures r.Success? ==> (r.value == "" <==> |args| == 0)
    ensures r.Success? && |args| > 0 ==> r.value[0] == '('
  {
    if |args| == 0 then Success("")
    else
      var texts :- InputValueTexts(types, floats, args);
      if forall i :: 0 <= i < |args| ==> Undescribed(args[i]) then
        Success("(" + Join(texts, ", ") + ")")
      else
        Success("(\n" + Join(IndentLines(indentation, texts), "\n") + "\n)")
  }

  /** One field line: `  name(args): Type @deprecated…`. */
  function PrintField(types: seq<GraphType>, floats: FloatOps, field: Field): (r: Result<string>)
    ensures r.Success? <==> PrintArgs(types, floats, field.arguments, "  ").Success?
  {
    var args :- PrintArgs(types, floats, field.arguments, "  ");
    Success("  " + field.name + args + ": " + TypeRefString(field.typeRef) + PrintDeprecated(field.deprecationReason))
  }

  function FieldTexts(types: seq<GraphType>, floats: FloatOps, fields: seq<Field>): (r: Result<seq<string>>)
    ensures r.Success? <==> forall i :: 0 <= i < |fields| ==> PrintField(types, floats, fields[i]).Success?
    ensures r.Success? ==> |r.value| == |fields|
    ensures r.Success? ==> forall i :: 0 <= i < |fields| ==> PrintField(types, floats, fields[i]) == Success(r.value[i])
  {
    Collect(Map(fields, field => PrintField(types, floats, field)))
  }

  /** Ruby `print_fields`: the field lines joined by newlines. */
  function PrintFields(types: seq<GraphType>, floats: FloatOps, fields: seq<Field>): (r: Result<string>)
    ensures r.Success? <==> forall i :: 0 <= i < |fields| ==> PrintField(types, floats, fields[i]).Success?
  {
    var lines :- FieldTexts(types, floats, fields);
    Success(Join(lines, "\n"))
  }

  // ---------------------------------------------------------------------------
  // The printers for each kind (`STRATEGIES`) and for directives.

  /** ` implements A, B`, or nothing when the type implements no interface. */
  function Implementations(interfaces: seq<string>): (r: string)
    ensures r == "" <==> |interfaces| == 0
    ensures r != "" ==> r[0] == ' '
  {
    if |interfaces| > 0 then " implements " + Join(interfaces, ", ") else ""
  }

  function EnumValueLine(v: EnumValue): string {
    "  " + v.name + PrintDeprecated(v.deprecationReason)
  }

  /** The keyword each kind's printer starts with. */
  function Keyword(k: TypeKind): string {
    match k
    case Scalar => "scalar"
    case Object => "type"
    case Interface => "interface"
    case Union => "union"
    case Enum => "enum"
    case InputObject => "input"
  }

  /** Ruby `print_type`: dispatch on the kind. */
  function PrintType(types: seq<GraphType>, floats: FloatOps, t: GraphType): (r: Result<string>)
    ensures r.Success? ==> StartsWith(r.value, Keyword(t.Kind()) + " " + t.name)
    ensures t.ScalarType? || t.UnionType? || t.EnumType? ==> r.Success?
  {
    var head := Keyword(t.Kind()) + " " + t.name;
    var r: Result<string> :=
      match t
      case ScalarType(name, _) => Success(head)
      case ObjectType(name, _, interfaces, fields) =>
        var body :- PrintFields(types, floats, fields);
        Success(head + Implementations(interfaces) + " {\n" + body + "\n}")
      case InterfaceType(name, _, fields) =>
        var body :- PrintFields(types, floats, fields);
        Success(head + " {\n" + body + "\n}")
      case UnionType(name, _, possibleTypes) =>
        Success(head + " = " + Join(possibleTypes, " | "))
      case EnumType(name, _, values) =>
        Success(head + " {\n" + Join(Map(values, EnumValueLine), "\n") + "\n}")
      case InputObjectType(name, _, inputFields) =>
        var texts :- InputValueTexts(types, floats, inputFields);
        Success(head + " {\n" + Join(IndentLines("", texts), "\n") + "\n}");
    assert r.Success? ==> r.value[..|head|] == head;
    r
  }

  /** Ruby `DirectivePrinter.print`. */
  function PrintDirective(types: seq<GraphType>, floats: FloatOps, d: Directive): (r: Result<string>)
    ensures r.Success? <==> PrintArgs(types, floats, d.arguments, "").Success?
    ensures r.Success? ==> StartsWith(r.value, "directive @" + d.name)
  {
    var args :- PrintArgs(types, floats, d.arguments, "");
    var head := "directive @" + d.name;
    assert (head + args + " on " + Join(d.locations, " | "))[..|head|] == head;
    Success(head + args + " on " + Join(d.locations, " | "))
  }

  // ---------------------------------------------------------------------------
  // The whole schema.

  /** `  op: Name\n` for a root that is present, nothing otherwise. */
  function RootLine(operation: string, root: Option<string>): string {
    match root
    case Some(name) => "  " + operation + ": " + name + "\n"
    case None => ""
  }

  /** Ruby `print_schema_definition`. */
  function PrintSchemaDefinition(schema: Schema): string {
    "schema {\n"
      + RootLine("query", schema.query)
      + RootLine("mutation", schema.mutation)
      + RootLine("subscription", schema.subscription)
      + "}"
  }

  /** The directives printed, in schema order. */
  function PrintedDirectives(schema: Schema, directiveFilter: Directive -> bool): (r: seq<Directive>)
    ensures forall d :: d in r <==> d in schema.directives && directiveFilter(d)
    ensures IsSubsequence(r, schema.directives)
  {
    Filter(schema.directives, directiveFilter)
  }

  /** The types printed, sorted by name. */
  function PrintedTypes(schema: Schema, typeFilter: GraphType -> bool): (r: seq<GraphType>)
    ensures forall t :: t in r <==> t in schema.types && typeFilter(t)
    ensures SortedByName(r)
    ensures multiset(r) == multiset(Filter(schema.types, typeFilter))
  {
    var r := SortByName(Filter(schema.types, typeFilter));
    assert forall t :: t in r <==> t in multiset(r);
    r
  }

  /** The printed directives' texts, in order; the first failure otherwise. */
  function DirectiveTexts(types: seq<GraphType>, floats: FloatOps, directives: seq<Directive>): (r: Result<seq<string>>)
    ensures r.Success? <==> forall i :: 0 <= i < |directives| ==> PrintDirective(types, floats, directives[i]).Success?
    ensures r.Success? ==> |r.value| == |directives|
    ensures r.Success? ==> forall i :: 0 <= i < |directives| ==> PrintDirective(types, floats, directives[i]) == Success(r.value[i])
  {
    Collect(Map(directives, d => PrintDirective(types, floats, d)))
  }

  /** The printed types' texts, in order; the first failure otherwise. */
  function TypeTexts(types: seq<GraphType>, floats: FloatOps, printed: seq<GraphType>): (r: Result<seq<string>>)
    ensures r.Success? <==> forall i :: 0 <= i < |printed| ==> PrintType(types, floats, printed[i]).Success?
    ensures r.Success? ==> |r.value| == |printed|
    ensures r.Success? ==> forall i :: 0 <= i < |printed| ==> PrintType(types, floats, printed[i]) == Success(r.value[i])
  {
    Collect(Map(printed, t => PrintType(types, floats, t)))
  }

  /** With the type names of a schema distinct, as they are in a schema's
      name-keyed type map, the printed types are the one name-ordered
      arrangement of the selected types. */
  lemma PrintedTypesDetermined(schema: Schema, typeFilter: GraphType -> bool, order: seq<GraphType>)
    requires Distinct(TypeNames(schema.types))
    requires SortedByName(order) && multiset(order) == multiset(Filter(schema.types, typeFilter))
    ensures order == PrintedTypes(schema, typeFilter)
  {
    var selected := Filter(schema.types, typeFilter);
    DistinctNamesIdentify(schema.types, selected);
    var printed := PrintedTypes(schema, typeFilter);
    SortedUnique(order, printed);
  }

  lemma DistinctNamesIdentify(types: seq<GraphType>, selected: seq<GraphType>)
    requires Distinct(TypeNames(types))
    requires forall x :: x in selected ==> x in types
    ensures NamesIdentify(multiset(selected))
  {
    forall x, y | x in multiset(selected) && y in multiset(selected) && x.name == y.name ensures x == y {
      assert x in selected && y in selected;
      var i :| 0 <= i < |types| && types[i] == x;
      var j :| 0 <= j < |types| && types[j] == y;
      assert TypeNames(types)[i] == x.name && TypeNames(types)[j] == y.name;
    }
  }

  /** `texts` are the sections of a printed schema: the schema block, one
      text per printed directive in schema order, then one text per printed
      type in name order. */
  predicate SchemaSections(schema: Schema, floats: FloatOps, directiveFilter: Directive -> bool,
                           typeFilter: GraphType -> bool, texts: seq<string>) {
    var ds := PrintedDirectives(schema, directiveFilter);
    var ts := PrintedTypes(schema, typeFilter);
    |texts| == 1 + |ds| + |ts| && texts[0] == PrintSchemaDefinition(schema) &&
    (forall i :: 0 <= i < |ds| ==> PrintDirective(schema.types, floats, ds[i]) == Success(texts[1 + i])) &&
    (forall i :: 0 <= i < |ts| ==> PrintType(schema.types, floats, ts[i]) == Success(texts[1 + |ds| + i]))
  }

  /** Ruby `print_filtered_schema`: the schema block, then the selected
      directives in schema order, then the selected types in name order,
      separated by blank lines. Fails when rendering a default value raises. */
  function PrintFilteredSchema(schema: Schema, floats: FloatOps,
                               directiveFilter: Directive -> bool, typeFilter: GraphType -> bool): (r: Result<string>)
    ensures r.Success? <==>
              (forall d :: d in schema.directives && directiveFilter(d) ==> PrintDirective(schema.types, floats, d).Success?) &&
              (forall t :: t in schema.types && typeFilter(t) ==> PrintType(schema.types, floats, t).Success?)
    ensures r.Success? ==>
              exists texts :: SchemaSections(schema, floats, directiveFilter, typeFilter, texts) && r.value == Join(texts, "\n\n")
  {
    DirectivesPrint(schema, floats, directiveFilter);
    TypesPrint(schema, floats, typeFilter);
    var directiveTexts :- DirectiveTexts(schema.types, floats, PrintedDirectives(schema, directiveFilter));
    var typeTexts :- TypeTexts(schema.types, floats, PrintedTypes(schema, typeFilter));
    var texts := [PrintSchemaDefinition(schema)] + directiveTexts + typeTexts;
    assert SchemaSections(schema, floats, directiveFilter, typeFilter, texts);
    Success(Join(texts, "\n\n"))
  }

  /** The selected directives all print exactly when their texts do. */
  lemma DirectivesPrint(schema: Schema, floats: FloatOps, directiveFilter: Directive -> bool)
    ensures DirectiveTexts(schema.types, floats, PrintedDirectives(schema, directiveFilter)).Success? <==>
              forall d :: d in schema.directives && directiveFilter(d) ==> PrintDirective(schema.types, floats, d).Success?
  {
    var ds := PrintedDirectives(schema, directiveFilter);
    if DirectiveTexts(schema.types, floats, ds).Success? {
      forall d | d in schema.directives && directiveFilter(d) ensures PrintDirective(schema.types, floats, d).Success? {
        var i :| 0 <= i < |ds| && ds[i] == d;
      }
    }
  }

  /** The selected types all print exactly when their texts do. */
  lemma TypesPrint(schema: Schema, floats: FloatOps, typeFilter: GraphType -> bool)
    ensures TypeTexts(schema.types, floats, PrintedTypes(schema, typeFilter)).Success? <==>
              forall t :: t in schema.types && typeFilter(t) ==> PrintType(schema.types, floats, t).Success?
  {
    var ts := PrintedTypes(schema, typeFilter);
    if TypeTexts(schema.types, floats, ts).Success? {
      forall t | t in schema.types && typeFilter(t) ensures PrintType(schema.types, floats, t).Success? {
        var i :| 0 <= i < |ts| && ts[i] == t;
      }
    }
  }

  /** Ruby `print_schema`: everything but the spec directives, the
      introspection types and the built-in scalars. */
  function PrintSchema(schema: Schema, floats: FloatOps): Result<string> {
    PrintFilteredSchema(schema, floats, NotSpecDirective, IsDefinedType)
  }

  /** Ruby `print_introspection_schema`, for a schema given as a parameter:
      only the spec directives and the introspection types. */
  function PrintIntrospectionSchema(schema: Schema, floats: FloatOps): Result<string> {
    PrintFilteredSchema(schema, floats, IsSpecDirective, IsIntrospectionType)
  }
}
