/** Readers for printed fields, enum values, input fields, whole types and
    directives, and the round trips showing that each printed definition
    reads back as the definition without its descriptions. */
module TypeReading {
  import opened Wrappers
  import opened Seqs
  import opened Text
  import opened TypeSystem
  import opened RubyValues
  import opened Printer
  import opened PrinterReading
  import opened ValueReading
  import opened DefinitionReading

  // ---------------------------------------------------------------------------
  // Fields: `  name(args): Type @deprecated…`.

  function StripField(f: Field): Field {
    f.(arguments := StripArgs(f.arguments), description := None)
  }

  function StripFields(fields: seq<Field>): (r: seq<Field>)
    ensures |r| == |fields|
    ensures forall i :: 0 <= i < |fields| ==> r[i] == StripField(fields[i])
  {
    if |fields| == 0 then [] else [StripField(fields[0])] + StripFields(fields[1..])
  }

  predicate PrintableField(types: seq<GraphType>, f: Field) {
    IsName(f.name) && RefNames(f.typeRef) && PrintableArgs(types, f.arguments)
  }

  predicate PrintableFields(types: seq<GraphType>, fields: seq<Field>) {
    forall i :: 0 <= i < |fields| ==> PrintableField(types, fields[i])
  }

  function ReadField(types: seq<GraphType>, s: string): (r: Option<(Field, string)>)
    ensures r.Some? ==> |r.value.1| < |s| && StartsWith(s, "  ")
  {
    if !StartsWith(s, "  ") then None
    else
      var body := s[2..];
      var k := NameRun(body);
      if k == 0 then None
      else
        match ReadArgs(types, body[k..], "  ")
        case None => None
        case Some((args, afterArgs)) =>
          if !StartsWith(afterArgs, ": ") then None
          else
            match ReadTypeRef(afterArgs[2..])
            case None => None
            case Some((t, afterType)) =>
              match ReadDeprecation(afterType)
              case None => None
              case Some((reason, rest)) => Some((Field(body[..k], t, args, None, reason), rest))
  }

  /** A printable field prints, and its line reads back as the field without
      its descriptions. */
  lemma FieldRoundTrip(types: seq<GraphType>, floats: FloatOps, f: Field, rest: string)
    requires PrintableField(types, f) && LineEnd(rest)
    ensures PrintField(types, floats, f).Success?
    ensures ReadField(types, PrintField(types, floats, f).value + rest) == Some((StripField(f), rest))
  {
    var z := PrintDeprecated(f.deprecationReason) + rest;
    var y := TypeRefString(f.typeRef) + z;
    ArgsRoundTrip(types, floats, f.arguments, "  ", ": " + y);
    var argsText := PrintArgs(types, floats, f.arguments, "  ").value;
    FieldText(types, floats, f, rest);
    AfterFieldName(argsText, y);
    DeprecationRoundTrip(f.deprecationReason, rest);
    DeprecationLead(f.deprecationReason, rest);
    ReadTypeRefString(f.typeRef, z);
    ReadFieldOf(types, f.name, argsText + (": " + y), StripArgs(f.arguments), y, f.typeRef, z,
                f.deprecationReason, rest);
  }

  lemma FieldText(types: seq<GraphType>, floats: FloatOps, f: Field, rest: string)
    requires PrintArgs(types, floats, f.arguments, "  ").Success?
    ensures PrintField(types, floats, f).Success?
    ensures PrintField(types, floats, f).value + rest
              == "  " + (f.name + (PrintArgs(types, floats, f.arguments, "  ").value
                   + (": " + (TypeRefString(f.typeRef) + (PrintDeprecated(f.deprecationReason) + rest)))))
  {
  }

  /** What follows a field name is an argument list or the colon. */
  lemma AfterFieldName(argsText: string, y: string)
    requires argsText == "" || argsText[0] == '('
    ensures var x := argsText + (": " + y); |x| > 0 && !NameChar(x[0])
  {
    var x := argsText + (": " + y);
    if argsText == "" {
      assert x[0] == ':';
    } else {
      assert x[0] == '(';
    }
  }

  /** A deprecation suffix starts with a space, so it ends a type reference. */
  lemma DeprecationLead(reason: Option<string>, rest: string)
    requires LineEnd(rest)
    ensures var z := PrintDeprecated(reason) + rest; |z| == 0 || !RefChar(z[0])
  {
    match reason
    case None =>
      assert PrintDeprecated(reason) + rest == rest;
    case Some(text) =>
      var d := PrintDeprecated(reason);
      assert d[0] == ' ';
      assert (d + rest)[0] == ' ';
  }

  lemma ReadFieldOf(types: seq<GraphType>, name: string, x: string, args: seq<InputValue>, y: string,
                    t: TypeRef, z: string, reason: Option<string>, rest: string)
    requires IsName(name) && |x| > 0 && !NameChar(x[0])
    requires ReadArgs(types, x, "  ") == Some((args, ": " + y))
    requires ReadTypeRef(y) == Some((t, z))
    requires ReadDeprecation(z) == Some((reason, rest))
    ensures ReadField(types, "  " + (name + x)) == Some((Field(name, t, args, None, reason), rest))
  {
    StartsWithAppend("  ", name + x);
    NameRunOf(name, x);
    StartsWithAppend(": ", y);
  }

  lemma FieldLead(types: seq<GraphType>, floats: FloatOps, f: Field)
    requires PrintField(types, floats, f).Success?
    ensures StartsWith(PrintField(types, floats, f).value, "  ")
  {
    FieldText(types, floats, f, "");
    var text := PrintField(types, floats, f).value;
    assert text + "" == text;
    StartsWithAppend("  ", text[2..]);
    assert "  " + text[2..] == text;
  }

  // ---------------------------------------------------------------------------
  // The lines of a block `{\n…\n}`: fields, enum values or input fields, one
  // per line, each indented by two spaces.

  /** A reader that consumes something whenever it succeeds. */
  ghost predicate Consumes<T>(read: string -> Option<(T, string)>) {
    forall s :: read(s).Some? ==> |read(s).value.1| < |s|
  }

  /** Reads items one per line for as long as the next line is indented. */
  function ReadLines<T>(read: string -> Option<(T, string)>, s: string): (r: Option<(seq<T>, string)>)
    requires Consumes(read)
    ensures r.Some? ==> |r.value.1| < |s|
    decreases |s|
  {
    match read(s)
    case None => None
    case Some((x, rest)) =>
      if StartsWith(rest, "\n  ") then
        match ReadLines(read, rest[1..])
        case Some((xs, after)) => Some(([x] + xs, after))
        case None => None
      else Some(([x], rest))
  }

  /** Reads ` {\n`, the lines of the block and `\n}`; an empty block is
      ` {\n\n}`. */
  function ReadBlock<T>(read: string -> Option<(T, string)>, s: string): (r: Option<(seq<T>, string)>)
    requires Consumes(read)
    ensures r.Some? ==> |r.value.1| < |s|
  {
    if !StartsWith(s, " {\n") then None
    else
      var body := s[3..];
      var lines := if StartsWith(body, "  ") then ReadLines(read, body) else Some(([], body));
      match lines
      case Some((xs, rest)) => if StartsWith(rest, "\n}") then Some((xs, rest[2..])) else None
      case None => None
  }

  /** Each text, followed by the end of its line, reads back as its item. */
  ghost predicate ReadsBack<T>(read: string -> Option<(T, string)>, xs: seq<T>, texts: seq<string>) {
    |xs| == |texts| &&
    forall i, r :: 0 <= i < |texts| && LineEnd(r) ==> read(texts[i] + r) == Some((xs[i], r))
  }

  predicate IndentedLines(texts: seq<string>) {
    forall i :: 0 <= i < |texts| ==> StartsWith(texts[i], "  ")
  }

  lemma {:induction false} LinesRoundTrip<T>(read: string -> Option<(T, string)>, xs: seq<T>, texts: seq<string>, rest: string)
    requires Consumes(read) && ReadsBack(read, xs, texts) && IndentedLines(texts) && |texts| > 0
    requires LineEnd(rest) && !StartsWith(rest, "\n  ")
    ensures ReadLines(read, Join(texts, "\n") + rest) == Some((xs, rest))
    decreases |texts|
  {
    if |texts| == 1 {
      LinesShapeOne(texts, rest);
      assert read(texts[0] + rest) == Some((xs[0], rest));
      assert xs == [xs[0]];
    } else {
      var after := Join(texts[1..], "\n") + rest;
      assert ReadsBack(read, xs[1..], texts[1..]) && IndentedLines(texts[1..]) by {
        forall i, r | 0 <= i < |texts| - 1 && LineEnd(r) ensures read(texts[1..][i] + r) == Some((xs[1..][i], r)) {
          assert read(texts[i + 1] + r) == Some((xs[i + 1], r));
        }
        assert forall i :: 0 <= i < |texts| - 1 ==> texts[1..][i] == texts[i + 1];
      }
      LinesRoundTrip(read, xs[1..], texts[1..], rest);
      LinesShapeNext(texts, rest);
      LinesLead(texts[1..], rest);
      assert LineEnd("\n" + after);
      assert read(texts[0] + ("\n" + after)) == Some((xs[0], "\n" + after));
      ReadLineNext(read, texts[0], after, xs[0], xs[1..], rest);
      assert xs == [xs[0]] + xs[1..];
    }
  }

  lemma LinesShapeOne(texts: seq<string>, rest: string)
    requires |texts| == 1
    ensures Join(texts, "\n") + rest == texts[0] + rest
  {
    assert texts == [texts[0]];
    JoinOne(texts[0], "\n");
  }

  lemma LinesShapeNext(texts: seq<string>, rest: string)
    requires |texts| > 1
    ensures Join(texts, "\n") + rest == texts[0] + ("\n" + (Join(texts[1..], "\n") + rest))
  {
    assert texts == [texts[0]] + texts[1..];
    JoinCons(texts[0], texts[1..], "\n");
    Assoc3(texts[0] + "\n", Join(texts[1..], "\n"), rest);
    Assoc3(texts[0], "\n", Join(texts[1..], "\n") + rest);
  }

  /** Joined indented lines start indented. */
  lemma LinesLead(texts: seq<string>, rest: string)
    requires IndentedLines(texts) && |texts| > 0
    ensures StartsWith(Join(texts, "\n") + rest, "  ")
  {
    if |texts| == 1 {
      LinesShapeOne(texts, rest);
      StartsWithExtend(texts[0], "  ", rest);
    } else {
      LinesShapeNext(texts, rest);
      StartsWithExtend(texts[0], "  ", "\n" + (Join(texts[1..], "\n") + rest));
    }
  }

  lemma ReadLineNext<T>(read: string -> Option<(T, string)>, text: string, after: string, x: T, xs: seq<T>, rest: string)
    requires Consumes(read) && StartsWith(after, "  ")
    requires read(text + ("\n" + after)) == Some((x, "\n" + after))
    requires ReadLines(read, after) == Some((xs, rest))
    ensures ReadLines(read, text + ("\n" + after)) == Some(([x] + xs, rest))
  {
    StartsWithAppend("\n", after);
    StartsWithExtend("\n  ", "\n  ", after[2..]);
    assert "\n" + after == "\n  " + after[2..];
  }

  /** A block of lines that read back reads back whole, empty or not. */
  lemma BlockRoundTrip<T>(read: string -> Option<(T, string)>, xs: seq<T>, texts: seq<string>, rest: string)
    requires Consumes(read) && ReadsBack(read, xs, texts) && IndentedLines(texts)
    ensures ReadBlock(read, " {\n" + Join(texts, "\n") + "\n}" + rest) == Some((xs, rest))
  {
    var closing := "\n}" + rest;
    var body := Join(texts, "\n") + closing;
    BlockShape(Join(texts, "\n"), rest);
    StartsWithAppend(" {\n", body);
    StartsWithAppend("\n}", rest);
    assert closing[1] == '}';
    if |texts| == 0 {
      assert body == closing;
      assert !StartsWith(body, "  ");
      assert xs == [];
    } else {
      LinesLead(texts, closing);
      LinesRoundTrip(read, xs, texts, closing);
    }
  }

  lemma BlockShape(lines: string, rest: string)
    ensures " {\n" + lines + "\n}" + rest == " {\n" + (lines + ("\n}" + rest))
  {
  }

  // ---------------------------------------------------------------------------
  // Each kind of line.

  function FieldReader(types: seq<GraphType>): (read: string -> Option<(Field, string)>)
    ensures Consumes(read)
  {
    s => ReadField(types, s)
  }

  /** The field lines of printable fields read back as the fields without
      their descriptions. */
  lemma FieldsReadBack(types: seq<GraphType>, floats: FloatOps, fields: seq<Field>)
    requires PrintableFields(types, fields)
    ensures FieldTexts(types, floats, fields).Success?
    ensures ReadsBack(FieldReader(types), StripFields(fields), FieldTexts(types, floats, fields).value)
    ensures IndentedLines(FieldTexts(types, floats, fields).value)
  {
    forall i | 0 <= i < |fields| ensures PrintField(types, floats, fields[i]).Success? {
      FieldRoundTrip(types, floats, fields[i], "");
    }
    var texts := FieldTexts(types, floats, fields).value;
    forall i, r | 0 <= i < |texts| && LineEnd(r)
      ensures FieldReader(types)(texts[i] + r) == Some((StripFields(fields)[i], r))
    {
      FieldRoundTrip(types, floats, fields[i], r);
    }
    forall i | 0 <= i < |texts| ensures StartsWith(texts[i], "  ") {
      FieldLead(types, floats, fields[i]);
    }
  }

  function StripEnumValue(v: EnumValue): EnumValue {
    v.(description := None)
  }

  function StripEnumValues(values: seq<EnumValue>): (r: seq<EnumValue>)
    ensures |r| == |values|
    ensures forall i :: 0 <= i < |values| ==> r[i] == StripEnumValue(values[i])
  {
    if |values| == 0 then [] else [StripEnumValue(values[0])] + StripEnumValues(values[1..])
  }

  /** Reads `  NAME @deprecated…`. */
  function ReadEnumValue(s: string): (r: Option<(EnumValue, string)>)
    ensures r.Some? ==> |r.value.1| < |s|
  {
    if !StartsWith(s, "  ") then None
    else
      var body := s[2..];
      var k := NameRun(body);
      if k == 0 then None
      else
        match ReadDeprecation(body[k..])
        case None => None
        case Some((reason, rest)) => Some((EnumValue(body[..k], None, reason), rest))
  }

  /** An enum value's line reads back as the value without its description. */
  lemma EnumValueRoundTrip(v: EnumValue, rest: string)
    requires IsName(v.name) && LineEnd(rest)
    ensures ReadEnumValue(EnumValueLine(v) + rest) == Some((StripEnumValue(v), rest))
  {
    var z := PrintDeprecated(v.deprecationReason) + rest;
    assert EnumValueLine(v) + rest == "  " + (v.name + z);
    DeprecationLead(v.deprecationReason, rest);
    DeprecationRoundTrip(v.deprecationReason, rest);
    StartsWithAppend("  ", v.name + z);
    NameRunOf(v.name, z);
  }

  function EnumValueReader(): (read: string -> Option<(EnumValue, string)>)
    ensures Consumes(read)
  {
    ReadEnumValue
  }

  lemma EnumValuesReadBack(values: seq<EnumValue>)
    requires forall i :: 0 <= i < |values| ==> IsName(values[i].name)
    ensures ReadsBack(EnumValueReader(), StripEnumValues(values), Map(values, EnumValueLine))
    ensures IndentedLines(Map(values, EnumValueLine))
  {
    var texts := Map(values, EnumValueLine);
    var stripped := StripEnumValues(values);
    forall i, r | 0 <= i < |texts| && LineEnd(r)
      ensures EnumValueReader()(texts[i] + r) == Some((stripped[i], r))
    {
      assert texts[i] == EnumValueLine(values[i]) && stripped[i] == StripEnumValue(values[i]);
      EnumLineReads(values[i], r);
    }
    forall i | 0 <= i < |texts| ensures StartsWith(texts[i], "  ") {
      assert texts[i] == EnumValueLine(values[i]);
      EnumLineLead(values[i]);
    }
  }

  lemma EnumLineReads(v: EnumValue, r: string)
    requires IsName(v.name) && LineEnd(r)
    ensures EnumValueReader()(EnumValueLine(v) + r) == Some((StripEnumValue(v), r))
  {
    EnumValueRoundTrip(v, r);
  }

  lemma EnumLineLead(v: EnumValue)
    ensures StartsWith(EnumValueLine(v), "  ")
  {
    StartsWithAppend("  ", v.name + PrintDeprecated(v.deprecationReason));
    assert EnumValueLine(v) == "  " + (v.name + PrintDeprecated(v.deprecationReason));
  }

  /** Reads `  name: Type = default`. */
  function ReadInputField(types: seq<GraphType>, s: string): (r: Option<(InputValue, string)>)
    ensures r.Some? ==> |r.value.1| < |s|
  {
    if !StartsWith(s, "  ") then None else ReadInputValue(types, s[2..])
  }

  function InputFieldReader(types: seq<GraphType>): (read: string -> Option<(InputValue, string)>)
    ensures Consumes(read)
  {
    s => ReadInputField(types, s)
  }

  lemma InputFieldsReadBack(types: seq<GraphType>, floats: FloatOps, fields: seq<InputValue>)
    requires PrintableArgs(types, fields)
    ensures InputValueTexts(types, floats, fields).Success?
    ensures ReadsBack(InputFieldReader(types), StripArgs(fields), IndentLines("", InputValueTexts(types, floats, fields).value))
    ensures IndentedLines(IndentLines("", InputValueTexts(types, floats, fields).value))
  {
    PrintableArgTexts(types, floats, fields);
    var texts := InputValueTexts(types, floats, fields).value;
    var lines := IndentLines("", texts);
    forall i, r | 0 <= i < |lines| && LineEnd(r)
      ensures InputFieldReader(types)(lines[i] + r) == Some((StripArgs(fields)[i], r))
    {
      assert lines[i] == Indented("", texts[i]);
      InputLineReads(types, floats, fields[i], texts[i], r);
    }
    forall i | 0 <= i < |lines| ensures StartsWith(lines[i], "  ") {
      assert lines[i] == Indented("", texts[i]);
      InputLineLead(texts[i]);
    }
  }

  lemma InputLineReads(types: seq<GraphType>, floats: FloatOps, a: InputValue, text: string, r: string)
    requires PrintableArg(types, a) && PrintInputValue(types, floats, a) == Success(text) && LineEnd(r)
    ensures InputFieldReader(types)(Indented("", text) + r) == Some((StripArg(a), r))
  {
    ArgRoundTrip(types, floats, a, text, r);
    InputLineShape(text, r);
    ReadInputFieldOf(types, text + r);
  }

  lemma InputLineShape(text: string, r: string)
    ensures Indented("", text) + r == "  " + (text + r)
  {
    assert "  " + "" == "  ";
  }

  lemma ReadInputFieldOf(types: seq<GraphType>, body: string)
    ensures InputFieldReader(types)("  " + body) == ReadInputValue(types, body)
  {
    StartsWithAppend("  ", body);
  }

  lemma InputLineLead(text: string)
    ensures StartsWith(Indented("", text), "  ")
  {
    assert Indented("", text) == "  " + text;
    StartsWithAppend("  ", text);
  }

  // ---------------------------------------------------------------------------
  // Whole types.

  /** Reads ` implements A, B` when it is there. */
  function ReadImplementations(s: string): (r: (seq<string>, string))
    ensures |r.1| <= |s|
  {
    if StartsWith(s, " implements ") then ReadNames(s[12..], ", ") else ([], s)
  }

  /** Reads what follows `keyword name`, as the kind directs. */
  function ReadTypeBody(types: seq<GraphType>, k: TypeKind, name: string, s: string): (r: Option<(GraphType, string)>)
    ensures r.Some? ==> r.value.0.Kind() == k && r.value.0.name == name && |r.value.1| <= |s|
  {
    match k
    case Scalar => Some((ScalarType(name, None), s))
    case Object =>
      var (interfaces, afterInterfaces) := ReadImplementations(s);
      (match ReadBlock(FieldReader(types), afterInterfaces)
       case Some((fields, rest)) => Some((ObjectType(name, None, interfaces, fields), rest))
       case None => None)
    case Interface =>
      (match ReadBlock(FieldReader(types), s)
       case Some((fields, rest)) => Some((InterfaceType(name, None, fields), rest))
       case None => None)
    case Union =>
      if StartsWith(s, " = ") then
        var (members, rest) := ReadNames(s[3..], " | ");
        Some((UnionType(name, None, members), rest))
      else None
    case Enum =>
      (match ReadBlock(EnumValueReader(), s)
       case Some((values, rest)) => Some((EnumType(name, None, values), rest))
       case None => None)
    case InputObject =>
      (match ReadBlock(InputFieldReader(types), s)
       case Some((fields, rest)) => Some((InputObjectType(name, None, fields), rest))
       case None => None)
  }

  /** Reads a printed type: the keyword gives the kind, then the name, then
      what the kind's printer writes. */
  function ReadType(types: seq<GraphType>, s: string): (r: Option<(GraphType, string)>)
    ensures r.Some? ==> |r.value.1| < |s|
  {
    match ReadKind(s)
    case None => None
    case Some(k) =>
      var body := s[|Keyword(k)| + 1..];
      var n := NameRun(body);
      if n == 0 then None else ReadTypeBody(types, k, body[..n], body[n..])
  }

  function StripType(t: GraphType): GraphType {
    match t
    case ScalarType(name, _) => ScalarType(name, None)
    case ObjectType(name, _, interfaces, fields) => ObjectType(name, None, interfaces, StripFields(fields))
    case InterfaceType(name, _, fields) => InterfaceType(name, None, StripFields(fields))
    case UnionType(name, _, possibleTypes) => UnionType(name, None, possibleTypes)
    case EnumType(name, _, values) => EnumType(name, None, StripEnumValues(values))
    case InputObjectType(name, _, inputFields) => InputObjectType(name, None, StripArgs(inputFields))
  }

  predicate AllNames(names: seq<string>) {
    forall i :: 0 <= i < |names| ==> IsName(names[i])
  }

  /** A type the printer writes so that it can be read back: every name in it
      is a GraphQL name and every default value is canonical. */
  predicate PrintableType(types: seq<GraphType>, t: GraphType) {
    IsName(t.name) &&
    match t
    case ScalarType(_, _) => true
    case ObjectType(_, _, interfaces, fields) => AllNames(interfaces) && PrintableFields(types, fields)
    case InterfaceType(_, _, fields) => PrintableFields(types, fields)
    case UnionType(_, _, possibleTypes) => AllNames(possibleTypes)
    case EnumType(_, _, values) => forall i :: 0 <= i < |values| ==> IsName(values[i].name)
    case InputObjectType(_, _, inputFields) => PrintableArgs(types, inputFields)
  }

  /** A printable type prints, and its text reads back as the type without
      its descriptions. */
  lemma TypeRoundTrip(types: seq<GraphType>, floats: FloatOps, t: GraphType, rest: string)
    requires PrintableType(types, t) && LineEnd(rest)
    ensures PrintType(types, floats, t).Success?
    ensures ReadType(types, PrintType(types, floats, t).value + rest) == Some((StripType(t), rest))
  {
    match t
    case ScalarType(_, _) => ScalarRoundTrip(types, floats, t, rest);
    case ObjectType(_, _, _, _) => ObjectRoundTrip(types, floats, t, rest);
    case InterfaceType(_, _, _) => InterfaceRoundTrip(types, floats, t, rest);
    case UnionType(_, _, _) => UnionRoundTrip(types, floats, t, rest);
    case EnumType(_, _, _) => EnumRoundTrip(types, floats, t, rest);
    case InputObjectType(_, _, _) => InputObjectRoundTrip(types, floats, t, rest);
  }

  lemma ScalarRoundTrip(types: seq<GraphType>, floats: FloatOps, t: GraphType, rest: string)
    requires t.ScalarType? && PrintableType(types, t) && LineEnd(rest)
    ensures PrintType(types, floats, t).Success?
    ensures ReadType(types, PrintType(types, floats, t).value + rest) == Some((StripType(t), rest))
  {
    assert PrintType(types, floats, t) == Success(Keyword(Scalar) + " " + t.name);
    Assoc3(Keyword(Scalar) + " ", t.name, rest);
    ReadTypeHead(types, Scalar, t.name, rest);
  }

  lemma ObjectRoundTrip(types: seq<GraphType>, floats: FloatOps, t: GraphType, rest: string)
    requires t.ObjectType? && PrintableType(types, t) && LineEnd(rest)
    ensures PrintType(types, floats, t).Success?
    ensures ReadType(types, PrintType(types, floats, t).value + rest) == Some((StripType(t), rest))
  {
    FieldsReadBack(types, floats, t.fields);
    ObjectText(types, floats, t, rest);
    ObjectReads(types, t, FieldTexts(types, floats, t.fields).value, rest);
  }

  lemma ObjectReads(types: seq<GraphType>, t: GraphType, texts: seq<string>, rest: string)
    requires t.ObjectType? && IsName(t.name) && AllNames(t.interfaces) && LineEnd(rest)
    requires ReadsBack(FieldReader(types), StripFields(t.fields), texts) && IndentedLines(texts)
    ensures ReadType(types, Keyword(Object) + " " + (t.name + (Implementations(t.interfaces)
              + (" {\n" + Join(texts, "\n") + "\n}" + rest)))) == Some((StripType(t), rest))
  {
    var implementations := Implementations(t.interfaces);
    var tail := " {\n" + Join(texts, "\n") + "\n}" + rest;
    BlockLead(implementations, Join(texts, "\n"), rest);
    ReadTypeHead(types, Object, t.name, implementations + tail);
    BlockRoundTrip(FieldReader(types), StripFields(t.fields), texts, rest);
    ImplementationsRoundTrip(t.interfaces, tail);
    ReadObjectBody(types, t.name, implementations + tail, t.interfaces, tail, StripFields(t.fields), rest);
  }

  lemma ObjectText(types: seq<GraphType>, floats: FloatOps, t: GraphType, rest: string)
    requires t.ObjectType? && FieldTexts(types, floats, t.fields).Success?
    ensures PrintType(types, floats, t).Success?
    ensures PrintType(types, floats, t).value + rest
              == Keyword(Object) + " " + (t.name + (Implementations(t.interfaces)
                   + (" {\n" + Join(FieldTexts(types, floats, t.fields).value, "\n") + "\n}" + rest)))
  {
    var lines := Join(FieldTexts(types, floats, t.fields).value, "\n");
    assert PrintType(types, floats, t)
             == Success(Keyword(Object) + " " + t.name + Implementations(t.interfaces) + " {\n" + lines + "\n}");
    BlockTypeShape(Keyword(Object) + " ", t.name, Implementations(t.interfaces), lines, rest);
  }

  lemma ReadObjectBody(types: seq<GraphType>, name: string, after: string, interfaces: seq<string>, tail: string,
                       fields: seq<Field>, rest: string)
    requires ReadImplementations(after) == (interfaces, tail)
    requires ReadBlock(FieldReader(types), tail) == Some((fields, rest))
    ensures ReadTypeBody(types, Object, name, after) == Some((ObjectType(name, None, interfaces, fields), rest))
  {
  }

  lemma InterfaceRoundTrip(types: seq<GraphType>, floats: FloatOps, t: GraphType, rest: string)
    requires t.InterfaceType? && PrintableType(types, t) && LineEnd(rest)
    ensures PrintType(types, floats, t).Success?
    ensures ReadType(types, PrintType(types, floats, t).value + rest) == Some((StripType(t), rest))
  {
    FieldsReadBack(types, floats, t.fields);
    var lines := FieldTexts(types, floats, t.fields).value;
    InterfaceText(types, floats, t, rest);
    BlockLead("", Join(lines, "\n"), rest);
    ReadTypeHead(types, Interface, t.name, " {\n" + Join(lines, "\n") + "\n}" + rest);
    BlockRoundTrip(FieldReader(types), StripFields(t.fields), lines, rest);
    ReadInterfaceBody(types, t.name, " {\n" + Join(lines, "\n") + "\n}" + rest, StripFields(t.fields), rest);
  }

  lemma InterfaceText(types: seq<GraphType>, floats: FloatOps, t: GraphType, rest: string)
    requires t.InterfaceType? && PrintableType(types, t)
    ensures PrintType(types, floats, t).Success?
    ensures PrintType(types, floats, t).value + rest
              == Keyword(Interface) + " " + (t.name + (" {\n" + Join(FieldTexts(types, floats, t.fields).value, "\n") + "\n}" + rest))
  {
    FieldsReadBack(types, floats, t.fields);
    var lines := Join(FieldTexts(types, floats, t.fields).value, "\n");
    assert PrintType(types, floats, t) == Success(Keyword(Interface) + " " + t.name + " {\n" + lines + "\n}");
    BlockTypeShape(Keyword(Interface) + " ", t.name, "", lines, rest);
  }

  lemma UnionRoundTrip(types: seq<GraphType>, floats: FloatOps, t: GraphType, rest: string)
    requires t.UnionType? && PrintableType(types, t) && LineEnd(rest)
    ensures PrintType(types, floats, t).Success?
    ensures ReadType(types, PrintType(types, floats, t).value + rest) == Some((StripType(t), rest))
  {
    UnionText(types, floats, t);
    UnionReads(types, t, rest);
  }

  lemma UnionText(types: seq<GraphType>, floats: FloatOps, t: GraphType)
    requires t.UnionType? && PrintableType(types, t)
    ensures PrintType(types, floats, t) == Success(Keyword(Union) + " " + t.name + " = " + Join(t.possibleTypes, " | "))
  {
  }

  lemma UnionReads(types: seq<GraphType>, t: GraphType, rest: string)
    requires t.UnionType? && PrintableType(types, t) && LineEnd(rest)
    ensures ReadType(types, Keyword(Union) + " " + t.name + " = " + Join(t.possibleTypes, " | ") + rest) == Some((StripType(t), rest))
  {
    var members := Join(t.possibleTypes, " | ");
    Assoc5(Keyword(Union) + " ", t.name, " = ", members, rest);
    Assoc3(" = ", members, rest);
    assert (" = " + (members + rest))[0] == ' ';
    ReadTypeHead(types, Union, t.name, " = " + (members + rest));
    ReadUnionMembers(t.possibleTypes, rest);
  }

  lemma EnumRoundTrip(types: seq<GraphType>, floats: FloatOps, t: GraphType, rest: string)
    requires t.EnumType? && PrintableType(types, t) && LineEnd(rest)
    ensures PrintType(types, floats, t).Success?
    ensures ReadType(types, PrintType(types, floats, t).value + rest) == Some((StripType(t), rest))
  {
    EnumValuesReadBack(t.values);
    var lines := Map(t.values, EnumValueLine);
    EnumText(types, floats, t, rest);
    BlockLead("", Join(lines, "\n"), rest);
    ReadTypeHead(types, Enum, t.name, " {\n" + Join(lines, "\n") + "\n}" + rest);
    BlockRoundTrip(EnumValueReader(), StripEnumValues(t.values), lines, rest);
    ReadEnumBody(types, t.name, " {\n" + Join(lines, "\n") + "\n}" + rest, StripEnumValues(t.values), rest);
  }

  lemma EnumText(types: seq<GraphType>, floats: FloatOps, t: GraphType, rest: string)
    requires t.EnumType? && PrintableType(types, t)
    ensures PrintType(types, floats, t).Success?
    ensures PrintType(types, floats, t).value + rest
              == Keyword(Enum) + " " + (t.name + (" {\n" + Join(Map(t.values, EnumValueLine), "\n") + "\n}" + rest))
  {
    EnumValuesReadBack(t.values);
    var lines := Join(Map(t.values, EnumValueLine), "\n");
    assert PrintType(types, floats, t) == Success(Keyword(Enum) + " " + t.name + " {\n" + lines + "\n}");
    BlockTypeShape(Keyword(Enum) + " ", t.name, "", lines, rest);
  }

  lemma InputObjectRoundTrip(types: seq<GraphType>, floats: FloatOps, t: GraphType, rest: string)
    requires t.InputObjectType? && PrintableType(types, t) && LineEnd(rest)
    ensures PrintType(types, floats, t).Success?
    ensures ReadType(types, PrintType(types, floats, t).value + rest) == Some((StripType(t), rest))
  {
    InputFieldsReadBack(types, floats, t.inputFields);
    var lines := IndentLines("", InputValueTexts(types, floats, t.inputFields).value);
    InputObjectText(types, floats, t, rest);
    BlockLead("", Join(lines, "\n"), rest);
    ReadTypeHead(types, InputObject, t.name, " {\n" + Join(lines, "\n") + "\n}" + rest);
    BlockRoundTrip(InputFieldReader(types), StripArgs(t.inputFields), lines, rest);
    ReadInputObjectBody(types, t.name, " {\n" + Join(lines, "\n") + "\n}" + rest, StripArgs(t.inputFields), rest);
  }

  lemma InputObjectText(types: seq<GraphType>, floats: FloatOps, t: GraphType, rest: string)
    requires t.InputObjectType? && PrintableType(types, t)
    ensures PrintType(types, floats, t).Success?
    ensures PrintType(types, floats, t).value + rest
              == Keyword(InputObject) + " " + (t.name + (" {\n" + Join(IndentLines("", InputValueTexts(types, floats, t.inputFields).value), "\n") + "\n}" + rest))
  {
    InputFieldsReadBack(types, floats, t.inputFields);
    var lines := Join(IndentLines("", InputValueTexts(types, floats, t.inputFields).value), "\n");
    assert PrintType(types, floats, t) == Success(Keyword(InputObject) + " " + t.name + " {\n" + lines + "\n}");
    BlockTypeShape(Keyword(InputObject) + " ", t.name, "", lines, rest);
  }

  lemma ReadInterfaceBody(types: seq<GraphType>, name: string, after: string, fields: seq<Field>, rest: string)
    requires ReadBlock(FieldReader(types), after) == Some((fields, rest))
    ensures ReadTypeBody(types, Interface, name, after) == Some((InterfaceType(name, None, fields), rest))
  {
  }

  lemma ReadEnumBody(types: seq<GraphType>, name: string, after: string, values: seq<EnumValue>, rest: string)
    requires ReadBlock(EnumValueReader(), after) == Some((values, rest))
    ensures ReadTypeBody(types, Enum, name, after) == Some((EnumType(name, None, values), rest))
  {
  }

  lemma ReadInputObjectBody(types: seq<GraphType>, name: string, after: string, fields: seq<InputValue>, rest: string)
    requires ReadBlock(InputFieldReader(types), after) == Some((fields, rest))
    ensures ReadTypeBody(types, InputObject, name, after) == Some((InputObjectType(name, None, fields), rest))
  {
  }

  lemma BlockTypeShape(head: string, name: string, pre: string, lines: string, rest: string)
    ensures head + name + pre + " {\n" + lines + "\n}" + rest == head + (name + (pre + (" {\n" + lines + "\n}" + rest)))
    ensures pre == "" ==> head + name + " {\n" + lines + "\n}" + rest == head + (name + (" {\n" + lines + "\n}" + rest))
  {
  }

  /** What follows a type name in a block type starts with a space. */
  lemma BlockLead(implementations: string, lines: string, rest: string)
    requires implementations == "" || implementations[0] == ' '
    ensures var after := implementations + (" {\n" + lines + "\n}" + rest); |after| > 0 && after[0] == ' '
    ensures implementations == "" ==> (" {\n" + lines + "\n}" + rest)[1] == '{'
  {
    assert (" {\n" + lines + "\n}" + rest)[1] == '{';
  }

  lemma ReadTypeHead(types: seq<GraphType>, k: TypeKind, name: string, after: string)
    requires IsName(name) && (|after| == 0 || !NameChar(after[0]))
    ensures ReadType(types, Keyword(k) + " " + (name + after)) == ReadTypeBody(types, k, name, after)
  {
    var s := Keyword(k) + " " + (name + after);
    StartsWithAppend(Keyword(k) + " ", name + after);
    ReadKindKeyword(k, s);
    NameRunOf(name, after);
  }

  lemma ImplementationsRoundTrip(interfaces: seq<string>, tail: string)
    requires AllNames(interfaces) && |tail| > 1 && tail[0] == ' ' && tail[1] == '{'
    ensures ReadImplementations(Implementations(interfaces) + tail) == (interfaces, tail)
  {
    if |interfaces| == 0 {
      assert Implementations(interfaces) + tail == tail;
      assert !StartsWith(tail, " implements ") by {
        assert " implements "[1] == 'i';
      }
    } else {
      var joined := Join(interfaces, ", ");
      assert Implementations(interfaces) + tail == " implements " + (joined + tail);
      StartsWithAppend(" implements ", joined + tail);
      ReadNamesJoin(interfaces, ", ", tail);
    }
  }

  lemma ReadUnionMembers(members: seq<string>, rest: string)
    requires AllNames(members) && LineEnd(rest)
    ensures ReadNames(Join(members, " | ") + rest, " | ") == (members, rest)
    ensures StartsWith(" = " + (Join(members, " | ") + rest), " = ")
    ensures (" = " + (Join(members, " | ") + rest))[3..] == Join(members, " | ") + rest
  {
    StartsWithAppend(" = ", Join(members, " | ") + rest);
    ReadNamesJoin(members, " | ", rest);
  }

  // ---------------------------------------------------------------------------
  // Directives: `directive @name(args) on A | B`.

  function StripDirective(d: Directive): Directive {
    d.(description := None, arguments := StripArgs(d.arguments))
  }

  predicate PrintableDirective(types: seq<GraphType>, d: Directive) {
    IsName(d.name) && AllNames(d.locations) && PrintableArgs(types, d.arguments)
  }

  function ReadDirective(types: seq<GraphType>, s: string): (r: Option<(Directive, string)>)
    ensures r.Some? ==> StartsWith(s, "directive @") && |r.value.1| < |s|
  {
    if !StartsWith(s, "directive @") then None
    else
      var body := s[11..];
      var k := NameRun(body);
      if k == 0 then None
      else
        match ReadArgs(types, body[k..], "")
        case None => None
        case Some((args, afterArgs)) =>
          if !StartsWith(afterArgs, " on ") then None
          else
            var (locations, rest) := ReadNames(afterArgs[4..], " | ");
            Some((Directive(body[..k], None, locations, args), rest))
  }

  /** A printable directive prints, and its text reads back as the directive
      without its descriptions. */
  lemma DirectiveRoundTrip(types: seq<GraphType>, floats: FloatOps, d: Directive, rest: string)
    requires PrintableDirective(types, d) && LineEnd(rest)
    ensures PrintDirective(types, floats, d).Success?
    ensures ReadDirective(types, PrintDirective(types, floats, d).value + rest) == Some((StripDirective(d), rest))
  {
    var y := Join(d.locations, " | ") + rest;
    ArgsRoundTrip(types, floats, d.arguments, "", " on " + y);
    var argsText := PrintArgs(types, floats, d.arguments, "").value;
    DirectiveText(types, floats, d, rest);
    AfterDirectiveName(argsText, y);
    ReadNamesJoin(d.locations, " | ", rest);
    ReadDirectiveOf(types, d.name, argsText + (" on " + y), StripArgs(d.arguments), y, d.locations, rest);
  }

  lemma DirectiveText(types: seq<GraphType>, floats: FloatOps, d: Directive, rest: string)
    requires PrintArgs(types, floats, d.arguments, "").Success?
    ensures PrintDirective(types, floats, d).Success?
    ensures PrintDirective(types, floats, d).value + rest
              == "directive @" + (d.name + (PrintArgs(types, floats, d.arguments, "").value
                   + (" on " + (Join(d.locations, " | ") + rest))))
  {
  }

  lemma AfterDirectiveName(argsText: string, y: string)
    requires argsText == "" || argsText[0] == '('
    ensures var x := argsText + (" on " + y); |x| > 0 && !NameChar(x[0])
  {
    var x := argsText + (" on " + y);
    if argsText == "" {
      assert x[0] == ' ';
    } else {
      assert x[0] == '(';
    }
  }

  lemma ReadDirectiveOf(types: seq<GraphType>, name: string, x: string, args: seq<InputValue>, y: string,
                        locations: seq<string>, rest: string)
    requires IsName(name) && |x| > 0 && !NameChar(x[0])
    requires ReadArgs(types, x, "") == Some((args, " on " + y))
    requires ReadNames(y, " | ") == (locations, rest)
    ensures ReadDirective(types, "directive @" + (name + x)) == Some((Directive(name, None, locations, args), rest))
  {
    StartsWithAppend("directive @", name + x);
    NameRunOf(name, x);
    StartsWithAppend(" on ", y);
  }
}
