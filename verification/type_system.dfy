/** The immutable type-system model that the comparator and the printer read.
    Ruby keeps types, directives, fields, arguments and enum values in hashes
    keyed by name; here each is an ordered sequence and lookup returns the
    first element carrying the name. Cross references between types (union
    members, implemented interfaces, field types) are names, never nested
    types. */
module TypeSystem {
  import opened Wrappers

  /** A reference to a type: a named type, or a list / non-null wrapper. */
  datatype TypeRef = Named(name: string) | List(ofType: TypeRef) | NonNull(ofType: TypeRef)

  /** The six kinds of named type. */
  datatype TypeKind = Scalar | Object | Interface | Union | Enum | InputObject

  /** A literal as it appears in a default value. Ruby values are untyped; the
      constructors cover the ones that occur: nil, Integer, Float (carried as
      the text `Float#inspect` gives it), String, Symbol (`EnumLit`, the usual
      spelling of an enum value), true/false, Array and Hash. */
  datatype Literal =
    | NullLit
    | IntLit(i: int)
    | FloatLit(text: string)
    | StringLit(s: string)
    | EnumLit(symbol: string)
    | BoolLit(b: bool)
    | ListLit(items: seq<Literal>)
    | ObjectLit(entries: seq<Entry>)

  datatype Entry = Entry(key: string, value: Literal)

  /** A field argument, a directive argument or an input-object field.
      `defaultValue` is `NullLit` when Ruby's `default_value` is nil. */
  datatype InputValue = InputValue(
    name: string,
    typeRef: TypeRef,
    defaultValue: Literal,
    description: Option<string>)

  datatype Field = Field(
    name: string,
    typeRef: TypeRef,
    arguments: seq<InputValue>,
    description: Option<string>,
    deprecationReason: Option<string>)

  datatype EnumValue = EnumValue(
    name: string,
    description: Option<string>,
    deprecationReason: Option<string>)

  /** A named type, one constructor per kind. */
  datatype GraphType =
    | ScalarType(name: string, description: Option<string>)
    | ObjectType(name: string, description: Option<string>, interfaces: seq<string>, fields: seq<Field>)
    | InterfaceType(name: string, description: Option<string>, fields: seq<Field>)
    | UnionType(name: string, description: Option<string>, possibleTypes: seq<string>)
    | EnumType(name: string, description: Option<string>, values: seq<EnumValue>)
    | InputObjectType(name: string, description: Option<string>, inputFields: seq<InputValue>)
  {
    function Kind(): TypeKind {
      match this
      case ScalarType(_, _) => Scalar
      case ObjectType(_, _, _, _) => Object
      case InterfaceType(_, _, _) => Interface
      case UnionType(_, _, _) => Union
      case EnumType(_, _, _) => Enum
      case InputObjectType(_, _, _) => InputObject
    }
  }

  /** `locations` are the location symbols' names, such as "FIELD_DEFINITION". */
  datatype Directive = Directive(
    name: string,
    description: Option<string>,
    locations: seq<string>,
    arguments: seq<InputValue>)

  /** Root operation types are given by name; `types` includes the built-in
      scalars and the introspection types the schema carries. */
  datatype Schema = Schema(
    query: Option<string>,
    mutation: Option<string>,
    subscription: Option<string>,
    types: seq<GraphType>,
    directives: seq<Directive>)

  // ---------------------------------------------------------------------------
  // Name-keyed access.

  function TypeName(t: GraphType): string { t.name }
  function DirectiveName(d: Directive): string { d.name }
  function InputValueName(a: InputValue): string { a.name }
  function FieldName(f: Field): string { f.name }
  function EnumValueName(v: EnumValue): string { v.name }

  /** Ruby `hash.values.map(&:name)`. */
  function NamesOf<T>(xs: seq<T>, name: T -> string): (r: seq<string>)
    ensures |r| == |xs|
    ensures forall i :: 0 <= i < |xs| ==> r[i] == name(xs[i])
  {
    if |xs| == 0 then [] else [name(xs[0])] + NamesOf(xs[1..], name)
  }

  /** Ruby `hash[key]`: the first element named `key`. */
  function FindNamed<T>(xs: seq<T>, name: T -> string, key: string): (r: Option<T>)
    ensures r.Some? <==> key in NamesOf(xs, name)
    ensures r.Some? ==> r.value in xs && name(r.value) == key
  {
    if |xs| == 0 then None
    else if name(xs[0]) == key then
      assert NamesOf(xs, name)[0] == key;
      Some(xs[0])
    else
      assert NamesOf(xs, name) == [name(xs[0])] + NamesOf(xs[1..], name);
      FindNamed(xs[1..], name, key)
  }

  function TypeNames(ts: seq<GraphType>): seq<string> { NamesOf(ts, TypeName) }

  function FindType(ts: seq<GraphType>, key: string): Option<GraphType> { FindNamed(ts, TypeName, key) }

  // ---------------------------------------------------------------------------
  // Printing type references: Ruby `to_s` on a wrapped type.

  function TypeRefString(t: TypeRef): string {
    match t
    case Named(n) => n
    case List(inner) => "[" + TypeRefString(inner) + "]"
    case NonNull(inner) => TypeRefString(inner) + "!"
  }

  /** A name that cannot be confused with the wrapper punctuation. */
  predicate PlainName(n: string) {
    |n| > 0 && forall i :: 0 <= i < |n| ==> n[i] != '[' && n[i] != ']' && n[i] != '!'
  }

  predicate PlainNames(t: TypeRef) {
    match t
    case Named(n) => PlainName(n)
    case List(inner) => PlainNames(inner)
    case NonNull(inner) => PlainNames(inner)
  }

  /** Reads a type reference back from its printed form. */
  function ParseTypeRef(s: string): Option<TypeRef>
    decreases |s|
  {
    if |s| > 0 && s[|s| - 1] == '!' then
      match ParseTypeRef(s[..|s| - 1])
      case Some(t) => Some(NonNull(t))
      case None => None
    else if |s| >= 2 && s[0] == '[' && s[|s| - 1] == ']' then
      match ParseTypeRef(s[1..|s| - 1])
      case Some(t) => Some(List(t))
      case None => None
    else if PlainName(s) then Some(Named(s))
    else None
  }

  lemma {:induction false} TypeRefStringNonEmpty(t: TypeRef)
    requires PlainNames(t)
    ensures |TypeRefString(t)| > 0
  {
    match t
    case Named(_) =>
    case List(_) =>
    case NonNull(inner) => TypeRefStringNonEmpty(inner);
  }

  /** The printed form of a type reference determines the reference. */
  lemma {:induction false} TypeRefRoundTrip(t: TypeRef)
    requires PlainNames(t)
    ensures ParseTypeRef(TypeRefString(t)) == Some(t)
  {
    var s := TypeRefString(t);
    match t
    case Named(n) =>
      assert s[|s| - 1] != '!' && s[0] != '[';
    case List(inner) =>
      TypeRefRoundTrip(inner);
      assert s[1..|s| - 1] == TypeRefString(inner);
    case NonNull(inner) =>
      TypeRefRoundTrip(inner);
      assert s[..|s| - 1] == TypeRefString(inner);
  }

  // ---------------------------------------------------------------------------
  // GraphQL names (section 2.1.9 of the GraphQL specification): a letter or
  // `_`, then letters, digits and `_`.

  predicate NameChar(c: char) {
    c == '_' || ('a' <= c <= 'z') || ('A' <= c <= 'Z') || ('0' <= c <= '9')
  }

  predicate IsName(n: string) {
    |n| > 0 && !('0' <= n[0] <= '9') && forall i :: 0 <= i < |n| ==> NameChar(n[i])
  }

  /** The number of name characters `s` starts with. */
  function NameRun(s: string): (n: nat)
    ensures n <= |s|
    ensures n < |s| ==> !NameChar(s[n])
  {
    if |s| == 0 || !NameChar(s[0]) then 0 else 1 + NameRun(s[1..])
  }

  /** A name followed by anything but a name character is read whole. */
  lemma {:induction false} NameRunOf(n: string, rest: string)
    requires forall i :: 0 <= i < |n| ==> NameChar(n[i])
    requires |rest| == 0 || !NameChar(rest[0])
    ensures NameRun(n + rest) == |n|
    ensures (n + rest)[..|n|] == n && (n + rest)[|n|..] == rest
    decreases |n|
  {
    if |n| > 0 {
      assert (n + rest)[1..] == n[1..] + rest;
      NameRunOf(n[1..], rest);
    } else {
      assert n + rest == rest;
    }
  }

  /** Every type name in a reference is a GraphQL name. */
  predicate RefNames(t: TypeRef) {
    match t
    case Named(n) => IsName(n)
    case List(inner) => RefNames(inner)
    case NonNull(inner) => RefNames(inner)
  }

  /** A character that may occur in a printed type reference. */
  predicate RefChar(c: char) {
    NameChar(c) || c == '[' || c == ']' || c == '!'
  }

  /** The number of characters of a printed type reference `s` starts with. */
  function RefRun(s: string): (n: nat)
    ensures n <= |s|
    ensures n < |s| ==> !RefChar(s[n])
  {
    if |s| == 0 || !RefChar(s[0]) then 0 else 1 + RefRun(s[1..])
  }

  /** Reads a type reference at the start of `s`; returns it and the rest. */
  function ReadTypeRef(s: string): (r: Option<(TypeRef, string)>)
    ensures r.Some? ==> |r.value.1| <= |s|
  {
    var n := RefRun(s);
    match ParseTypeRef(s[..n])
    case Some(t) => Some((t, s[n..]))
    case None => None
  }

  lemma {:induction false} RefNamesPlain(t: TypeRef)
    requires RefNames(t)
    ensures PlainNames(t)
  {
    match t
    case Named(_) =>
    case List(inner) => RefNamesPlain(inner);
    case NonNull(inner) => RefNamesPlain(inner);
  }

  lemma {:induction false} TypeRefChars(t: TypeRef)
    requires RefNames(t)
    ensures forall i :: 0 <= i < |TypeRefString(t)| ==> RefChar(TypeRefString(t)[i])
  {
    match t
    case Named(_) =>
    case List(inner) => TypeRefChars(inner);
    case NonNull(inner) => TypeRefChars(inner);
  }

  lemma {:induction false} RefRunOf(p: string, rest: string)
    requires forall i :: 0 <= i < |p| ==> RefChar(p[i])
    requires |rest| == 0 || !RefChar(rest[0])
    ensures RefRun(p + rest) == |p|
    decreases |p|
  {
    if |p| > 0 {
      assert (p + rest)[1..] == p[1..] + rest;
      RefRunOf(p[1..], rest);
    } else {
      assert p + rest == rest;
    }
  }

  /** A printed type reference is read back, and reading stops right after it. */
  lemma ReadTypeRefString(t: TypeRef, rest: string)
    requires RefNames(t)
    requires |rest| == 0 || !RefChar(rest[0])
    ensures ReadTypeRef(TypeRefString(t) + rest) == Some((t, rest))
  {
    var p := TypeRefString(t);
    TypeRefChars(t);
    RefRunOf(p, rest);
    RefNamesPlain(t);
    TypeRefRoundTrip(t);
    assert (p + rest)[..|p|] == p && (p + rest)[|p|..] == rest;
  }
}
