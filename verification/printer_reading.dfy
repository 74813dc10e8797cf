/** Readers for the text the schema printer writes, and the round trips
    showing that the printed text keeps what the printer renders: reading a
    rendered piece back gives the piece (descriptions aside, which are never
    printed). Every reader works on a prefix and returns the rest of the text,
    so that readers compose the way the printer's pieces are concatenated. */
module PrinterReading {
  import opened Wrappers
  import opened Seqs
  import opened Text
  import opened TypeSystem
  import opened RubyValues
  import opened Printer

  // ---------------------------------------------------------------------------
  // Lists of names: union members, interfaces, directive locations.

  /** Reads names separated by `sep`; stops before anything else. */
  function ReadNames(s: string, sep: string): (r: (seq<string>, string))
    requires |sep| > 0
    ensures |r.1| <= |s|
    decreases |s|
  {
    var n := NameRun(s);
    if n == 0 then ([], s)
    else if StartsWith(s[n..], sep) then
      var more := ReadNames(s[n..][|sep|..], sep);
      ([s[..n]] + more.0, more.1)
    else ([s[..n]], s[n..])
  }

  /** A joined list of names reads back as the list. */
  lemma {:induction false} ReadNamesJoin(names: seq<string>, sep: string, rest: string)
    requires |sep| > 0 && !NameChar(sep[0])
    requires forall i :: 0 <= i < |names| ==> IsName(names[i])
    requires |rest| == 0 || !NameChar(rest[0])
    requires !StartsWith(rest, sep)
    ensures ReadNames(Join(names, sep) + rest, sep) == (names, rest)
    decreases |names|
  {
    if |names| == 0 {
      assert Join(names, sep) + rest == rest;
      assert NameRun(rest) == 0;
    } else if |names| == 1 {
      ReadOneName(names, sep, rest);
    } else {
      ReadNamesJoin(names[1..], sep, rest);
      ReadNextName(names, sep, rest);
    }
  }

  lemma ReadOneName(names: seq<string>, sep: string, rest: string)
    requires |sep| > 0 && |names| == 1 && IsName(names[0])
    requires |rest| == 0 || !NameChar(rest[0])
    requires !StartsWith(rest, sep)
    ensures ReadNames(Join(names, sep) + rest, sep) == (names, rest)
  {
    assert Join(names, sep) == names[0] && names == [names[0]];
    NameRunOf(names[0], rest);
  }

  lemma ReadNextName(names: seq<string>, sep: string, rest: string)
    requires |sep| > 0 && !NameChar(sep[0])
    requires |names| > 1 && IsName(names[0])
    requires ReadNames(Join(names[1..], sep) + rest, sep) == (names[1..], rest)
    ensures ReadNames(Join(names, sep) + rest, sep) == (names, rest)
  {
    var tail := Join(names[1..], sep) + rest;
    NamesShape(names, sep, rest);
    NameRunOf(names[0], sep + tail);
    StartsWithAppend(sep, tail);
    assert names == [names[0]] + names[1..];
  }

  lemma NamesShape(names: seq<string>, sep: string, rest: string)
    requires |names| > 1
    ensures Join(names, sep) + rest == names[0] + (sep + (Join(names[1..], sep) + rest))
  {
    assert names == [names[0]] + names[1..];
    JoinCons(names[0], names[1..], sep);
  }

  // ---------------------------------------------------------------------------
  // Deprecation.

  const ReasonPrefix := " @deprecated(reason: "

  /** Where a deprecation suffix can stop: at the end of a line. */
  predicate LineEnd(rest: string) {
    |rest| == 0 || rest[0] == '\n'
  }

  /** Reads a deprecation suffix: none, a bare `@deprecated` (the empty
      reason) or one with a quoted reason. */
  function ReadDeprecation(s: string): (r: Option<(Option<string>, string)>)
    ensures r.Some? ==> |r.value.1| <= |s|
  {
    if StartsWith(s, ReasonPrefix) then
      match ReadQuoted(s[|ReasonPrefix|..])
      case Some((reason, rest)) =>
        if |rest| > 0 && rest[0] == ')' then Some((Some(reason), rest[1..])) else None
      case None => None
    else if StartsWith(s, " @deprecated") then Some((Some(""), s[12..]))
    else Some((None, s))
  }

  /** The deprecation suffix determines the deprecation reason: nil, the
      empty reason and every other reason read back as themselves. */
  lemma DeprecationRoundTrip(reason: Option<string>, rest: string)
    requires LineEnd(rest)
    ensures ReadDeprecation(PrintDeprecated(reason) + rest) == Some((reason, rest))
  {
    match reason
    case None =>
      assert PrintDeprecated(reason) + rest == rest;
      NotDeprecated(rest);
    case Some(text) =>
      if text == "" {
        assert PrintDeprecated(reason) + rest == " @deprecated" + rest;
        DeprecatedBare(rest);
      } else {
        assert PrintDeprecated(reason) + rest == ReasonPrefix + (Quote(text) + (")" + rest));
        DeprecatedReason(text, rest);
      }
  }

  lemma NotDeprecated(rest: string)
    requires LineEnd(rest)
    ensures ReadDeprecation(rest) == Some((None, rest))
  {
    if |rest| > 0 {
      assert rest[0] != ReasonPrefix[0];
      assert rest[0] != " @deprecated"[0];
    }
  }

  lemma DeprecatedBare(rest: string)
    requires LineEnd(rest)
    ensures ReadDeprecation(" @deprecated" + rest) == Some((Some(""), rest))
  {
    var s := " @deprecated" + rest;
    StartsWithAppend(" @deprecated", rest);
    if |s| >= |ReasonPrefix| {
      assert s[12] == rest[0] != ReasonPrefix[12];
    }
  }

  lemma DeprecatedReason(text: string, rest: string)
    ensures ReadDeprecation(ReasonPrefix + (Quote(text) + (")" + rest))) == Some((Some(text), rest))
  {
    StartsWithAppend(ReasonPrefix, Quote(text) + (")" + rest));
    ReadQuotedQuote(text, ")" + rest);
  }

  // ---------------------------------------------------------------------------
  // The schema block.

  type Roots = (Option<string>, Option<string>, Option<string>)

  /** Reads `  op: Name\n` when it is there. */
  function ReadRoot(operation: string, s: string): (Option<string>, string) {
    var prefix := "  " + operation + ": ";
    if StartsWith(s, prefix) then
      var body := s[|prefix|..];
      var n := LineRun(body);
      if n < |body| then (Some(body[..n]), body[n + 1..]) else (None, s)
    else (None, s)
  }

  /** Reads the schema block: the query, mutation and subscription roots. */
  function ReadSchemaDefinition(s: string): Option<(Roots, string)> {
    if StartsWith(s, "schema {\n") then
      var (query, s1) := ReadRoot("query", s[9..]);
      var (mutation, s2) := ReadRoot("mutation", s1);
      var (subscription, s3) := ReadRoot("subscription", s2);
      if StartsWith(s3, "}") then Some(((query, mutation, subscription), s3[1..])) else None
    else None
  }

  predicate RootName(root: Option<string>) {
    root.None? || IsName(root.value)
  }

  lemma ReadRootLine(operation: string, root: Option<string>, rest: string)
    requires RootName(root)
    requires root.None? ==> !StartsWith(rest, "  " + operation + ": ")
    ensures ReadRoot(operation, RootLine(operation, root) + rest) == (root, rest)
  {
    if root.Some? {
      assert RootLine(operation, root) + rest == ("  " + operation + ": ") + (root.value + "\n" + rest);
      ReadPresentRoot(operation, root.value, rest);
    } else {
      assert RootLine(operation, root) + rest == rest;
    }
  }

  lemma ReadPresentRoot(operation: string, name: string, rest: string)
    requires IsName(name)
    ensures ReadRoot(operation, ("  " + operation + ": ") + (name + "\n" + rest)) == (Some(name), rest)
  {
    var prefix := "  " + operation + ": ";
    var body := name + "\n" + rest;
    assert '\n' !in name by {
      forall i | 0 <= i < |name| ensures name[i] != '\n' {
        assert NameChar(name[i]);
      }
    }
    StartsWithAppend(prefix, body);
    LineRunOf(name, rest);
    assert body[..|name|] == name;
    assert body[|name| + 1..] == rest;
  }

  lemma NoRootHere(operation: string, s: string, c: char)
    requires |operation| > 0 && |s| > 2 && s[2] == c && c != operation[0]
    ensures !StartsWith(s, "  " + operation + ": ")
  {
    assert ("  " + operation + ": ")[2] == operation[0];
  }

  lemma ClosingBrace(operation: string, rest: string)
    ensures !StartsWith("}" + rest, "  " + operation + ": ")
    ensures StartsWith("}" + rest, "}") && ("}" + rest)[1..] == rest
  {
    assert ("}" + rest)[0] == '}';
  }

  /** The schema block determines which roots are present and their names. */
  lemma SchemaDefinitionRoundTrip(schema: Schema, rest: string)
    requires RootName(schema.query) && RootName(schema.mutation) && RootName(schema.subscription)
    ensures ReadSchemaDefinition(PrintSchemaDefinition(schema) + rest)
              == Some(((schema.query, schema.mutation, schema.subscription), rest))
  {
    var l1 := RootLine("query", schema.query);
    var l2 := RootLine("mutation", schema.mutation);
    var l3 := RootLine("subscription", schema.subscription);
    var s3 := "}" + rest;
    var s2 := l3 + s3;
    var s1 := l2 + s2;
    SchemaBlockText(schema, rest);
    ClosingBrace("query", rest);
    ClosingBrace("mutation", rest);
    ClosingBrace("subscription", rest);
    if schema.subscription.Some? {
      NoRootHere("mutation", s2, 's');
      NoRootHere("query", s2, 's');
    }
    if schema.mutation.Some? {
      NoRootHere("query", s1, 'm');
    }
    ReadRootLine("subscription", schema.subscription, s3);
    ReadRootLine("mutation", schema.mutation, s2);
    ReadRootLine("query", schema.query, s1);
    ReadSchemaSteps(l1 + s1, s1, s2, rest, schema.query, schema.mutation, schema.subscription);
  }

  lemma SchemaBlockText(schema: Schema, rest: string)
    ensures PrintSchemaDefinition(schema) + rest
              == "schema {\n" + (RootLine("query", schema.query) + (RootLine("mutation", schema.mutation)
                   + (RootLine("subscription", schema.subscription) + ("}" + rest))))
  {
  }

  lemma ReadSchemaSteps(s0: string, s1: string, s2: string, rest: string,
                        query: Option<string>, mutation: Option<string>, subscription: Option<string>)
    requires ReadRoot("query", s0) == (query, s1)
    requires ReadRoot("mutation", s1) == (mutation, s2)
    requires ReadRoot("subscription", s2) == (subscription, "}" + rest)
    ensures ReadSchemaDefinition("schema {\n" + s0) == Some(((query, mutation, subscription), rest))
  {
    StartsWithAppend("schema {\n", s0);
    ClosingBrace("query", rest);
  }

  // ---------------------------------------------------------------------------
  // The kind of a printed type.

  /** Reads the kind from a type's leading keyword. */
  function ReadKind(s: string): (r: Option<TypeKind>)
    ensures r.Some? ==> StartsWith(s, Keyword(r.value) + " ")
  {
    if StartsWith(s, "scalar ") then Some(Scalar)
    else if StartsWith(s, "type ") then Some(Object)
    else if StartsWith(s, "interface ") then Some(Interface)
    else if StartsWith(s, "union ") then Some(Union)
    else if StartsWith(s, "enum ") then Some(Enum)
    else if StartsWith(s, "input ") then Some(InputObject)
    else None
  }

  lemma ReadKindKeyword(k: TypeKind, s: string)
    requires StartsWith(s, Keyword(k) + " ")
    ensures ReadKind(s) == Some(k)
  {
    var p := Keyword(k) + " ";
    assert s[0] == p[0] && s[1] == p[1] && s[2] == p[2];
  }

  /** Each kind is printed by its own printer: the kind can be read off the
      text (the `STRATEGIES` dispatch is one to one). */
  lemma KindRoundTrip(types: seq<GraphType>, floats: FloatOps, t: GraphType)
    requires PrintType(types, floats, t).Success?
    ensures ReadKind(PrintType(types, floats, t).value) == Some(t.Kind())
  {
    var text := PrintType(types, floats, t).value;
    StartsWithShorter(text, Keyword(t.Kind()) + " ", t.name);
    ReadKindKeyword(t.Kind(), text);
  }
}
