/** Reading a whole printed schema: the schema block, then the printed
    directives, then the printed types, each section after a blank line. The
    reader is given the schema's types, which it needs to read default values
    of enum and input-object type. */
module SchemaReading {
  import opened Wrappers
  import opened Seqs
  import opened Text
  import opened TypeSystem
  import opened RubyValues
  import opened Printer
  import opened PrinterReading
  import opened TypeReading

  /** `texts` each after a blank line: what follows the schema block. */
  function Sections(texts: seq<string>): (r: string)
    ensures |texts| == 0 <==> r == ""
  {
    if |texts| == 0 then [] else "\n\n" + texts[0] + Sections(texts[1..])
  }

  /** Reads `\n\ndirective @…` sections while there are any. */
  function ReadDirectives(types: seq<GraphType>, s: string): (r: Option<(seq<Directive>, string)>)
    decreases |s|
  {
    if StartsWith(s, "\n\ndirective @") then
      match ReadDirective(types, s[2..])
      case None => None
      case Some((d, rest)) =>
        match ReadDirectives(types, rest)
        case Some((ds, after)) => Some(([d] + ds, after))
        case None => None
    else Some(([], s))
  }

  /** Reads `\n\n`-separated types up to the end of the text. */
  function ReadTypes(types: seq<GraphType>, s: string): Option<seq<GraphType>>
    decreases |s|
  {
    if s == "" then Some([])
    else if !StartsWith(s, "\n\n") then None
    else
      match ReadType(types, s[2..])
      case None => None
      case Some((t, rest)) =>
        match ReadTypes(types, rest)
        case Some(ts) => Some([t] + ts)
        case None => None
  }

  /** Reads a printed schema: its roots, its directives and its types. */
  function ReadSchema(types: seq<GraphType>, s: string): Option<(Roots, seq<Directive>, seq<GraphType>)> {
    match ReadSchemaDefinition(s)
    case None => None
    case Some((roots, rest)) =>
      match ReadDirectives(types, rest)
      case None => None
      case Some((directives, after)) =>
        match ReadTypes(types, after)
        case None => None
        case Some(ts) => Some((roots, directives, ts))
  }

  // ---------------------------------------------------------------------------
  // The round trip.

  /** Joining with blank lines is the first text followed by the sections. */
  lemma {:induction false} JoinSections(x: string, more: seq<string>)
    ensures Join([x] + more, "\n\n") == x + Sections(more)
    decreases |more|
  {
    if |more| == 0 {
      assert [x] + more == [x];
      JoinOne(x, "\n\n");
    } else {
      JoinCons(x, more, "\n\n");
      JoinSections(more[0], more[1..]);
      assert [more[0]] + more[1..] == more;
    }
  }

  lemma {:induction false} SectionsAppend(a: seq<string>, b: seq<string>)
    ensures Sections(a + b) == Sections(a) + Sections(b)
    decreases |a|
  {
    if |a| == 0 {
      assert a + b == b;
    } else {
      assert (a + b)[0] == a[0] && (a + b)[1..] == a[1..] + b;
      SectionsAppend(a[1..], b);
    }
  }

  lemma SectionsCons(texts: seq<string>, rest: string)
    requires |texts| > 0
    ensures Sections(texts) + rest == "\n\n" + (texts[0] + (Sections(texts[1..]) + rest))
  {
  }

  /** The sections start a new line, or there are none. */
  lemma SectionsLineEnd(texts: seq<string>, rest: string)
    requires LineEnd(rest)
    ensures LineEnd(Sections(texts) + rest)
  {
    if |texts| > 0 {
      SectionsCons(texts, rest);
    } else {
      assert Sections(texts) + rest == rest;
    }
  }

  predicate DirectivesPrintAs(types: seq<GraphType>, floats: FloatOps, ds: seq<Directive>, texts: seq<string>) {
    |texts| == |ds| &&
    forall i :: 0 <= i < |ds| ==> PrintDirective(types, floats, ds[i]) == Success(texts[i]) && PrintableDirective(types, ds[i])
  }

  lemma DirectivesPrintAsTail(types: seq<GraphType>, floats: FloatOps, ds: seq<Directive>, texts: seq<string>)
    requires DirectivesPrintAs(types, floats, ds, texts) && |ds| > 0
    ensures DirectivesPrintAs(types, floats, ds[1..], texts[1..])
    ensures PrintDirective(types, floats, ds[0]) == Success(texts[0]) && PrintableDirective(types, ds[0])
  {
    assert forall i :: 0 <= i < |ds| - 1 ==> ds[1..][i] == ds[i + 1] && texts[1..][i] == texts[i + 1];
  }

  predicate TypesPrintAs(types: seq<GraphType>, floats: FloatOps, ts: seq<GraphType>, texts: seq<string>) {
    |texts| == |ts| &&
    forall i :: 0 <= i < |ts| ==> PrintType(types, floats, ts[i]) == Success(texts[i]) && PrintableType(types, ts[i])
  }

  lemma TypesPrintAsTail(types: seq<GraphType>, floats: FloatOps, ts: seq<GraphType>, texts: seq<string>)
    requires TypesPrintAs(types, floats, ts, texts) && |ts| > 0
    ensures TypesPrintAs(types, floats, ts[1..], texts[1..])
    ensures PrintType(types, floats, ts[0]) == Success(texts[0]) && PrintableType(types, ts[0])
  {
    assert forall i :: 0 <= i < |ts| - 1 ==> ts[1..][i] == ts[i + 1] && texts[1..][i] == texts[i + 1];
  }

  lemma MapCons<T, U>(xs: seq<T>, f: T -> U)
    requires |xs| > 0
    ensures Map(xs, f) == [f(xs[0])] + Map(xs[1..], f)
  {
  }

  lemma {:induction false} DirectivesRoundTrip(types: seq<GraphType>, floats: FloatOps, ds: seq<Directive>,
                                               texts: seq<string>, rest: string)
    requires DirectivesPrintAs(types, floats, ds, texts)
    requires LineEnd(rest) && !StartsWith(rest, "\n\ndirective @")
    ensures ReadDirectives(types, Sections(texts) + rest) == Some((Map(ds, StripDirective), rest))
    decreases |ds|
  {
    if |ds| == 0 {
      assert Sections(texts) + rest == rest;
      assert Map(ds, StripDirective) == [];
    } else {
      var after := Sections(texts[1..]) + rest;
      DirectivesPrintAsTail(types, floats, ds, texts);
      DirectivesRoundTrip(types, floats, ds[1..], texts[1..], rest);
      SectionsCons(texts, rest);
      SectionsLineEnd(texts[1..], rest);
      DirectiveTextRoundTrip(types, floats, ds[0], texts[0], after);
      ReadDirectivesNext(types, texts[0], after, StripDirective(ds[0]), Map(ds[1..], StripDirective), rest);
      MapCons(ds, StripDirective);
    }
  }

  lemma DirectiveTextRoundTrip(types: seq<GraphType>, floats: FloatOps, d: Directive, text: string, rest: string)
    requires PrintableDirective(types, d) && PrintDirective(types, floats, d) == Success(text) && LineEnd(rest)
    ensures ReadDirective(types, text + rest) == Some((StripDirective(d), rest))
    ensures StartsWith(text, "directive @")
  {
    DirectiveRoundTrip(types, floats, d, rest);
    StartsWithShorter(text, "directive @", d.name);
  }

  lemma ReadDirectivesNext(types: seq<GraphType>, text: string, after: string, d: Directive,
                           ds: seq<Directive>, rest: string)
    requires StartsWith(text, "directive @")
    requires ReadDirective(types, text + after) == Some((d, after))
    requires ReadDirectives(types, after) == Some((ds, rest))
    ensures ReadDirectives(types, "\n\n" + (text + after)) == Some(([d] + ds, rest))
  {
    var s := "\n\n" + (text + after);
    DirectiveSection(text, after);
    assert StartsWith(s, "\n\ndirective @") && s[2..] == text + after;
    var (d', rest') := ReadDirective(types, s[2..]).value;
    assert d' == d && rest' == after;
  }

  lemma DirectiveSection(text: string, after: string)
    requires StartsWith(text, "directive @")
    ensures StartsWith("\n\n" + (text + after), "\n\ndirective @")
    ensures ("\n\n" + (text + after))[2..] == text + after
  {
    StartsWithExtend(text, "directive @", after);
    StartsWithPrepend("\n\n", text + after, "directive @");
    StartsWithAppend("\n\n", text + after);
  }

  lemma {:induction false} TypesRoundTrip(types: seq<GraphType>, floats: FloatOps, ts: seq<GraphType>, texts: seq<string>)
    requires TypesPrintAs(types, floats, ts, texts)
    ensures ReadTypes(types, Sections(texts)) == Some(Map(ts, StripType))
    decreases |ts|
  {
    if |ts| == 0 {
      assert Map(ts, StripType) == [];
    } else {
      var after := Sections(texts[1..]);
      TypesPrintAsTail(types, floats, ts, texts);
      TypesRoundTrip(types, floats, ts[1..], texts[1..]);
      SectionsCons(texts, "");
      SectionsLineEnd(texts[1..], "");
      assert after + "" == after && Sections(texts) + "" == Sections(texts);
      TypeTextRoundTrip(types, floats, ts[0], texts[0], after);
      ReadTypesNext(types, texts[0], after, StripType(ts[0]), Map(ts[1..], StripType));
      MapCons(ts, StripType);
    }
  }

  lemma TypeTextRoundTrip(types: seq<GraphType>, floats: FloatOps, t: GraphType, text: string, rest: string)
    requires PrintableType(types, t) && PrintType(types, floats, t) == Success(text) && LineEnd(rest)
    ensures ReadType(types, text + rest) == Some((StripType(t), rest))
  {
    TypeRoundTrip(types, floats, t, rest);
  }

  lemma ReadTypesNext(types: seq<GraphType>, text: string, after: string, t: GraphType, ts: seq<GraphType>)
    requires ReadType(types, text + after) == Some((t, after))
    requires ReadTypes(types, after) == Some(ts)
    ensures ReadTypes(types, "\n\n" + (text + after)) == Some([t] + ts)
  {
    StartsWithAppend("\n\n", text + after);
  }

  lemma KeywordLead(k: TypeKind)
    ensures |Keyword(k)| > 0 && Keyword(k)[0] != 'd'
  {
  }

  /** Printed types never look like a directive. */
  lemma NoDirectiveAhead(types: seq<GraphType>, floats: FloatOps, ts: seq<GraphType>, texts: seq<string>)
    requires TypesPrintAs(types, floats, ts, texts)
    ensures LineEnd(Sections(texts)) && !StartsWith(Sections(texts), "\n\ndirective @")
  {
    SectionsLineEnd(texts, "");
    assert Sections(texts) + "" == Sections(texts);
    if |ts| > 0 {
      TypesPrintAsTail(types, floats, ts, texts);
      var k := Keyword(ts[0].Kind());
      KeywordLead(ts[0].Kind());
      StartsWithShorter(texts[0], k + " ", ts[0].name);
      NotDirective(texts[0], k, Sections(texts[1..]));
      SectionsCons(texts, "");
    }
  }

  lemma NotDirective(text: string, k: string, more: string)
    requires |k| > 0 && k[0] != 'd' && StartsWith(text, k + " ")
    ensures !StartsWith("\n\n" + (text + more) + "", "\n\ndirective @")
  {
    assert text[0] == k[0];
    var s := "\n\n" + (text + more) + "";
    assert s[2] == text[0];
  }

  /** Everything a printed schema shows reads back: the roots, the selected
      directives in schema order and the selected types in name order, each
      without its descriptions. */
  lemma SchemaRoundTrip(schema: Schema, floats: FloatOps, directiveFilter: Directive -> bool, typeFilter: GraphType -> bool)
    requires RootName(schema.query) && RootName(schema.mutation) && RootName(schema.subscription)
    requires forall d :: d in schema.directives && directiveFilter(d) ==> PrintableDirective(schema.types, d)
    requires forall t :: t in schema.types && typeFilter(t) ==> PrintableType(schema.types, t)
    ensures PrintFilteredSchema(schema, floats, directiveFilter, typeFilter).Success?
    ensures ReadSchema(schema.types, PrintFilteredSchema(schema, floats, directiveFilter, typeFilter).value)
              == Some(((schema.query, schema.mutation, schema.subscription),
                       Map(PrintedDirectives(schema, directiveFilter), StripDirective),
                       Map(PrintedTypes(schema, typeFilter), StripType)))
  {
    ReadPrintedSections(schema, floats, directiveFilter, typeFilter);
    var dts := DirectiveTexts(schema.types, floats, PrintedDirectives(schema, directiveFilter)).value;
    var tts := TypeTexts(schema.types, floats, PrintedTypes(schema, typeFilter)).value;
    assert PrintFilteredSchema(schema, floats, directiveFilter, typeFilter)
        == Success(Join([PrintSchemaDefinition(schema)] + dts + tts, "\n\n"));
  }

  /** The schema block, the directive texts and the type texts, joined by
      blank lines, read back as the schema's parts. */
  lemma ReadPrintedSections(schema: Schema, floats: FloatOps, directiveFilter: Directive -> bool, typeFilter: GraphType -> bool)
    requires RootName(schema.query) && RootName(schema.mutation) && RootName(schema.subscription)
    requires forall d :: d in schema.directives && directiveFilter(d) ==> PrintableDirective(schema.types, d)
    requires forall t :: t in schema.types && typeFilter(t) ==> PrintableType(schema.types, t)
    ensures DirectiveTexts(schema.types, floats, PrintedDirectives(schema, directiveFilter)).Success?
    ensures TypeTexts(schema.types, floats, PrintedTypes(schema, typeFilter)).Success?
    ensures ReadSchema(schema.types, Join([PrintSchemaDefinition(schema)]
                                          + DirectiveTexts(schema.types, floats, PrintedDirectives(schema, directiveFilter)).value
                                          + TypeTexts(schema.types, floats, PrintedTypes(schema, typeFilter)).value, "\n\n"))
              == Some(((schema.query, schema.mutation, schema.subscription),
                       Map(PrintedDirectives(schema, directiveFilter), StripDirective),
                       Map(PrintedTypes(schema, typeFilter), StripType)))
  {
    var ds := PrintedDirectives(schema, directiveFilter);
    var ts := PrintedTypes(schema, typeFilter);
    PrintedDirectivesPrint(schema, floats, directiveFilter);
    PrintedTypesPrint(schema, floats, typeFilter);
    var dts := DirectiveTexts(schema.types, floats, ds).value;
    var tts := TypeTexts(schema.types, floats, ts).value;
    var definition := PrintSchemaDefinition(schema);
    SchemaText(definition, dts, tts);
    NoDirectiveAhead(schema.types, floats, ts, tts);
    DirectivesRoundTrip(schema.types, floats, ds, dts, Sections(tts));
    TypesRoundTrip(schema.types, floats, ts, tts);
    SchemaDefinitionRoundTrip(schema, Sections(dts) + Sections(tts));
  }

  lemma PrintedDirectivesPrint(schema: Schema, floats: FloatOps, directiveFilter: Directive -> bool)
    requires forall d :: d in schema.directives && directiveFilter(d) ==> PrintableDirective(schema.types, d)
    ensures DirectiveTexts(schema.types, floats, PrintedDirectives(schema, directiveFilter)).Success?
    ensures DirectivesPrintAs(schema.types, floats, PrintedDirectives(schema, directiveFilter),
                              DirectiveTexts(schema.types, floats, PrintedDirectives(schema, directiveFilter)).value)
  {
    var ds := PrintedDirectives(schema, directiveFilter);
    forall i | 0 <= i < |ds| ensures PrintDirective(schema.types, floats, ds[i]).Success? && PrintableDirective(schema.types, ds[i]) {
      assert ds[i] in ds;
      DirectiveRoundTrip(schema.types, floats, ds[i], "");
    }
  }

  lemma PrintedTypesPrint(schema: Schema, floats: FloatOps, typeFilter: GraphType -> bool)
    requires forall t :: t in schema.types && typeFilter(t) ==> PrintableType(schema.types, t)
    ensures TypeTexts(schema.types, floats, PrintedTypes(schema, typeFilter)).Success?
    ensures TypesPrintAs(schema.types, floats, PrintedTypes(schema, typeFilter),
                         TypeTexts(schema.types, floats, PrintedTypes(schema, typeFilter)).value)
  {
    var ts := PrintedTypes(schema, typeFilter);
    forall i | 0 <= i < |ts| ensures PrintType(schema.types, floats, ts[i]).Success? && PrintableType(schema.types, ts[i]) {
      assert ts[i] in ts;
      TypeRoundTrip(schema.types, floats, ts[i], "");
    }
  }

  lemma SchemaText(definition: string, dts: seq<string>, tts: seq<string>)
    ensures Join([definition] + dts + tts, "\n\n") == definition + (Sections(dts) + Sections(tts))
  {
    assert [definition] + dts + tts == [definition] + (dts + tts);
    JoinSections(definition, dts + tts);
    SectionsAppend(dts, tts);
  }

  // ---------------------------------------------------------------------------
  // The two public entry points.

  /** `print_schema` leaves out the spec directives, the introspection types
      and the built-in scalars, and reading its text back gives exactly the
      remaining directives (in schema order) and types (in name order). */
  lemma PrintSchemaRoundTrip(schema: Schema, floats: FloatOps)
    requires RootName(schema.query) && RootName(schema.mutation) && RootName(schema.subscription)
    requires forall d :: d in schema.directives && !IsSpecDirective(d) ==> PrintableDirective(schema.types, d)
    requires forall t :: t in schema.types && IsDefinedType(t) ==> PrintableType(schema.types, t)
    ensures PrintSchema(schema, floats).Success?
    ensures ReadSchema(schema.types, PrintSchema(schema, floats).value)
              == Some(((schema.query, schema.mutation, schema.subscription),
                       Map(PrintedDirectives(schema, NotSpecDirective), StripDirective),
                       Map(PrintedTypes(schema, IsDefinedType), StripType)))
    ensures forall d :: d in PrintedDirectives(schema, NotSpecDirective)
              <==> d in schema.directives && d.name !in ["skip", "include", "deprecated"]
    ensures forall t :: t in PrintedTypes(schema, IsDefinedType)
              <==> t in schema.types && !StartsWith(t.name, "__") && t.name !in BuiltinScalars
  {
    SchemaRoundTrip(schema, floats, NotSpecDirective, IsDefinedType);
  }

  /** `print_introspection_schema` keeps only the spec directives and the
      introspection types, and its text reads back to exactly those. */
  lemma IntrospectionSchemaRoundTrip(schema: Schema, floats: FloatOps)
    requires RootName(schema.query) && RootName(schema.mutation) && RootName(schema.subscription)
    requires forall d :: d in schema.directives && IsSpecDirective(d) ==> PrintableDirective(schema.types, d)
    requires forall t :: t in schema.types && IsIntrospectionType(t) ==> PrintableType(schema.types, t)
    ensures PrintIntrospectionSchema(schema, floats).Success?
    ensures ReadSchema(schema.types, PrintIntrospectionSchema(schema, floats).value)
              == Some(((schema.query, schema.mutation, schema.subscription),
                       Map(PrintedDirectives(schema, IsSpecDirective), StripDirective),
                       Map(PrintedTypes(schema, IsIntrospectionType), StripType)))
    ensures forall d :: d in PrintedDirectives(schema, IsSpecDirective)
              <==> d in schema.directives && d.name in ["skip", "include", "deprecated"]
    ensures forall t :: t in PrintedTypes(schema, IsIntrospectionType)
              <==> t in schema.types && StartsWith(t.name, "__")
  {
    SchemaRoundTrip(schema, floats, IsSpecDirective, IsIntrospectionType);
  }
}
