/** Reading printed default values back. A default value is printed under
    the direction of its declared type, so the reader is directed by the type
    too. For a value in the form the printer reproduces (`Canonical`), the
    printed text reads back as the value, and reading stops right after it:
    `print_value` loses nothing for such values. */
module ValueReading {
  import opened Wrappers
  import opened Seqs
  import opened Text
  import opened TypeSystem
  import opened RubyValues
  import opened Printer

  /** A default value in the form the printer reproduces: an integer for
      `Int`, a boolean for `Boolean`, a string for the other scalars but
      `Float`, a symbol naming a GraphQL name for an enum, an array for a
      list and a hash keyed by field names for an input object. */
  predicate Canonical(types: seq<GraphType>, v: Literal, t: TypeRef)
    decreases v, t
  {
    match t
    case NonNull(inner) => Canonical(types, v, inner)
    case List(inner) => v.ListLit? && CanonicalItems(types, v.items, inner)
    case Named(n) =>
      match FindType(types, n)
      case Some(ScalarType(_, _)) =>
        if n == "Int" then v.IntLit?
        else if n == "Boolean" then v.BoolLit?
        else n != "Float" && v.StringLit?
      case Some(EnumType(_, _, _)) => v.EnumLit? && IsName(v.symbol)
      case Some(InputObjectType(_, _, fields)) => v.ObjectLit? && CanonicalEntries(types, v.entries, fields)
      case _ => false
  }

  predicate CanonicalItems(types: seq<GraphType>, items: seq<Literal>, t: TypeRef)
    decreases items
  {
    forall i :: 0 <= i < |items| ==> Canonical(types, items[i], t)
  }

  predicate CanonicalEntries(types: seq<GraphType>, entries: seq<Entry>, fields: seq<InputValue>)
    decreases entries
  {
    forall i :: 0 <= i < |entries| ==>
      IsName(entries[i].key) && EntryField(fields, entries[i]).Some? &&
      Canonical(types, entries[i].value, EntryField(fields, entries[i]).value.typeRef)
  }

  // ---------------------------------------------------------------------------
  // The reader.

  /** Reads a scalar value the way the printer writes one of type `n`. */
  function ReadScalar(n: string, s: string): (r: Option<(Literal, string)>)
    ensures r.Some? ==> |r.value.1| < |s| && s[0] != ']' && s[0] != ' '
  {
    if n == "Int" then
      match ReadInteger(s)
      case Some((i, rest)) => Some((IntLit(i), rest))
      case None => None
    else if n == "Boolean" then
      if StartsWith(s, "true") then Some((BoolLit(true), s[4..]))
      else if StartsWith(s, "false") then Some((BoolLit(false), s[5..]))
      else None
    else if n == "Float" then None
    else
      match ReadQuoted(s)
      case Some((text, rest)) => Some((StringLit(text), rest))
      case None => None
  }

  /** Reads a value of type `t` at the start of `s`; returns it and the rest. */
  function ReadValue(types: seq<GraphType>, s: string, t: TypeRef): (r: Option<(Literal, string)>)
    ensures r.Some? ==> |r.value.1| < |s|
    ensures r.Some? ==> s[0] != ']' && s[0] != ' '
    decreases |s|, 1, t
  {
    match t
    case NonNull(inner) => ReadValue(types, s, inner)
    case List(inner) => ReadList(types, s, inner)
    case Named(n) =>
      match FindType(types, n)
      case Some(ScalarType(_, _)) => ReadScalar(n, s)
      case Some(EnumType(_, _, _)) =>
        var k := NameRun(s);
        if k == 0 then None else Some((EnumLit(s[..k]), s[k..]))
      case Some(InputObjectType(_, _, fields)) => ReadObject(types, fields, s)
      case _ => None
  }

  /** Reads `[]` or `[` items `]`. */
  function ReadList(types: seq<GraphType>, s: string, t: TypeRef): (r: Option<(Literal, string)>)
    ensures r.Some? ==> |r.value.1| < |s| && s[0] == '['
    decreases |s|, 0
  {
    if StartsWith(s, "[]") then Some((ListLit([]), s[2..]))
    else if StartsWith(s, "[") then
      match ReadItems(types, s[1..], t)
      case Some((items, rest)) => Some((ListLit(items), rest))
      case None => None
    else None
  }

  /** Reads `{  }` or `{ ` entries ` }`. */
  function ReadObject(types: seq<GraphType>, fields: seq<InputValue>, s: string): (r: Option<(Literal, string)>)
    ensures r.Some? ==> |r.value.1| < |s| && s[0] == '{'
    decreases |s|, 0
  {
    if StartsWith(s, "{  }") then Some((ObjectLit([]), s[4..]))
    else if StartsWith(s, "{ ") then
      match ReadEntries(types, fields, s[2..])
      case Some((entries, rest)) => Some((ObjectLit(entries), rest))
      case None => None
    else None
  }

  /** Reads list items separated by `, ` up to and including the closing `]`. */
  function ReadItems(types: seq<GraphType>, s: string, t: TypeRef): (r: Option<(seq<Literal>, string)>)
    ensures r.Some? ==> |r.value.1| < |s|
    ensures r.Some? ==> s[0] != ']' && s[0] != ' '
    decreases |s|, 2
  {
    match ReadValue(types, s, t)
    case None => None
    case Some((item, rest)) =>
      if StartsWith(rest, ", ") then
        match ReadItems(types, rest[2..], t)
        case Some((items, after)) => Some(([item] + items, after))
        case None => None
      else if StartsWith(rest, "]") then Some(([item], rest[1..]))
      else None
  }

  /** Reads `key: value` entries separated by `, ` up to and including the
      closing ` }`; each value is read at the type of the field its key names. */
  function ReadEntries(types: seq<GraphType>, fields: seq<InputValue>, s: string): (r: Option<(seq<Entry>, string)>)
    ensures r.Some? ==> |r.value.1| < |s|
    ensures r.Some? ==> NameChar(s[0])
    decreases |s|, 2
  {
    var k := NameRun(s);
    if k == 0 || !StartsWith(s[k..], ": ") then None
    else
      match FindNamed(fields, InputValueName, s[..k])
      case None => None
      case Some(field) =>
        match ReadValue(types, s[k + 2..], field.typeRef)
        case None => None
        case Some((value, rest)) =>
          if StartsWith(rest, ", ") then
            match ReadEntries(types, fields, rest[2..])
            case Some((entries, after)) => Some(([Entry(s[..k], value)] + entries, after))
            case None => None
          else if StartsWith(rest, " }") then Some(([Entry(s[..k], value)], rest[2..]))
          else None
  }

  // ---------------------------------------------------------------------------
  // Round trip.

  /** What may follow a printed value: the end of the text, a separator, a
      closing bracket or parenthesis, or the end of the line. */
  predicate Follows(rest: string) {
    |rest| == 0 || rest[0] in ",] )\n"
  }

  /** A canonical default value prints, and its text reads back as the value. */
  lemma {:induction false} ValueRoundTrip(types: seq<GraphType>, floats: FloatOps, v: Literal, t: TypeRef, rest: string)
    requires Canonical(types, v, t) && Follows(rest)
    ensures PrintValue(types, floats, v, t).Success?
    ensures ReadValue(types, PrintValue(types, floats, v, t).value + rest, t) == Some((v, rest))
    decreases v, t, 1
  {
    match t
    case NonNull(inner) =>
      ValueRoundTrip(types, floats, v, inner, rest);
    case List(inner) =>
      ListRoundTrip(types, floats, v, t, rest);
    case Named(n) =>
      match FindType(types, n)
      case Some(ScalarType(_, _)) =>
        ScalarRoundTrip(types, floats, v, n, rest);
      case Some(EnumType(_, _, _)) =>
        EnumRoundTrip(types, floats, v, n, rest);
      case Some(InputObjectType(_, _, fields)) =>
        ObjectRoundTrip(types, floats, v, t, rest);
  }

  lemma ScalarRoundTrip(types: seq<GraphType>, floats: FloatOps, v: Literal, n: string, rest: string)
    requires FindType(types, n).Some? && FindType(types, n).value.ScalarType?
    requires Canonical(types, v, Named(n)) && Follows(rest)
    ensures PrintValue(types, floats, v, Named(n)).Success?
    ensures ReadValue(types, PrintValue(types, floats, v, Named(n)).value + rest, Named(n)) == Some((v, rest))
  {
    if n == "Int" {
      assert PrintValue(types, floats, v, Named(n)) == Success(Decimal(v.i));
      IntRoundTrip(v.i, rest);
    } else if n == "Boolean" {
      assert PrintValue(types, floats, v, Named(n)) == Success(BoolText(v));
      BoolRoundTrip(v.b, rest);
    } else {
      assert PrintValue(types, floats, v, Named(n)) == Success(Quote(v.s));
      StringRoundTrip(n, v.s, rest);
    }
  }

  lemma IntRoundTrip(i: int, rest: string)
    requires Follows(rest)
    ensures ReadScalar("Int", Decimal(i) + rest) == Some((IntLit(i), rest))
  {
    ReadIntegerDecimal(i, rest);
  }

  lemma BoolRoundTrip(b: bool, rest: string)
    ensures ReadScalar("Boolean", BoolText(BoolLit(b)) + rest) == Some((BoolLit(b), rest))
  {
    StartsWithAppend(BoolText(BoolLit(b)), rest);
    if !b {
      assert (BoolText(BoolLit(b)) + rest)[0] == 'f';
    }
  }

  lemma StringRoundTrip(n: string, s: string, rest: string)
    requires n != "Int" && n != "Boolean" && n != "Float"
    ensures ReadScalar(n, Quote(s) + rest) == Some((StringLit(s), rest))
  {
    ReadQuotedQuote(s, rest);
  }

  lemma EnumRoundTrip(types: seq<GraphType>, floats: FloatOps, v: Literal, n: string, rest: string)
    requires FindType(types, n).Some? && FindType(types, n).value.EnumType?
    requires Canonical(types, v, Named(n)) && Follows(rest)
    ensures PrintValue(types, floats, v, Named(n)).Success?
    ensures ReadValue(types, PrintValue(types, floats, v, Named(n)).value + rest, Named(n)) == Some((v, rest))
  {
    NameRunOf(v.symbol, rest);
  }

  lemma {:induction false} ListRoundTrip(types: seq<GraphType>, floats: FloatOps, v: Literal, t: TypeRef, rest: string)
    requires t.List? && Canonical(types, v, t) && Follows(rest)
    ensures PrintValue(types, floats, v, t).Success?
    ensures ReadValue(types, PrintValue(types, floats, v, t).value + rest, t) == Some((v, rest))
    decreases v, t, 0
  {
    var items := v.items;
    assert ToA(v) == Success(items);
    if |items| == 0 {
      assert PrintItems(types, floats, items, t.ofType) == Success([]);
      assert "[" + Join([], ", ") + "]" == "[]";
      assert PrintValue(types, floats, v, t) == Success("[]");
      StartsWithAppend("[]", rest);
    } else {
      ItemsRoundTrip(types, floats, items, t.ofType, rest);
      var texts := PrintItems(types, floats, items, t.ofType).value;
      assert PrintValue(types, floats, v, t) == Success("[" + Join(texts, ", ") + "]");
      assert PrintValue(types, floats, v, t).value + rest == "[" + (Join(texts, ", ") + "]" + rest);
      ReadListOf(types, t, Join(texts, ", ") + "]" + rest, items, rest);
    }
  }

  lemma ReadListOf(types: seq<GraphType>, t: TypeRef, body: string, items: seq<Literal>, rest: string)
    requires t.List? && ReadItems(types, body, t.ofType) == Some((items, rest))
    ensures ReadValue(types, "[" + body, t) == Some((ListLit(items), rest))
  {
    StartsWithAppend("[", body);
    assert ("[" + body)[1] == body[0];
  }

  lemma {:induction false} ItemsRoundTrip(types: seq<GraphType>, floats: FloatOps, items: seq<Literal>, t: TypeRef, rest: string)
    requires |items| > 0 && CanonicalItems(types, items, t)
    ensures PrintItems(types, floats, items, t).Success?
    ensures ReadItems(types, Join(PrintItems(types, floats, items, t).value, ", ") + "]" + rest, t) == Some((items, rest))
    decreases items
  {
    if |items| == 1 {
      ValueRoundTrip(types, floats, items[0], t, "]" + rest);
      LastItem(types, floats, items, t, rest);
    } else {
      ItemsRoundTrip(types, floats, items[1..], t, rest);
      ValueRoundTrip(types, floats, items[0], t, ", " + (Join(PrintItems(types, floats, items[1..], t).value, ", ") + "]" + rest));
      NextItem(types, floats, items, t, rest);
    }
  }

  lemma LastItem(types: seq<GraphType>, floats: FloatOps, items: seq<Literal>, t: TypeRef, rest: string)
    requires |items| == 1 && PrintValue(types, floats, items[0], t).Success?
    requires ReadValue(types, PrintValue(types, floats, items[0], t).value + ("]" + rest), t) == Some((items[0], "]" + rest))
    ensures PrintItems(types, floats, items, t).Success?
    ensures ReadItems(types, Join(PrintItems(types, floats, items, t).value, ", ") + "]" + rest, t) == Some((items, rest))
  {
    var text := PrintValue(types, floats, items[0], t).value;
    PrintOneItem(types, floats, items, t);
    JoinOne(text, ", ");
    Assoc3(text, "]", rest);
    ReadItemsLast(types, t, text, items[0], rest);
    assert items == [items[0]];
  }

  lemma PrintOneItem(types: seq<GraphType>, floats: FloatOps, items: seq<Literal>, t: TypeRef)
    requires |items| == 1 && PrintValue(types, floats, items[0], t).Success?
    ensures PrintItems(types, floats, items, t) == Success([PrintValue(types, floats, items[0], t).value])
  {
    assert PrintItems(types, floats, items[1..], t) == Success([]);
    assert [PrintValue(types, floats, items[0], t).value] + [] == [PrintValue(types, floats, items[0], t).value];
  }

  lemma NextItem(types: seq<GraphType>, floats: FloatOps, items: seq<Literal>, t: TypeRef, rest: string)
    requires |items| > 1 && PrintItems(types, floats, items[1..], t).Success?
    requires ReadItems(types, Join(PrintItems(types, floats, items[1..], t).value, ", ") + "]" + rest, t)
               == Some((items[1..], rest))
    requires PrintValue(types, floats, items[0], t).Success?
    requires ReadValue(types, PrintValue(types, floats, items[0], t).value
                              + (", " + (Join(PrintItems(types, floats, items[1..], t).value, ", ") + "]" + rest)), t)
               == Some((items[0], ", " + (Join(PrintItems(types, floats, items[1..], t).value, ", ") + "]" + rest)))
    ensures PrintItems(types, floats, items, t).Success?
    ensures ReadItems(types, Join(PrintItems(types, floats, items, t).value, ", ") + "]" + rest, t) == Some((items, rest))
  {
    var text := PrintValue(types, floats, items[0], t).value;
    var more := PrintItems(types, floats, items[1..], t).value;
    PrintNextItem(types, floats, items, t);
    JoinCons(text, more, ", ");
    Assoc5(text, ", ", Join(more, ", "), "]", rest);
    ReadItemsCons(types, t, text, Join(more, ", ") + "]" + rest, items[0], items[1..], rest);
    assert items == [items[0]] + items[1..];
  }

  lemma PrintNextItem(types: seq<GraphType>, floats: FloatOps, items: seq<Literal>, t: TypeRef)
    requires |items| > 1 && PrintItems(types, floats, items[1..], t).Success?
    requires PrintValue(types, floats, items[0], t).Success?
    ensures PrintItems(types, floats, items, t)
              == Success([PrintValue(types, floats, items[0], t).value] + PrintItems(types, floats, items[1..], t).value)
  {
  }

  lemma Assoc3(a: string, b: string, c: string)
    ensures a + b + c == a + (b + c)
  {
  }

  lemma Assoc5(a: string, b: string, c: string, d: string, e: string)
    ensures a + b + c + d + e == a + (b + (c + d + e))
  {
  }

  lemma ReadItemsLast(types: seq<GraphType>, t: TypeRef, text: string, item: Literal, rest: string)
    requires ReadValue(types, text + ("]" + rest), t) == Some((item, "]" + rest))
    ensures ReadItems(types, text + ("]" + rest), t) == Some(([item], rest))
  {
    StartsWithAppend("]", rest);
    var after := "]" + rest;
    assert after[0] == ']' && after[1..] == rest;
    assert !StartsWith(after, ", ") && StartsWith(after, "]");
  }

  lemma ReadItemsCons(types: seq<GraphType>, t: TypeRef, text: string, after: string,
                      item: Literal, items: seq<Literal>, rest: string)
    requires ReadValue(types, text + (", " + after), t) == Some((item, ", " + after))
    requires ReadItems(types, after, t) == Some((items, rest))
    ensures ReadItems(types, text + (", " + after), t) == Some(([item] + items, rest))
  {
    StartsWithAppend(", ", after);
  }

  lemma {:induction false} ObjectRoundTrip(types: seq<GraphType>, floats: FloatOps, v: Literal, t: TypeRef, rest: string)
    requires t.Named? && FindType(types, t.name).Some? && FindType(types, t.name).value.InputObjectType?
    requires Canonical(types, v, t) && Follows(rest)
    ensures PrintValue(types, floats, v, t).Success?
    ensures ReadValue(types, PrintValue(types, floats, v, t).value + rest, t) == Some((v, rest))
    decreases v, t, 0
  {
    var fields := FindType(types, t.name).value.inputFields;
    if |v.entries| == 0 {
      EmptyObject(types, floats, v, t, rest);
    } else {
      EntriesRoundTrip(types, floats, v.entries, fields, rest);
      var texts := PrintEntries(types, floats, v.entries, fields).value;
      PrintObject(types, floats, v, t);
      Assoc3("{ " + Join(texts, ", "), " }", rest);
      Assoc3("{ ", Join(texts, ", "), " }" + rest);
      Assoc3(Join(texts, ", "), " }", rest);
      ReadObjectOf(types, t, fields, Join(texts, ", ") + " }" + rest, v.entries, rest);
    }
  }

  lemma EmptyObject(types: seq<GraphType>, floats: FloatOps, v: Literal, t: TypeRef, rest: string)
    requires t.Named? && FindType(types, t.name).Some? && FindType(types, t.name).value.InputObjectType?
    requires v == ObjectLit([])
    ensures PrintValue(types, floats, v, t) == Success("{  }")
    ensures ReadValue(types, "{  }" + rest, t) == Some((v, rest))
  {
    assert PrintEntries(types, floats, [], FindType(types, t.name).value.inputFields) == Success([]);
    assert "{ " + Join([], ", ") + " }" == "{  }";
    StartsWithAppend("{  }", rest);
  }

  lemma PrintObject(types: seq<GraphType>, floats: FloatOps, v: Literal, t: TypeRef)
    requires t.Named? && FindType(types, t.name).Some? && FindType(types, t.name).value.InputObjectType?
    requires v.ObjectLit? && PrintEntries(types, floats, v.entries, FindType(types, t.name).value.inputFields).Success?
    ensures PrintValue(types, floats, v, t)
              == Success("{ " + Join(PrintEntries(types, floats, v.entries, FindType(types, t.name).value.inputFields).value, ", ") + " }")
  {
  }

  lemma ReadObjectOf(types: seq<GraphType>, t: TypeRef, fields: seq<InputValue>, body: string, entries: seq<Entry>, rest: string)
    requires t.Named? && FindType(types, t.name).Some? && FindType(types, t.name).value.InputObjectType?
    requires fields == FindType(types, t.name).value.inputFields
    requires ReadEntries(types, fields, body) == Some((entries, rest))
    ensures ReadValue(types, "{ " + body, t) == Some((ObjectLit(entries), rest))
  {
    OpenBrace(body);
    assert ReadObject(types, fields, "{ " + body) == Some((ObjectLit(entries), rest));
    ReadValueAtObject(types, t, "{ " + body);
  }

  lemma ReadValueAtObject(types: seq<GraphType>, t: TypeRef, s: string)
    requires t.Named? && FindType(types, t.name).Some? && FindType(types, t.name).value.InputObjectType?
    ensures ReadValue(types, s, t) == ReadObject(types, FindType(types, t.name).value.inputFields, s)
  {
  }

  lemma OpenBrace(body: string)
    requires |body| > 0 && NameChar(body[0])
    ensures StartsWith("{ " + body, "{ ") && ("{ " + body)[2..] == body
    ensures !StartsWith("{ " + body, "{  }")
  {
    StartsWithAppend("{ ", body);
    assert ("{ " + body)[2] == body[0];
  }

  lemma {:induction false} EntriesRoundTrip(types: seq<GraphType>, floats: FloatOps, entries: seq<Entry>,
                                            fields: seq<InputValue>, rest: string)
    requires |entries| > 0 && CanonicalEntries(types, entries, fields)
    ensures PrintEntries(types, floats, entries, fields).Success?
    ensures ReadEntries(types, fields, Join(PrintEntries(types, floats, entries, fields).value, ", ") + " }" + rest)
              == Some((entries, rest))
    decreases entries
  {
    var fieldType := EntryField(fields, entries[0]).value.typeRef;
    if |entries| == 1 {
      ValueRoundTrip(types, floats, entries[0].value, fieldType, " }" + rest);
      LastEntry(types, floats, entries, fields, rest);
    } else {
      EntriesRoundTrip(types, floats, entries[1..], fields, rest);
      ValueRoundTrip(types, floats, entries[0].value, fieldType,
                     ", " + (Join(PrintEntries(types, floats, entries[1..], fields).value, ", ") + " }" + rest));
      NextEntry(types, floats, entries, fields, rest);
    }
  }

  /** The text of the first entry, once its value prints. */
  function EntryText(types: seq<GraphType>, floats: FloatOps, entries: seq<Entry>, fields: seq<InputValue>): string
    requires |entries| > 0 && EntryField(fields, entries[0]).Some?
    requires PrintValue(types, floats, entries[0].value, EntryField(fields, entries[0]).value.typeRef).Success?
  {
    entries[0].key + ": " + PrintValue(types, floats, entries[0].value, EntryField(fields, entries[0]).value.typeRef).value
  }

  lemma LastEntry(types: seq<GraphType>, floats: FloatOps, entries: seq<Entry>, fields: seq<InputValue>, rest: string)
    requires |entries| == 1 && IsName(entries[0].key) && EntryField(fields, entries[0]).Some?
    requires PrintValue(types, floats, entries[0].value, EntryField(fields, entries[0]).value.typeRef).Success?
    requires ReadValue(types, PrintValue(types, floats, entries[0].value, EntryField(fields, entries[0]).value.typeRef).value
                              + (" }" + rest), EntryField(fields, entries[0]).value.typeRef)
               == Some((entries[0].value, " }" + rest))
    ensures PrintEntries(types, floats, entries, fields).Success?
    ensures ReadEntries(types, fields, Join(PrintEntries(types, floats, entries, fields).value, ", ") + " }" + rest)
              == Some((entries, rest))
  {
    var value := PrintValue(types, floats, entries[0].value, EntryField(fields, entries[0]).value.typeRef).value;
    var text := EntryText(types, floats, entries, fields);
    PrintOneEntry(types, floats, entries, fields);
    JoinOne(text, ", ");
    Assoc3(text, " }", rest);
    ReadEntriesLast(types, fields, entries[0], value, rest);
    assert entries == [entries[0]];
  }

  lemma PrintOneEntry(types: seq<GraphType>, floats: FloatOps, entries: seq<Entry>, fields: seq<InputValue>)
    requires |entries| == 1 && EntryField(fields, entries[0]).Some?
    requires PrintValue(types, floats, entries[0].value, EntryField(fields, entries[0]).value.typeRef).Success?
    ensures PrintEntries(types, floats, entries, fields) == Success([EntryText(types, floats, entries, fields)])
  {
    assert PrintEntries(types, floats, entries[1..], fields) == Success([]);
    assert [EntryText(types, floats, entries, fields)] + [] == [EntryText(types, floats, entries, fields)];
  }

  lemma NextEntry(types: seq<GraphType>, floats: FloatOps, entries: seq<Entry>, fields: seq<InputValue>, rest: string)
    requires |entries| > 1 && IsName(entries[0].key) && EntryField(fields, entries[0]).Some?
    requires PrintEntries(types, floats, entries[1..], fields).Success?
    requires ReadEntries(types, fields, Join(PrintEntries(types, floats, entries[1..], fields).value, ", ") + " }" + rest)
               == Some((entries[1..], rest))
    requires PrintValue(types, floats, entries[0].value, EntryField(fields, entries[0]).value.typeRef).Success?
    requires ReadValue(types, PrintValue(types, floats, entries[0].value, EntryField(fields, entries[0]).value.typeRef).value
                              + (", " + (Join(PrintEntries(types, floats, entries[1..], fields).value, ", ") + " }" + rest)),
                       EntryField(fields, entries[0]).value.typeRef)
               == Some((entries[0].value, ", " + (Join(PrintEntries(types, floats, entries[1..], fields).value, ", ") + " }" + rest)))
    ensures PrintEntries(types, floats, entries, fields).Success?
    ensures ReadEntries(types, fields, Join(PrintEntries(types, floats, entries, fields).value, ", ") + " }" + rest)
              == Some((entries, rest))
  {
    var value := PrintValue(types, floats, entries[0].value, EntryField(fields, entries[0]).value.typeRef).value;
    var text := EntryText(types, floats, entries, fields);
    var more := PrintEntries(types, floats, entries[1..], fields).value;
    var after := Join(more, ", ") + " }" + rest;
    PrintNextEntry(types, floats, entries, fields);
    JoinCons(text, more, ", ");
    Assoc5(text, ", ", Join(more, ", "), " }", rest);
    Assoc3(entries[0].key + ": ", value, ", " + after);
    ReadEntriesCons(types, fields, entries[0], value, after, entries[1..], rest);
    assert entries == [entries[0]] + entries[1..];
  }

  lemma PrintNextEntry(types: seq<GraphType>, floats: FloatOps, entries: seq<Entry>, fields: seq<InputValue>)
    requires |entries| > 1 && EntryField(fields, entries[0]).Some?
    requires PrintEntries(types, floats, entries[1..], fields).Success?
    requires PrintValue(types, floats, entries[0].value, EntryField(fields, entries[0]).value.typeRef).Success?
    ensures PrintEntries(types, floats, entries, fields)
              == Success([EntryText(types, floats, entries, fields)] + PrintEntries(types, floats, entries[1..], fields).value)
  {
  }

  /** An entry `key: value` followed by `tail` is read as the entry's key and
      then the value at the type of the field the key names. */
  lemma ReadEntryHead(e: Entry, text: string, tail: string)
    requires IsName(e.key)
    ensures var s := e.key + ": " + text + tail;
            NameRun(s) == |e.key| && StartsWith(s[|e.key|..], ": ") && s[..|e.key|] == e.key &&
            s[|e.key| + 2..] == text + tail
  {
    var s := e.key + ": " + text + tail;
    assert s == e.key + (": " + text + tail);
    NameRunOf(e.key, ": " + text + tail);
    StartsWithAppend(": ", text + tail);
  }

  lemma ReadEntriesLast(types: seq<GraphType>, fields: seq<InputValue>, e: Entry, text: string, rest: string)
    requires IsName(e.key) && EntryField(fields, e).Some?
    requires ReadValue(types, text + (" }" + rest), EntryField(fields, e).value.typeRef) == Some((e.value, " }" + rest))
    ensures ReadEntries(types, fields, e.key + ": " + text + (" }" + rest)) == Some(([e], rest))
  {
    ReadEntryHead(e, text, " }" + rest);
    StartsWithAppend(" }", rest);
  }

  lemma ReadEntriesCons(types: seq<GraphType>, fields: seq<InputValue>, e: Entry, text: string, after: string,
                        entries: seq<Entry>, rest: string)
    requires IsName(e.key) && EntryField(fields, e).Some?
    requires ReadValue(types, text + (", " + after), EntryField(fields, e).value.typeRef) == Some((e.value, ", " + after))
    requires ReadEntries(types, fields, after) == Some((entries, rest))
    ensures ReadEntries(types, fields, e.key + ": " + text + (", " + after)) == Some(([e] + entries, rest))
  {
    ReadEntryHead(e, text, ", " + after);
    StartsWithAppend(", ", after);
  }
}
