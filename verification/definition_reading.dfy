/** Readers for printed arguments, fields, types and directives, and the
    round trips showing that the printed text keeps each definition but its
    descriptions (which `print_description` never prints). */
module DefinitionReading {
  import opened Wrappers
  import opened Seqs
  import opened Text
  import opened TypeSystem
  import opened RubyValues
  import opened Printer
  import opened PrinterReading
  import opened ValueReading

  // ---------------------------------------------------------------------------
  // What the text keeps.

  function StripArg(a: InputValue): InputValue {
    a.(description := None)
  }

  function StripArgs(args: seq<InputValue>): (r: seq<InputValue>)
    ensures |r| == |args|
    ensures forall i :: 0 <= i < |args| ==> r[i] == StripArg(args[i])
  {
    if |args| == 0 then [] else [StripArg(args[0])] + StripArgs(args[1..])
  }

  /** An argument the printer writes so that it can be read back: its name is
      a GraphQL name, so is every name in its type, and its default value is
      nil or canonical for its type. */
  predicate PrintableArg(types: seq<GraphType>, a: InputValue) {
    IsName(a.name) && RefNames(a.typeRef) &&
    (a.defaultValue == NullLit || Canonical(types, a.defaultValue, a.typeRef))
  }

  predicate PrintableArgs(types: seq<GraphType>, args: seq<InputValue>) {
    forall i :: 0 <= i < |args| ==> PrintableArg(types, args[i])
  }

  // ---------------------------------------------------------------------------
  // Input values: `name: Type` and an optional ` = default`.

  /** What may follow an argument or an input field. */
  predicate ArgFollows(rest: string) {
    |rest| == 0 || rest[0] in ",)\n"
  }

  function ReadInputValue(types: seq<GraphType>, s: string): (r: Option<(InputValue, string)>)
    ensures r.Some? ==> |r.value.1| < |s| && NameChar(s[0])
  {
    var k := NameRun(s);
    if k == 0 || !StartsWith(s[k..], ": ") then None
    else
      match ReadTypeRef(s[k + 2..])
      case None => None
      case Some((t, rest)) =>
        if StartsWith(rest, " = ") then
          match ReadValue(types, rest[3..], t)
          case Some((v, after)) => Some((InputValue(s[..k], t, v, None), after))
          case None => None
        else Some((InputValue(s[..k], t, NullLit, None), rest))
  }

  /** `name: Type` followed by `tail` reads the name and the type. */
  lemma ReadArgHead(name: string, t: TypeRef, tail: string)
    requires IsName(name) && RefNames(t) && (|tail| == 0 || !RefChar(tail[0]))
    ensures var s := name + ": " + TypeRefString(t) + tail;
            NameRun(s) == |name| && s[..|name|] == name && StartsWith(s[|name|..], ": ") &&
            ReadTypeRef(s[|name| + 2..]) == Some((t, tail))
  {
    var s := name + ": " + TypeRefString(t) + tail;
    assert s == name + (": " + (TypeRefString(t) + tail));
    NameRunOf(name, ": " + (TypeRefString(t) + tail));
    StartsWithAppend(": ", TypeRefString(t) + tail);
    ReadTypeRefString(t, tail);
  }

  /** A printable argument prints, and its text reads back as the argument
      without its description. */
  lemma InputValueRoundTrip(types: seq<GraphType>, floats: FloatOps, a: InputValue, rest: string)
    requires PrintableArg(types, a) && ArgFollows(rest)
    ensures PrintInputValue(types, floats, a).Success?
    ensures ReadInputValue(types, PrintInputValue(types, floats, a).value + rest) == Some((StripArg(a), rest))
  {
    if a.defaultValue == NullLit {
      assert PrintInputValue(types, floats, a) == Success(a.name + ": " + TypeRefString(a.typeRef));
      ReadArgHead(a.name, a.typeRef, rest);
      NoDefault(types, a.name, a.typeRef, rest);
    } else {
      ValueRoundTrip(types, floats, a.defaultValue, a.typeRef, rest);
      var text := PrintValue(types, floats, a.defaultValue, a.typeRef).value;
      PrintedDefault(types, floats, a, rest);
      ReadArgHead(a.name, a.typeRef, " = " + text + rest);
      WithDefault(types, a.name, a.typeRef, text, a.defaultValue, rest);
    }
  }

  lemma NoDefault(types: seq<GraphType>, name: string, t: TypeRef, rest: string)
    requires ArgFollows(rest)
    requires var s := name + ": " + TypeRefString(t) + rest;
             NameRun(s) == |name| && |name| > 0 && s[..|name|] == name && StartsWith(s[|name|..], ": ") &&
             ReadTypeRef(s[|name| + 2..]) == Some((t, rest))
    ensures ReadInputValue(types, name + ": " + TypeRefString(t) + rest) == Some((InputValue(name, t, NullLit, None), rest))
  {
    var s := name + ": " + TypeRefString(t) + rest;
    assert NameRun(s) == |name| && s[..|name|] == name;
    assert ReadTypeRef(s[|name| + 2..]) == Some((t, rest));
    assert !StartsWith(rest, " = ");
  }

  lemma WithDefault(types: seq<GraphType>, name: string, t: TypeRef, text: string, v: Literal, rest: string)
    requires ReadValue(types, text + rest, t) == Some((v, rest))
    requires var s := name + ": " + TypeRefString(t) + (" = " + text + rest);
             NameRun(s) == |name| && |name| > 0 && s[..|name|] == name && StartsWith(s[|name|..], ": ") &&
             ReadTypeRef(s[|name| + 2..]) == Some((t, " = " + text + rest))
    ensures ReadInputValue(types, name + ": " + TypeRefString(t) + (" = " + text + rest))
              == Some((InputValue(name, t, v, None), rest))
  {
    DefaultTail(text, rest);
  }

  lemma DefaultTail(text: string, rest: string)
    ensures StartsWith(" = " + text + rest, " = ") && (" = " + text + rest)[3..] == text + rest
  {
    assert " = " + text + rest == " = " + (text + rest);
    StartsWithAppend(" = ", text + rest);
  }

  lemma PrintedDefault(types: seq<GraphType>, floats: FloatOps, a: InputValue, rest: string)
    requires a.defaultValue != NullLit && PrintValue(types, floats, a.defaultValue, a.typeRef).Success?
    ensures PrintInputValue(types, floats, a).Success?
    ensures PrintInputValue(types, floats, a).value + rest
              == a.name + ": " + TypeRefString(a.typeRef)
                 + (" = " + PrintValue(types, floats, a.defaultValue, a.typeRef).value + rest)
  {
  }

  /** The round trip for an argument whose text is already known. */
  lemma ArgRoundTrip(types: seq<GraphType>, floats: FloatOps, a: InputValue, text: string, rest: string)
    requires PrintableArg(types, a) && ArgFollows(rest)
    requires PrintInputValue(types, floats, a) == Success(text)
    ensures ReadInputValue(types, text + rest) == Some((StripArg(a), rest))
  {
    InputValueRoundTrip(types, floats, a, rest);
  }

  // ---------------------------------------------------------------------------
  // Argument lists.

  /** Reads `a, b, …)`: the arguments of the inline layout. */
  function ReadInlineArgs(types: seq<GraphType>, s: string): (r: Option<(seq<InputValue>, string)>)
    ensures r.Some? ==> |r.value.1| < |s| && NameChar(s[0])
    decreases |s|
  {
    match ReadInputValue(types, s)
    case None => None
    case Some((a, rest)) =>
      if StartsWith(rest, ", ") then
        match ReadInlineArgs(types, rest[2..])
        case Some((args, after)) => Some(([a] + args, after))
        case None => None
      else if StartsWith(rest, ")") then Some(([a], rest[1..]))
      else None
  }

  /** Reads the lines of the multi-line layout, each indented by two spaces
      and `indentation`, up to and including the closing `\n)`. */
  function ReadArgLines(types: seq<GraphType>, s: string, indentation: string): (r: Option<(seq<InputValue>, string)>)
    ensures r.Some? ==> |r.value.1| < |s| && StartsWith(s, "  " + indentation)
    decreases |s|
  {
    var lead := "  " + indentation;
    if !StartsWith(s, lead) then None
    else
      match ReadInputValue(types, s[|lead|..])
      case None => None
      case Some((a, rest)) =>
        if StartsWith(rest, "\n)") then Some(([a], rest[2..]))
        else if StartsWith(rest, "\n") then
          match ReadArgLines(types, rest[1..], indentation)
          case Some((args, after)) => Some(([a] + args, after))
          case None => None
        else None
  }

  /** Reads an argument list in either layout; no list reads as no arguments. */
  function ReadArgs(types: seq<GraphType>, s: string, indentation: string): (r: Option<(seq<InputValue>, string)>)
    ensures r.Some? ==> |r.value.1| <= |s|
  {
    if StartsWith(s, "(\n") then ReadArgLines(types, s[2..], indentation)
    else if StartsWith(s, "(") then ReadInlineArgs(types, s[1..])
    else Some(([], s))
  }

  /** The texts an argument list is printed from. */
  predicate ArgTexts(types: seq<GraphType>, floats: FloatOps, args: seq<InputValue>, texts: seq<string>) {
    |texts| == |args| &&
    forall i :: 0 <= i < |args| ==> PrintInputValue(types, floats, args[i]) == Success(texts[i])
  }

  lemma ArgTextsTail(types: seq<GraphType>, floats: FloatOps, args: seq<InputValue>, texts: seq<string>)
    requires |args| > 0 && ArgTexts(types, floats, args, texts) && PrintableArgs(types, args)
    ensures ArgTexts(types, floats, args[1..], texts[1..]) && PrintableArgs(types, args[1..])
    ensures PrintableArg(types, args[0]) && PrintInputValue(types, floats, args[0]) == Success(texts[0])
  {
    assert forall i :: 0 <= i < |args| - 1 ==> args[1..][i] == args[i + 1];
  }

  lemma {:induction false} InlineArgsRoundTrip(types: seq<GraphType>, floats: FloatOps, args: seq<InputValue>,
                                               texts: seq<string>, rest: string)
    requires |args| > 0 && ArgTexts(types, floats, args, texts) && PrintableArgs(types, args)
    ensures ReadInlineArgs(types, Join(texts, ", ") + ")" + rest) == Some((StripArgs(args), rest))
    decreases |args|
  {
    ArgTextsTail(types, floats, args, texts);
    StripArgsCons(args);
    if |args| == 1 {
      ArgRoundTrip(types, floats, args[0], texts[0], ")" + rest);
      InlineShapeOne(texts, rest);
      ReadInlineLast(types, texts[0], StripArg(args[0]), rest);
    } else {
      InlineArgsRoundTrip(types, floats, args[1..], texts[1..], rest);
      var after := Join(texts[1..], ", ") + ")" + rest;
      ArgRoundTrip(types, floats, args[0], texts[0], ", " + after);
      InlineShapeNext(texts, rest);
      ReadInlineNext(types, texts[0], after, StripArg(args[0]), StripArgs(args[1..]), rest);
    }
  }

  lemma StripArgsCons(args: seq<InputValue>)
    requires |args| > 0
    ensures StripArgs(args) == [StripArg(args[0])] + StripArgs(args[1..])
    ensures |args| == 1 ==> StripArgs(args) == [StripArg(args[0])]
  {
    if |args| == 1 {
      assert StripArgs(args[1..]) == [];
    }
  }

  lemma InlineShapeOne(texts: seq<string>, rest: string)
    requires |texts| == 1
    ensures Join(texts, ", ") + ")" + rest == texts[0] + (")" + rest)
  {
    assert texts == [texts[0]];
    JoinOne(texts[0], ", ");
  }

  lemma InlineShapeNext(texts: seq<string>, rest: string)
    requires |texts| > 1
    ensures Join(texts, ", ") + ")" + rest == texts[0] + (", " + (Join(texts[1..], ", ") + ")" + rest))
  {
    assert texts == [texts[0]] + texts[1..];
    JoinCons(texts[0], texts[1..], ", ");
    Assoc5(texts[0], ", ", Join(texts[1..], ", "), ")", rest);
  }

  lemma ReadInlineLast(types: seq<GraphType>, text: string, a: InputValue, rest: string)
    requires ReadInputValue(types, text + (")" + rest)) == Some((a, ")" + rest))
    ensures ReadInlineArgs(types, text + (")" + rest)) == Some(([a], rest))
  {
    var after := ")" + rest;
    assert after[0] == ')' && after[1..] == rest;
    assert !StartsWith(after, ", ");
    assert StartsWith(after, ")");
  }

  lemma ReadInlineNext(types: seq<GraphType>, text: string, after: string, a: InputValue,
                       args: seq<InputValue>, rest: string)
    requires ReadInputValue(types, text + (", " + after)) == Some((a, ", " + after))
    requires ReadInlineArgs(types, after) == Some((args, rest))
    ensures ReadInlineArgs(types, text + (", " + after)) == Some(([a] + args, rest))
  {
    StartsWithAppend(", ", after);
  }

  lemma {:induction false} ArgLinesRoundTrip(types: seq<GraphType>, floats: FloatOps, args: seq<InputValue>,
                                             texts: seq<string>, indentation: string, rest: string)
    requires |args| > 0 && ArgTexts(types, floats, args, texts) && PrintableArgs(types, args)
    ensures ReadArgLines(types, Join(IndentLines(indentation, texts), "\n") + "\n)" + rest, indentation)
              == Some((StripArgs(args), rest))
    decreases |args|
  {
    ArgTextsTail(types, floats, args, texts);
    StripArgsCons(args);
    if |args| == 1 {
      ArgRoundTrip(types, floats, args[0], texts[0], "\n)" + rest);
      LinesShapeOne(indentation, texts, rest);
      ReadLineLast(types, indentation, texts[0], StripArg(args[0]), rest);
    } else {
      ArgLinesRoundTrip(types, floats, args[1..], texts[1..], indentation, rest);
      var after := Join(IndentLines(indentation, texts[1..]), "\n") + "\n)" + rest;
      ArgRoundTrip(types, floats, args[0], texts[0], "\n" + after);
      LinesShapeNext(indentation, texts, rest);
      ReadLineNext(types, indentation, texts[0], after, StripArg(args[0]), StripArgs(args[1..]), rest);
    }
  }

  lemma LinesShapeOne(indentation: string, texts: seq<string>, rest: string)
    requires |texts| == 1
    ensures Join(IndentLines(indentation, texts), "\n") + "\n)" + rest
              == "  " + indentation + (texts[0] + ("\n)" + rest))
  {
    var lines := IndentLines(indentation, texts);
    assert lines == [Indented(indentation, texts[0])];
    JoinOne(lines[0], "\n");
  }

  lemma LinesShapeNext(indentation: string, texts: seq<string>, rest: string)
    requires |texts| > 1
    ensures Join(IndentLines(indentation, texts), "\n") + "\n)" + rest
              == "  " + indentation + (texts[0] + ("\n" + (Join(IndentLines(indentation, texts[1..]), "\n") + "\n)" + rest)))
  {
    var lines := IndentLines(indentation, texts);
    var more := IndentLines(indentation, texts[1..]);
    assert lines == [Indented(indentation, texts[0])] + more;
    JoinCons(Indented(indentation, texts[0]), more, "\n");
    Assoc5(Indented(indentation, texts[0]), "\n", Join(more, "\n"), "\n)", rest);
    Assoc3("  " + indentation, texts[0], "\n" + (Join(more, "\n") + "\n)" + rest));
  }

  lemma ReadLineLast(types: seq<GraphType>, indentation: string, text: string, a: InputValue, rest: string)
    requires ReadInputValue(types, text + ("\n)" + rest)) == Some((a, "\n)" + rest))
    ensures ReadArgLines(types, "  " + indentation + (text + ("\n)" + rest)), indentation) == Some(([a], rest))
  {
    var after := "\n)" + rest;
    StartsWithAppend("  " + indentation, text + after);
    StartsWithAppend("\n)", rest);
  }

  lemma ReadLineNext(types: seq<GraphType>, indentation: string, text: string, after: string, a: InputValue,
                     args: seq<InputValue>, rest: string)
    requires ReadInputValue(types, text + ("\n" + after)) == Some((a, "\n" + after))
    requires ReadArgLines(types, after, indentation) == Some((args, rest))
    ensures ReadArgLines(types, "  " + indentation + (text + ("\n" + after)), indentation) == Some(([a] + args, rest))
  {
    var tail := "\n" + after;
    LeadSpace(after, indentation);
    NotClosing(after);
    StartsWithAppend("  " + indentation, text + tail);
    StartsWithAppend("\n", after);
  }

  lemma LeadSpace(s: string, indentation: string)
    requires StartsWith(s, "  " + indentation)
    ensures |s| > 0 && s[0] == ' '
  {
    assert s[0] == s[..|"  " + indentation|][0];
  }

  lemma NotClosing(after: string)
    requires |after| > 0 && after[0] == ' '
    ensures !StartsWith("\n" + after, "\n)")
  {
    assert ("\n" + after)[1] == ' ';
  }

  /** The texts of printable arguments. */
  lemma PrintableArgTexts(types: seq<GraphType>, floats: FloatOps, args: seq<InputValue>)
    requires PrintableArgs(types, args)
    ensures InputValueTexts(types, floats, args).Success?
    ensures ArgTexts(types, floats, args, InputValueTexts(types, floats, args).value)
  {
    forall i | 0 <= i < |args| ensures PrintInputValue(types, floats, args[i]).Success? {
      InputValueRoundTrip(types, floats, args[i], "");
    }
  }

  /** A printable argument list prints in either layout, and reads back as
      the arguments without their descriptions. */
  lemma ArgsRoundTrip(types: seq<GraphType>, floats: FloatOps, args: seq<InputValue>, indentation: string, rest: string)
    requires PrintableArgs(types, args) && (|rest| == 0 || rest[0] != '(')
    ensures PrintArgs(types, floats, args, indentation).Success?
    ensures ReadArgs(types, PrintArgs(types, floats, args, indentation).value + rest, indentation) == Some((StripArgs(args), rest))
  {
    PrintableArgTexts(types, floats, args);
    var texts := InputValueTexts(types, floats, args).value;
    if |args| == 0 {
      assert PrintArgs(types, floats, args, indentation).value + rest == rest;
      assert !StartsWith(rest, "(\n") && !StartsWith(rest, "(");
    } else if forall i :: 0 <= i < |args| ==> Undescribed(args[i]) {
      assert PrintArgs(types, floats, args, indentation) == Success("(" + Join(texts, ", ") + ")");
      InlineArgsRoundTrip(types, floats, args, texts, rest);
      Assoc3("(" + Join(texts, ", "), ")", rest);
      Assoc3("(", Join(texts, ", "), ")" + rest);
      Assoc3(Join(texts, ", "), ")", rest);
      ReadArgsInline(types, Join(texts, ", ") + ")" + rest, indentation, StripArgs(args), rest);
    } else {
      var lines := IndentLines(indentation, texts);
      assert PrintArgs(types, floats, args, indentation) == Success("(\n" + Join(lines, "\n") + "\n)");
      ArgLinesRoundTrip(types, floats, args, texts, indentation, rest);
      Assoc3("(\n" + Join(lines, "\n"), "\n)", rest);
      Assoc3("(\n", Join(lines, "\n"), "\n)" + rest);
      Assoc3(Join(lines, "\n"), "\n)", rest);
      ReadArgsLines(types, Join(lines, "\n") + "\n)" + rest, indentation, StripArgs(args), rest);
    }
  }

  lemma ReadArgsInline(types: seq<GraphType>, body: string, indentation: string, args: seq<InputValue>, rest: string)
    requires ReadInlineArgs(types, body) == Some((args, rest))
    ensures ReadArgs(types, "(" + body, indentation) == Some((args, rest))
  {
    OpenParen(body);
  }

  lemma OpenParen(body: string)
    requires |body| > 0 && NameChar(body[0])
    ensures StartsWith("(" + body, "(") && ("(" + body)[1..] == body
    ensures !StartsWith("(" + body, "(\n")
  {
    StartsWithAppend("(", body);
    assert ("(" + body)[1] == body[0];
  }

  lemma ReadArgsLines(types: seq<GraphType>, body: string, indentation: string, args: seq<InputValue>, rest: string)
    requires ReadArgLines(types, body, indentation) == Some((args, rest))
    ensures ReadArgs(types, "(\n" + body, indentation) == Some((args, rest))
  {
    StartsWithAppend("(\n", body);
  }

  /** The layout follows the descriptions: arguments go one per line exactly
      when one of them has a description. */
  lemma ArgsLayout(types: seq<GraphType>, floats: FloatOps, args: seq<InputValue>, indentation: string)
    requires PrintableArgs(types, args)
    ensures PrintArgs(types, floats, args, indentation).Success?
    ensures StartsWith(PrintArgs(types, floats, args, indentation).value, "(\n") <==>
              exists i :: 0 <= i < |args| && args[i].description.Some?
  {
    PrintableArgTexts(types, floats, args);
    var texts := InputValueTexts(types, floats, args).value;
    if |args| == 0 {
      assert PrintArgs(types, floats, args, indentation) == Success("");
    } else if forall i :: 0 <= i < |args| ==> Undescribed(args[i]) {
      InlineArgsRoundTrip(types, floats, args, texts, "");
      InlineLayout(types, Join(texts, ", "));
      assert PrintArgs(types, floats, args, indentation) == Success("(" + Join(texts, ", ") + ")");
    } else {
      var lines := Join(IndentLines(indentation, texts), "\n");
      assert PrintArgs(types, floats, args, indentation) == Success("(\n" + lines + "\n)");
      Assoc3("(\n", lines, "\n)");
      StartsWithAppend("(\n", lines + "\n)");
    }
  }

  lemma InlineLayout(types: seq<GraphType>, joined: string)
    requires ReadInlineArgs(types, joined + ")" + "").Some?
    ensures !StartsWith("(" + joined + ")", "(\n")
  {
    var body := joined + ")";
    assert joined + ")" + "" == body;
    OpenParen(body);
    assert "(" + joined + ")" == "(" + body;
  }
}
