/** The schema comparator: a structural diff of two schemas, reported as an
    ordered list of change records, each classified as breaking or not.
    Every comparison is a set difference of names taken in list order (Ruby's
    `a - b` and `a & b`); no two types are ever compared structurally. */
module SchemaComparator {
  import opened Wrappers
  import opened Seqs
  import opened Text
  import opened TypeSystem

  /** The `CHANGE_TYPES` constants. */
  datatype ChangeType =
    | TYPE_REMOVED
    | TYPE_ADDED
    | TYPE_KIND_CHANGED
    | TYPE_DESCRIPTION_CHANGED
    | ENUM_VALUE_REMOVED
    | ENUM_VALUE_ADDED
    | ENUM_VALUE_DESCRIPTION_CHANGED
    | ENUM_VALUE_DEPRECATED
    | UNION_MEMBER_REMOVED
    | UNION_MEMBER_ADDED
    | DIRECTIVE_REMOVED
    | DIRECTIVE_ADDED
    | DIRECTIVE_DESCRIPTION_CHANGED
    | DIRECTIVE_ARGUMENT_DESCRIPTION_CHANGED
    | DIRECTIVE_ARGUMENT_REMOVED
    | DIRECTIVE_ARGUMENT_ADDED
    | DIRECTIVE_LOCATION_ADDED
    | DIRECTIVE_LOCATION_REMOVED
    | INPUT_FIELD_REMOVED
    | INPUT_FIELD_ADDED
    | INPUT_FIELD_DESCRIPTION_CHANGED
    | OBJECT_TYPE_INTERFACE_ADDED
    | OBJECT_TYPE_INTERFACE_REMOVED
    | FIELD_REMOVED
    | FIELD_ADDED

  /** One `{type:, description:, breaking_change:}` record. */
  datatype Change = Change(changeType: ChangeType, description: string, breakingChange: bool)

  // ---------------------------------------------------------------------------
  // Classification of the change kinds.

  /** Kinds whose records are always breaking. */
  predicate AlwaysBreaking(t: ChangeType) {
    match t
    case TYPE_REMOVED | TYPE_KIND_CHANGED | ENUM_VALUE_REMOVED | UNION_MEMBER_REMOVED
       | DIRECTIVE_REMOVED | DIRECTIVE_ARGUMENT_REMOVED | DIRECTIVE_LOCATION_REMOVED
       | INPUT_FIELD_REMOVED | OBJECT_TYPE_INTERFACE_REMOVED | FIELD_REMOVED => true
    case _ => false
  }

  /** Kinds whose breaking flag depends on the added element's type. */
  predicate ConditionallyBreaking(t: ChangeType) {
    t == INPUT_FIELD_ADDED || t == DIRECTIVE_ARGUMENT_ADDED
  }

  /** The flag agrees with the classification of the record's kind. */
  predicate WellClassified(c: Change) {
    (AlwaysBreaking(c.changeType) ==> c.breakingChange)
    && (!AlwaysBreaking(c.changeType) && !ConditionallyBreaking(c.changeType) ==> !c.breakingChange)
  }

  /** The section of `Compare`'s output a record kind belongs to: type
      removals, type additions, changes inside common types, directives. */
  function Phase(t: ChangeType): nat {
    match t
    case TYPE_REMOVED => 0
    case TYPE_ADDED => 1
    case DIRECTIVE_REMOVED | DIRECTIVE_ADDED | DIRECTIVE_DESCRIPTION_CHANGED
       | DIRECTIVE_ARGUMENT_DESCRIPTION_CHANGED | DIRECTIVE_ARGUMENT_REMOVED
       | DIRECTIVE_ARGUMENT_ADDED | DIRECTIVE_LOCATION_ADDED | DIRECTIVE_LOCATION_REMOVED => 3
    case _ => 2
  }

  /** Within one list of named elements: removals, then additions, then the
      changes to elements present on both sides. */
  function RemovalRank(t: ChangeType): nat {
    match t
    case ENUM_VALUE_REMOVED | UNION_MEMBER_REMOVED | DIRECTIVE_REMOVED | DIRECTIVE_ARGUMENT_REMOVED
       | DIRECTIVE_LOCATION_REMOVED | INPUT_FIELD_REMOVED | OBJECT_TYPE_INTERFACE_REMOVED
       | FIELD_REMOVED | TYPE_REMOVED => 0
    case ENUM_VALUE_ADDED | UNION_MEMBER_ADDED | DIRECTIVE_ADDED | DIRECTIVE_ARGUMENT_ADDED
       | DIRECTIVE_LOCATION_ADDED | INPUT_FIELD_ADDED | OBJECT_TYPE_INTERFACE_ADDED
       | FIELD_ADDED | TYPE_ADDED => 1
    case _ => 2
  }

  /** A change to a member of a type: its values, fields, interfaces or union members. */
  predicate IsMemberChange(t: ChangeType) {
    match t
    case ENUM_VALUE_REMOVED | ENUM_VALUE_ADDED | ENUM_VALUE_DESCRIPTION_CHANGED | ENUM_VALUE_DEPRECATED
       | UNION_MEMBER_REMOVED | UNION_MEMBER_ADDED
       | INPUT_FIELD_REMOVED | INPUT_FIELD_ADDED | INPUT_FIELD_DESCRIPTION_CHANGED
       | OBJECT_TYPE_INTERFACE_ADDED | OBJECT_TYPE_INTERFACE_REMOVED | FIELD_REMOVED | FIELD_ADDED => true
    case _ => false
  }

  /** A change inside a directive both schemas define. */
  predicate IsDirectiveDetail(t: ChangeType) {
    match t
    case DIRECTIVE_DESCRIPTION_CHANGED | DIRECTIVE_LOCATION_REMOVED | DIRECTIVE_LOCATION_ADDED
       | DIRECTIVE_ARGUMENT_REMOVED | DIRECTIVE_ARGUMENT_ADDED | DIRECTIVE_ARGUMENT_DESCRIPTION_CHANGED => true
    case _ => false
  }

  predicate RankSorted(cs: seq<Change>, rank: ChangeType -> nat) {
    forall i, j :: 0 <= i < j < |cs| ==> rank(cs[i].changeType) <= rank(cs[j].changeType)
  }

  // ---------------------------------------------------------------------------
  // Record constructors: a fixed description template and a fixed or given flag.

  function TypeRemoved(typeName: string): Change {
    Change(TYPE_REMOVED, "`" + typeName + "` type was removed", true)
  }

  function TypeAdded(typeName: string): Change {
    Change(TYPE_ADDED, "`" + typeName + "` type was added", false)
  }

  /** Ruby `kind`. */
  function KindName(k: TypeKind): string {
    match k
    case Object => "Object"
    case Interface => "Interface"
    case Scalar => "Scalar"
    case Union => "Union"
    case Enum => "Enum"
    case InputObject => "InputObject"
  }

  function TypeKindChanged(oldType: GraphType, newType: GraphType): Change {
    Change(TYPE_KIND_CHANGED,
           "`" + oldType.name + "` changed from an " + KindName(oldType.Kind()) + " type to a "
             + KindName(newType.Kind()) + " type",
           true)
  }

  function TypeDescriptionChanged(typeName: string): Change {
    Change(TYPE_DESCRIPTION_CHANGED, "`" + typeName + "` type description is changed", false)
  }

  function EnumValueAdded(value: string, enumName: string): Change {
    Change(ENUM_VALUE_ADDED, "Enum value `" + value + "` was added to enum `" + enumName + "`", false)
  }

  function EnumValueRemoved(value: string, enumName: string): Change {
    Change(ENUM_VALUE_REMOVED, "Enum value `" + value + "` was removed from enum `" + enumName + "`", true)
  }

  function EnumValueDescriptionChanged(value: string, enumName: string): Change {
    Change(ENUM_VALUE_DESCRIPTION_CHANGED, "`" + enumName + "." + value + "` description changed", false)
  }

  function EnumValueDeprecated(value: string, enumName: string): Change {
    Change(ENUM_VALUE_DEPRECATED, "Enum value `" + value + "` was deprecated in enum `" + enumName + "`", false)
  }

  function UnionMemberRemoved(member: string, unionName: string): Change {
    Change(UNION_MEMBER_REMOVED, "`" + member + "` type was removed from union `" + unionName + "`", true)
  }

  function UnionMemberAdded(member: string, unionName: string): Change {
    Change(UNION_MEMBER_ADDED, "`" + member + "` type was added to union `" + unionName + "`", false)
  }

  function DirectiveAdded(directive: string): Change {
    Change(DIRECTIVE_ADDED, "`" + directive + "` directive was added", false)
  }

  function DirectiveRemoved(directive: string): Change {
    Change(DIRECTIVE_REMOVED, "`" + directive + "` directive was removed", true)
  }

  function DirectiveDescriptionChanged(directive: string): Change {
    Change(DIRECTIVE_DESCRIPTION_CHANGED, "`" + directive + "` directive description is changed", false)
  }

  function DirectiveArgumentRemoved(argument: string, directive: string): Change {
    Change(DIRECTIVE_ARGUMENT_REMOVED, "Argument `" + argument + "` was removed from `" + directive + "` directive", true)
  }

  function DirectiveArgumentAdded(argument: string, breaking: bool, directive: string): Change {
    Change(DIRECTIVE_ARGUMENT_ADDED, "Argument `" + argument + "` was added to `" + directive + "` directive", breaking)
  }

  function DirectiveArgumentDescriptionChanged(argument: string, directive: string): Change {
    Change(DIRECTIVE_ARGUMENT_DESCRIPTION_CHANGED, "`" + directive + "(" + argument + ")` description is changed", false)
  }

  function DirectiveLocationAdded(location: string, directive: string): Change {
    Change(DIRECTIVE_LOCATION_ADDED,
           "`" + DirectiveLocationName(location) + "` directive location added to `" + directive + "` directive",
           false)
  }

  function DirectiveLocationRemoved(location: string, directive: string): Change {
    Change(DIRECTIVE_LOCATION_REMOVED,
           "`" + DirectiveLocationName(location) + "` directive location removed from `" + directive + "` directive",
           true)
  }

  function InputFieldRemoved(inputField: string, typeName: string): Change {
    Change(INPUT_FIELD_REMOVED, "Input field `" + inputField + "` was removed from `" + typeName + "` type", true)
  }

  function InputFieldAdded(inputField: string, breaking: bool, typeName: string): Change {
    Change(INPUT_FIELD_ADDED, "Input field `" + inputField + "` was added to `" + typeName + "` type", breaking)
  }

  function InputFieldDescriptionChanged(inputField: string, typeName: string): Change {
    Change(INPUT_FIELD_DESCRIPTION_CHANGED, "`" + typeName + "." + inputField + "` description is changed", false)
  }

  function ObjectTypeInterfaceAdded(iface: string, typeName: string): Change {
    Change(OBJECT_TYPE_INTERFACE_ADDED, "`" + typeName + "` object type now implements `" + iface + "` interface", false)
  }

  /** Breaking, as the implementation has it. */
  function ObjectTypeInterfaceRemoved(iface: string, typeName: string): Change {
    Change(OBJECT_TYPE_INTERFACE_REMOVED,
           "`" + typeName + "` object type no longer implements `" + iface + "` interface",
           true)
  }

  function FieldRemoved(field: string, typeName: string): Change {
    Change(FIELD_REMOVED, "Field `" + field + "` was removed from `" + typeName + "` type", true)
  }

  function FieldAdded(field: string, typeName: string): Change {
    Change(FIELD_ADDED, "Field `" + field + "` was added to `" + typeName + "` type", false)
  }

  // ---------------------------------------------------------------------------
  // Directive location names: `location.to_s.split('_').collect(&:capitalize).join`.

  /** Ruby `capitalize` (ASCII): first character up, the rest down. */
  function Capitalize(w: string): string {
    if |w| == 0 then "" else [Upcase(w[0])] + DowncaseAll(w[1..])
  }

  /** The pieces of `s` between separators, empty pieces included. */
  function SplitAll(s: string, sep: char): (r: seq<string>)
    ensures |r| > 0
  {
    if |s| == 0 then [""]
    else
      var rest := SplitAll(s[1..], sep);
      if s[0] == sep then [""] + rest else [[s[0]] + rest[0]] + rest[1..]
  }

  function DropTrailingEmpty(pieces: seq<string>): seq<string> {
    if |pieces| > 0 && pieces[|pieces| - 1] == "" then DropTrailingEmpty(pieces[..|pieces| - 1]) else pieces
  }

  /** Ruby `String#split(sep)`: trailing empty pieces are dropped. */
  function Split(s: string, sep: char): seq<string> {
    DropTrailingEmpty(SplitAll(s, sep))
  }

  /** `collect(&:capitalize).join`. */
  function CapitalizeAll(words: seq<string>): string {
    if |words| == 0 then "" else Capitalize(words[0]) + CapitalizeAll(words[1..])
  }

  /** Ruby `directive_location`: "FIELD_DEFINITION" becomes "FieldDefinition". */
  function DirectiveLocationName(location: string): string {
    CapitalizeAll(Split(location, '_'))
  }

  /** Reference reading of `directive_location`, character by character:
      underscores vanish, a character directly after an underscore (or at the
      start) is upper-cased, every other character is lower-cased. */
  function CamelCase(s: string, atWordStart: bool): string {
    if |s| == 0 then ""
    else if s[0] == '_' then CamelCase(s[1..], true)
    else [if atWordStart then Upcase(s[0]) else Downcase(s[0])] + CamelCase(s[1..], false)
  }

  lemma {:induction false} CapitalizeAllAppend(a: seq<string>, b: seq<string>)
    ensures CapitalizeAll(a + b) == CapitalizeAll(a) + CapitalizeAll(b)
  {
    if |a| > 0 {
      assert (a + b)[1..] == a[1..] + b;
      CapitalizeAllAppend(a[1..], b);
    } else {
      assert a + b == b;
    }
  }

  lemma {:induction false} DropTrailingEmptyKeepsText(pieces: seq<string>)
    ensures CapitalizeAll(DropTrailingEmpty(pieces)) == CapitalizeAll(pieces)
    decreases |pieces|
  {
    if |pieces| > 0 && pieces[|pieces| - 1] == "" {
      var init := pieces[..|pieces| - 1];
      DropTrailingEmptyKeepsText(init);
      assert pieces == init + [""];
      CapitalizeAllAppend(init, [""]);
    }
  }

  lemma {:induction false} CamelCaseOfPieces(s: string)
    ensures CamelCase(s, true) == CapitalizeAll(SplitAll(s, '_'))
    ensures CamelCase(s, false) == DowncaseAll(SplitAll(s, '_')[0]) + CapitalizeAll(SplitAll(s, '_')[1..])
  {
    if |s| > 0 {
      CamelCaseOfPieces(s[1..]);
      var rest := SplitAll(s[1..], '_');
      var pieces := SplitAll(s, '_');
      if s[0] == '_' {
        assert pieces == [""] + rest;
        assert pieces[1..] == rest;
      } else {
        var w := [s[0]] + rest[0];
        assert pieces == [w] + rest[1..];
        assert pieces[1..] == rest[1..];
        assert w[1..] == rest[0];
        DowncaseAllAppend([s[0]], rest[0]);
      }
    }
  }

  /** `directive_location` capitalises every underscore-separated word and
      drops the underscores. */
  lemma DirectiveLocationNameIsCamelCase(location: string)
    ensures DirectiveLocationName(location) == CamelCase(location, true)
  {
    CamelCaseOfPieces(location);
    DropTrailingEmptyKeepsText(SplitAll(location, '_'));
  }

  // ---------------------------------------------------------------------------
  // Record lists.

  /** Every record is well classified and belongs to the given section. */
  predicate InPhase(cs: seq<Change>, p: nat) {
    forall c :: c in cs ==> WellClassified(c) && Phase(c.changeType) == p
  }

  /** Every record is well classified and belongs to a section up to `p`. */
  predicate PhaseAtMost(cs: seq<Change>, p: nat) {
    forall c :: c in cs ==> WellClassified(c) && Phase(c.changeType) <= p
  }

  /** Every record is a well-classified change to a member of a type. */
  predicate MemberChanges(cs: seq<Change>) {
    forall c :: c in cs ==> WellClassified(c) && IsMemberChange(c.changeType)
  }

  /** Every record is a well-classified change inside a common directive. */
  predicate DirectiveDetails(cs: seq<Change>) {
    forall c :: c in cs ==> WellClassified(c) && IsDirectiveDetail(c.changeType)
  }

  // ---------------------------------------------------------------------------
  // Removals and additions of named elements.

  /** What a list of names belongs to, with what its removal and addition
      records need: the owner's name and, for input fields and directive
      arguments, the new definitions (an addition is breaking when required). */
  datatype Subject =
    | TypeOf
    | EnumValueOf(enumName: string)
    | UnionMemberOf(unionName: string)
    | InputFieldOf(typeName: string, newFields: seq<InputValue>)
    | InterfaceOf(typeName: string)
    | FieldOf(typeName: string)
    | DirectiveOf
    | LocationOf(directive: string)
    | ArgumentOf(directive: string, newArgs: seq<InputValue>)
  {
    /** The elements are members of a type. */
    predicate OfType() {
      EnumValueOf? || UnionMemberOf? || InputFieldOf? || InterfaceOf? || FieldOf?
    }

    /** The elements belong to a directive. */
    predicate OfDirective() {
      LocationOf? || ArgumentOf?
    }
  }

  function RemovedRecord(s: Subject, x: string): Change {
    match s
    case TypeOf => TypeRemoved(x)
    case EnumValueOf(enumName) => EnumValueRemoved(x, enumName)
    case UnionMemberOf(unionName) => UnionMemberRemoved(x, unionName)
    case InputFieldOf(typeName, _) => InputFieldRemoved(x, typeName)
    case InterfaceOf(typeName) => ObjectTypeInterfaceRemoved(x, typeName)
    case FieldOf(typeName) => FieldRemoved(x, typeName)
    case DirectiveOf => DirectiveRemoved(x)
    case LocationOf(directive) => DirectiveLocationRemoved(x, directive)
    case ArgumentOf(directive, _) => DirectiveArgumentRemoved(x, directive)
  }

  function AddedRecord(s: Subject, x: string): Change {
    match s
    case TypeOf => TypeAdded(x)
    case EnumValueOf(enumName) => EnumValueAdded(x, enumName)
    case UnionMemberOf(unionName) => UnionMemberAdded(x, unionName)
    case InputFieldOf(typeName, newFields) => InputFieldAdded(x, IsRequired(newFields, x), typeName)
    case InterfaceOf(typeName) => ObjectTypeInterfaceAdded(x, typeName)
    case FieldOf(typeName) => FieldAdded(x, typeName)
    case DirectiveOf => DirectiveAdded(x)
    case LocationOf(directive) => DirectiveLocationAdded(x, directive)
    case ArgumentOf(directive, newArgs) => DirectiveArgumentAdded(x, IsRequired(newArgs, x), directive)
  }

  function RemovedTag(s: Subject): ChangeType {
    match s
    case TypeOf => TYPE_REMOVED
    case EnumValueOf(_) => ENUM_VALUE_REMOVED
    case UnionMemberOf(_) => UNION_MEMBER_REMOVED
    case InputFieldOf(_, _) => INPUT_FIELD_REMOVED
    case InterfaceOf(_) => OBJECT_TYPE_INTERFACE_REMOVED
    case FieldOf(_) => FIELD_REMOVED
    case DirectiveOf => DIRECTIVE_REMOVED
    case LocationOf(_) => DIRECTIVE_LOCATION_REMOVED
    case ArgumentOf(_, _) => DIRECTIVE_ARGUMENT_REMOVED
  }

  function AddedTag(s: Subject): ChangeType {
    match s
    case TypeOf => TYPE_ADDED
    case EnumValueOf(_) => ENUM_VALUE_ADDED
    case UnionMemberOf(_) => UNION_MEMBER_ADDED
    case InputFieldOf(_, _) => INPUT_FIELD_ADDED
    case InterfaceOf(_) => OBJECT_TYPE_INTERFACE_ADDED
    case FieldOf(_) => FIELD_ADDED
    case DirectiveOf => DIRECTIVE_ADDED
    case LocationOf(_) => DIRECTIVE_LOCATION_ADDED
    case ArgumentOf(_, _) => DIRECTIVE_ARGUMENT_ADDED
  }

  /** Removal records carry the subject's removal kind and are breaking. */
  lemma RemovedRecordTag(s: Subject, x: string)
    ensures RemovedRecord(s, x).changeType == RemovedTag(s) && RemovedRecord(s, x).breakingChange
  {
    match s
    case TypeOf =>
    case EnumValueOf(_) =>
    case UnionMemberOf(_) =>
    case InputFieldOf(_, _) =>
    case InterfaceOf(_) =>
    case FieldOf(_) =>
    case DirectiveOf =>
    case LocationOf(_) =>
    case ArgumentOf(_, _) =>
  }

  /** Addition records carry the subject's addition kind; they are breaking
      only for a required input field or directive argument. */
  lemma AddedRecordTag(s: Subject, x: string)
    ensures AddedRecord(s, x).changeType == AddedTag(s)
    ensures AddedRecord(s, x).breakingChange == (match s
      case InputFieldOf(_, newFields) => IsRequired(newFields, x)
      case ArgumentOf(_, newArgs) => IsRequired(newArgs, x)
      case _ => false)
  {
    match s
    case TypeOf =>
    case EnumValueOf(_) =>
    case UnionMemberOf(_) =>
    case InputFieldOf(_, _) =>
    case InterfaceOf(_) =>
    case FieldOf(_) =>
    case DirectiveOf =>
    case LocationOf(_) =>
    case ArgumentOf(_, _) =>
  }

  /** Where the tags of a subject fall in each classification. */
  lemma SubjectTags(s: Subject)
    ensures RemovalRank(RemovedTag(s)) == 0 && RemovalRank(AddedTag(s)) == 1
    ensures s.OfType() ==> IsMemberChange(RemovedTag(s)) && IsMemberChange(AddedTag(s))
    ensures s.OfDirective() ==> IsDirectiveDetail(RemovedTag(s)) && IsDirectiveDetail(AddedTag(s))
    ensures s == TypeOf ==> Phase(RemovedTag(s)) == 0 && Phase(AddedTag(s)) == 1
    ensures s == DirectiveOf ==> Phase(RemovedTag(s)) == 3 && Phase(AddedTag(s)) == 3
  {
  }

  /** Removal kinds are always breaking; addition kinds never are, except the
      conditional ones for input fields and directive arguments. */
  lemma SubjectBreaking(s: Subject)
    ensures AlwaysBreaking(RemovedTag(s))
    ensures !AlwaysBreaking(AddedTag(s))
    ensures ConditionallyBreaking(AddedTag(s)) <==> s.InputFieldOf? || s.ArgumentOf?
  {
  }

  /** `names.map { |x| removed record }`. */
  function Removals(s: Subject, names: seq<string>): (r: seq<Change>)
    ensures |r| == |names|
    ensures forall i :: 0 <= i < |names| ==> r[i] == RemovedRecord(s, names[i])
  {
    if |names| == 0 then [] else [RemovedRecord(s, names[0])] + Removals(s, names[1..])
  }

  /** `names.map { |x| added record }`. */
  function Additions(s: Subject, names: seq<string>): (r: seq<Change>)
    ensures |r| == |names|
    ensures forall i :: 0 <= i < |names| ==> r[i] == AddedRecord(s, names[i])
  {
    if |names| == 0 then [] else [AddedRecord(s, names[0])] + Additions(s, names[1..])
  }

  lemma RemovalsTagged(s: Subject, names: seq<string>)
    ensures forall c :: c in Removals(s, names) ==> c.changeType == RemovedTag(s) && WellClassified(c)
  {
    var r := Removals(s, names);
    SubjectBreaking(s);
    forall c | c in r ensures c.changeType == RemovedTag(s) && WellClassified(c) {
      var i :| 0 <= i < |r| && r[i] == c;
      RemovedRecordTag(s, names[i]);
    }
  }

  lemma AdditionsTagged(s: Subject, names: seq<string>)
    ensures forall c :: c in Additions(s, names) ==> c.changeType == AddedTag(s) && WellClassified(c)
  {
    var r := Additions(s, names);
    SubjectBreaking(s);
    forall c | c in r ensures c.changeType == AddedTag(s) && WellClassified(c) {
      var i :| 0 <= i < |r| && r[i] == c;
      AddedRecordTag(s, names[i]);
    }
  }

  // ---------------------------------------------------------------------------
  // Changes to elements both lists name.

  /** What is compared for an element of a member list both sides name. */
  datatype Common =
    | NothingCompared
    | EnumValuesCompared(oldValues: seq<EnumValue>, newValues: seq<EnumValue>, enumName: string)
    | InputFieldsCompared(oldFields: seq<InputValue>, newFields: seq<InputValue>, typeName: string)
    | ArgumentsCompared(oldArgs: seq<InputValue>, newArgs: seq<InputValue>, directive: string)
  {
    /** Both sides have the same definitions. */
    predicate Unchanged() {
      match this
      case NothingCompared => true
      case EnumValuesCompared(oldValues, newValues, _) => oldValues == newValues
      case InputFieldsCompared(oldFields, newFields, _) => oldFields == newFields
      case ArgumentsCompared(oldArgs, newArgs, _) => oldArgs == newArgs
    }
  }

  /** The records for one common element: never a removal or an addition. */
  function CommonRecords(m: Common, x: string): (r: seq<Change>)
    ensures forall c :: c in r ==> WellClassified(c) && RemovalRank(c.changeType) == 2
    ensures forall c :: c in r ==> if m.ArgumentsCompared? then IsDirectiveDetail(c.changeType) else IsMemberChange(c.changeType)
  {
    match m
    case NothingCompared => []
    case EnumValuesCompared(oldValues, newValues, enumName) =>
      CommonRecordKinds(x, enumName);
      ChangesInEnumValue(oldValues, newValues, x, enumName)
    case InputFieldsCompared(oldFields, newFields, typeName) =>
      CommonRecordKinds(x, typeName);
      ChangesInInputField(oldFields, newFields, x, typeName)
    case ArgumentsCompared(oldArgs, newArgs, directive) =>
      CommonRecordKinds(x, directive);
      ChangesInCommonArgument(oldArgs, newArgs, x, directive)
  }

  /** The records about an element both sides define are descriptive. */
  lemma CommonRecordKinds(x: string, owner: string)
    ensures CommonMemberRecord(EnumValueDescriptionChanged(x, owner))
    ensures CommonMemberRecord(EnumValueDeprecated(x, owner))
    ensures CommonMemberRecord(InputFieldDescriptionChanged(x, owner))
    ensures var c := DirectiveArgumentDescriptionChanged(x, owner);
      WellClassified(c) && RemovalRank(c.changeType) == 2 && IsDirectiveDetail(c.changeType)
  {
  }

  predicate CommonMemberRecord(c: Change) {
    WellClassified(c) && RemovalRank(c.changeType) == 2 && IsMemberChange(c.changeType)
  }

  /** `names.map { |x| common records }.flatten`. */
  function CommonChanges(m: Common, names: seq<string>): (r: seq<Change>)
    ensures forall c :: c in r <==> exists x :: x in names && c in CommonRecords(m, x)
  {
    if |names| == 0 then []
    else
      assert names == [names[0]] + names[1..];
      CommonRecords(m, names[0]) + CommonChanges(m, names[1..])
  }

  /** The shape of every comparison of two lists of member names: removals
      (old order), additions (new order), then the changes to each common
      name (old order, each name once). */
  function Diff(s: Subject, m: Common, oldNames: seq<string>, newNames: seq<string>): (r: seq<Change>)
  {
    Removals(s, Minus(oldNames, newNames)) + Additions(s, Minus(newNames, oldNames))
      + CommonChanges(m, Intersect(oldNames, newNames))
  }

  // ---------------------------------------------------------------------------
  // The comparison.

  /** Ruby `compare` / `find_changes`: type removals, type additions, changes
      inside common types, schema changes (none), directive changes. */
  function Compare(oldSchema: Schema, newSchema: Schema): (r: seq<Change>)
  {
    TypeDiff(oldSchema.types, newSchema.types)
    + ChangesInSchema(oldSchema, newSchema)
    + ChangesInDirectives(oldSchema.directives, newSchema.directives)
  }

  /** The type part of `find_changes`. */
  function TypeDiff(oldTypes: seq<GraphType>, newTypes: seq<GraphType>): (r: seq<Change>)
  {
    var oldNames, newNames := TypeNames(oldTypes), TypeNames(newTypes);
    Removals(TypeOf, Minus(oldNames, newNames)) + Additions(TypeOf, Minus(newNames, oldNames))
      + CommonTypeChanges(oldTypes, newTypes, Intersect(oldNames, newNames))
  }

  /** The changes inside each type in `names`, in order. */
  function CommonTypeChanges(oldTypes: seq<GraphType>, newTypes: seq<GraphType>, names: seq<string>): (r: seq<Change>)
    ensures InPhase(r, 2)
    ensures forall c :: c in r <==> exists x :: x in names && c in ChangesInCommonType(oldTypes, newTypes, x)
  {
    if |names| == 0 then []
    else
      assert names == [names[0]] + names[1..];
      ChangesInCommonType(oldTypes, newTypes, names[0]) + CommonTypeChanges(oldTypes, newTypes, names[1..])
  }

  /** The block in `find_changes` for one name both schemas define. */
  function ChangesInCommonType(oldTypes: seq<GraphType>, newTypes: seq<GraphType>, name: string): (r: seq<Change>)
    ensures InPhase(r, 2)
  {
    match FindType(oldTypes, name)
    case None => []
    case Some(oldType) =>
      match FindType(newTypes, name)
      case None => []
      case Some(newType) => TypeChanges(oldType, newType)
  }

  /** Same kind: the kind's own changes, then at most one description change
      as the last record; different kinds: exactly one kind change. */
  function TypeChanges(oldType: GraphType, newType: GraphType): (r: seq<Change>)
    ensures InPhase(r, 2)
    ensures oldType.Kind() != newType.Kind() ==>
      r == [Change(TYPE_KIND_CHANGED,
                   "`" + oldType.name + "` changed from an " + KindName(oldType.Kind()) + " type to a "
                     + KindName(newType.Kind()) + " type",
                   true)]
    ensures oldType.Kind() == newType.Kind() ==>
      (forall c :: c in r ==> c.changeType != TYPE_KIND_CHANGED)
      && (oldType.description != newType.description
          <==> |r| > 0 && r[|r| - 1] == TypeDescriptionChanged(newType.name))
      && (forall i :: 0 <= i < |r| - 1 ==> r[i].changeType != TYPE_DESCRIPTION_CHANGED)
  {
    if oldType.Kind() == newType.Kind() then ChangesInTypes(oldType, newType)
    else [TypeKindChanged(oldType, newType)]
  }

  /** Ruby `find_changes_in_types`. */
  function ChangesInTypes(oldType: GraphType, newType: GraphType): (r: seq<Change>)
    ensures InPhase(r, 2)
    ensures forall c :: c in r ==> c.changeType != TYPE_KIND_CHANGED
    ensures oldType.description != newType.description <==> |r| > 0 && r[|r| - 1] == TypeDescriptionChanged(newType.name)
    ensures forall i :: 0 <= i < |r| - 1 ==> r[i].changeType != TYPE_DESCRIPTION_CHANGED
  {
    var own := if oldType.Kind() == newType.Kind() then ChangesInKind(oldType, newType) else [];
    var description := TypeDescriptionChange(oldType, newType);
    MemberChangesThenDescription(own, description, newType.name);
    own + description
  }

  /** Member changes followed by at most one description change keep the
      description change last and unique. */
  lemma MemberChangesThenDescription(own: seq<Change>, description: seq<Change>, name: string)
    requires MemberChanges(own)
    requires description == [] || description == [TypeDescriptionChanged(name)]
    ensures InPhase(own + description, 2)
    ensures forall c :: c in own + description ==> c.changeType != TYPE_KIND_CHANGED
    ensures description != [] <==> |own + description| > 0 && (own + description)[|own + description| - 1] == TypeDescriptionChanged(name)
    ensures forall i :: 0 <= i < |own + description| - 1 ==> (own + description)[i].changeType != TYPE_DESCRIPTION_CHANGED
  {
    forall c | c in own ensures IsTypeMemberChange(c) {
      MemberChangeKinds(c.changeType);
    }
    var r := own + description;
    forall i | 0 <= i < |r| - 1 ensures r[i].changeType != TYPE_DESCRIPTION_CHANGED {
      assert r[i] == own[i] && own[i] in own;
    }
    if description == [] && |r| > 0 {
      assert r[|r| - 1] in own;
    }
  }

  /** `type_description_changed` when the descriptions differ. */
  function TypeDescriptionChange(oldType: GraphType, newType: GraphType): (r: seq<Change>)
    ensures r == [] <==> oldType.description == newType.description
    ensures r != [] ==> r == [TypeDescriptionChanged(newType.name)]
    ensures InPhase(r, 2)
  {
    if oldType.description != newType.description then [TypeDescriptionChanged(newType.name)] else []
  }

  /** A record about a member, in the common-type section. */
  predicate IsTypeMemberChange(c: Change) {
    WellClassified(c) && Phase(c.changeType) == 2
    && c.changeType != TYPE_KIND_CHANGED && c.changeType != TYPE_DESCRIPTION_CHANGED
  }

  lemma MemberChangeKinds(t: ChangeType)
    requires IsMemberChange(t)
    ensures Phase(t) == 2 && t != TYPE_KIND_CHANGED && t != TYPE_DESCRIPTION_CHANGED
  {
  }

  /** The `case` in `find_changes_in_types` (both types have the same kind);
      scalars have nothing of their own. */
  function ChangesInKind(oldType: GraphType, newType: GraphType): (r: seq<Change>)
    ensures MemberChanges(r)
  {
    match oldType
    case EnumType(_, _, oldValues) =>
      if newType.EnumType? then
        DiffClassified(EnumValueOf(newType.name), EnumValuesCompared(oldValues, newType.values, newType.name),
                       EnumValueNames(oldValues), EnumValueNames(newType.values));
        ChangesInEnumType(oldValues, newType.values, newType.name)
      else []
    case UnionType(_, _, oldMembers) =>
      if newType.UnionType? then
        DiffClassified(UnionMemberOf(newType.name), NothingCompared, oldMembers, newType.possibleTypes);
        ChangesInUnionType(oldMembers, newType.possibleTypes, newType.name)
      else []
    case InputObjectType(_, _, oldFields) =>
      if newType.InputObjectType? then
        DiffClassified(InputFieldOf(newType.name, newType.inputFields),
                       InputFieldsCompared(oldFields, newType.inputFields, newType.name),
                       InputValueNames(oldFields), InputValueNames(newType.inputFields));
        ChangesInInputObjectType(oldFields, newType.inputFields, newType.name)
      else []
    case ObjectType(_, _, oldInterfaces, oldFields) =>
      if newType.ObjectType? then
        DiffClassified(InterfaceOf(newType.name), NothingCompared, oldInterfaces, newType.interfaces);
        DiffClassified(FieldOf(newType.name), NothingCompared, FieldNames(oldFields), FieldNames(newType.fields));
        ChangesInObjectType(oldInterfaces, oldFields, newType.interfaces, newType.fields, newType.name)
      else []
    case InterfaceType(_, _, oldFields) =>
      if newType.InterfaceType? then
        DiffClassified(FieldOf(newType.name), NothingCompared, FieldNames(oldFields), FieldNames(newType.fields));
        ChangesInObjectTypeFields(oldFields, newType.fields, newType.name)
      else []
    case ScalarType(_, _) => []
  }

  /** Ruby `find_changes_in_schema`: root-operation changes are not compared. */
  function ChangesInSchema(oldSchema: Schema, newSchema: Schema): seq<Change> {
    []
  }

  // ---------------------------------------------------------------------------
  // Enum types.

  function EnumValueNames(values: seq<EnumValue>): seq<string> { NamesOf(values, EnumValueName) }

  function FindEnumValue(values: seq<EnumValue>, name: string): Option<EnumValue> {
    FindNamed(values, EnumValueName, name)
  }

  /** Ruby `find_changes_in_enum_types`. */
  function ChangesInEnumType(oldValues: seq<EnumValue>, newValues: seq<EnumValue>, enumName: string): (r: seq<Change>)
  {
    Diff(EnumValueOf(enumName), EnumValuesCompared(oldValues, newValues, enumName),
         EnumValueNames(oldValues), EnumValueNames(newValues))
  }

  /** The changes to one enum value both sides define: description first, then
      deprecation, which fires on any difference of the reasons. */
  function ChangesInEnumValue(oldValues: seq<EnumValue>, newValues: seq<EnumValue>, name: string, enumName: string): (r: seq<Change>)
    ensures forall c :: c in r ==> c == EnumValueDescriptionChanged(name, enumName) || c == EnumValueDeprecated(name, enumName)
    ensures |r| == 2 ==> r[0] == EnumValueDescriptionChanged(name, enumName) && r[1] == EnumValueDeprecated(name, enumName)
    ensures |r| <= 2 && (|r| == 2 ==> r[0] != r[1])
  {
    match FindEnumValue(oldValues, name)
    case None => []
    case Some(oldValue) =>
      match FindEnumValue(newValues, name)
      case None => []
      case Some(newValue) =>
        (if oldValue.description != newValue.description then [EnumValueDescriptionChanged(name, enumName)] else [])
        + (if oldValue.deprecationReason != newValue.deprecationReason then [EnumValueDeprecated(name, enumName)] else [])
  }

  // ---------------------------------------------------------------------------
  // Union types.

  /** Ruby `find_changes_in_union_type`. */
  function ChangesInUnionType(oldMembers: seq<string>, newMembers: seq<string>, unionName: string): (r: seq<Change>)
  {
    Diff(UnionMemberOf(unionName), NothingCompared, oldMembers, newMembers)
  }

  // ---------------------------------------------------------------------------
  // Input object types and arguments.

  function InputValueNames(args: seq<InputValue>): seq<string> { NamesOf(args, InputValueName) }

  function FindInputValue(args: seq<InputValue>, name: string): Option<InputValue> {
    FindNamed(args, InputValueName, name)
  }

  /** "Required" in the implementation's sense: the type is non-null; a
      default value does not matter. */
  function IsRequired(args: seq<InputValue>, name: string): bool {
    match FindInputValue(args, name)
    case Some(arg) => arg.typeRef.NonNull?
    case None => false
  }

  /** Ruby `find_changes_in_input_object_type`. */
  function ChangesInInputObjectType(oldFields: seq<InputValue>, newFields: seq<InputValue>, typeName: string): (r: seq<Change>)
  {
    Diff(InputFieldOf(typeName, newFields), InputFieldsCompared(oldFields, newFields, typeName),
         InputValueNames(oldFields), InputValueNames(newFields))
  }

  /** Both sides define `name` and its descriptions differ. */
  predicate InputDescriptionChanged(oldArgs: seq<InputValue>, newArgs: seq<InputValue>, name: string) {
    match FindInputValue(oldArgs, name)
    case None => false
    case Some(oldArg) =>
      match FindInputValue(newArgs, name)
      case None => false
      case Some(newArg) => oldArg.description != newArg.description
  }

  /** Only the description of a common input field is compared. */
  function ChangesInInputField(oldFields: seq<InputValue>, newFields: seq<InputValue>, name: string, typeName: string): (r: seq<Change>)
    ensures forall c :: c in r ==> c == InputFieldDescriptionChanged(name, typeName)
    ensures |r| <= 1
    ensures r != [] <==> InputDescriptionChanged(oldFields, newFields, name)
  {
    match FindInputValue(oldFields, name)
    case None => []
    case Some(oldField) =>
      match FindInputValue(newFields, name)
      case None => []
      case Some(newField) =>
        if oldField.description != newField.description then [InputFieldDescriptionChanged(name, typeName)] else []
  }

  // ---------------------------------------------------------------------------
  // Object and interface types.

  /** Ruby `find_changes_in_object_type`: interface changes, then field changes. */
  function ChangesInObjectType(oldInterfaces: seq<string>, oldFields: seq<Field>,
                               newInterfaces: seq<string>, newFields: seq<Field>, typeName: string): (r: seq<Change>)
  {
    ChangesInObjectTypeInterfaces(oldInterfaces, newInterfaces, typeName)
    + ChangesInObjectTypeFields(oldFields, newFields, typeName)
  }

  /** Ruby `find_changes_in_object_type_interfaces`. */
  function ChangesInObjectTypeInterfaces(oldInterfaces: seq<string>, newInterfaces: seq<string>, typeName: string): (r: seq<Change>)
  {
    Diff(InterfaceOf(typeName), NothingCompared, oldInterfaces, newInterfaces)
  }

  function FieldNames(fields: seq<Field>): seq<string> { NamesOf(fields, FieldName) }

  /** Ruby `find_changes_in_object_type_fields`: presence only; changes to a
      common field are not compared. */
  function ChangesInObjectTypeFields(oldFields: seq<Field>, newFields: seq<Field>, typeName: string): (r: seq<Change>)
  {
    Diff(FieldOf(typeName), NothingCompared, FieldNames(oldFields), FieldNames(newFields))
  }

  // ---------------------------------------------------------------------------
  // Directives.

  function DirectiveNames(directives: seq<Directive>): seq<string> { NamesOf(directives, DirectiveName) }

  function FindDirective(directives: seq<Directive>, name: string): Option<Directive> {
    FindNamed(directives, DirectiveName, name)
  }

  /** Ruby `find_changes_in_directives`. */
  function ChangesInDirectives(oldDirectives: seq<Directive>, newDirectives: seq<Directive>): (r: seq<Change>)
  {
    var oldNames, newNames := DirectiveNames(oldDirectives), DirectiveNames(newDirectives);
    Removals(DirectiveOf, Minus(oldNames, newNames)) + Additions(DirectiveOf, Minus(newNames, oldNames))
      + CommonDirectiveChanges(oldDirectives, newDirectives, Intersect(oldNames, newNames))
  }

  /** The changes to each directive in `names`, in order. */
  function CommonDirectiveChanges(oldDirectives: seq<Directive>, newDirectives: seq<Directive>, names: seq<string>): (r: seq<Change>)
    ensures DirectiveDetails(r)
  {
    if |names| == 0 then []
    else
      assert names == [names[0]] + names[1..];
      ChangesInCommonDirective(oldDirectives, newDirectives, names[0])
      + CommonDirectiveChanges(oldDirectives, newDirectives, names[1..])
  }

  /** The block in `find_changes_in_directives` for one common directive:
      its description, then its locations and arguments. */
  function ChangesInCommonDirective(oldDirectives: seq<Directive>, newDirectives: seq<Directive>, name: string): (r: seq<Change>)
    ensures DirectiveDetails(r)
  {
    match FindDirective(oldDirectives, name)
    case None => []
    case Some(oldDirective) =>
      match FindDirective(newDirectives, name)
      case None => []
      case Some(newDirective) =>
        var description := DescriptionChange(oldDirective, newDirective, name);
        var details := ChangesInDirective(oldDirective, newDirective);
        DirectiveDetailsAppend(description, details);
        description + details
  }

  /** `directive_description_changed` when the descriptions differ. */
  function DescriptionChange(oldDirective: Directive, newDirective: Directive, name: string): (r: seq<Change>)
    ensures r == [] <==> oldDirective.description == newDirective.description
    ensures forall c :: c in r ==> c == DirectiveDescriptionChanged(name)
    ensures |r| <= 1
    ensures DirectiveDetails(r)
  {
    if oldDirective.description != newDirective.description then [DirectiveDescriptionChanged(name)] else []
  }

  lemma DirectiveDetailsAppend(a: seq<Change>, b: seq<Change>)
    requires DirectiveDetails(a) && DirectiveDetails(b)
    ensures DirectiveDetails(a + b)
  {
  }

  /** Ruby `find_changes_in_directive`: locations, then arguments. */
  function ChangesInDirective(oldDirective: Directive, newDirective: Directive): (r: seq<Change>)
    ensures DirectiveDetails(r)
  {
    DiffClassified(LocationOf(newDirective.name), NothingCompared, oldDirective.locations, newDirective.locations);
    DiffClassified(ArgumentOf(newDirective.name, newDirective.arguments),
                   ArgumentsCompared(oldDirective.arguments, newDirective.arguments, newDirective.name),
                   InputValueNames(oldDirective.arguments), InputValueNames(newDirective.arguments));
    ChangesInDirectiveLocations(oldDirective.locations, newDirective.locations, newDirective.name)
    + ChangesInArguments(oldDirective.arguments, newDirective.arguments, newDirective.name)
  }

  /** Ruby `find_changes_in_directive_locations`. */
  function ChangesInDirectiveLocations(oldLocations: seq<string>, newLocations: seq<string>, directive: string): (r: seq<Change>)
  {
    Diff(LocationOf(directive), NothingCompared, oldLocations, newLocations)
  }

  /** Ruby `find_changes_in_arguments` as the directive comparison calls it. */
  function ChangesInArguments(oldArgs: seq<InputValue>, newArgs: seq<InputValue>, directive: string): (r: seq<Change>)
  {
    Diff(ArgumentOf(directive, newArgs), ArgumentsCompared(oldArgs, newArgs, directive),
         InputValueNames(oldArgs), InputValueNames(newArgs))
  }

  /** One common argument: its description, then `find_changes_in_argument`. */
  function ChangesInCommonArgument(oldArgs: seq<InputValue>, newArgs: seq<InputValue>, name: string, directive: string): (r: seq<Change>)
    ensures forall c :: c in r ==> c == DirectiveArgumentDescriptionChanged(name, directive)
    ensures |r| <= 1
    ensures r != [] <==> InputDescriptionChanged(oldArgs, newArgs, name)
  {
    match FindInputValue(oldArgs, name)
    case None => []
    case Some(oldArg) =>
      match FindInputValue(newArgs, name)
      case None => []
      case Some(newArg) =>
        (if oldArg.description != newArg.description then [DirectiveArgumentDescriptionChanged(name, directive)] else [])
        + ChangesInArgument(oldArg, newArg)
  }

  /** Ruby `find_changes_in_argument`: default and type changes are not compared. */
  function ChangesInArgument(oldArg: InputValue, newArg: InputValue): seq<Change> {
    []
  }

  // ---------------------------------------------------------------------------
  // Comparing a schema with itself.

  lemma CommonRecordsSelf(m: Common, x: string)
    requires m.Unchanged()
    ensures CommonRecords(m, x) == []
  {
    match m
    case NothingCompared =>
    case EnumValuesCompared(values, _, enumName) =>
    case InputFieldsCompared(fields, _, typeName) =>
    case ArgumentsCompared(args, _, directive) =>
  }

  lemma {:induction false} CommonChangesSelf(m: Common, names: seq<string>)
    requires m.Unchanged()
    ensures CommonChanges(m, names) == []
  {
    if |names| > 0 {
      CommonRecordsSelf(m, names[0]);
      CommonChangesSelf(m, names[1..]);
    }
  }

  /** A member list compared with itself, with nothing changed inside its
      elements, gives no record. */
  lemma DiffSelf(s: Subject, m: Common, names: seq<string>)
    requires m.Unchanged()
    ensures Diff(s, m, names, names) == []
  {
    CommonChangesSelf(m, Intersect(names, names));
    MinusCovered(names, names);
  }

  lemma ChangesInKindSelf(t: GraphType)
    ensures ChangesInKind(t, t) == []
  {
    match t
    case EnumType(name, _, values) =>
      DiffSelf(EnumValueOf(name), EnumValuesCompared(values, values, name), EnumValueNames(values));
    case UnionType(name, _, members) =>
      DiffSelf(UnionMemberOf(name), NothingCompared, members);
    case InputObjectType(name, _, fields) =>
      DiffSelf(InputFieldOf(name, fields), InputFieldsCompared(fields, fields, name), InputValueNames(fields));
    case ObjectType(name, _, interfaces, fields) =>
      DiffSelf(InterfaceOf(name), NothingCompared, interfaces);
      DiffSelf(FieldOf(name), NothingCompared, FieldNames(fields));
    case InterfaceType(name, _, fields) =>
      DiffSelf(FieldOf(name), NothingCompared, FieldNames(fields));
    case ScalarType(_, _) =>
  }

  /** A type compared with itself gives no record. */
  lemma TypeChangesSelf(t: GraphType)
    ensures TypeChanges(t, t) == []
  {
    ChangesInKindSelf(t);
  }

  lemma {:induction false} CommonTypeChangesSelf(types: seq<GraphType>, names: seq<string>)
    ensures CommonTypeChanges(types, types, names) == []
  {
    if |names| > 0 {
      CommonTypeChangesSelf(types, names[1..]);
      match FindType(types, names[0]) {
        case None =>
        case Some(t) => TypeChangesSelf(t);
      }
    }
  }

  lemma TypeDiffSelf(types: seq<GraphType>)
    ensures TypeDiff(types, types) == []
  {
    var names := TypeNames(types);
    MinusCovered(names, names);
    CommonTypeChangesSelf(types, Intersect(names, names));
  }

  lemma ChangesInDirectiveSelf(d: Directive)
    ensures ChangesInDirective(d, d) == []
  {
    DiffSelf(LocationOf(d.name), NothingCompared, d.locations);
    DiffSelf(ArgumentOf(d.name, d.arguments), ArgumentsCompared(d.arguments, d.arguments, d.name), InputValueNames(d.arguments));
  }

  lemma {:induction false} CommonDirectiveChangesSelf(directives: seq<Directive>, names: seq<string>)
    ensures CommonDirectiveChanges(directives, directives, names) == []
  {
    if |names| > 0 {
      CommonDirectiveChangesSelf(directives, names[1..]);
      match FindDirective(directives, names[0]) {
        case None =>
        case Some(d) => ChangesInDirectiveSelf(d);
      }
    }
  }

  lemma ChangesInDirectivesSelf(directives: seq<Directive>)
    ensures ChangesInDirectives(directives, directives) == []
  {
    var names := DirectiveNames(directives);
    MinusCovered(names, names);
    CommonDirectiveChangesSelf(directives, Intersect(names, names));
  }

  /** Comparing a schema with itself reports no change. */
  lemma CompareSelf(schema: Schema)
    ensures Compare(schema, schema) == []
  {
    TypeDiffSelf(schema.types);
    ChangesInDirectivesSelf(schema.directives);
  }

  // ---------------------------------------------------------------------------
  // Classification and order of each comparison.

  /** Every record of a member Diff is a well-classified member change or
      directive detail, according to what the list belongs to. */
  lemma DiffClassified(s: Subject, m: Common, oldNames: seq<string>, newNames: seq<string>)
    ensures s.OfType() && !m.ArgumentsCompared? ==> MemberChanges(Diff(s, m, oldNames, newNames))
    ensures s.OfDirective() && (m.NothingCompared? || m.ArgumentsCompared?) ==> DirectiveDetails(Diff(s, m, oldNames, newNames))
  {
    var removed, added, common := Minus(oldNames, newNames), Minus(newNames, oldNames), Intersect(oldNames, newNames);
    var rs, ad, cs := Removals(s, removed), Additions(s, added), CommonChanges(m, common);
    SubjectTags(s);
    RemovalsTagged(s, removed);
    AdditionsTagged(s, added);
    if s.OfType() && !m.ArgumentsCompared? {
      CommonMemberChanges(m, common);
      MemberChangesAppend3(rs, ad, cs);
    }
    if s.OfDirective() && (m.NothingCompared? || m.ArgumentsCompared?) {
      CommonDirectiveDetails(m, common);
      DirectiveDetailsAppend(rs, ad);
      DirectiveDetailsAppend(rs + ad, cs);
    }
  }

  lemma CommonMemberChanges(m: Common, names: seq<string>)
    requires !m.ArgumentsCompared?
    ensures MemberChanges(CommonChanges(m, names))
  {
    forall c | c in CommonChanges(m, names) ensures WellClassified(c) && IsMemberChange(c.changeType) {
      var x :| x in names && c in CommonRecords(m, x);
    }
  }

  lemma CommonDirectiveDetails(m: Common, names: seq<string>)
    requires m.NothingCompared? || m.ArgumentsCompared?
    ensures DirectiveDetails(CommonChanges(m, names))
  {
    forall c | c in CommonChanges(m, names) ensures WellClassified(c) && IsDirectiveDetail(c.changeType) {
      var x :| x in names && c in CommonRecords(m, x);
    }
  }

  lemma MemberChangesAppend3(a: seq<Change>, b: seq<Change>, c: seq<Change>)
    requires MemberChanges(a) && MemberChanges(b) && MemberChanges(c)
    ensures MemberChanges(a + b + c)
  {
  }

  /** A member Diff lists removals, then additions, then common changes. */
  lemma DiffSorted(s: Subject, m: Common, oldNames: seq<string>, newNames: seq<string>)
    ensures RankSorted(Diff(s, m, oldNames, newNames), RemovalRank)
  {
    var rs := Removals(s, Minus(oldNames, newNames));
    var ad := Additions(s, Minus(newNames, oldNames));
    var cs := CommonChanges(m, Intersect(oldNames, newNames));
    RemovalsTagged(s, Minus(oldNames, newNames));
    AdditionsTagged(s, Minus(newNames, oldNames));
    SubjectTags(s);
    ConstantRankSorted(rs, RemovalRank, 0);
    ConstantRankSorted(ad, RemovalRank, 1);
    ConstantRankSorted(cs, RemovalRank, 2);
    RankSortedAppend(rs, ad, RemovalRank, 1);
    RankSortedAppend(rs + ad, cs, RemovalRank, 2);
  }

  /** The type part lists removals, then additions, then common-type changes. */
  lemma TypeDiffShape(oldTypes: seq<GraphType>, newTypes: seq<GraphType>)
    ensures PhaseAtMost(TypeDiff(oldTypes, newTypes), 2)
    ensures RankSorted(TypeDiff(oldTypes, newTypes), Phase)
  {
    var oldNames, newNames := TypeNames(oldTypes), TypeNames(newTypes);
    var rs := Removals(TypeOf, Minus(oldNames, newNames));
    var ad := Additions(TypeOf, Minus(newNames, oldNames));
    var cs := CommonTypeChanges(oldTypes, newTypes, Intersect(oldNames, newNames));
    RemovalsTagged(TypeOf, Minus(oldNames, newNames));
    AdditionsTagged(TypeOf, Minus(newNames, oldNames));
    ConstantRankSorted(rs, Phase, 0);
    ConstantRankSorted(ad, Phase, 1);
    ConstantRankSorted(cs, Phase, 2);
    RankSortedAppend(rs, ad, Phase, 1);
    RankSortedAppend(rs + ad, cs, Phase, 2);
  }

  /** Directive records all belong to the last section. */
  lemma DirectivesShape(oldDirectives: seq<Directive>, newDirectives: seq<Directive>)
    ensures InPhase(ChangesInDirectives(oldDirectives, newDirectives), 3)
  {
    var oldNames, newNames := DirectiveNames(oldDirectives), DirectiveNames(newDirectives);
    var rs := Removals(DirectiveOf, Minus(oldNames, newNames));
    var ad := Additions(DirectiveOf, Minus(newNames, oldNames));
    var details := CommonDirectiveChanges(oldDirectives, newDirectives, Intersect(oldNames, newNames));
    assert ChangesInDirectives(oldDirectives, newDirectives) == rs + ad + details;
    SubjectTags(DirectiveOf);
    RemovalsInPhase(DirectiveOf, Minus(oldNames, newNames), 3);
    AdditionsInPhase(DirectiveOf, Minus(newNames, oldNames), 3);
    DetailsInLastPhase(details);
    InPhaseAppend3(rs, ad, details, 3);
  }

  lemma RemovalsInPhase(s: Subject, names: seq<string>, p: nat)
    requires Phase(RemovedTag(s)) == p
    ensures InPhase(Removals(s, names), p)
  {
    RemovalsTagged(s, names);
  }

  lemma AdditionsInPhase(s: Subject, names: seq<string>, p: nat)
    requires Phase(AddedTag(s)) == p
    ensures InPhase(Additions(s, names), p)
  {
    AdditionsTagged(s, names);
  }

  lemma InPhaseAppend3(a: seq<Change>, b: seq<Change>, c: seq<Change>, p: nat)
    requires InPhase(a, p) && InPhase(b, p) && InPhase(c, p)
    ensures InPhase(a + b + c, p)
  {
    InPhaseAppend(a, b, p);
    InPhaseAppend(a + b, c, p);
  }

  lemma DetailsInLastPhase(cs: seq<Change>)
    requires DirectiveDetails(cs)
    ensures InPhase(cs, 3)
  {
    forall c | c in cs ensures Phase(c.changeType) == 3 {
      DirectiveDetailPhase(c.changeType);
    }
  }

  lemma DirectiveDetailPhase(t: ChangeType)
    requires IsDirectiveDetail(t)
    ensures Phase(t) == 3
  {
  }

  lemma InPhaseAppend(a: seq<Change>, b: seq<Change>, p: nat)
    requires InPhase(a, p) && InPhase(b, p)
    ensures InPhase(a + b, p)
  {
  }

  /** Every record's breaking flag follows the classification of its kind:
      removals of types, enum values, union members, input fields, fields,
      interfaces, directives, directive arguments and locations, and kind
      changes, are breaking; additions of input fields and directive
      arguments are breaking when required; everything else is not. */
  lemma CompareClassified(oldSchema: Schema, newSchema: Schema)
    ensures forall c :: c in Compare(oldSchema, newSchema) ==> WellClassified(c)
  {
    TypeDiffShape(oldSchema.types, newSchema.types);
    DirectivesShape(oldSchema.directives, newSchema.directives);
  }

  /** The output is grouped: removed types, added types, changes inside
      common types, directive changes. */
  lemma CompareOrdered(oldSchema: Schema, newSchema: Schema)
    ensures RankSorted(Compare(oldSchema, newSchema), Phase)
  {
    var types := TypeDiff(oldSchema.types, newSchema.types);
    var directives := ChangesInDirectives(oldSchema.directives, newSchema.directives);
    var schema := ChangesInSchema(oldSchema, newSchema);
    assert schema == [];
    assert types + schema == types;
    TypeDiffShape(oldSchema.types, newSchema.types);
    DirectivesShape(oldSchema.directives, newSchema.directives);
    LastPhaseAppend(types, directives);
  }

  lemma LastPhaseAppend(a: seq<Change>, b: seq<Change>)
    requires PhaseAtMost(a, 2) && RankSorted(a, Phase) && InPhase(b, 3)
    ensures RankSorted(a + b, Phase)
  {
    ConstantRankSorted(b, Phase, 3);
    RankSortedAppend(a, b, Phase, 3);
  }

  // ---------------------------------------------------------------------------
  // Ordering helpers.

  lemma ConstantRankSorted(cs: seq<Change>, rank: ChangeType -> nat, k: nat)
    requires forall c :: c in cs ==> rank(c.changeType) == k
    ensures RankSorted(cs, rank)
  {
    forall i, j | 0 <= i < j < |cs| ensures rank(cs[i].changeType) <= rank(cs[j].changeType) {
      assert cs[i] in cs && cs[j] in cs;
    }
  }

  lemma RankSortedAppend(a: seq<Change>, b: seq<Change>, rank: ChangeType -> nat, bound: nat)
    requires RankSorted(a, rank) && RankSorted(b, rank)
    requires forall c :: c in a ==> rank(c.changeType) <= bound
    requires forall c :: c in b ==> bound <= rank(c.changeType)
    ensures RankSorted(a + b, rank)
  {
    var ab := a + b;
    forall i, j | 0 <= i < j < |ab| ensures rank(ab[i].changeType) <= rank(ab[j].changeType) {
      if j < |a| {
        assert ab[i] == a[i] && ab[j] == a[j];
      } else if i >= |a| {
        assert ab[i] == b[i - |a|] && ab[j] == b[j - |a|];
      } else {
        assert ab[i] == a[i] && ab[j] == b[j - |a|];
        assert a[i] in a && b[j - |a|] in b;
      }
    }
  }

  // ---------------------------------------------------------------------------
  // Which records appear.

  /** A description template `prefix + x + suffix` determines `x`. */
  lemma InfixInjective(prefix: string, a: string, b: string, suffix: string)
    requires prefix + a + suffix == prefix + b + suffix
    ensures a == b
  {
    var s, t := prefix + a + suffix, prefix + b + suffix;
    assert |a| == |b|;
    assert a == s[|prefix|..|prefix| + |a|];
    assert b == t[|prefix|..|prefix| + |b|];
  }

  /** Two-parameter templates: `prefix + x + middle + owner + suffix`
      determines `x`. */
  lemma OwnerTemplateInjective(prefix: string, a: string, b: string, middle: string, owner: string, suffix: string)
    requires prefix + a + middle + owner + suffix == prefix + b + middle + owner + suffix
    ensures a == b
  {
    assert prefix + a + middle + owner + suffix == prefix + a + (middle + owner + suffix);
    assert prefix + b + middle + owner + suffix == prefix + b + (middle + owner + suffix);
    InfixInjective(prefix, a, b, middle + owner + suffix);
  }

  /** The removal description names the removed element, except for directive
      locations, whose printed names can coincide. */
  lemma RemovedRecordInjective(s: Subject, x: string, y: string)
    requires !s.LocationOf?
    requires RemovedRecord(s, x).description == RemovedRecord(s, y).description
    ensures x == y
  {
    match s
    case TypeOf =>
      InfixInjective("`", x, y, "` type was removed");
    case EnumValueOf(e) =>
      OwnerTemplateInjective("Enum value `", x, y, "` was removed from enum `", e, "`");
    case UnionMemberOf(u) =>
      OwnerTemplateInjective("`", x, y, "` type was removed from union `", u, "`");
    case InputFieldOf(t, _) =>
      OwnerTemplateInjective("Input field `", x, y, "` was removed from `", t, "` type");
    case InterfaceOf(t) =>
      InfixInjective("`" + t + "` object type no longer implements `", x, y, "` interface");
    case FieldOf(t) =>
      OwnerTemplateInjective("Field `", x, y, "` was removed from `", t, "` type");
    case DirectiveOf =>
      InfixInjective("`", x, y, "` directive was removed");
    case ArgumentOf(d, _) =>
      OwnerTemplateInjective("Argument `", x, y, "` was removed from `", d, "` directive");
  }

  /** The addition description names the added element, except for directive
      locations. */
  lemma AddedRecordInjective(s: Subject, x: string, y: string)
    requires !s.LocationOf?
    requires AddedRecord(s, x).description == AddedRecord(s, y).description
    ensures x == y
  {
    match s
    case TypeOf =>
      InfixInjective("`", x, y, "` type was added");
    case EnumValueOf(e) =>
      OwnerTemplateInjective("Enum value `", x, y, "` was added to enum `", e, "`");
    case UnionMemberOf(u) =>
      OwnerTemplateInjective("`", x, y, "` type was added to union `", u, "`");
    case InputFieldOf(t, _) =>
      OwnerTemplateInjective("Input field `", x, y, "` was added to `", t, "` type");
    case InterfaceOf(t) =>
      InfixInjective("`" + t + "` object type now implements `", x, y, "` interface");
    case FieldOf(t) =>
      OwnerTemplateInjective("Field `", x, y, "` was added to `", t, "` type");
    case DirectiveOf =>
      InfixInjective("`", x, y, "` directive was added");
    case ArgumentOf(d, _) =>
      OwnerTemplateInjective("Argument `", x, y, "` was added to `", d, "` directive");
  }

  /** Every name in the list gets its removal record, and (but for locations)
      no other name does. */
  lemma RemovalsContain(s: Subject, names: seq<string>, x: string)
    ensures x in names ==> RemovedRecord(s, x) in Removals(s, names)
    ensures !s.LocationOf? && RemovedRecord(s, x) in Removals(s, names) ==> x in names
  {
    var r := Removals(s, names);
    if x in names {
      var i :| 0 <= i < |names| && names[i] == x;
      assert r[i] == RemovedRecord(s, x);
    }
    if !s.LocationOf? && RemovedRecord(s, x) in r {
      var i :| 0 <= i < |r| && r[i] == RemovedRecord(s, x);
      RemovedRecordInjective(s, names[i], x);
    }
  }

  lemma AdditionsContain(s: Subject, names: seq<string>, x: string)
    ensures x in names ==> AddedRecord(s, x) in Additions(s, names)
    ensures !s.LocationOf? && AddedRecord(s, x) in Additions(s, names) ==> x in names
  {
    var r := Additions(s, names);
    if x in names {
      var i :| 0 <= i < |names| && names[i] == x;
      assert r[i] == AddedRecord(s, x);
    }
    if !s.LocationOf? && AddedRecord(s, x) in r {
      var i :| 0 <= i < |r| && r[i] == AddedRecord(s, x);
      AddedRecordInjective(s, names[i], x);
    }
  }

  /** The changes to common elements are neither removals nor additions. */
  lemma CommonChangesRank(m: Common, names: seq<string>)
    ensures forall c :: c in CommonChanges(m, names) ==> RemovalRank(c.changeType) == 2
  {
    forall c | c in CommonChanges(m, names) ensures RemovalRank(c.changeType) == 2 {
      var x :| x in names && c in CommonRecords(m, x);
    }
  }

  /** An element gets a removal record exactly when the old list names it and
      the new one does not (for locations: at least then). */
  lemma DiffRemoved(s: Subject, m: Common, oldNames: seq<string>, newNames: seq<string>, x: string)
    ensures x in oldNames && x !in newNames ==> RemovedRecord(s, x) in Diff(s, m, oldNames, newNames)
    ensures !s.LocationOf? ==> (RemovedRecord(s, x) in Diff(s, m, oldNames, newNames) <==> x in oldNames && x !in newNames)
  {
    var removed := Minus(oldNames, newNames);
    var c := RemovedRecord(s, x);
    RemovalsContain(s, removed, x);
    AdditionsTagged(s, Minus(newNames, oldNames));
    CommonChangesRank(m, Intersect(oldNames, newNames));
    RemovedRecordTag(s, x);
    SubjectTags(s);
  }

  /** An element gets an addition record exactly when the new list names it
      and the old one does not (for locations: at least then). */
  lemma DiffAdded(s: Subject, m: Common, oldNames: seq<string>, newNames: seq<string>, x: string)
    ensures x in newNames && x !in oldNames ==> AddedRecord(s, x) in Diff(s, m, oldNames, newNames)
    ensures !s.LocationOf? ==> (AddedRecord(s, x) in Diff(s, m, oldNames, newNames) <==> x in newNames && x !in oldNames)
  {
    var added := Minus(newNames, oldNames);
    AdditionsContain(s, added, x);
    RemovalsTagged(s, Minus(oldNames, newNames));
    CommonChangesRank(m, Intersect(oldNames, newNames));
    AddedRecordTag(s, x);
    SubjectTags(s);
  }

  /** `find_changes_in_schema` contributes nothing. */
  lemma CompareSplit(oldSchema: Schema, newSchema: Schema)
    ensures Compare(oldSchema, newSchema)
      == TypeDiff(oldSchema.types, newSchema.types) + ChangesInDirectives(oldSchema.directives, newSchema.directives)
  {
    var types := TypeDiff(oldSchema.types, newSchema.types);
    var schema := ChangesInSchema(oldSchema, newSchema);
    assert schema == [];
    assert types + schema == types;
  }

  /** A type is reported removed exactly when the old schema defines it and
      the new one does not. */
  lemma TypeRemovedIff(oldSchema: Schema, newSchema: Schema, name: string)
    ensures TypeRemoved(name) in Compare(oldSchema, newSchema)
      <==> name in TypeNames(oldSchema.types) && name !in TypeNames(newSchema.types)
  {
    var oldNames, newNames := TypeNames(oldSchema.types), TypeNames(newSchema.types);
    CompareSplit(oldSchema, newSchema);
    DirectivesShape(oldSchema.directives, newSchema.directives);
    RemovalsContain(TypeOf, Minus(oldNames, newNames), name);
    AdditionsTagged(TypeOf, Minus(newNames, oldNames));
  }

  /** A type is reported added exactly when the new schema defines it and
      the old one does not. */
  lemma TypeAddedIff(oldSchema: Schema, newSchema: Schema, name: string)
    ensures TypeAdded(name) in Compare(oldSchema, newSchema)
      <==> name in TypeNames(newSchema.types) && name !in TypeNames(oldSchema.types)
  {
    var oldNames, newNames := TypeNames(oldSchema.types), TypeNames(newSchema.types);
    CompareSplit(oldSchema, newSchema);
    DirectivesShape(oldSchema.directives, newSchema.directives);
    AdditionsContain(TypeOf, Minus(newNames, oldNames), name);
    RemovalsTagged(TypeOf, Minus(oldNames, newNames));
  }

  /** Comparing in the other direction turns every type removal into a type
      addition and back. */
  lemma TypeRemovedMirrorsAdded(oldSchema: Schema, newSchema: Schema, name: string)
    ensures TypeRemoved(name) in Compare(oldSchema, newSchema) <==> TypeAdded(name) in Compare(newSchema, oldSchema)
  {
    TypeRemovedIff(oldSchema, newSchema, name);
    TypeAddedIff(newSchema, oldSchema, name);
  }

  /** Among the additions, a record with the addition kind and the
      description of `x` is the one addition record of `x`. */
  lemma AdditionsFlag(s: Subject, names: seq<string>, x: string, c: Change)
    requires !s.LocationOf?
    requires c.changeType == AddedTag(s) && c.description == AddedRecord(s, x).description
    ensures c in Additions(s, names) <==> x in names && c == AddedRecord(s, x)
  {
    var r := Additions(s, names);
    AdditionsContain(s, names, x);
    if c in r {
      var i :| 0 <= i < |r| && r[i] == c;
      AddedRecordInjective(s, names[i], x);
    }
  }

  /** A change record that is neither a removal nor an addition is in a
      member Diff exactly when it is one of the records of a common element. */
  lemma DiffCommon(s: Subject, m: Common, oldNames: seq<string>, newNames: seq<string>, c: Change)
    requires RemovalRank(c.changeType) == 2
    ensures c in Diff(s, m, oldNames, newNames) <==> exists x :: x in oldNames && x in newNames && c in CommonRecords(m, x)
  {
    RemovalsTagged(s, Minus(oldNames, newNames));
    AdditionsTagged(s, Minus(newNames, oldNames));
    SubjectTags(s);
  }

  /** A record of the addition kind is in a member Diff exactly when it is
      among the addition records. */
  lemma DiffAddition(s: Subject, m: Common, oldNames: seq<string>, newNames: seq<string>, c: Change)
    requires c.changeType == AddedTag(s)
    ensures c in Diff(s, m, oldNames, newNames) <==> c in Additions(s, Minus(newNames, oldNames))
  {
    SubjectTags(s);
    RemovalsTagged(s, Minus(oldNames, newNames));
    CommonChangesRank(m, Intersect(oldNames, newNames));
  }

  /** An input field is reported added, with the given breaking flag, exactly
      when the new type has it and the old does not, and the flag says whether
      its type is non-null. */
  lemma InputFieldAddedIff(oldFields: seq<InputValue>, newFields: seq<InputValue>, typeName: string, field: string, breaking: bool)
    ensures InputFieldAdded(field, breaking, typeName) in ChangesInInputObjectType(oldFields, newFields, typeName)
      <==> field in InputValueNames(newFields) && field !in InputValueNames(oldFields) && breaking == IsRequired(newFields, field)
  {
    var s := InputFieldOf(typeName, newFields);
    var oldNames, newNames := InputValueNames(oldFields), InputValueNames(newFields);
    var c := InputFieldAdded(field, breaking, typeName);
    assert c.changeType == AddedTag(s);
    DiffAddition(s, InputFieldsCompared(oldFields, newFields, typeName), oldNames, newNames, c);
    AdditionsFlag(s, Minus(newNames, oldNames), field, c);
  }

  /** The same for a directive argument. */
  lemma DirectiveArgumentAddedIff(oldArgs: seq<InputValue>, newArgs: seq<InputValue>, directive: string, argument: string, breaking: bool)
    ensures DirectiveArgumentAdded(argument, breaking, directive) in ChangesInArguments(oldArgs, newArgs, directive)
      <==> argument in InputValueNames(newArgs) && argument !in InputValueNames(oldArgs) && breaking == IsRequired(newArgs, argument)
  {
    var s := ArgumentOf(directive, newArgs);
    var oldNames, newNames := InputValueNames(oldArgs), InputValueNames(newArgs);
    var c := DirectiveArgumentAdded(argument, breaking, directive);
    assert c.changeType == AddedTag(s);
    DiffAddition(s, ArgumentsCompared(oldArgs, newArgs, directive), oldNames, newNames, c);
    AdditionsFlag(s, Minus(newNames, oldNames), argument, c);
  }

  /** A union member is reported removed exactly when only the old union
      lists it, and added exactly when only the new one does. */
  lemma UnionMemberIff(oldMembers: seq<string>, newMembers: seq<string>, unionName: string, member: string)
    ensures UnionMemberRemoved(member, unionName) in ChangesInUnionType(oldMembers, newMembers, unionName)
      <==> member in oldMembers && member !in newMembers
    ensures UnionMemberAdded(member, unionName) in ChangesInUnionType(oldMembers, newMembers, unionName)
      <==> member in newMembers && member !in oldMembers
  {
    DiffRemoved(UnionMemberOf(unionName), NothingCompared, oldMembers, newMembers, member);
    DiffAdded(UnionMemberOf(unionName), NothingCompared, oldMembers, newMembers, member);
  }

  /** A field is reported removed exactly when only the old type has it, and
      added exactly when only the new type has it. */
  lemma FieldIff(oldFields: seq<Field>, newFields: seq<Field>, typeName: string, field: string)
    ensures FieldRemoved(field, typeName) in ChangesInObjectTypeFields(oldFields, newFields, typeName)
      <==> field in FieldNames(oldFields) && field !in FieldNames(newFields)
    ensures FieldAdded(field, typeName) in ChangesInObjectTypeFields(oldFields, newFields, typeName)
      <==> field in FieldNames(newFields) && field !in FieldNames(oldFields)
  {
    var oldNames, newNames := FieldNames(oldFields), FieldNames(newFields);
    assert ChangesInObjectTypeFields(oldFields, newFields, typeName) == Diff(FieldOf(typeName), NothingCompared, oldNames, newNames);
    DiffRemoved(FieldOf(typeName), NothingCompared, oldNames, newNames, field);
    assert RemovedRecord(FieldOf(typeName), field) == FieldRemoved(field, typeName);
    DiffAdded(FieldOf(typeName), NothingCompared, oldNames, newNames, field);
    assert AddedRecord(FieldOf(typeName), field) == FieldAdded(field, typeName);
  }

  /** In an object type, an interface is reported removed (a breaking change)
      exactly when only the old type implements it; field records never
      stand in for it. */
  lemma InterfaceRemovedIff(oldInterfaces: seq<string>, oldFields: seq<Field>,
                            newInterfaces: seq<string>, newFields: seq<Field>, typeName: string, i: string)
    ensures ObjectTypeInterfaceRemoved(i, typeName) in ChangesInObjectType(oldInterfaces, oldFields, newInterfaces, newFields, typeName)
      <==> i in oldInterfaces && i !in newInterfaces
    ensures ObjectTypeInterfaceRemoved(i, typeName).breakingChange
  {
    var c := ObjectTypeInterfaceRemoved(i, typeName);
    var interfaces := ChangesInObjectTypeInterfaces(oldInterfaces, newInterfaces, typeName);
    var fields := ChangesInObjectTypeFields(oldFields, newFields, typeName);
    assert ChangesInObjectType(oldInterfaces, oldFields, newInterfaces, newFields, typeName) == interfaces + fields;
    assert c !in fields by { FieldRecordsTagged(oldFields, newFields, typeName); }
    assert c in interfaces <==> i in oldInterfaces && i !in newInterfaces by {
      DiffRemoved(InterfaceOf(typeName), NothingCompared, oldInterfaces, newInterfaces, i);
      assert RemovedRecord(InterfaceOf(typeName), i) == c;
    }
  }

  /** In an object type, an interface is reported added (not a breaking
      change) exactly when only the new type implements it. */
  lemma InterfaceAddedIff(oldInterfaces: seq<string>, oldFields: seq<Field>,
                          newInterfaces: seq<string>, newFields: seq<Field>, typeName: string, i: string)
    ensures ObjectTypeInterfaceAdded(i, typeName) in ChangesInObjectType(oldInterfaces, oldFields, newInterfaces, newFields, typeName)
      <==> i in newInterfaces && i !in oldInterfaces
    ensures !ObjectTypeInterfaceAdded(i, typeName).breakingChange
  {
    var c := ObjectTypeInterfaceAdded(i, typeName);
    var interfaces := ChangesInObjectTypeInterfaces(oldInterfaces, newInterfaces, typeName);
    var fields := ChangesInObjectTypeFields(oldFields, newFields, typeName);
    assert ChangesInObjectType(oldInterfaces, oldFields, newInterfaces, newFields, typeName) == interfaces + fields;
    assert c !in fields by { FieldRecordsTagged(oldFields, newFields, typeName); }
    assert c in interfaces <==> i in newInterfaces && i !in oldInterfaces by {
      DiffAdded(InterfaceOf(typeName), NothingCompared, oldInterfaces, newInterfaces, i);
      assert AddedRecord(InterfaceOf(typeName), i) == c;
    }
  }

  /** The field part of an object comparison holds only field records. */
  lemma FieldRecordsTagged(oldFields: seq<Field>, newFields: seq<Field>, typeName: string)
    ensures forall c :: c in ChangesInObjectTypeFields(oldFields, newFields, typeName)
              ==> c.changeType == FIELD_REMOVED || c.changeType == FIELD_ADDED
  {
    var oldNames, newNames := FieldNames(oldFields), FieldNames(newFields);
    assert ChangesInObjectTypeFields(oldFields, newFields, typeName) == Diff(FieldOf(typeName), NothingCompared, oldNames, newNames);
    CommonChangesSelf(NothingCompared, Intersect(oldNames, newNames));
    RemovalsTagged(FieldOf(typeName), Minus(oldNames, newNames));
    AdditionsTagged(FieldOf(typeName), Minus(newNames, oldNames));
  }

  /** A directive argument is reported removed exactly when only the old
      directive has it. */
  lemma DirectiveArgumentRemovedIff(oldArgs: seq<InputValue>, newArgs: seq<InputValue>, directive: string, argument: string)
    ensures DirectiveArgumentRemoved(argument, directive) in ChangesInArguments(oldArgs, newArgs, directive)
      <==> argument in InputValueNames(oldArgs) && argument !in InputValueNames(newArgs)
  {
    DiffRemoved(ArgumentOf(directive, newArgs), ArgumentsCompared(oldArgs, newArgs, directive),
                InputValueNames(oldArgs), InputValueNames(newArgs), argument);
  }

  /** A location only the old directive lists is reported removed, and one
      only the new directive lists is reported added. The converse does not
      follow from the record alone: it carries the camel-cased name. */
  lemma DirectiveLocationReported(oldLocations: seq<string>, newLocations: seq<string>, directive: string, location: string)
    ensures location in oldLocations && location !in newLocations
      ==> DirectiveLocationRemoved(location, directive) in ChangesInDirectiveLocations(oldLocations, newLocations, directive)
    ensures location in newLocations && location !in oldLocations
      ==> DirectiveLocationAdded(location, directive) in ChangesInDirectiveLocations(oldLocations, newLocations, directive)
  {
    var r := ChangesInDirectiveLocations(oldLocations, newLocations, directive);
    if location in oldLocations && location !in newLocations {
      DiffRemoved(LocationOf(directive), NothingCompared, oldLocations, newLocations, location);
      assert RemovedRecord(LocationOf(directive), location) in r;
    }
    if location in newLocations && location !in oldLocations {
      DiffAdded(LocationOf(directive), NothingCompared, oldLocations, newLocations, location);
      assert AddedRecord(LocationOf(directive), location) in r;
    }
  }

  /** A directive is reported removed exactly when only the old schema
      defines it. */
  lemma DirectiveRemovedIff(oldDirectives: seq<Directive>, newDirectives: seq<Directive>, name: string)
    ensures DirectiveRemoved(name) in ChangesInDirectives(oldDirectives, newDirectives)
      <==> name in DirectiveNames(oldDirectives) && name !in DirectiveNames(newDirectives)
  {
    // Stated before the comparison's terms are in scope, where it is cheap.
    assert RemovedTag(DirectiveOf) == DIRECTIVE_REMOVED && RemovedRecord(DirectiveOf, name) == DirectiveRemoved(name);
    var common := DirectivesParts(oldDirectives, newDirectives);
    RemovedAmong(DirectiveOf, DirectiveNames(oldDirectives), DirectiveNames(newDirectives), common, name);
  }

  /** Every addition record has the subject's addition kind. */
  lemma AdditionsKind(s: Subject, names: seq<string>)
    ensures forall c :: c in Additions(s, names) ==> c.changeType == AddedTag(s)
  {
    AdditionsTagged(s, names);
  }

  /** Every removal record has the subject's removal kind. */
  lemma RemovalsKind(s: Subject, names: seq<string>)
    ensures forall c :: c in Removals(s, names) ==> c.changeType == RemovedTag(s)
  {
    RemovalsTagged(s, names);
  }

  /** A directive is reported added exactly when only the new schema
      defines it. */
  lemma DirectiveAddedIff(oldDirectives: seq<Directive>, newDirectives: seq<Directive>, name: string)
    ensures DirectiveAdded(name) in ChangesInDirectives(oldDirectives, newDirectives)
      <==> name in DirectiveNames(newDirectives) && name !in DirectiveNames(oldDirectives)
  {
    // Stated before the comparison's terms are in scope, where it is cheap.
    assert AddedTag(DirectiveOf) == DIRECTIVE_ADDED && AddedRecord(DirectiveOf, name) == DirectiveAdded(name);
    var common := DirectivesParts(oldDirectives, newDirectives);
    AddedAmong(DirectiveOf, DirectiveNames(oldDirectives), DirectiveNames(newDirectives), common, name);
  }

  /** The three parts of the directive comparison; the changes inside common
      directives are never whole-directive removals or additions. */
  lemma DirectivesParts(oldDirectives: seq<Directive>, newDirectives: seq<Directive>) returns (common: seq<Change>)
    ensures ChangesInDirectives(oldDirectives, newDirectives)
      == Removals(DirectiveOf, Minus(DirectiveNames(oldDirectives), DirectiveNames(newDirectives)))
         + Additions(DirectiveOf, Minus(DirectiveNames(newDirectives), DirectiveNames(oldDirectives))) + common
    ensures forall c :: c in common ==> c.changeType != DIRECTIVE_REMOVED && c.changeType != DIRECTIVE_ADDED
  {
    var oldNames, newNames := DirectiveNames(oldDirectives), DirectiveNames(newDirectives);
    common := CommonDirectiveChanges(oldDirectives, newDirectives, Intersect(oldNames, newNames));
  }

  /** In removals, then additions, then records that are neither, the
      removal record of `x` occurs exactly when only the old list names `x`,
      provided the other records are of other kinds. */
  lemma RemovedAmong(s: Subject, oldNames: seq<string>, newNames: seq<string>, rest: seq<Change>, x: string)
    requires !s.LocationOf?
    requires forall c :: c in rest ==> c.changeType != RemovedTag(s)
    ensures RemovedRecord(s, x) in Removals(s, Minus(oldNames, newNames)) + Additions(s, Minus(newNames, oldNames)) + rest
      <==> x in oldNames && x !in newNames
  {
    RemovalsContain(s, Minus(oldNames, newNames), x);
    AdditionsKind(s, Minus(newNames, oldNames));
    RemovedRecordTag(s, x);
    SubjectTags(s);
  }

  /** The same for the addition record of `x`. */
  lemma AddedAmong(s: Subject, oldNames: seq<string>, newNames: seq<string>, rest: seq<Change>, x: string)
    requires !s.LocationOf?
    requires forall c :: c in rest ==> c.changeType != AddedTag(s)
    ensures AddedRecord(s, x) in Removals(s, Minus(oldNames, newNames)) + Additions(s, Minus(newNames, oldNames)) + rest
      <==> x in newNames && x !in oldNames
  {
    AdditionsContain(s, Minus(newNames, oldNames), x);
    RemovalsKind(s, Minus(oldNames, newNames));
    AddedRecordTag(s, x);
    SubjectTags(s);
  }

  /** Both sides define `value` and its deprecation reasons differ. */
  predicate DeprecationChanged(oldValues: seq<EnumValue>, newValues: seq<EnumValue>, value: string) {
    match FindEnumValue(oldValues, value)
    case None => false
    case Some(oldValue) =>
      match FindEnumValue(newValues, value)
      case None => false
      case Some(newValue) => oldValue.deprecationReason != newValue.deprecationReason
  }

  /** Both sides define `value` and its descriptions differ. */
  predicate EnumDescriptionChanged(oldValues: seq<EnumValue>, newValues: seq<EnumValue>, value: string) {
    match FindEnumValue(oldValues, value)
    case None => false
    case Some(oldValue) =>
      match FindEnumValue(newValues, value)
      case None => false
      case Some(newValue) => oldValue.description != newValue.description
  }

  /** The records of one common enum value name that value. */
  lemma EnumValueRecordsName(oldValues: seq<EnumValue>, newValues: seq<EnumValue>, x: string, value: string, enumName: string)
    ensures EnumValueDeprecated(value, enumName) in ChangesInEnumValue(oldValues, newValues, x, enumName)
      <==> x == value && DeprecationChanged(oldValues, newValues, value)
    ensures EnumValueDescriptionChanged(value, enumName) in ChangesInEnumValue(oldValues, newValues, x, enumName)
      <==> x == value && EnumDescriptionChanged(oldValues, newValues, value)
  {
    var dep, desc := EnumValueDeprecated(value, enumName), EnumValueDescriptionChanged(value, enumName);
    if dep == EnumValueDeprecated(x, enumName) {
      OwnerTemplateInjective("Enum value `", value, x, "` was deprecated in enum `", enumName, "`");
    }
    if desc == EnumValueDescriptionChanged(x, enumName) {
      InfixInjective("`" + enumName + ".", value, x, "` description changed");
    }
  }

  /** An enum value is reported deprecated exactly when both sides define it
      and its deprecation reason changed, in either direction. */
  lemma EnumValueDeprecatedIff(oldValues: seq<EnumValue>, newValues: seq<EnumValue>, enumName: string, value: string)
    ensures EnumValueDeprecated(value, enumName) in ChangesInEnumType(oldValues, newValues, enumName)
      <==> DeprecationChanged(oldValues, newValues, value)
  {
    var m := EnumValuesCompared(oldValues, newValues, enumName);
    var oldNames, newNames := EnumValueNames(oldValues), EnumValueNames(newValues);
    var c := EnumValueDeprecated(value, enumName);
    DiffCommon(EnumValueOf(enumName), m, oldNames, newNames, c);
    if c in ChangesInEnumType(oldValues, newValues, enumName) {
      var x :| x in oldNames && x in newNames && c in CommonRecords(m, x);
      EnumValueRecordsName(oldValues, newValues, x, value, enumName);
    }
    if DeprecationChanged(oldValues, newValues, value) {
      EnumValueRecordsName(oldValues, newValues, value, value, enumName);
      assert value in oldNames && value in newNames && c in CommonRecords(m, value);
    }
  }

  /** An enum value is reported with a changed description exactly when both
      sides define it and the descriptions differ. */
  lemma EnumValueDescriptionChangedIff(oldValues: seq<EnumValue>, newValues: seq<EnumValue>, enumName: string, value: string)
    ensures EnumValueDescriptionChanged(value, enumName) in ChangesInEnumType(oldValues, newValues, enumName)
      <==> EnumDescriptionChanged(oldValues, newValues, value)
  {
    var m := EnumValuesCompared(oldValues, newValues, enumName);
    var oldNames, newNames := EnumValueNames(oldValues), EnumValueNames(newValues);
    var c := EnumValueDescriptionChanged(value, enumName);
    DiffCommon(EnumValueOf(enumName), m, oldNames, newNames, c);
    if c in ChangesInEnumType(oldValues, newValues, enumName) {
      var x :| x in oldNames && x in newNames && c in CommonRecords(m, x);
      EnumValueRecordsName(oldValues, newValues, x, value, enumName);
    }
    if EnumDescriptionChanged(oldValues, newValues, value) {
      EnumValueRecordsName(oldValues, newValues, value, value, enumName);
      assert value in oldNames && value in newNames && c in CommonRecords(m, value);
    }
  }

  /** Every change found between the two definitions of a type both schemas
      define is reported. */
  lemma CommonTypeReported(oldSchema: Schema, newSchema: Schema, name: string, oldType: GraphType, newType: GraphType)
    requires FindType(oldSchema.types, name) == Some(oldType) && FindType(newSchema.types, name) == Some(newType)
    ensures forall c :: c in TypeChanges(oldType, newType) ==> c in Compare(oldSchema, newSchema)
  {
    var oldNames, newNames := TypeNames(oldSchema.types), TypeNames(newSchema.types);
    assert name in Intersect(oldNames, newNames);
    assert ChangesInCommonType(oldSchema.types, newSchema.types, name) == TypeChanges(oldType, newType);
    CompareSplit(oldSchema, newSchema);
  }

  /** A type defined on both sides with different kinds is reported, as a
      breaking change, by one kind-change record. */
  lemma KindChangeReported(oldSchema: Schema, newSchema: Schema, name: string, oldType: GraphType, newType: GraphType)
    requires FindType(oldSchema.types, name) == Some(oldType) && FindType(newSchema.types, name) == Some(newType)
    requires oldType.Kind() != newType.Kind()
    ensures TypeKindChanged(oldType, newType) in Compare(oldSchema, newSchema)
    ensures TypeKindChanged(oldType, newType).breakingChange
  {
    CommonTypeReported(oldSchema, newSchema, name, oldType, newType);
  }

  /** The changes between two enum types: their values, then their description. */
  lemma EnumTypeChanges(oldEnum: GraphType, newEnum: GraphType)
    requires oldEnum.EnumType? && newEnum.EnumType?
    ensures TypeChanges(oldEnum, newEnum)
      == ChangesInEnumType(oldEnum.values, newEnum.values, newEnum.name) + TypeDescriptionChange(oldEnum, newEnum)
  {
    assert ChangesInKind(oldEnum, newEnum) == ChangesInEnumType(oldEnum.values, newEnum.values, newEnum.name);
  }

  /** A value dropped from an enum type both schemas define is reported as a
      breaking removal. */
  lemma EnumValueRemovalReported(oldSchema: Schema, newSchema: Schema, enumName: string,
                                 oldEnum: GraphType, newEnum: GraphType, value: string)
    requires FindType(oldSchema.types, enumName) == Some(oldEnum) && oldEnum.EnumType?
    requires FindType(newSchema.types, enumName) == Some(newEnum) && newEnum.EnumType?
    requires value in EnumValueNames(oldEnum.values) && value !in EnumValueNames(newEnum.values)
    ensures EnumValueRemoved(value, enumName) in Compare(oldSchema, newSchema)
    ensures EnumValueRemoved(value, enumName).breakingChange
  {
    assert RemovedRecord(EnumValueOf(enumName), value) == EnumValueRemoved(value, enumName);
    assert newEnum.name == enumName;
    DiffRemoved(EnumValueOf(enumName), EnumValuesCompared(oldEnum.values, newEnum.values, enumName),
                EnumValueNames(oldEnum.values), EnumValueNames(newEnum.values), value);
    EnumTypeChanges(oldEnum, newEnum);
    CommonTypeReported(oldSchema, newSchema, enumName, oldEnum, newEnum);
  }

  // ---------------------------------------------------------------------------
  // Description changes of input fields, directive arguments and directives.

  /** The record of one common input field names that field. */
  lemma InputFieldRecordsName(oldFields: seq<InputValue>, newFields: seq<InputValue>, x: string, field: string, typeName: string)
    ensures InputFieldDescriptionChanged(field, typeName) in ChangesInInputField(oldFields, newFields, x, typeName)
      <==> x == field && InputDescriptionChanged(oldFields, newFields, field)
  {
    var c := InputFieldDescriptionChanged(field, typeName);
    if c == InputFieldDescriptionChanged(x, typeName) {
      InfixInjective("`" + typeName + ".", field, x, "` description is changed");
    }
  }

  /** An input field is reported with a changed description exactly when
      both sides define it and the descriptions differ. */
  lemma InputFieldDescriptionChangedIff(oldFields: seq<InputValue>, newFields: seq<InputValue>, typeName: string, field: string)
    ensures InputFieldDescriptionChanged(field, typeName) in ChangesInInputObjectType(oldFields, newFields, typeName)
      <==> InputDescriptionChanged(oldFields, newFields, field)
  {
    var c := InputFieldDescriptionChanged(field, typeName);
    assert RemovalRank(c.changeType) == 2;
    DiffCommon(InputFieldOf(typeName, newFields), InputFieldsCompared(oldFields, newFields, typeName),
               InputValueNames(oldFields), InputValueNames(newFields), c);
    if c in ChangesInInputObjectType(oldFields, newFields, typeName) {
      InputFieldDescriptionReportedDiffers(oldFields, newFields, typeName, field);
    }
    if InputDescriptionChanged(oldFields, newFields, field) {
      InputFieldDescriptionDiffersReported(oldFields, newFields, typeName, field);
    }
  }

  /** The record of a description change names a field whose descriptions differ. */
  lemma InputFieldDescriptionReportedDiffers(oldFields: seq<InputValue>, newFields: seq<InputValue>, typeName: string, field: string)
    requires exists x :: (x in InputValueNames(oldFields) && x in InputValueNames(newFields)
                          && InputFieldDescriptionChanged(field, typeName) in CommonRecords(InputFieldsCompared(oldFields, newFields, typeName), x))
    ensures InputDescriptionChanged(oldFields, newFields, field)
  {
    var x :| x in InputValueNames(oldFields) && x in InputValueNames(newFields)
      && InputFieldDescriptionChanged(field, typeName) in CommonRecords(InputFieldsCompared(oldFields, newFields, typeName), x);
    assert CommonRecords(InputFieldsCompared(oldFields, newFields, typeName), x) == ChangesInInputField(oldFields, newFields, x, typeName);
    InputFieldRecordsName(oldFields, newFields, x, field, typeName);
  }

  /** A field whose descriptions differ has its record among the common records. */
  lemma InputFieldDescriptionDiffersReported(oldFields: seq<InputValue>, newFields: seq<InputValue>, typeName: string, field: string)
    requires InputDescriptionChanged(oldFields, newFields, field)
    ensures field in InputValueNames(oldFields) && field in InputValueNames(newFields)
    ensures InputFieldDescriptionChanged(field, typeName) in CommonRecords(InputFieldsCompared(oldFields, newFields, typeName), field)
  {
    InputFieldRecordsName(oldFields, newFields, field, field, typeName);
    assert CommonRecords(InputFieldsCompared(oldFields, newFields, typeName), field) == ChangesInInputField(oldFields, newFields, field, typeName);
  }

  /** The record of one common directive argument names that argument. */
  lemma ArgumentRecordsName(oldArgs: seq<InputValue>, newArgs: seq<InputValue>, x: string, argument: string, directive: string)
    ensures DirectiveArgumentDescriptionChanged(argument, directive) in ChangesInCommonArgument(oldArgs, newArgs, x, directive)
      <==> x == argument && InputDescriptionChanged(oldArgs, newArgs, argument)
  {
    var c := DirectiveArgumentDescriptionChanged(argument, directive);
    if c == DirectiveArgumentDescriptionChanged(x, directive) {
      InfixInjective("`" + directive + "(", argument, x, ")` description is changed");
    }
  }

  /** A directive argument is reported with a changed description exactly
      when both sides define it and the descriptions differ. */
  lemma DirectiveArgumentDescriptionChangedIff(oldArgs: seq<InputValue>, newArgs: seq<InputValue>, directive: string, argument: string)
    ensures DirectiveArgumentDescriptionChanged(argument, directive) in ChangesInArguments(oldArgs, newArgs, directive)
      <==> InputDescriptionChanged(oldArgs, newArgs, argument)
  {
    var c := DirectiveArgumentDescriptionChanged(argument, directive);
    assert RemovalRank(c.changeType) == 2;
    DiffCommon(ArgumentOf(directive, newArgs), ArgumentsCompared(oldArgs, newArgs, directive),
               InputValueNames(oldArgs), InputValueNames(newArgs), c);
    if c in ChangesInArguments(oldArgs, newArgs, directive) {
      ArgumentDescriptionReportedDiffers(oldArgs, newArgs, directive, argument);
    }
    if InputDescriptionChanged(oldArgs, newArgs, argument) {
      ArgumentDescriptionDiffersReported(oldArgs, newArgs, directive, argument);
    }
  }

  /** The record of a description change names an argument whose descriptions differ. */
  lemma ArgumentDescriptionReportedDiffers(oldArgs: seq<InputValue>, newArgs: seq<InputValue>, directive: string, argument: string)
    requires exists x :: (x in InputValueNames(oldArgs) && x in InputValueNames(newArgs)
                          && DirectiveArgumentDescriptionChanged(argument, directive) in CommonRecords(ArgumentsCompared(oldArgs, newArgs, directive), x))
    ensures InputDescriptionChanged(oldArgs, newArgs, argument)
  {
    var x :| x in InputValueNames(oldArgs) && x in InputValueNames(newArgs)
      && DirectiveArgumentDescriptionChanged(argument, directive) in CommonRecords(ArgumentsCompared(oldArgs, newArgs, directive), x);
    assert CommonRecords(ArgumentsCompared(oldArgs, newArgs, directive), x) == ChangesInCommonArgument(oldArgs, newArgs, x, directive);
    ArgumentRecordsName(oldArgs, newArgs, x, argument, directive);
  }

  /** An argument whose descriptions differ has its record among the common records. */
  lemma ArgumentDescriptionDiffersReported(oldArgs: seq<InputValue>, newArgs: seq<InputValue>, directive: string, argument: string)
    requires InputDescriptionChanged(oldArgs, newArgs, argument)
    ensures argument in InputValueNames(oldArgs) && argument in InputValueNames(newArgs)
    ensures DirectiveArgumentDescriptionChanged(argument, directive) in CommonRecords(ArgumentsCompared(oldArgs, newArgs, directive), argument)
  {
    ArgumentRecordsName(oldArgs, newArgs, argument, argument, directive);
    assert CommonRecords(ArgumentsCompared(oldArgs, newArgs, directive), argument) == ChangesInCommonArgument(oldArgs, newArgs, argument, directive);
  }

  /** Both schemas define directive `name` and its descriptions differ. */
  predicate DirectiveDescriptionDiffers(oldDirectives: seq<Directive>, newDirectives: seq<Directive>, name: string) {
    match FindDirective(oldDirectives, name)
    case None => false
    case Some(oldDirective) =>
      match FindDirective(newDirectives, name)
      case None => false
      case Some(newDirective) => oldDirective.description != newDirective.description
  }

  /** Every record of a member Diff is a removal, an addition, or one of the
      changes to the common elements. */
  lemma DiffKinds(s: Subject, m: Common, oldNames: seq<string>, newNames: seq<string>)
    ensures forall c :: c in Diff(s, m, oldNames, newNames) ==>
      c.changeType == RemovedTag(s) || c.changeType == AddedTag(s) || c in CommonChanges(m, Intersect(oldNames, newNames))
  {
    RemovalsKind(s, Minus(oldNames, newNames));
    AdditionsKind(s, Minus(newNames, oldNames));
  }

  /** The only record about a common directive argument is its description. */
  lemma CommonArgumentKinds(oldArgs: seq<InputValue>, newArgs: seq<InputValue>, directive: string, names: seq<string>)
    ensures forall c :: c in CommonChanges(ArgumentsCompared(oldArgs, newArgs, directive), names) ==>
      c.changeType == DIRECTIVE_ARGUMENT_DESCRIPTION_CHANGED
  {
    var m := ArgumentsCompared(oldArgs, newArgs, directive);
    forall c | c in CommonChanges(m, names) ensures c.changeType == DIRECTIVE_ARGUMENT_DESCRIPTION_CHANGED {
      var x :| x in names && c in CommonRecords(m, x);
    }
  }

  /** The comparison of locations and arguments never reports a directive's
      own description. */
  lemma DirectiveBodyKinds(oldDirective: Directive, newDirective: Directive)
    ensures forall c :: c in ChangesInDirective(oldDirective, newDirective) ==> c.changeType != DIRECTIVE_DESCRIPTION_CHANGED
  {
    var ld := ChangesInDirectiveLocations(oldDirective.locations, newDirective.locations, newDirective.name);
    var ad := ChangesInArguments(oldDirective.arguments, newDirective.arguments, newDirective.name);
    LocationKinds(oldDirective.locations, newDirective.locations, newDirective.name);
    ArgumentKinds(oldDirective.arguments, newDirective.arguments, newDirective.name);
    assert ChangesInDirective(oldDirective, newDirective) == ld + ad;
  }

  /** Location records are removals and additions of locations. */
  lemma LocationKinds(oldLocations: seq<string>, newLocations: seq<string>, directive: string)
    ensures forall c :: c in ChangesInDirectiveLocations(oldLocations, newLocations, directive) ==>
      c.changeType == DIRECTIVE_LOCATION_REMOVED || c.changeType == DIRECTIVE_LOCATION_ADDED
  {
    var locations := LocationOf(directive);
    assert RemovedTag(locations) == DIRECTIVE_LOCATION_REMOVED && AddedTag(locations) == DIRECTIVE_LOCATION_ADDED;
    DiffKinds(locations, NothingCompared, oldLocations, newLocations);
    CommonChangesSelf(NothingCompared, Intersect(oldLocations, newLocations));
  }

  /** Argument records are removals, additions and description changes of arguments. */
  lemma ArgumentKinds(oldArgs: seq<InputValue>, newArgs: seq<InputValue>, directive: string)
    ensures forall c :: c in ChangesInArguments(oldArgs, newArgs, directive) ==>
      c.changeType in {DIRECTIVE_ARGUMENT_REMOVED, DIRECTIVE_ARGUMENT_ADDED, DIRECTIVE_ARGUMENT_DESCRIPTION_CHANGED}
  {
    var arguments := ArgumentOf(directive, newArgs);
    var oldNames, newNames := InputValueNames(oldArgs), InputValueNames(newArgs);
    assert RemovedTag(arguments) == DIRECTIVE_ARGUMENT_REMOVED && AddedTag(arguments) == DIRECTIVE_ARGUMENT_ADDED;
    DiffKinds(arguments, ArgumentsCompared(oldArgs, newArgs, directive), oldNames, newNames);
    CommonArgumentKinds(oldArgs, newArgs, directive, Intersect(oldNames, newNames));
  }

  /** The description record of `name` among the records of common directive `x`. */
  lemma CommonDirectiveDescription(oldDirectives: seq<Directive>, newDirectives: seq<Directive>, x: string, name: string)
    ensures DirectiveDescriptionChanged(name) in ChangesInCommonDirective(oldDirectives, newDirectives, x)
      <==> x == name && DirectiveDescriptionDiffers(oldDirectives, newDirectives, name)
  {
    var c := DirectiveDescriptionChanged(name);
    match FindDirective(oldDirectives, x)
    case None =>
    case Some(oldDirective) =>
      match FindDirective(newDirectives, x)
      case None =>
      case Some(newDirective) =>
        DirectiveBodyKinds(oldDirective, newDirective);
        if c == DirectiveDescriptionChanged(x) {
          InfixInjective("`", name, x, "` directive description is changed");
        }
  }

  /** The description record of `name` among the records of the common
      directives `names`. */
  lemma {:induction false} CommonDirectivesDescription(oldDirectives: seq<Directive>, newDirectives: seq<Directive>,
                                                       names: seq<string>, name: string)
    ensures DirectiveDescriptionChanged(name) in CommonDirectiveChanges(oldDirectives, newDirectives, names)
      <==> name in names && DirectiveDescriptionDiffers(oldDirectives, newDirectives, name)
    decreases |names|
  {
    if |names| > 0 {
      assert names == [names[0]] + names[1..];
      CommonDirectiveDescription(oldDirectives, newDirectives, names[0], name);
      CommonDirectivesDescription(oldDirectives, newDirectives, names[1..], name);
    }
  }

  /** A directive is reported with a changed description exactly when both
      schemas define it and the descriptions differ. */
  lemma DirectiveDescriptionChangedIff(oldDirectives: seq<Directive>, newDirectives: seq<Directive>, name: string)
    ensures DirectiveDescriptionChanged(name) in ChangesInDirectives(oldDirectives, newDirectives)
      <==> DirectiveDescriptionDiffers(oldDirectives, newDirectives, name)
  {
    assert RemovedTag(DirectiveOf) == DIRECTIVE_REMOVED && AddedTag(DirectiveOf) == DIRECTIVE_ADDED;
    var oldNames, newNames := DirectiveNames(oldDirectives), DirectiveNames(newDirectives);
    RemovalsKind(DirectiveOf, Minus(oldNames, newNames));
    AdditionsKind(DirectiveOf, Minus(newNames, oldNames));
    CommonDirectivesDescription(oldDirectives, newDirectives, Intersect(oldNames, newNames), name);
  }

  // ---------------------------------------------------------------------------
  // Each removed or added type is reported once.

  /** Over distinct names, each name's removal record occurs once. */
  lemma {:induction false} RemovalsCount(s: Subject, names: seq<string>, x: string)
    requires !s.LocationOf? && Distinct(names) && x in names
    ensures multiset(Removals(s, names))[RemovedRecord(s, x)] == 1
    decreases |names|
  {
    DistinctTail(names);
    var rest := Removals(s, names[1..]);
    assert Removals(s, names) == [RemovedRecord(s, names[0])] + rest;
    if names[0] == x {
      RemovalsContain(s, names[1..], x);
    } else {
      if RemovedRecord(s, names[0]) == RemovedRecord(s, x) {
        RemovedRecordInjective(s, names[0], x);
      }
      RemovalsCount(s, names[1..], x);
    }
  }

  /** Over distinct names, each name's addition record occurs once. */
  lemma {:induction false} AdditionsCount(s: Subject, names: seq<string>, x: string)
    requires !s.LocationOf? && Distinct(names) && x in names
    ensures multiset(Additions(s, names))[AddedRecord(s, x)] == 1
    decreases |names|
  {
    DistinctTail(names);
    var rest := Additions(s, names[1..]);
    assert Additions(s, names) == [AddedRecord(s, names[0])] + rest;
    if names[0] == x {
      AdditionsContain(s, names[1..], x);
    } else {
      if AddedRecord(s, names[0]) == AddedRecord(s, x) {
        AddedRecordInjective(s, names[0], x);
      }
      AdditionsCount(s, names[1..], x);
    }
  }

  /** An element only the first part holds occurs in `a + b + c` as often as in `a`. */
  lemma CountInFirst(a: seq<Change>, b: seq<Change>, c: seq<Change>, e: Change)
    requires e !in b && e !in c
    ensures multiset(a + b + c)[e] == multiset(a)[e]
  {
    assert multiset(a + b + c) == multiset(a) + multiset(b) + multiset(c);
  }

  /** An element only the middle part holds occurs in `a + b + c` as often as in `b`. */
  lemma CountInMiddle(a: seq<Change>, b: seq<Change>, c: seq<Change>, e: Change)
    requires e !in a && e !in c
    ensures multiset(a + b + c)[e] == multiset(b)[e]
  {
    assert multiset(a + b + c) == multiset(a) + multiset(b) + multiset(c);
  }

  /** The type part of the comparison, spelled out. */
  lemma TypeDiffParts(oldTypes: seq<GraphType>, newTypes: seq<GraphType>)
    ensures TypeDiff(oldTypes, newTypes)
      == Removals(TypeOf, Minus(TypeNames(oldTypes), TypeNames(newTypes)))
         + Additions(TypeOf, Minus(TypeNames(newTypes), TypeNames(oldTypes)))
         + CommonTypeChanges(oldTypes, newTypes, Intersect(TypeNames(oldTypes), TypeNames(newTypes)))
  {
  }

  /** Records of the common-type and directive sections are neither type
      removals nor type additions. */
  lemma LaterPhases(common: seq<Change>, directives: seq<Change>)
    requires InPhase(common, 2) && InPhase(directives, 3)
    ensures forall c :: c in common + directives ==> c.changeType != TYPE_REMOVED && c.changeType != TYPE_ADDED
  {
  }

  /** The comparison is the type removals, the type additions, the changes
      inside common types, then the directive changes. */
  lemma CompareParts(oldSchema: Schema, newSchema: Schema)
    ensures Compare(oldSchema, newSchema)
      == Removals(TypeOf, Minus(TypeNames(oldSchema.types), TypeNames(newSchema.types)))
         + Additions(TypeOf, Minus(TypeNames(newSchema.types), TypeNames(oldSchema.types)))
         + (CommonTypeChanges(oldSchema.types, newSchema.types, Intersect(TypeNames(oldSchema.types), TypeNames(newSchema.types)))
            + ChangesInDirectives(oldSchema.directives, newSchema.directives))
  {
    var oldNames, newNames := TypeNames(oldSchema.types), TypeNames(newSchema.types);
    var removals := Removals(TypeOf, Minus(oldNames, newNames));
    var additions := Additions(TypeOf, Minus(newNames, oldNames));
    var common := CommonTypeChanges(oldSchema.types, newSchema.types, Intersect(oldNames, newNames));
    var directives := ChangesInDirectives(oldSchema.directives, newSchema.directives);
    TypeDiffParts(oldSchema.types, newSchema.types);
    CompareSplit(oldSchema, newSchema);
    AppendRegroup(removals, additions, common, directives);
  }

  lemma AppendRegroup(a: seq<Change>, b: seq<Change>, c: seq<Change>, d: seq<Change>)
    ensures (a + b + c) + d == a + b + (c + d)
  {
  }

  /** When the old schema's type names are distinct (they are the keys of
      its type map), a type only the old schema defines is reported removed
      exactly once. */
  lemma TypeRemovedOnce(oldSchema: Schema, newSchema: Schema, name: string)
    requires Distinct(TypeNames(oldSchema.types))
    requires name in TypeNames(oldSchema.types) && name !in TypeNames(newSchema.types)
    ensures multiset(Compare(oldSchema, newSchema))[TypeRemoved(name)] == 1
  {
    assert RemovedRecord(TypeOf, name) == TypeRemoved(name) && AddedTag(TypeOf) == TYPE_ADDED;
    var oldNames, newNames := TypeNames(oldSchema.types), TypeNames(newSchema.types);
    var removed := Minus(oldNames, newNames);
    var common := CommonTypeChanges(oldSchema.types, newSchema.types, Intersect(oldNames, newNames));
    var directives := ChangesInDirectives(oldSchema.directives, newSchema.directives);
    DirectivesShape(oldSchema.directives, newSchema.directives);
    LaterPhases(common, directives);
    var rest := common + directives;
    CompareParts(oldSchema, newSchema);
    var added := Additions(TypeOf, Minus(newNames, oldNames));
    AdditionsKind(TypeOf, Minus(newNames, oldNames));
    MinusKeepsOrder(oldNames, newNames);
    RemovalsCount(TypeOf, removed, name);
    CountInFirst(Removals(TypeOf, removed), added, rest, TypeRemoved(name));
  }

  /** When the new schema's type names are distinct, a type only the new
      schema defines is reported added exactly once. */
  lemma TypeAddedOnce(oldSchema: Schema, newSchema: Schema, name: string)
    requires Distinct(TypeNames(newSchema.types))
    requires name in TypeNames(newSchema.types) && name !in TypeNames(oldSchema.types)
    ensures multiset(Compare(oldSchema, newSchema))[TypeAdded(name)] == 1
  {
    assert AddedRecord(TypeOf, name) == TypeAdded(name) && RemovedTag(TypeOf) == TYPE_REMOVED;
    var oldNames, newNames := TypeNames(oldSchema.types), TypeNames(newSchema.types);
    var added := Minus(newNames, oldNames);
    var common := CommonTypeChanges(oldSchema.types, newSchema.types, Intersect(oldNames, newNames));
    var directives := ChangesInDirectives(oldSchema.directives, newSchema.directives);
    DirectivesShape(oldSchema.directives, newSchema.directives);
    LaterPhases(common, directives);
    var rest := common + directives;
    CompareParts(oldSchema, newSchema);
    var removals := Removals(TypeOf, Minus(oldNames, newNames));
    RemovalsKind(TypeOf, Minus(oldNames, newNames));
    MinusKeepsOrder(newNames, oldNames);
    AdditionsCount(TypeOf, added, name);
    CountInMiddle(removals, Additions(TypeOf, added), rest, TypeAdded(name));
  }
}
