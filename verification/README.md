# graphql-ruby: schema comparator, schema printer and validation messages

A Dafny model of three pieces of graphql-ruby:

- **The schema comparator** (`GraphQL::Schema::SchemaComparator`). It compares two schemas by name.
  - Types only one side defines are reported removed or added.
  - Types both sides define with different kinds get a kind change. Types of the same kind are compared member by member: enum values, union members, input fields, interfaces and fields.
  - Then directives are compared: removed, added, and the description, locations and arguments of common ones.
  - Every record carries a fixed description template and a breaking flag.
  - The model (module `SchemaComparator`) keeps the exact output order. It keeps Ruby's `a - b` and `a & b` semantics (module `Seqs`), and keeps the lookup of the first element with a name in place of a hash.
- **The schema printer** (`GraphQL::Schema::Printer`). It prints the schema block, then the selected directives in schema order, then the selected types sorted by name, each through its kind's printer. Default values are printed by `print_value`.
  - Module `Printer` is the printer.
  - Modules `PrinterReading`, `ValueReading`, `DefinitionReading`, `TypeReading` and `SchemaReading` are readers for the printed text. They are independent reference definitions of what the text means. Round-trip lemmas show that the printed text determines what was printed, up to the descriptions the printer never writes.
- **Static-validation messages** (`GraphQL::StaticValidation::Message`). Module `ValidationMessage` covers the constructor, the `MessageHelper#message` helper, and `to_h` with its `locations`.

The data model is in `TypeSystem`. Its types are:
- a schema: roots, types, directives;
- `GraphType` with its six kinds;
- fields, input values, enum values, directives;
- type references with `to_s`.

Helper modules:
- `Wrappers`: `Option`/`Result`.
- `Text`: quoting, decimal integers, Ruby's `String#to_i`, ASCII case, lexicographic order.
- `RubyValues`: the Ruby conversions `print_value` applies to untyped default values (`inspect`, `to_s`, `to_i`, `!!`, `to_a`, `to_h`), with a Ruby hash as a sequence of key-value pairs with distinct keys.

The model follows these behaviours of the code:
- removing an interface from an object type is breaking (schema_comparator.rb:450);
- an added input field or directive argument is breaking when its type is non-null, whatever its default (schema_comparator.rb:150, :214);
- within an enum, a common value's description record comes before its deprecation record, value by value in the old order (schema_comparator.rb:181-191);
- introspection types are printed sorted by name, like all other types (printer.rb:33).

## Model

| member | source | states |
|---|---|---|
| SchemaComparator.CompareSelf | lib/graphql/schema/schema_comparator.rb:41-62 | comparing a schema with itself reports no change at all |
| SchemaComparator.TypeDiffSelf | lib/graphql/schema/schema_comparator.rb:41-58 | the type part of the comparison of identical type lists is empty |
| SchemaComparator.TypeChangesSelf | lib/graphql/schema/schema_comparator.rb:64-87 | a type compared with itself yields no records |
| SchemaComparator.ChangesInDirectivesSelf | lib/graphql/schema/schema_comparator.rb:93-114 | identical directive lists yield no directive records |
| SchemaComparator.DiffSelf | lib/graphql/schema/schema_comparator.rb:143-167 | a member-list comparison of a list with itself, with unchanged definitions, is empty |
| SchemaComparator.CompareClassified | lib/graphql/schema/schema_comparator.rb:6-32 | every reported record's breaking flag agrees with its kind: removals and kind changes are breaking, additions of input fields and directive arguments may be, everything else is not |
| SchemaComparator.CompareOrdered | lib/graphql/schema/schema_comparator.rb:58-60 | the output lists removed types, then added types, then changes inside common types, then directive changes |
| SchemaComparator.TypeDiffShape | lib/graphql/schema/schema_comparator.rb:45-58 | the type part is removals, then additions, then common-type records, and holds no directive record |
| SchemaComparator.DirectivesShape | lib/graphql/schema/schema_comparator.rb:93-114 | every directive record is well classified and belongs to the directive section |
| SchemaComparator.CompareSplit | lib/graphql/schema/schema_comparator.rb:58-60 | the schema-level part contributes nothing: the output is the type part followed by the directive part |
| SchemaComparator.TypeRemovedIff | lib/graphql/schema/schema_comparator.rb:45 | a type-removed record appears exactly when the old schema names the type and the new one does not |
| SchemaComparator.TypeAddedIff | lib/graphql/schema/schema_comparator.rb:46 | a type-added record appears exactly when only the new schema names the type |
| SchemaComparator.TypeRemovedOnce | lib/graphql/schema/schema_comparator.rb:45 | with the old type names distinct, a type only the old schema names is reported removed exactly once |
| SchemaComparator.TypeAddedOnce | lib/graphql/schema/schema_comparator.rb:46 | with the new type names distinct, a type only the new schema names is reported added exactly once |
| SchemaComparator.TypeRemovedMirrorsAdded | lib/graphql/schema/schema_comparator.rb:45-46 | a type is reported removed from A to B exactly when it is reported added from B to A |
| SchemaComparator.CommonTypeReported | lib/graphql/schema/schema_comparator.rb:48-57 | every record found between the two definitions of a type both schemas define is in the output |
| SchemaComparator.KindChangeReported | lib/graphql/schema/schema_comparator.rb:52-56 | a type defined on both sides with different kinds is reported as a breaking kind change |
| SchemaComparator.TypeChanges | lib/graphql/schema/schema_comparator.rb:52-56 | a kind change yields exactly the one kind-changed record; otherwise only member records follow, then at most one description record |
| SchemaComparator.ChangesInTypes | lib/graphql/schema/schema_comparator.rb:64-87 | there is never a kind-change record; a description record is last, and present exactly when the descriptions differ |
| SchemaComparator.TypeDescriptionChange | lib/graphql/schema/schema_comparator.rb:81-83 | there is a single description record exactly when the descriptions differ |
| SchemaComparator.ChangesInKind | lib/graphql/schema/schema_comparator.rb:67-80 | the kind's own comparison reports only well-classified member changes |
| SchemaComparator.EnumValueRemovalReported | lib/graphql/schema/schema_comparator.rb:173-178 | a value dropped from an enum both schemas define is reported in the output as a breaking removal |
| SchemaComparator.EnumValueDeprecatedIff | lib/graphql/schema/schema_comparator.rb:181-188 | an enum value is reported deprecated exactly when both sides define it and its deprecation reasons differ |
| SchemaComparator.EnumValueDescriptionChangedIff | lib/graphql/schema/schema_comparator.rb:181-187 | an enum value is reported with a changed description exactly when both sides define it and the descriptions differ |
| SchemaComparator.EnumValueRecordsName | lib/graphql/schema/schema_comparator.rb:181-191 | the records for one common value name that value and no other |
| SchemaComparator.ChangesInEnumValue | lib/graphql/schema/schema_comparator.rb:181-191 | for one common value: at most two records, only its description record and its deprecation record, the description record first and never the same record twice |
| SchemaComparator.UnionMemberIff | lib/graphql/schema/schema_comparator.rb:196-205 | a member is reported removed exactly when only the old union has it, and added exactly when only the new one has it |
| SchemaComparator.InputFieldAddedIff | lib/graphql/schema/schema_comparator.rb:211-215 | an input field is reported added exactly when only the new type has it, and breaking exactly when its type is non-null |
| SchemaComparator.ChangesInInputField | lib/graphql/schema/schema_comparator.rb:218-226 | a common input field yields at most one record, its description record, and yields it exactly when both sides define the field and the descriptions differ |
| SchemaComparator.InputFieldDescriptionChangedIff | lib/graphql/schema/schema_comparator.rb:218-226 | the comparison of two input-object types reports an input field's description change exactly when both define the field and its descriptions differ |
| SchemaComparator.InterfaceRemovedIff | lib/graphql/schema/schema_comparator.rb:234-251 | an interface is reported removed exactly when only the old object type implements it, and that record is breaking |
| SchemaComparator.InterfaceAddedIff | lib/graphql/schema/schema_comparator.rb:234-251 | an interface is reported added exactly when only the new object type implements it, and that record is not breaking |
| SchemaComparator.FieldIff | lib/graphql/schema/schema_comparator.rb:253-264 | a field is reported removed exactly when only the old type has it, and added exactly when only the new type has it |
| SchemaComparator.FieldRecordsTagged | lib/graphql/schema/schema_comparator.rb:253-264 | the field comparison reports only field removals and additions |
| SchemaComparator.DirectiveRemovedIff | lib/graphql/schema/schema_comparator.rb:97 | a directive is reported removed exactly when only the old schema defines it |
| SchemaComparator.DirectiveAddedIff | lib/graphql/schema/schema_comparator.rb:99 | a directive is reported added exactly when only the new schema defines it |
| SchemaComparator.DirectivesParts | lib/graphql/schema/schema_comparator.rb:93-114 | the directive part is the removals, then the additions, then records that are neither |
| SchemaComparator.ChangesInCommonDirective | lib/graphql/schema/schema_comparator.rb:101-110 | the records for a directive both schemas define are all descriptive, location or argument details |
| SchemaComparator.DescriptionChange | lib/graphql/schema/schema_comparator.rb:106 | at most one record, the directive's description record, present exactly when the directive descriptions differ |
| SchemaComparator.DirectiveDescriptionChangedIff | lib/graphql/schema/schema_comparator.rb:106 | the directive comparison reports a directive's description change exactly when both schemas define the directive and its descriptions differ |
| SchemaComparator.ChangesInDirective | lib/graphql/schema/schema_comparator.rb:116-130 | location changes then argument changes, all of them directive details |
| SchemaComparator.DirectiveArgumentRemovedIff | lib/graphql/schema/schema_comparator.rb:143-148 | an argument is reported removed exactly when only the old directive has it |
| SchemaComparator.DirectiveArgumentAddedIff | lib/graphql/schema/schema_comparator.rb:150-153 | an argument is reported added exactly when only the new directive has it, and breaking exactly when its type is non-null |
| SchemaComparator.ChangesInCommonArgument | lib/graphql/schema/schema_comparator.rb:155-162 | a common argument yields at most one record, its description record, and yields it exactly when both directives define the argument and the descriptions differ |
| SchemaComparator.DirectiveArgumentDescriptionChangedIff | lib/graphql/schema/schema_comparator.rb:155-162 | the argument comparison of a directive reports an argument's description change exactly when both sides define the argument and its descriptions differ |
| SchemaComparator.DirectiveLocationReported | lib/graphql/schema/schema_comparator.rb:132-141 | a location only the old directive lists is reported removed, and one only the new directive lists is reported added |
| SchemaComparator.DirectiveLocationNameIsCamelCase | lib/graphql/schema/schema_comparator.rb:470-472 | `directive_location` equals a character-by-character camel-casing: underscores vanish, a word's first letter is upper case, the rest lower case |
| SchemaComparator.DiffRemoved | lib/graphql/schema/schema_comparator.rb:143-167 | in any member-list comparison an element gets a removal record exactly when only the old list names it (for locations: at least then) |
| SchemaComparator.DiffAdded | lib/graphql/schema/schema_comparator.rb:143-167 | an element gets an addition record exactly when only the new list names it (for locations: at least then) |
| SchemaComparator.DiffCommon | lib/graphql/schema/schema_comparator.rb:155-164 | a record that is neither a removal nor an addition is reported exactly when it belongs to an element both lists name |
| SchemaComparator.DiffSorted | lib/graphql/schema/schema_comparator.rb:166 | removals come before additions, and additions before the changes to common elements |
| SchemaComparator.DiffClassified | lib/graphql/schema/schema_comparator.rb:143-167 | every record of a member-list comparison is well classified and of the subject's kinds |
| SchemaComparator.RemovedRecordTag | lib/graphql/schema/schema_comparator.rb:270-464 | each removal record has its removal kind and is breaking |
| SchemaComparator.AddedRecordTag | lib/graphql/schema/schema_comparator.rb:278-468 | each addition record has its addition kind and is breaking only for required input fields and arguments |
| SchemaComparator.SubjectBreaking | lib/graphql/schema/schema_comparator.rb:6-32 | removal kinds are always breaking; addition kinds are conditionally breaking only for input fields and directive arguments |
| SchemaComparator.RemovedRecordInjective | lib/graphql/schema/schema_comparator.rb:270-464 | apart from locations, the removal description determines the removed name |
| SchemaComparator.AddedRecordInjective | lib/graphql/schema/schema_comparator.rb:278-468 | apart from locations, the addition description determines the added name |
| SchemaComparator.CommonChanges | lib/graphql/schema/schema_comparator.rb:155-164 | a record is among the common-element changes exactly when it belongs to one of the named elements |
| SchemaComparator.CommonTypeChanges | lib/graphql/schema/schema_comparator.rb:48-57 | a record is among the common-type changes exactly when it belongs to one of the named types, and all are in the common-type section |
| Printer.PrintFilteredSchema | lib/graphql/schema/printer.rb:29-38 | printing succeeds exactly when every directive of the schema the directive filter selects prints and every type the type filter selects prints; the text is, joined by blank lines, the schema block, then each selected directive's text in schema order, then each selected type's text in name order |
| Printer.PrintedDirectives | lib/graphql/schema/printer.rb:30 | the printed directives are exactly the schema's directives the filter selects, in schema order |
| Printer.PrintedTypes | lib/graphql/schema/printer.rb:33 | the printed types are exactly the selected types, each as often as in the schema, sorted by name |
| Printer.PrintedTypesDetermined | lib/graphql/schema/printer.rb:33 | with distinct type names, any name-sorted arrangement of the selected types is the printed order |
| Printer.SortByName | lib/graphql/schema/printer.rb:33 | `sort_by(&:name)` yields a name-sorted permutation of its input |
| Printer.SortedUnique | lib/graphql/schema/printer.rb:33 | when names identify types, two name-sorted permutations of the same types are equal |
| Printer.PrintType | lib/graphql/schema/printer.rb:63-65 | a printed type starts with its kind's keyword and its name; scalars, unions and enums always print |
| Printer.PrintDirective | lib/graphql/schema/printer.rb:193-197 | a directive prints exactly when its arguments print, and starts with `directive @name` |
| Printer.PrintArgs | lib/graphql/schema/printer.rb:85-100 | arguments print exactly when each prints; no arguments print as nothing, otherwise the text opens with a parenthesis |
| Printer.PrintInputValue | lib/graphql/schema/printer.rb:102-110 | an input value prints exactly when it has no default or its default prints, and starts with `name: Type` |
| Printer.PrintValue | lib/graphql/schema/printer.rb:112-137 | enum defaults print as the value's `to_s`, and defaults of unknown, object, interface or union types fail |
| Printer.ScalarValueText | lib/graphql/schema/printer.rb:114-121 | a Float default prints as the float conversion's `inspect`; an Int default prints exactly when `to_i` succeeds, an integer as its decimal text and a string through `String#to_i`; a Boolean default prints `false` exactly for nil and false; any other scalar prints as the quoted `to_s` |
| Printer.ListValueText | lib/graphql/schema/printer.rb:132-133 | a list default prints in brackets exactly when `to_a` succeeds and every item prints; nil prints `[]`; a value without `to_a` raises `NoMethodError` |
| Printer.ObjectValueText | lib/graphql/schema/printer.rb:124-129 | an input-object default prints in `{ … }` exactly when `to_h` succeeds and every entry prints; nil prints `{  }`; a value without `to_h`, or an array that is not all pairs, raises |
| Printer.PrintDeprecated | lib/graphql/schema/printer.rb:73-81 | nothing is printed exactly when there is no deprecation reason |
| RubyValues.BoolText | lib/graphql/schema/printer.rb:118-119 | `(!!value).inspect` is `false` exactly for nil and false, otherwise `true` |
| RubyValues.IntText | lib/graphql/schema/printer.rb:117 | `to_i` succeeds exactly for integers, nil, strings and floats the truncation accepts; other values raise `NoMethodError`; the text is always a decimal integer |
| RubyValues.ToA | lib/graphql/schema/printer.rb:133 | `to_a` exists exactly for arrays, hashes and nil, and otherwise raises `NoMethodError`; its items are smaller than the value |
| RubyValues.HashToA | lib/graphql/schema/printer.rb:133 | `Hash#to_a` is one `[key, value]` array per entry, in order |
| RubyValues.ToH | lib/graphql/schema/printer.rb:125 | `to_h` succeeds exactly for hashes, nil and arrays of pairs; other non-arrays raise `NoMethodError` |
| RubyValues.Pairs | lib/graphql/schema/printer.rb:125 | an array converts to pairs exactly when every item is a two-element array; otherwise the first item that is not raises `TypeError` (not an array) or `ArgumentError` (wrong length) |
| RubyValues.HashStore | lib/graphql/schema/printer.rb:125 | storing into a hash keeps an existing key in its place and appends a new key; the key then holds the new value and every other key keeps its old one |
| RubyValues.ArrayToHContents | lib/graphql/schema/printer.rb:125 | the hash `Array#to_h` builds has distinct keys, exactly the keys of the pairs, and under each key the value of the last pair with that key |
| RubyValues.ToHOfToA | lib/graphql/schema/printer.rb:125-133 | `to_h` of a hash's `to_a` is the hash again |
| RubyValues.StoreDistinct | lib/graphql/schema/printer.rb:125 | pairs with distinct keys build a hash that lists them in order |
| Printer.PrintFields | lib/graphql/schema/printer.rb:183-187 | fields print exactly when every field prints |
| Printer.Implementations | lib/graphql/schema/printer.rb:211-220 | the ` implements` clause is empty exactly when there are no interfaces |
| ValueReading.ValueRoundTrip | lib/graphql/schema/printer.rb:112-137 | a canonical default value prints, and reading its text back gives the value and the rest untouched |
| ValueReading.ListRoundTrip | lib/graphql/schema/printer.rb:132-133 | a list default prints as `[a, b]` and reads back item by item |
| ValueReading.ObjectRoundTrip | lib/graphql/schema/printer.rb:124-129 | an input-object default prints as `{ k: v }` and reads back entry by entry |
| ValueReading.EmptyObject | lib/graphql/schema/printer.rb:124-129 | an empty input-object default prints as `{  }` and reads back |
| ValueReading.IntRoundTrip | lib/graphql/schema/printer.rb:116-117 | the decimal text of an integer, followed by a separator, reads back as that Int default and leaves the rest |
| ValueReading.StringRoundTrip | lib/graphql/schema/printer.rb:120-121 | the quoted, escaped text of a string reads back as that string default of a String, ID or custom scalar type |
| DefinitionReading.InputValueRoundTrip | lib/graphql/schema/printer.rb:102-110 | a printable argument prints, and its text reads back as the argument without its description |
| DefinitionReading.ArgsRoundTrip | lib/graphql/schema/printer.rb:85-100 | a printable argument list prints in either layout and reads back as the arguments |
| DefinitionReading.ArgsLayout | lib/graphql/schema/printer.rb:90-99 | arguments are printed one per line exactly when some argument has a description |
| TypeReading.FieldRoundTrip | lib/graphql/schema/printer.rb:183-187 | a printable field prints, and its line reads back as the field without its description |
| TypeReading.TypeRoundTrip | lib/graphql/schema/printer.rb:202-275 | a printable type of any kind prints, and reads back as the type without descriptions |
| TypeReading.EnumValueRoundTrip | lib/graphql/schema/printer.rb:243-251 | an enum value line reads back as the value and its deprecation |
| TypeReading.UnionRoundTrip | lib/graphql/schema/printer.rb:234-237 | a union prints as `union N = A \| B` and reads back with its members in order |
| TypeReading.ImplementationsRoundTrip | lib/graphql/schema/printer.rb:211-220 | the ` implements` clause reads back as the interfaces in order |
| TypeReading.DirectiveRoundTrip | lib/graphql/schema/printer.rb:193-197 | a printable directive prints, and reads back with its arguments and locations |
| PrinterReading.DeprecationRoundTrip | lib/graphql/schema/printer.rb:73-81 | the deprecation suffix determines the reason: none, the empty default reason, or the quoted text |
| PrinterReading.SchemaDefinitionRoundTrip | lib/graphql/schema/printer.rb:40-46 | the schema block reads back as the three root names, absent roots included |
| PrinterReading.KindRoundTrip | lib/graphql/schema/printer.rb:63-65 | the text of a printed type determines its kind |
| SchemaReading.SchemaRoundTrip | lib/graphql/schema/printer.rb:29-38 | a printable filtered schema prints, and reads back as its roots, selected directives and sorted selected types |
| SchemaReading.PrintSchemaRoundTrip | lib/graphql/schema/printer.rb:14-16 | `print_schema` text reads back; its directives are those other than skip, include and deprecated, and its types are those not named `__…` and not built-in scalars |
| SchemaReading.IntrospectionSchemaRoundTrip | lib/graphql/schema/printer.rb:19-25 | introspection printing reads back; its directives are exactly skip, include and deprecated, and its types exactly those named `__…` |
| TypeSystem.TypeRefRoundTrip | lib/graphql/schema/printer.rb:109 | a type reference's text (`[T!]!`) parses back to the reference |
| TypeSystem.ReadTypeRefString | lib/graphql/schema/printer.rb:185 | a type reference's text followed by something else reads back as the reference |
| Text.ReadQuotedQuote | lib/graphql/schema/printer.rb:121 | a quoted, escaped string reads back as the string |
| Text.ReadIntegerDecimal | lib/graphql/schema/printer.rb:117 | an integer's decimal text reads back as the integer |
| Text.StringToIDecimal | lib/graphql/schema/printer.rb:117 | `String#to_i` of an integer's decimal text is that integer |
| Text.StringToIBlank | lib/graphql/schema/printer.rb:117 | `String#to_i` skips leading whitespace |
| Text.StringToIUnderscore | lib/graphql/schema/printer.rb:117 | `String#to_i` ignores a single underscore between digits |
| Text.StringToINegated | lib/graphql/schema/printer.rb:117 | a leading minus sign negates what `String#to_i` reads |
| Seqs.Minus | lib/graphql/schema/schema_comparator.rb:45 | `a - b` holds exactly the elements of `a` not in `b` |
| Seqs.MinusKeepsOrder | lib/graphql/schema/schema_comparator.rb:45 | `a - b` keeps `a`'s order, and has no repetitions when `a` has none |
| Seqs.Intersect | lib/graphql/schema/schema_comparator.rb:48 | `a & b` holds exactly the common elements, without repetitions |
| Seqs.IntersectKeepsOrder | lib/graphql/schema/schema_comparator.rb:48 | `a & b` keeps `a`'s order |
| ValidationMessage.NewMessage | lib/graphql/static_validation/message.rb:18-23 | the message keeps its text and code; a missing path or node list is empty |
| ValidationMessage.MessageFor | lib/graphql/static_validation/message.rb:9-13 | the helper fails exactly when neither a path nor a context is given; otherwise the path is the given one or the context's, and a single node becomes a one-element list |
| ValidationMessage.ArrayOf | lib/graphql/static_validation/message.rb:11 | `Array(nodes)`: nil is empty, one node is a singleton, a list is itself |
| ValidationMessage.ToH | lib/graphql/static_validation/message.rb:26-32 | the hash has exactly the keys message, locations and fields, holding the text, the node locations and the path |
| ValidationMessage.Locations | lib/graphql/static_validation/message.rb:36-38 | one `{line, column}` hash per node, in node order |
| ValidationMessage.ToHRoundTrip | lib/graphql/static_validation/message.rb:26-38 | the hash form determines the message except its code |
| ValidationMessage.ReadLocations | lib/graphql/static_validation/message.rb:36-38 | the locations list determines the nodes in order |

## Left out

- Float conversions: `value.to_f.inspect` and `Float#to_i` are the abstract parameter `FloatOps`, whose two functions may fail (Ruby raises `FloatDomainError` when truncating an infinity or NaN). A float default is carried as its `inspect` text. Round trips exclude Float defaults.
- Printer.PrintDeprecated, Printer.PrintValue: strings are quoted with `"`, `\` and newline escaped. Ruby's `String#inspect` also escapes tab, carriage return, escape and the other control characters, and `#` before `{`, `$` or `@`; for such strings the model's text differs from Ruby's.
- `inspect` of arrays and hashes (reached through `to_s` of a String-typed default) uses the Ruby 2 hash syntax `{:k=>v}` with symbol keys.
- `to_a`, `to_h` and `to_i` are modelled for the values a default can hold: nil, integers, floats, strings, symbols, booleans, arrays and hashes. Conversions that a Ruby object defines for itself (`to_ary`, custom `to_h`) are not modelled.
- `print_value` finds the built-in Float, Int and Boolean types by name in the schema; Ruby compares the type object itself. In a schema, a name denotes one type, so the two agree.
- `print_introspection_schema` builds its own schema, with a `Query` root. Here the schema is a parameter, because schema construction is not part of this model.
- Descriptions are never printed (`print_description` returns the empty string). The readers therefore recover definitions without descriptions: the `Strip…` functions.
- The round trips require names to be GraphQL names and default values to match their types (the `Printable…` and `Canonical` predicates). They also give the schema's types to the reader, which needs them to read enum and input-object defaults.
- `all_fields` (inherited interface fields) is taken to be the type's field list.
- Root-operation changes (`find_changes_in_schema`) and argument default or type changes (`find_changes_in_argument`) are empty in the source and are empty here.
- SchemaComparator.DirectiveLocationReported: states only that a location present on one side is reported, not the converse. Two different location names can camel-case to the same text (for example `A_B` and `A__B`), so a location record does not determine its location.
- SchemaComparator.DiffRemoved: for locations only one direction, for the same reason.
- SchemaComparator.DiffAdded: for locations only one direction, for the same reason.
