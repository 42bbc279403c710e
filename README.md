# Frontmatter engine of the documentation repository, in Dafny

The documentation repository keeps its Markdown notes under a docs
directory. Each note opens with a YAML frontmatter block. Three command-line
flows keep that block in shape:

- **update** fills in missing fields from the file's path, its name and a
  technology → specialty mapping, and reports the autofill fields still
  missing;
- **validate** reports the schema fields a note lacks and the values of the
  wrong type;
- **generate** gives a note a `uid` and a `created_at` date and stamps
  `updated_at`.

All three share a schema (`FIELD_DEFS`) and a few pure helpers, and write
keys in schema order. A separate script, `todo.js`, turns numbered lines
such as `1. What is a closure?` into wiki links (`1. [[What is a closure]]`).

This project models that core in Dafny and proves what it promises. Each
module follows one source file:

| module | file | models |
|---|---|---|
| `Constants` | constants.dfy | the schema, `DEFAULTS` and `ARRAY_STRING_FIELDS` |
| `FieldSelection` | pick_fields.dfy | `pickFields` |
| `PrefixStripping` | strip_order_prefix.dfy | `stripOrderPrefix` |
| `OrderParsing` | parse_order.dfy | `parseOrder` |
| `KeyOrdering` | order_frontmatter.dfy | `orderFrontmatter` |
| `IssueFormatting` | format_issues.dfy | `formatIssues` |
| `Config` | config.dfy | `deriveFromPath` and `loadCategoryMapping` |
| `Update` | update.dfy | `buildMissingFields` and `applyDefaults` |
| `Validate` | validate.dfy | `validateTypes`, `validateMissing` and the per-file loop of `runValidate` |
| `StagedFiles` | staged_files.dfy | the `getStagedFiles` pipeline that validate and generate share |
| `MetaGeneration` | generate_meta.dfy | `updateFile` and `getCreatedAt` |
| `TodoLinks` | todo.dfy | the line rewriter of `todo.js` |

Two support modules hold shared definitions:

- `Values` (values.dfy) models the JavaScript values a YAML parser produces.
  A plain object is a `Record`: a list of key/value pairs with unique keys in
  insertion order. For a record without integer-like keys ("7", "2024") this
  is the order `Object.keys` and the serializer see; JavaScript lists
  integer-like keys first, which the model does not (see "Left out"). The
  `in` operator also sees the names a plain object inherits from
  `Object.prototype` (`constructor`, `toString`, ...); `Values.In` models it.
- `Strings` (strings.dfy) holds the ECMAScript whitespace set (shared by
  `\s` and `trim`), the line terminators, ASCII digits, `trim`,
  `split`/`join` and decimal values.

Where a source function mutates local state in a loop, the model is a
`method` with the same loop. Its `ensures` ties the result to a
specification function:

- `orderFrontmatter` is `KeyOrdering.OrderFrontmatter`;
- `applyDefaults` is `Update.ApplyDefaults`;
- `validateTypes` is `Validate.ValidateTypes`, and `validateMissing` is `Validate.ValidateMissing`;
- `loadCategoryMapping` is `Config.LoadCategoryMapping`;
- `updateFile` is `MetaGeneration.UpdateFile`;
- the `runValidate` loop is `Validate.ValidateDocuments`.

Lemmas then prove what those specification functions promise. Pure
expressions become functions and lemmas.

Two places where the model follows the code, against other readings:

- **The technology of a document.** At config/index.ts:29-31, a comment
  gives `001 Frontend\003 JSCore\...` as a layout whose technology is the
  second segment. The test at lines 36-40 makes any first segment that starts
  with a digit the technology when there are two segments or more. So the
  code yields `Frontend` for that path. `Config.DeriveFromPath` does what the
  code does, and `Config.NumberedLayoutTechnology` and `Config.NumberedPath`
  state it.
- **`stripOrderPrefix` is not idempotent.** It removes one
  digit-and-whitespace prefix and then trims, so `"1 2 x"` becomes `"2 x"`
  and then `"x"`. `PrefixStripping.NotIdempotent` proves this for every
  trimmed inner name that has a prefix of its own.
  `PrefixStripping.StripIdempotentWhenNoNestedPrefix` gives the condition
  under which it is idempotent.

## Model

All source paths are relative to the repository root.

| member | source | states |
|---|---|---|
| Constants.FieldKeys | scripts/frontmatter/constants/index.ts:2-18 | the schema keys, in declaration order, each the property name of its field |
| Constants.NameRoundTrip | scripts/frontmatter/constants/index.ts:2-18 | field names and schema fields correspond one to one in both directions |
| Constants.NameInjective | scripts/frontmatter/constants/index.ts:2-18 | two fields with the same property name are the same field |
| Constants.FieldOrderComplete | scripts/frontmatter/constants/index.ts:2-18 | the canonical order lists all fifteen fields, each once |
| Constants.FieldKeysNoDup | scripts/frontmatter/constants/index.ts:2-18 | the schema key list has no duplicates |
| Constants.FieldKeysOwn | scripts/frontmatter/constants/index.ts:2-18 | no schema key is a name a plain object inherits from `Object.prototype`, so `key in data` tests schema keys for own keys |
| Constants.SchemaKeyMembership | scripts/frontmatter/constants/index.ts:2-18 | a string is a schema key exactly when it names a field |
| Constants.RequiredFieldSet | scripts/frontmatter/constants/index.ts:3-17 | the required fields are exactly uid, title, technology, specialty, tools, order, access, created_at and updated_at |
| Constants.AutofillFieldSet | scripts/frontmatter/constants/index.ts:3-17 | a field is autofilled exactly when it is required and not the title, or it is the chapter |
| Constants.FieldTypes | scripts/frontmatter/constants/index.ts:3-17 | order is the only number field and draft the only boolean field; tags, info and tools are the array fields; all others are strings |
| Constants.DefaultValues | scripts/frontmatter/constants/index.ts:20-24 | the defaults are an empty tools list, an empty chapter and access "free", in that key order |
| Constants.ArrayStringFieldsAreArrays | scripts/frontmatter/constants/index.ts:26 | the string-item arrays are exactly tags and info, both array fields, listed once each |
| FieldSelection.PickFrom | scripts/frontmatter/helpers/pickFields/pickFields.ts:11-12 | the filter keeps exactly the listed fields whose definition satisfies the predicate, in list order |
| FieldSelection.PickFields | scripts/frontmatter/helpers/pickFields/pickFields.ts:6-12 | the result holds exactly the fields whose definition satisfies the predicate, in schema order, without duplicates |
| FieldSelection.PickAll | scripts/frontmatter/helpers/pickFields/pickFields.ts:11-12 | an always-true predicate selects the whole schema in order |
| FieldSelection.PickNone | scripts/frontmatter/helpers/pickFields/pickFields.ts:11-12 | an always-false predicate selects nothing |
| PrefixStripping.StripOrderPrefix | scripts/frontmatter/helpers/stripOrderPrefix/stripOrderPrefix.ts:4-6 | the result is a trimmed substring of the name, never longer than it |
| PrefixStripping.PrefixLengthLongest | scripts/frontmatter/helpers/stripOrderPrefix/stripOrderPrefix.ts:5 | the removed prefix is a digit run followed by whitespace, and it is the longest such prefix (the regex is greedy) |
| PrefixStripping.OrderPrefixIffMatch | scripts/frontmatter/helpers/stripOrderPrefix/stripOrderPrefix.ts:5 | the regex matches exactly when some digit-run-then-whitespace prefix exists |
| PrefixStripping.StripDigitsWs | scripts/frontmatter/helpers/stripOrderPrefix/stripOrderPrefix.ts:4-6 | digits, then whitespace, then text that does not start with whitespace give the trimmed text |
| PrefixStripping.StripUnprefixed | scripts/frontmatter/helpers/stripOrderPrefix/stripOrderPrefix.ts:4-6 | a name without an order prefix is only trimmed |
| PrefixStripping.NoLeadingDigitNoPrefix | scripts/frontmatter/helpers/stripOrderPrefix/stripOrderPrefix.ts:4-6 | a name that does not start with a digit has no prefix and is only trimmed |
| PrefixStripping.DigitsWithoutWsKept | scripts/frontmatter/helpers/stripOrderPrefix/stripOrderPrefix.ts:5 | digits followed by a character that is neither a digit nor whitespace are not a prefix |
| PrefixStripping.StripShortens | scripts/frontmatter/helpers/stripOrderPrefix/stripOrderPrefix.ts:4-6 | a name with a prefix always gets strictly shorter |
| PrefixStripping.StripOuterPrefix | scripts/frontmatter/helpers/stripOrderPrefix/stripOrderPrefix.ts:4-6 | only the outer prefix goes: an inner prefixed name is returned as it is |
| PrefixStripping.NotIdempotent | scripts/frontmatter/helpers/stripOrderPrefix/stripOrderPrefix.ts:4-6 | applying the strip twice differs from once whenever the remainder has a prefix of its own |
| PrefixStripping.StripIdempotentWhenNoNestedPrefix | scripts/frontmatter/helpers/stripOrderPrefix/stripOrderPrefix.ts:4-6 | when the result has no prefix, stripping again changes nothing |
| PrefixStripping.ExampleFolder | scripts/frontmatter/helpers/stripOrderPrefix/stripOrderPrefix.ts:2 | "001 Example" becomes "Example" |
| PrefixStripping.ExampleDashKept | scripts/frontmatter/helpers/stripOrderPrefix/stripOrderPrefix.ts:5 | "001-x" is kept: a dash is not whitespace |
| OrderParsing.ParseOrder | scripts/frontmatter/helpers/parseOrder/parseOrder.ts:5-11 | the definition; what it means is stated by ParseDigitsSeparator, ParseOrderShape, ParseNoDigit, ParseDigitsOnly, ParseDigitsOther and ParseDecimalRoundTrip |
| OrderParsing.ParseDigitsSeparator | scripts/frontmatter/helpers/parseOrder/parseOrder.ts:5-11 | a digit run followed by whitespace, '.', '_' or '-' yields the run's decimal value, whatever follows |
| OrderParsing.ParseOrderShape | scripts/frontmatter/helpers/parseOrder/parseOrder.ts:5-11 | a nonzero order comes only from a leading digit run and a separator, and it is that run's value |
| OrderParsing.ParseNoDigit | scripts/frontmatter/helpers/parseOrder/parseOrder.ts:8 | a name that does not start with a digit has order 0 |
| OrderParsing.ParseDigitsOnly | scripts/frontmatter/helpers/parseOrder/parseOrder.ts:6-8 | a name of digits alone has order 0, since no separator follows |
| OrderParsing.ParseDigitsOther | scripts/frontmatter/helpers/parseOrder/parseOrder.ts:6-8 | digits followed by any other non-digit character give order 0 |
| OrderParsing.ParseDecimalRoundTrip | scripts/frontmatter/helpers/parseOrder/parseOrder.ts:10 | the decimal spelling of any n followed by a separator parses back to n |
| OrderParsing.ParseLeadingZero | scripts/frontmatter/helpers/parseOrder/parseOrder.ts:10 | a leading zero does not change the order |
| OrderParsing.ExampleFile | scripts/frontmatter/helpers/parseOrder/parseOrder.ts:3 | "001 File.md" has order 1 |
| OrderParsing.ExampleLeadingZeros | scripts/frontmatter/helpers/parseOrder/parseOrder.ts:6-10 | "007-x" has order 7 |
| OrderParsing.ExampleNoSeparator | scripts/frontmatter/helpers/parseOrder/parseOrder.ts:6-8 | "12" and "12a.md" have order 0 |
| KeyOrdering.EntryFor | scripts/frontmatter/helpers/orderFrontmatter/orderFrontmatter.ts:11 | one schema key contributes its entry exactly when the record has it, with the record's value |
| KeyOrdering.SchemaEntries | scripts/frontmatter/helpers/orderFrontmatter/orderFrontmatter.ts:10-12 | the first loop copies exactly the schema keys the record has, with their values, in schema order and without repeats |
| KeyOrdering.ExtraEntries | scripts/frontmatter/helpers/orderFrontmatter/orderFrontmatter.ts:14-16 | the second loop copies exactly the entries whose key is neither a schema key nor an inherited name (which `!(key in ordered)` rejects), in the record's order |
| KeyOrdering.OrderBy | scripts/frontmatter/helpers/orderFrontmatter/orderFrontmatter.ts:6-19 | the definition, for a key order of own names; what it means is stated by OrderBySameEntries, SchemaKeysFirst, OrderedOrder and OrderByIdempotent |
| KeyOrdering.Ordered | scripts/frontmatter/helpers/orderFrontmatter/orderFrontmatter.ts:6-19 | the definition with `Object.keys(FIELD_DEFS)`; stated by OrderedSameEntries, SchemaKeysFirst, OrderedOrder and OrderedIdempotent |
| KeyOrdering.OrderBySchema | scripts/frontmatter/helpers/orderFrontmatter/orderFrontmatter.ts:6-19 | the two loops, for any duplicate-free key order of own names, build the schema entries followed by the other entries, skipping inherited names |
| KeyOrdering.OrderFrontmatter | scripts/frontmatter/helpers/orderFrontmatter/orderFrontmatter.ts:6-19 | the same, run with `Object.keys(FIELD_DEFS)` |
| KeyOrdering.OrderBySameEntries | scripts/frontmatter/helpers/orderFrontmatter/orderFrontmatter.ts:6-19 | reordering keeps every key's value and adds no key; it drops exactly the keys named like `Object.prototype` properties |
| KeyOrdering.OrderedSameEntries | scripts/frontmatter/helpers/orderFrontmatter/orderFrontmatter.ts:6-19 | the same, for the schema order |
| KeyOrdering.SchemaKeysFirst | scripts/frontmatter/helpers/orderFrontmatter/orderFrontmatter.ts:8-16 | every schema key comes before every other key, in insertion order |
| KeyOrdering.OrderedOrder | scripts/frontmatter/helpers/orderFrontmatter/orderFrontmatter.ts:8-16 | schema keys come in schema order, and the other entries, less inherited names, in their original order |
| KeyOrdering.OrderByIdempotent | scripts/frontmatter/helpers/orderFrontmatter/orderFrontmatter.ts:6-19 | reordering an ordered record changes nothing |
| KeyOrdering.OrderedIdempotent | scripts/frontmatter/helpers/orderFrontmatter/orderFrontmatter.ts:6-19 | the same, for the schema order |
| IssueFormatting.ItemsOf | scripts/frontmatter/helpers/formatIssues/formatIssues.ts:10 | the items are `issues` when present, else `missing` when present, else none |
| IssueFormatting.ItemLines | scripts/frontmatter/helpers/formatIssues/formatIssues.ts:11 | one line per item, in order, each the bullet prefix followed by the item |
| IssueFormatting.Entries | scripts/frontmatter/helpers/formatIssues/formatIssues.ts:8-13 | one entry per file issue, in input order |
| IssueFormatting.FormatEntry | scripts/frontmatter/helpers/formatIssues/formatIssues.ts:9-12 | the definition of one entry; stated by EntryLines and EntryWithoutItems |
| IssueFormatting.FormatIssues | scripts/frontmatter/helpers/formatIssues/formatIssues.ts:7-14 | the definition of the report; stated by FormatNoIssues, FormatOneIssue and FormatAppend |
| IssueFormatting.FormatNoIssues | scripts/frontmatter/helpers/formatIssues/formatIssues.ts:7-14 | no issues format to the empty string |
| IssueFormatting.FormatOneIssue | scripts/frontmatter/helpers/formatIssues/formatIssues.ts:7-14 | one issue formats to its entry alone, with no separator |
| IssueFormatting.FormatAppend | scripts/frontmatter/helpers/formatIssues/formatIssues.ts:14 | the report of two lists is the two reports joined by one newline |
| IssueFormatting.EntryLines | scripts/frontmatter/helpers/formatIssues/formatIssues.ts:11-12 | an entry reads as a blank line, the file indented by two spaces, then one bullet line per item |
| IssueFormatting.EntryWithoutItems | scripts/frontmatter/helpers/formatIssues/formatIssues.ts:10-12 | an issue without items still prints its file, followed by an empty line |
| Config.Segments | scripts/frontmatter/config/index.ts:25 | the path's segments are nonempty and free of the separator |
| Config.SegmentsOfJoin | scripts/frontmatter/config/index.ts:25 | splitting nonempty parts joined with the separator gives the parts back |
| Config.DeriveFromPath | scripts/frontmatter/config/index.ts:24-56 | the derived category and chapter are trimmed; NumberedPath, UnnumberedPath, NumberedFolderFile, SingleSegment and EmptyPath give the values for paths built from their parts |
| Config.NumberedPath | scripts/frontmatter/config/index.ts:24-56 | for `<n> <cat>/<any>/<n> <chap>/.../<n>.<rest>` the category is `cat`, the technology `cat` less `.md`, the chapter `chap` and the order the file's number |
| Config.UnnumberedPath | scripts/frontmatter/config/index.ts:24-56 | for `<cat>/<n> <tech>/<n> <chap>/.../<n>.<rest>` with `cat` not starting with a digit, the category is `cat`, the technology `tech` less `.md`, the chapter `chap` and the order the file's number |
| Config.NumberedFolderFile | scripts/frontmatter/config/index.ts:24-56 | for `<n> <cat>/<n>.<rest>` the category and the technology come from `cat`, the chapter is empty and the order is the file's number |
| Config.NumberedLayoutTechnology | scripts/frontmatter/config/index.ts:36-37 | under a numbered first segment the technology is the category, without `.md` |
| Config.SingleSegment | scripts/frontmatter/config/index.ts:24-56 | a one-segment path gives category and technology from that segment, no chapter, and its order |
| Config.EmptyPath | scripts/frontmatter/config/index.ts:24-56 | a path with no segments derives empty strings and order 0 |
| Config.MappingSource | scripts/frontmatter/config/index.ts:74-79 | an empty document is read as an empty table |
| Config.LegacyTableUsed | scripts/frontmatter/config/index.ts:77-79 | a `specialtyByCategory` table, when present and not null, is the one read |
| Config.RootTableUsed | scripts/frontmatter/config/index.ts:77-79 | otherwise the document itself is the table |
| Config.EmptyDocumentNoEntries | scripts/frontmatter/config/index.ts:74-83 | an empty document gives no entries |
| Config.Entries | scripts/frontmatter/config/index.ts:83 | `Object.entries`: an object's own pairs; an array's or a string's elements under their decimal indices; nothing for other values |
| Config.IndexEntriesUnique | scripts/frontmatter/config/index.ts:83 | entries under decimal indices never repeat a key |
| Config.SpecialtyOf | scripts/frontmatter/config/index.ts:84-96 | a value names a specialty exactly when it is a string, or an object whose `specialty` is a string; that string is the specialty |
| Config.LoadCategoryMapping | scripts/frontmatter/config/index.ts:72-100 | every key of the mapping comes from an entry that names its specialty, every such entry's key is in the mapping, and with unique keys each maps to its own specialty |
| Config.SpecialtyFor | scripts/frontmatter/lib/update.ts:119 | the lookup finds a specialty exactly when the technology is a key of the mapping |
| Update.RequiredFields | scripts/frontmatter/lib/update.ts:24 | the autofill fields are the required fields other than title, plus chapter, in schema order and without duplicates |
| Update.MissingOf | scripts/frontmatter/lib/update.ts:26-33 | the filter keeps exactly the listed fields the record lacks, in list order |
| Update.BuildMissingFields | scripts/frontmatter/lib/update.ts:24-40 | a field is named exactly when it is an autofill field the record lacks; the names come in schema order and once each; the no-mapping note appears exactly when specialty is absent and the mapping gives nothing, and then it comes last |
| Update.MissingItems | scripts/frontmatter/lib/update.ts:32-40 | every item is the no-mapping note or the name of a missing autofill field |
| Update.NothingMissing | scripts/frontmatter/lib/update.ts:32-40 | a record with every autofill field yields an empty list |
| Update.TitleFromFilename | scripts/frontmatter/lib/update.ts:70-73 | the title is the file name without `.md` and without order prefix, trimmed |
| Update.Filled | scripts/frontmatter/lib/update.ts:85-93 | the definition of the filled record; stated by FilledKeepsData, FilledCandidate, FilledOnlyCandidates and FilledIdempotent |
| Update.Defaulted | scripts/frontmatter/lib/update.ts:65-96 | the definition with the seven defaults; stated by DefaultedAt, the Defaulted* lemmas and ApplyDefaultsIdempotent |
| Update.Additions | scripts/frontmatter/lib/update.ts:85-93 | the loop adds exactly the candidates whose field is absent and whose value is not blank, with no key twice |
| Update.FillDefaults | scripts/frontmatter/lib/update.ts:85-95 | the loop leaves the record extended with those additions and reports a change exactly when it added any |
| Update.DefaultCandidates | scripts/frontmatter/lib/update.ts:75-83 | the seven default thunks, in order: title, order, technology, specialty, tools, chapter, access |
| Update.ApplyDefaults | scripts/frontmatter/lib/update.ts:65-96 | the result is the record with its defaults filled in, and `changed` holds exactly when the record changed |
| Update.FilledKeepsData | scripts/frontmatter/lib/update.ts:66-91 | every existing entry stays, in place, with its value |
| Update.FilledCandidate | scripts/frontmatter/lib/update.ts:86-91 | a missing field gets its candidate's value, unless that value is blank |
| Update.FilledOnlyCandidates | scripts/frontmatter/lib/update.ts:85-93 | a missing field that is not a candidate stays missing |
| Update.FilledIdempotent | scripts/frontmatter/lib/update.ts:85-93 | filling a filled record again adds nothing |
| Update.ApplyDefaultsIdempotent | scripts/frontmatter/lib/update.ts:65-96 | applying the defaults twice gives the result of applying them once |
| Update.DefaultedAt | scripts/frontmatter/lib/update.ts:75-93 | each missing default field ends with its default value, or stays missing when that value is blank |
| Update.DefaultsKeepPresent | scripts/frontmatter/lib/update.ts:66-86 | fields already present keep their place and value |
| Update.DefaultedOrder | scripts/frontmatter/lib/update.ts:77 | a missing order becomes the order derived from the path, zero included |
| Update.DefaultedTitle | scripts/frontmatter/lib/update.ts:76-89 | a missing title becomes the title from the file name, unless that is empty |
| Update.DefaultedTechnology | scripts/frontmatter/lib/update.ts:78-89 | a missing technology becomes the derived technology, unless that is empty |
| Update.DefaultedSpecialty | scripts/frontmatter/lib/update.ts:79-89 | a missing specialty becomes the mapped one, unless the mapping gives none or an empty one |
| Update.DefaultedTools | scripts/frontmatter/lib/update.ts:80 | a missing tools list becomes the empty list |
| Update.DefaultedChapter | scripts/frontmatter/lib/update.ts:81-89 | a missing chapter stays missing: its default is the empty string |
| Update.DefaultedAccess | scripts/frontmatter/lib/update.ts:82 | a missing access becomes "free" |
| Update.DefaultedOnlyDefaultFields | scripts/frontmatter/lib/update.ts:75-93 | no field outside the seven defaults is ever added |
| Update.UnchangedWhenComplete | scripts/frontmatter/lib/update.ts:85-95 | the record is left as it is exactly when every default field is present or has a blank default |
| Validate.MissingProblems | scripts/frontmatter/lib/validate.ts:74-88 | the definition of the presence problems; stated by MissingPassExact, MissingReported and MissingSound |
| Validate.TypeProblems | scripts/frontmatter/lib/validate.ts:26-64 | the definition of the type problems; stated by TypePassExact, TypeProblemsSound and TypeProblemsComplete |
| Validate.MessageInjective | scripts/frontmatter/lib/validate.ts:26-88 | different problems never print the same message |
| Validate.MessagesNoDup | scripts/frontmatter/lib/validate.ts:26-88 | distinct problems give distinct messages |
| Validate.PassSpec | scripts/frontmatter/lib/validate.ts:29-33 | a loop reports a field exactly when the field is in its list and fails its test, in list order |
| Validate.PassComplete | scripts/frontmatter/lib/validate.ts:29-33 | a listed field that fails its test is reported |
| Validate.FieldsOfType | scripts/frontmatter/lib/validate.ts:29-51 | the fields of a type group are exactly those the schema gives that type, each once |
| Validate.RequiredValidateFields | scripts/frontmatter/lib/validate.ts:71 | the fields checked for presence are exactly the required ones, in schema order |
| Validate.RunPass | scripts/frontmatter/lib/validate.ts:29-33 | one `for … of` loop appends the messages of the flagged fields, in order |
| Validate.ValidateTypes | scripts/frontmatter/lib/validate.ts:26-64 | the issues are the messages of the type problems: the string, number, array and boolean groups, then the item check |
| Validate.ValidateMissing | scripts/frontmatter/lib/validate.ts:74-88 | the issues are the messages of the missing required fields, then the no-mapping message |
| Validate.MissingPassExact | scripts/frontmatter/lib/validate.ts:74-88 | a field is reported missing exactly when it is required and absent; "no mapping" appears exactly when specialty is absent and the mapping gives nothing; there are no repeats |
| Validate.MissingReported | scripts/frontmatter/lib/validate.ts:77-81 | every absent required field is reported |
| Validate.MissingSound | scripts/frontmatter/lib/validate.ts:74-88 | every reported presence problem is an absent required field or the unmapped specialty |
| Validate.UnmappedSpecialtyTwice | scripts/frontmatter/lib/validate.ts:77-85 | an absent, unmapped specialty gives both "specialty: missing" and "specialty: no mapping" |
| Validate.TypePassExact | scripts/frontmatter/lib/validate.ts:26-64 | a type problem is reported exactly when a present field has the wrong kind, or a string-item array holds a non-string |
| Validate.TypeProblemsSound | scripts/frontmatter/lib/validate.ts:26-64 | every reported type problem is a genuine one |
| Validate.TypeProblemsComplete | scripts/frontmatter/lib/validate.ts:29-51 | every present field of the wrong kind is reported |
| Validate.ItemsProblemsComplete | scripts/frontmatter/lib/validate.ts:53-61 | every string-item array with a non-string item is reported |
| Validate.TypeProblemsPresent | scripts/frontmatter/lib/validate.ts:26-64 | type problems concern only fields that are present |
| Validate.TypeProblemsNoDup | scripts/frontmatter/lib/validate.ts:26-64 | no type problem is reported twice |
| Validate.EmptyRecordProblems | scripts/frontmatter/lib/validate.ts:74-88 | an empty frontmatter gets every required field reported missing, plus "no mapping" when unmapped |
| Validate.EmptyRecordTypeProblems | scripts/frontmatter/lib/validate.ts:26-64 | an empty frontmatter has no type problem |
| Validate.ArrayStringFieldProblems | scripts/frontmatter/lib/validate.ts:41-61 | tags or info give "invalid type" exactly when not an array, and "invalid items" exactly when an array with a non-string item |
| Validate.TagsMixedItems | scripts/frontmatter/lib/validate.ts:53-61 | tags `["ok", 5]` give "invalid items" and not "invalid type" |
| Validate.NoProblemsIffConforms | scripts/frontmatter/lib/validate.ts:26-88 | a document gets no issue exactly when it has every required field, a specialty or a mapping, values of the right kinds, and string items in tags and info |
| Validate.ConformsNoMissing | scripts/frontmatter/lib/validate.ts:74-88 | a conforming document has no presence problem |
| Validate.ConformsNoTypeProblems | scripts/frontmatter/lib/validate.ts:26-64 | a conforming document has no type problem |
| Validate.ReportFor | scripts/frontmatter/lib/validate.ts:134-141 | a document gets an entry exactly when it has issues; the entry carries its path and the nonempty issue list |
| Validate.ReportIffNonconforming | scripts/frontmatter/lib/validate.ts:134-141 | a document is listed exactly when it does not conform |
| Validate.ValidateDocument | scripts/frontmatter/lib/validate.ts:128-141 | the issues of one document are the presence messages, then the type messages, and its entry is recorded exactly when they are nonempty |
| Validate.ValidateDocuments | scripts/frontmatter/lib/validate.ts:125-144 | the loop collects the entries of the documents in order |
| Validate.ReportsSpec | scripts/frontmatter/lib/validate.ts:125-144 | every entry belongs to a nonconforming document, and every nonconforming document has its entry |
| Validate.ReportsEmptyIffAllConform | scripts/frontmatter/lib/validate.ts:125-144 | the run reports nothing exactly when every document conforms |
| StagedFiles.Lines | scripts/frontmatter/lib/validate.ts:103 | splitting on `\r?\n`: the `\n` pieces, each but the last without the `\r` before its newline |
| StagedFiles.LinesOfCrlfJoin | scripts/frontmatter/lib/validate.ts:103 | lines joined with `\r\n` split back into the same lines, even lines that end in `\r` |
| StagedFiles.LinesWithoutCr | scripts/frontmatter/lib/validate.ts:103 | output without `\r` splits into the plain `\n` pieces |
| StagedFiles.TrimAll | scripts/frontmatter/lib/validate.ts:104 | each line trimmed, in order |
| StagedFiles.SelectDocs | scripts/frontmatter/lib/validate.ts:106 | exactly the paths under the docs directory ending in `.md`, in order |
| StagedFiles.StagedDocs | scripts/frontmatter/lib/validate.ts:102-106 | every file is a trimmed, nonempty docs Markdown path from the output, every such line is listed, and order is kept |
| StagedFiles.TrimAllTrimmed | scripts/frontmatter/lib/validate.ts:104 | every trimmed line is trimmed |
| StagedFiles.LinesTrimLikeSplit | scripts/frontmatter/lib/generate-meta.ts:30-31 | once trimmed, `\r?\n` lines equal plain `\n` lines |
| StagedFiles.NonEmptyFilterRedundant | scripts/frontmatter/lib/generate-meta.ts:32-33 | `filter(Boolean)` changes nothing the path test would keep |
| StagedFiles.NoOutputNoFiles | scripts/frontmatter/lib/generate-meta.ts:29-33 | empty git output gives no files |
| MetaGeneration.WithMeta | scripts/frontmatter/lib/generate-meta.ts:64-93 | the definition of the updated record; stated by MetaGet, MetaUid, MetaCreatedAt, MetaUpdatedAt, MetaOthers, MetaChangedIff and MetaIdempotent |
| MetaGeneration.UpdateFile | scripts/frontmatter/lib/generate-meta.ts:64-93 | a change is reported exactly when uid or created_at was absent; the new record is the record with its meta fields; it is written in schema order exactly when it changed |
| MetaGeneration.MetaUid | scripts/frontmatter/lib/generate-meta.ts:71-74 | an existing uid is kept; an absent one becomes the new id |
| MetaGeneration.MetaCreatedAt | scripts/frontmatter/lib/generate-meta.ts:76-80 | an existing created_at is kept; an absent one becomes the first git date, or now |
| MetaGeneration.MetaUpdatedAt | scripts/frontmatter/lib/generate-meta.ts:82-83 | a changed file gets updated_at = now |
| MetaGeneration.MetaOthers | scripts/frontmatter/lib/generate-meta.ts:64-93 | every other key keeps its value |
| MetaGeneration.MetaGet | scripts/frontmatter/lib/generate-meta.ts:64-93 | the value of every key after the update, key by key |
| MetaGeneration.MetaKeysExtend | scripts/frontmatter/lib/generate-meta.ts:64-93 | existing keys keep their positions; new keys follow |
| MetaGeneration.MetaChangedIff | scripts/frontmatter/lib/generate-meta.ts:64-93 | the record changes exactly when uid or created_at was absent |
| MetaGeneration.MetaIdempotent | scripts/frontmatter/lib/generate-meta.ts:64-93 | after one update, another update with any id and any dates changes nothing |
| MetaGeneration.WrittenSameEntries | scripts/frontmatter/lib/generate-meta.ts:84 | the written record holds the same values as the updated one, less keys named like `Object.prototype` properties |
| MetaGeneration.FirstNonBlank | scripts/frontmatter/lib/generate-meta.ts:56 | `find` returns the first line that is not blank, or nothing when all are blank |
| MetaGeneration.CreatedAtFromLog | scripts/frontmatter/lib/generate-meta.ts:44-62 | the definition of the date read from the log; stated by CreatedAtPick |
| MetaGeneration.CreatedAtPick | scripts/frontmatter/lib/generate-meta.ts:56-58 | the creation date is the first nonblank log line, trimmed, and none when every line is blank |
| MetaGeneration.CreatedAtNonEmpty | scripts/frontmatter/lib/generate-meta.ts:56-80 | the created_at written is never empty when now is not |
| TodoLinks.MatchItem | todo.js:16-19 | the definition of the match; stated by MatchItemSound, MatchItemComplete and ItemOfParts |
| TodoLinks.MatchItemSound | todo.js:16-19 | a match has a digit run with a dot, whitespace, the text, trailing whitespace; the text group is trimmed |
| TodoLinks.MatchItemComplete | todo.js:16-19 | every line of that shape matches, with the number and the trimmed text as groups |
| TodoLinks.RemoveChars | todo.js:23 | exactly the listed punctuation is removed; the result is a subsequence of the text that keeps every other character as often as the text has it |
| TodoLinks.RemoveCharsAppend | todo.js:23 | the removal works character by character: removing from `a + b` is removing from `a` followed by removing from `b` |
| TodoLinks.RemoveCharsNone | todo.js:23 | text without any of the listed characters is returned unchanged |
| TodoLinks.CollapseWs | todo.js:24 | the result has only spaces as whitespace, never two in a row, and keeps the non-whitespace characters in order; where the spaces go is stated by CollapseRunJoin |
| TodoLinks.CollapseRunJoin | todo.js:24 | a nonempty whitespace run between non-whitespace neighbours becomes exactly one space, with each side collapsed on its own |
| TodoLinks.CollapseAppend | todo.js:24 | text split after a non-whitespace character collapses as its two halves collapsed and put together |
| TodoLinks.CollapseNoWs | todo.js:24 | text without whitespace is returned unchanged |
| TodoLinks.CollapseCollapsed | todo.js:24 | text whose whitespace is single spaces is returned unchanged |
| TodoLinks.CollapseIdempotent | todo.js:24 | collapsing twice gives the same text as collapsing once |
| TodoLinks.Clean | todo.js:22-25 | the definition of the cleaning; stated by CleanText |
| TodoLinks.CleanText | todo.js:22-25 | the cleaned text has no removed character, no outer whitespace and only single spaces, and keeps the text's other characters in order |
| TodoLinks.ProcessLine | todo.js:11-28 | the definition of one line's rewrite; stated by BlankLineKept, NonItemKept, RewrittenItem and ProcessLineNoNewline |
| TodoLinks.ProcessContent | todo.js:9-29 | the definition of the file's rewrite; stated by ProcessContentLines |
| TodoLinks.BlankLineKept | todo.js:13 | a blank line is returned unchanged |
| TodoLinks.NonItemKept | todo.js:17 | a line that is not a numbered item is returned unchanged |
| TodoLinks.RewrittenItem | todo.js:19-27 | a rewritten item is again an item with the same number, whose text is the wiki link to the cleaned text |
| TodoLinks.ItemOfParts | todo.js:16 | digits, a dot, whitespace and trimmed one-line text match as that number and that text |
| TodoLinks.ProcessLineNoNewline | todo.js:11-28 | a rewrite never introduces a line break |
| TodoLinks.ProcessLines | todo.js:11-28 | one rewritten line per input line, in order |
| TodoLinks.ProcessContentLines | todo.js:9-29 | the output has as many lines as the input, and each is the rewrite of its own input line |
| TodoLinks.ExampleItem | todo.js:16-19 | "1. What is a closure?" matches with number "1." and the whole question as text |
| TodoLinks.ItemLine | todo.js:11-27 | a line `<digits>.<whitespace><trimmed text>` is rewritten to `<digits>. ` followed by the wiki link to the cleaned text |
| TodoLinks.ExampleProcessLine | todo.js:11-27 | the line "1. What is a closure?" is rewritten to "1. [[What is a closure]]" |
| Strings.Trim | todo.js:25 | `trim` returns a trimmed slice, removing only whitespace from both ends |
| Strings.TrimPadded | todo.js:25 | trimming whitespace-padded trimmed text returns that text |
| Strings.Split | todo.js:10 | `split` pieces hold no separator and join back to the input |
| Strings.DecimalString | scripts/frontmatter/helpers/parseOrder/parseOrder.ts:10 | a decimal spelling made of digits whose value is the number |
| Values.SetGet | scripts/frontmatter/helpers/orderFrontmatter/orderFrontmatter.ts:11 | after assigning a key, reading it gives the value assigned and every other key is unchanged |

## Left out

- File and process I/O are not modelled: reading and writing files, YAML
  parsing (`js-yaml`, `gray-matter`), `matter.stringify`, `prettier`,
  `globby`, the `git` child processes, `stageFile` and console output. Parsed
  frontmatter, git output, directory names and the path separator are
  parameters.
- The `runUpdate` and `runGenerate` drivers are not modelled. They are I/O
  loops around `applyDefaults`, `buildMissingFields`, `orderFrontmatter` and
  `updateFile`, which are modelled. Their counters and log lines, and the
  error thrown after failed files, are left out.
- The CLI (scripts/frontmatter/cli/index.ts) is not part of this model.
- `nanoid()` and `new Date().toISOString()` become parameters (`uid`,
  `nowIso`). `getCreatedAt`'s `catch` becomes "no date": the model of the
  git output covers a successful call only.
- MetaGeneration.UpdateFile: gives the record that is written, not the
  Markdown text that `matter.stringify` and `prettier` produce.
- Numbers are unbounded integers. The model leaves out `Number`'s
  floating-point rounding of very long digit runs in `parseOrder`, and YAML
  floats.
- OrderParsing.ParseDecimalRoundTrip: holds for every n. JavaScript's
  `Number` is exact only up to 2^53.
- Values that are neither plain objects, arrays, strings, numbers, booleans
  nor null (a `Date` the YAML parser builds from a timestamp, for instance)
  are one `Other` value. `typeof` treats `Other` as an object, never as a
  string.
- KeyOrdering.ExtraEntries: keeps the other keys in insertion order.
  `Object.keys` lists integer-like keys ("7", "2024") first, in ascending
  numeric order, so the source's second loop visits them first.
- KeyOrdering.OrderBySchema: the record built has the order of
  `ExtraEntries`; for an input with integer-like keys, the object the
  source builds enumerates those keys first.
- KeyOrdering.OrderFrontmatter: the same as OrderBySchema, for the schema
  order.
- KeyOrdering.SchemaKeysFirst: holds for the insertion order. The
  serializer lists integer-like keys before the schema keys, so for an
  input with such a key the written file does not start with a schema key.
- KeyOrdering.OrderedOrder: the other entries follow the input's insertion
  order, not the integer-like-first order JavaScript enumerates.
- Config.SpecialtyFor: a key in the mapping object is an own key. The model
  leaves out keys that `mapping[...]` inherits from `Object.prototype`, such
  as `constructor`.
- Config.Entries: the model keeps the entries of an object in the parser's
  key order. JavaScript lists integer-like keys first. The resulting mapping
  does not depend on this order, because an object's keys are unique.
- Update.DefaultedTools: the model adds an empty list. In the source, every
  note receives the same `DEFAULTS.tools` array object. That aliasing is
  unobservable once the file is written.
- TodoLinks.ProcessContent: the file `0.md` is read and `processed-file.md`
  is written; both are left out. The model covers the text between them.
