/** The checks of the validation flow (scripts/frontmatter/lib/validate.ts):
    a presence pass over the required fields, then a type pass over every
    schema field a record carries, and the per-document report built from both. */
module Validate {
  import opened Seqs
  import opened Values
  import opened Constants
  import opened FieldSelection
  import opened Config
  import opened IssueFormatting

  /** One problem the validator reports; `Message` spells it. */
  datatype Problem =
    | Missing(field: Field)
    | NoMapping
    | InvalidType(field: Field)
    | InvalidItems(field: Field)

  function Message(p: Problem): string {
    match p
    case Missing(f) => Name(f) + ": missing"
    case NoMapping => "specialty: no mapping"
    case InvalidType(f) => Name(f) + ": invalid type"
    case InvalidItems(f) => Name(f) + ": invalid items"
  }

  function Messages(ps: seq<Problem>): seq<string> {
    if |ps| == 0 then [] else [Message(ps[0])] + Messages(ps[1..])
  }

  lemma {:induction false} MessagesAt(ps: seq<Problem>, i: nat)
    requires i < |ps|
    ensures |Messages(ps)| == |ps| && Messages(ps)[i] == Message(ps[i])
  {
    if i > 0 {
      MessagesAt(ps[1..], i - 1);
    } else {
      MessagesLength(ps);
    }
  }

  lemma {:induction false} MessagesLength(ps: seq<Problem>)
    ensures |Messages(ps)| == |ps|
  {
    if |ps| > 0 {
      MessagesLength(ps[1..]);
    }
  }

  /** The message of every listed problem is in the list of messages. */
  lemma {:induction false} MessagesMember(ps: seq<Problem>, p: Problem)
    requires p in ps
    ensures Message(p) in Messages(ps)
  {
    if ps[0] != p {
      MessagesMember(ps[1..], p);
    }
  }

  lemma SuffixCancel(a: string, b: string, s: string)
    requires a + s == b + s
    ensures a == b
  {
    assert |a| == |b|;
    assert a == (a + s)[..|a|];
    assert b == (b + s)[..|b|];
  }

  lemma NameNotTwelve(f: Field)
    ensures |Name(f)| != 12
  {
  }

  /** Different problems are spelled differently, so the messages say exactly
      which problems were found. */
  lemma MessageInjective(p: Problem, q: Problem)
    ensures Message(p) == Message(q) ==> p == q
  {
    if Message(p) == Message(q) {
      var m := Message(p);
      var last := m[|m| - 1];
      assert p.InvalidType? ==> last == 'e';
      assert p.InvalidItems? ==> last == 's';
      assert p.Missing? || p.NoMapping? ==> last == 'g';
      assert q.InvalidType? ==> last == 'e';
      assert q.InvalidItems? ==> last == 's';
      assert q.Missing? || q.NoMapping? ==> last == 'g';
      if p.Missing? && q.NoMapping? {
        NameNotTwelve(p.field);
      } else if p.NoMapping? && q.Missing? {
        NameNotTwelve(q.field);
      } else if p.Missing? && q.Missing? {
        SuffixCancel(Name(p.field), Name(q.field), ": missing");
        NameInjective(p.field, q.field);
      } else if p.InvalidType? && q.InvalidType? {
        SuffixCancel(Name(p.field), Name(q.field), ": invalid type");
        NameInjective(p.field, q.field);
      } else if p.InvalidItems? && q.InvalidItems? {
        SuffixCancel(Name(p.field), Name(q.field), ": invalid items");
        NameInjective(p.field, q.field);
      }
    }
  }

  /** Messages of distinct problems are distinct. */
  lemma MessagesNoDup(ps: seq<Problem>)
    requires NoDup(ps)
    ensures NoDup(Messages(ps))
  {
    var ms := Messages(ps);
    MessagesLength(ps);
    forall i, j | 0 <= i < j < |ms| ensures ms[i] != ms[j] {
      MessagesAt(ps, i);
      MessagesAt(ps, j);
      MessageInjective(ps[i], ps[j]);
    }
  }

  /** The runtime test of one declared type: `typeof` for strings, numbers
      and booleans, `Array.isArray` for arrays. */
  predicate HasKind(v: Value, t: FieldType) {
    match t
    case StringType => v.Str?
    case NumberType => v.Num?
    case BooleanType => v.Bool?
    case ArrayType => v.Arr?
  }

  /** `items.every((item) => typeof item === "string")`. */
  predicate AllStrings(items: seq<Value>) {
    forall i :: 0 <= i < |items| ==> items[i].Str?
  }

  /** The three kinds of pass the validator runs over a list of fields. */
  datatype Check = PresenceCheck | TypeCheck | ItemsCheck

  /** Whether a pass of kind `c` reports field `f` of `data`. */
  predicate Flags(c: Check, data: Record, f: Field) {
    var v := Get(data, Name(f));
    match c
    case PresenceCheck => v.None?
    case TypeCheck => v.Some? && !HasKind(v.value, Def(f).fieldType)
    case ItemsCheck => v.Some? && v.value.Arr? && !AllStrings(v.value.items)
  }

  function ProblemOf(c: Check, f: Field): Problem {
    match c
    case PresenceCheck => Missing(f)
    case TypeCheck => InvalidType(f)
    case ItemsCheck => InvalidItems(f)
  }

  /** The problem a pass of kind `c` would report for each field of `fs`. */
  function Candidates(c: Check, fs: seq<Field>): (ps: seq<Problem>)
    ensures |ps| == |fs|
    ensures forall i :: 0 <= i < |fs| ==> ps[i] == ProblemOf(c, fs[i])
  {
    seq(|fs|, i requires 0 <= i < |fs| => ProblemOf(c, fs[i]))
  }

  lemma CandidatesNoDup(c: Check, fs: seq<Field>)
    requires NoDup(fs)
    ensures NoDup(Candidates(c, fs))
  {
  }

  /** The problems one pass over `fs` reports, in the order of `fs`, when
      `flagged` tells which fields it reports. */
  function PassOf(c: Check, fs: seq<Field>, flagged: Field -> bool): seq<Problem> {
    if |fs| == 0 then []
    else if flagged(fs[0]) then [ProblemOf(c, fs[0])] + PassOf(c, fs[1..], flagged)
    else PassOf(c, fs[1..], flagged)
  }

  /** The test of a pass of kind `c` over `data`, as a function of the field. */
  function Flagger(c: Check, data: Record): Field -> bool {
    f => Flags(c, data, f)
  }

  /** The problems a pass of kind `c` over `fs` reports for `data`. */
  function Pass(c: Check, fs: seq<Field>, data: Record): seq<Problem> {
    PassOf(c, fs, Flagger(c, data))
  }

  /** A pass reports exactly the flagged fields, in the order of the list. */
  lemma {:induction false} PassOfSpec(c: Check, fs: seq<Field>, flagged: Field -> bool)
    ensures forall f :: ProblemOf(c, f) in PassOf(c, fs, flagged) <==> f in fs && flagged(f)
    ensures Subseq(PassOf(c, fs, flagged), Candidates(c, fs))
  {
    if |fs| > 0 {
      var rest := PassOf(c, fs[1..], flagged);
      var tail := Candidates(c, fs[1..]);
      PassOfSpec(c, fs[1..], flagged);
      assert Candidates(c, fs) == [ProblemOf(c, fs[0])] + tail;
      assert fs == [fs[0]] + fs[1..];
      SubseqPrepend(rest, ProblemOf(c, fs[0]), tail);
      if flagged(fs[0]) {
        assert ([ProblemOf(c, fs[0])] + rest)[1..] == rest;
      }
    }
  }

  lemma PassSpec(c: Check, fs: seq<Field>, data: Record)
    ensures forall f :: ProblemOf(c, f) in Pass(c, fs, data) <==> f in fs && Flags(c, data, f)
    ensures Subseq(Pass(c, fs, data), Candidates(c, fs))
  {
    PassOfSpec(c, fs, Flagger(c, data));
  }

  /** Every problem of a pass names a field of the list the test picks, with the pass's kind. */
  lemma PassOfMember(c: Check, fs: seq<Field>, flagged: Field -> bool, p: Problem)
    requires p in PassOf(c, fs, flagged)
    ensures !p.NoMapping? && p == ProblemOf(c, p.field) && p.field in fs && flagged(p.field)
  {
    PassOfSpec(c, fs, flagged);
    SubseqMembers(PassOf(c, fs, flagged), Candidates(c, fs));
    var i :| 0 <= i < |fs| && Candidates(c, fs)[i] == p;
  }

  /** Every reported problem comes from the pass's kind and a field of the list. */
  lemma PassMembers(c: Check, fs: seq<Field>, data: Record, p: Problem)
    requires p in Pass(c, fs, data)
    ensures !p.NoMapping? && p == ProblemOf(c, p.field) && p.field in fs && Flags(c, data, p.field)
  {
    PassOfMember(c, fs, Flagger(c, data), p);
  }

  /** Every field of the list that the test flags is reported. */
  lemma PassComplete(c: Check, fs: seq<Field>, data: Record, f: Field)
    requires f in fs && Flags(c, data, f)
    ensures ProblemOf(c, f) in Pass(c, fs, data)
  {
    PassOfSpec(c, fs, Flagger(c, data));
    assert Flagger(c, data)(f);
  }

  /** A problem of a type group is an invalid type of a field of that type. */
  lemma TypeGroupMember(t: FieldType, data: Record, p: Problem)
    requires p in Pass(TypeCheck, FieldsOfType(t), data)
    ensures p.InvalidType? && Def(p.field).fieldType == t
  {
    var fs := FieldsOfType(t);
    assert p in PassOf(TypeCheck, fs, Flagger(TypeCheck, data));
    PassOfMember(TypeCheck, fs, Flagger(TypeCheck, data), p);
    assert p.field in fs;
  }

  /** A problem of the item check is an invalid item list. */
  lemma ItemsGroupMember(data: Record, p: Problem)
    requires p in Pass(ItemsCheck, ArrayStringFields, data)
    ensures p.InvalidItems?
  {
    PassOfMember(ItemsCheck, ArrayStringFields, Flagger(ItemsCheck, data), p);
  }

  lemma PassNoDup(c: Check, fs: seq<Field>, data: Record)
    requires NoDup(fs)
    ensures NoDup(Pass(c, fs, data))
  {
    CandidatesNoDup(c, fs);
    PassSpec(c, fs, data);
    SubseqNoDup(Pass(c, fs, data), Candidates(c, fs));
  }

  /** One more field at the end of the list adds its problem, if any, at the end. */
  lemma {:induction false} PassOfSnoc(c: Check, fs: seq<Field>, f: Field, flagged: Field -> bool)
    ensures PassOf(c, fs + [f], flagged) == PassOf(c, fs, flagged) + (if flagged(f) then [ProblemOf(c, f)] else [])
    decreases |fs|
  {
    if |fs| == 0 {
      assert ([] + [f])[1..] == [];
    } else {
      assert (fs + [f])[1..] == fs[1..] + [f];
      assert (fs + [f])[0] == fs[0];
      PassOfSnoc(c, fs[1..], f, flagged);
    }
  }

  /** `pickFields((field) => field.type === t)`. */
  function FieldsOfType(t: FieldType): (fs: seq<Field>)
    ensures forall f :: f in fs <==> Def(f).fieldType == t
    ensures NoDup(fs)
  {
    PickFields((d: FieldDef) => d.fieldType == t)
  }

  /** `REQUIRED_VALIDATE_FIELDS`. */
  function RequiredValidateFields(): (fs: seq<Field>)
    ensures forall f :: f in fs <==> Def(f).required
    ensures NoDup(fs) && Subseq(fs, FieldOrder)
  {
    PickFields((d: FieldDef) => d.required)
  }

  /** What `validateMissing` reports. */
  function MissingProblems(data: Record, specialty: Option<string>): seq<Problem> {
    Pass(PresenceCheck, RequiredValidateFields(), data)
      + (if !HasKey(data, "specialty") && IsFalsy(specialty) then [NoMapping] else [])
  }

  /** What `validateTypes` reports: the string, number, array and boolean
      groups, then the item check of `ARRAY_STRING_FIELDS`. */
  function TypeProblems(data: Record): seq<Problem> {
    Pass(TypeCheck, FieldsOfType(StringType), data)
      + Pass(TypeCheck, FieldsOfType(NumberType), data)
      + Pass(TypeCheck, FieldsOfType(ArrayType), data)
      + Pass(TypeCheck, FieldsOfType(BooleanType), data)
      + Pass(ItemsCheck, ArrayStringFields, data)
  }

  /** The list of one document: the presence pass, then the type pass. */
  function Problems(data: Record, specialty: Option<string>): seq<Problem> {
    MissingProblems(data, specialty) + TypeProblems(data)
  }

  /** One `for … of` loop that pushes the message of every field the
      test `flagged` picks. */
  method RunPass(issues: seq<string>, c: Check, fs: seq<Field>, flagged: Field -> bool) returns (out: seq<string>)
    ensures out == issues + Messages(PassOf(c, fs, flagged))
  {
    out := issues;
    var i := 0;
    while i < |fs|
      invariant 0 <= i <= |fs|
      invariant out == issues + Messages(PassOf(c, fs[..i], flagged))
    {
      var field := fs[i];
      RunPassStep(c, fs, i, flagged);
      if flagged(field) {
        AppendAssoc(issues, Messages(PassOf(c, fs[..i], flagged)), [Message(ProblemOf(c, field))]);
        out := out + [Message(ProblemOf(c, field))];
      } else {
        AppendEmpty(Messages(PassOf(c, fs[..i], flagged)));
      }
      i := i + 1;
    }
    assert fs[..i] == fs;
  }

  /** One iteration of the pass loop: the next field adds its message when flagged. */
  lemma RunPassStep(c: Check, fs: seq<Field>, i: nat, flagged: Field -> bool)
    requires i < |fs|
    ensures Messages(PassOf(c, fs[..i + 1], flagged))
         == Messages(PassOf(c, fs[..i], flagged)) + (if flagged(fs[i]) then [Message(ProblemOf(c, fs[i]))] else [])
  {
    var step: seq<Problem> := if flagged(fs[i]) then [ProblemOf(c, fs[i])] else [];
    assert fs[..i + 1] == fs[..i] + [fs[i]];
    PassOfSnoc(c, fs[..i], fs[i], flagged);
    MessagesAppend(PassOf(c, fs[..i], flagged), step);
    assert Messages(step) == if flagged(fs[i]) then [Message(ProblemOf(c, fs[i]))] else [];
  }

  lemma {:induction false} MessagesAppend(a: seq<Problem>, b: seq<Problem>)
    ensures Messages(a + b) == Messages(a) + Messages(b)
  {
    if |a| == 0 {
      assert a + b == b;
    } else {
      assert (a + b)[1..] == a[1..] + b;
      MessagesAppend(a[1..], b);
    }
  }

  /** `validateTypes`. */
  method ValidateTypes(data: Record) returns (issues: seq<string>)
    ensures issues == Messages(TypeProblems(data))
  {
    ghost var s := Pass(TypeCheck, FieldsOfType(StringType), data);
    ghost var n := Pass(TypeCheck, FieldsOfType(NumberType), data);
    ghost var a := Pass(TypeCheck, FieldsOfType(ArrayType), data);
    ghost var b := Pass(TypeCheck, FieldsOfType(BooleanType), data);
    ghost var it := Pass(ItemsCheck, ArrayStringFields, data);
    issues := RunPass([], TypeCheck, FieldsOfType(StringType), Flagger(TypeCheck, data));
    assert issues == Messages(s);
    issues := RunPass(issues, TypeCheck, FieldsOfType(NumberType), Flagger(TypeCheck, data));
    MessagesAppend(s, n);
    assert issues == Messages(s + n);
    issues := RunPass(issues, TypeCheck, FieldsOfType(ArrayType), Flagger(TypeCheck, data));
    MessagesAppend(s + n, a);
    assert issues == Messages(s + n + a);
    issues := RunPass(issues, TypeCheck, FieldsOfType(BooleanType), Flagger(TypeCheck, data));
    MessagesAppend(s + n + a, b);
    assert issues == Messages(s + n + a + b);
    issues := RunPass(issues, ItemsCheck, ArrayStringFields, Flagger(ItemsCheck, data));
    MessagesAppend(s + n + a + b, it);
  }

  /** `validateMissing`. */
  method ValidateMissing(data: Record, specialty: Option<string>) returns (issues: seq<string>)
    ensures issues == Messages(MissingProblems(data, specialty))
  {
    var passIssues := RunPass([], PresenceCheck, RequiredValidateFields(), Flagger(PresenceCheck, data));
    issues := passIssues;
    if !HasKey(data, "specialty") && IsFalsy(specialty) {
      issues := issues + [Message(NoMapping)];
    }
    MissingMessages(data, specialty, passIssues, issues);
  }

  /** The messages of the presence pass, then the note for an unmapped specialty. */
  lemma MissingMessages(data: Record, specialty: Option<string>, passIssues: seq<string>, issues: seq<string>)
    requires passIssues == [] + Messages(PassOf(PresenceCheck, RequiredValidateFields(), Flagger(PresenceCheck, data)))
    requires issues == if !HasKey(data, "specialty") && IsFalsy(specialty) then passIssues + [Message(NoMapping)] else passIssues
    ensures issues == Messages(MissingProblems(data, specialty))
  {
    var ps := Pass(PresenceCheck, RequiredValidateFields(), data);
    assert passIssues == Messages(ps);
    if !HasKey(data, "specialty") && IsFalsy(specialty) {
      MessagesSnoc(ps, NoMapping);
    } else {
      AppendEmpty(ps);
    }
  }

  lemma MessagesSnoc(ps: seq<Problem>, p: Problem)
    ensures Messages(ps + [p]) == Messages(ps) + [Message(p)]
  {
    MessagesAppend(ps, [p]);
    assert Messages([p]) == [Message(p)];
  }

  /** The presence pass reports each absent required field, and the
      no-mapping problem exactly when `specialty` is absent and the mapping
      gave nothing usable; nothing else. */
  lemma MissingPassExact(data: Record, specialty: Option<string>)
    ensures forall f :: Missing(f) in MissingProblems(data, specialty) <==> Def(f).required && !HasKey(data, Name(f))
    ensures NoMapping in MissingProblems(data, specialty) <==> !HasKey(data, "specialty") && IsFalsy(specialty)
    ensures forall p :: p in MissingProblems(data, specialty) ==> p.Missing? || p.NoMapping?
    ensures NoDup(MissingProblems(data, specialty))
  {
    var fs := RequiredValidateFields();
    var ps := Pass(PresenceCheck, fs, data);
    var note: seq<Problem> := if !HasKey(data, "specialty") && IsFalsy(specialty) then [NoMapping] else [];
    assert MissingProblems(data, specialty) == ps + note;
    PassSpec(PresenceCheck, fs, data);
    forall f ensures Missing(f) in ps + note <==> Def(f).required && !HasKey(data, Name(f)) {
      assert ProblemOf(PresenceCheck, f) == Missing(f);
      FlagsPresence(data, f);
    }
    forall p | p in ps ensures p.Missing? {
      PassMembers(PresenceCheck, fs, data, p);
    }
    PassNoDup(PresenceCheck, fs, data);
    assert NoMapping !in ps;
    AppendNoDup(ps, note);
  }

  /** Each absent required field is reported missing. */
  lemma MissingReported(data: Record, specialty: Option<string>, f: Field)
    requires Def(f).required && !HasKey(data, Name(f))
    ensures Missing(f) in MissingProblems(data, specialty)
  {
    FlagsPresence(data, f);
    PassComplete(PresenceCheck, RequiredValidateFields(), data, f);
  }

  /** Every problem of the presence pass is an absent required field or the unmapped specialty. */
  lemma MissingSound(data: Record, specialty: Option<string>, p: Problem)
    requires p in MissingProblems(data, specialty)
    ensures || (p.Missing? && Def(p.field).required && !HasKey(data, Name(p.field)))
            || (p.NoMapping? && !HasKey(data, "specialty") && IsFalsy(specialty))
  {
    var ps := Pass(PresenceCheck, RequiredValidateFields(), data);
    var note: seq<Problem> := if !HasKey(data, "specialty") && IsFalsy(specialty) then [NoMapping] else [];
    assert MissingProblems(data, specialty) == ps + note;
    if p in ps {
      PassMembers(PresenceCheck, RequiredValidateFields(), data, p);
      FlagsPresence(data, p.field);
    } else {
      assert p in note;
    }
  }

  lemma FlagsPresence(data: Record, f: Field)
    ensures Flags(PresenceCheck, data, f) <==> !HasKey(data, Name(f))
  {
  }

  /** An absent `specialty` that the mapping cannot supply is reported twice:
      as missing and as unmapped. */
  lemma UnmappedSpecialtyTwice(data: Record, specialty: Option<string>)
    requires !HasKey(data, "specialty") && IsFalsy(specialty)
    ensures Message(Missing(Specialty)) in Messages(MissingProblems(data, specialty))
    ensures Message(NoMapping) in Messages(MissingProblems(data, specialty))
  {
    assert Name(Specialty) == "specialty";
    MissingMessageReported(data, specialty, Specialty);
    NoMappingReported(data, specialty);
  }

  /** An absent required field is reported by its message. */
  lemma MissingMessageReported(data: Record, specialty: Option<string>, f: Field)
    requires Def(f).required && !HasKey(data, Name(f))
    ensures Message(Missing(f)) in Messages(MissingProblems(data, specialty))
  {
    MissingReported(data, specialty, f);
    MessagesMember(MissingProblems(data, specialty), Missing(f));
  }

  lemma NoMappingReported(data: Record, specialty: Option<string>)
    requires !HasKey(data, "specialty") && IsFalsy(specialty)
    ensures Message(NoMapping) in Messages(MissingProblems(data, specialty))
  {
    var ps := MissingProblems(data, specialty);
    assert ps[|ps| - 1] == NoMapping;
    MessagesMember(ps, NoMapping);
  }

  /** Which problems the type pass reports: a present schema field of the
      wrong kind, and a `tags` or `info` array with a non-string item. */
  lemma TypePassExact(data: Record, p: Problem)
    ensures p in TypeProblems(data) <==>
      || (p.InvalidType? && Flags(TypeCheck, data, p.field))
      || (p.InvalidItems? && p.field in ArrayStringFields && Flags(ItemsCheck, data, p.field))
  {
    if p in TypeProblems(data) {
      TypeProblemsSound(data, p);
    }
    if p.InvalidType? && Flags(TypeCheck, data, p.field) {
      TypeProblemsComplete(data, p.field);
    }
    if p.InvalidItems? && p.field in ArrayStringFields && Flags(ItemsCheck, data, p.field) {
      ItemsProblemsComplete(data, p.field);
    }
  }

  lemma TypeProblemsSound(data: Record, p: Problem)
    requires p in TypeProblems(data)
    ensures || (p.InvalidType? && Flags(TypeCheck, data, p.field))
            || (p.InvalidItems? && p.field in ArrayStringFields && Flags(ItemsCheck, data, p.field))
  {
    var s := Pass(TypeCheck, FieldsOfType(StringType), data);
    var n := Pass(TypeCheck, FieldsOfType(NumberType), data);
    var a := Pass(TypeCheck, FieldsOfType(ArrayType), data);
    var b := Pass(TypeCheck, FieldsOfType(BooleanType), data);
    var it := Pass(ItemsCheck, ArrayStringFields, data);
    assert TypeProblems(data) == s + n + a + b + it;
    if p in s { PassMembers(TypeCheck, FieldsOfType(StringType), data, p); }
    else if p in n { PassMembers(TypeCheck, FieldsOfType(NumberType), data, p); }
    else if p in a { PassMembers(TypeCheck, FieldsOfType(ArrayType), data, p); }
    else if p in b { PassMembers(TypeCheck, FieldsOfType(BooleanType), data, p); }
    else { PassMembers(ItemsCheck, ArrayStringFields, data, p); }
  }

  lemma TypeProblemsComplete(data: Record, f: Field)
    requires Flags(TypeCheck, data, f)
    ensures InvalidType(f) in TypeProblems(data)
  {
    var t := Def(f).fieldType;
    PassComplete(TypeCheck, FieldsOfType(t), data, f);
    var g := Pass(TypeCheck, FieldsOfType(t), data);
    assert InvalidType(f) in g;
    var s := Pass(TypeCheck, FieldsOfType(StringType), data);
    var n := Pass(TypeCheck, FieldsOfType(NumberType), data);
    var a := Pass(TypeCheck, FieldsOfType(ArrayType), data);
    var b := Pass(TypeCheck, FieldsOfType(BooleanType), data);
    var it := Pass(ItemsCheck, ArrayStringFields, data);
    assert TypeProblems(data) == s + n + a + b + it;
    match t
    case StringType => assert g == s;
    case NumberType => assert g == n;
    case ArrayType => assert g == a;
    case BooleanType => assert g == b;
  }

  lemma ItemsProblemsComplete(data: Record, f: Field)
    requires f in ArrayStringFields && Flags(ItemsCheck, data, f)
    ensures InvalidItems(f) in TypeProblems(data)
  {
    PassComplete(ItemsCheck, ArrayStringFields, data, f);
    var it := Pass(ItemsCheck, ArrayStringFields, data);
    var rest := Pass(TypeCheck, FieldsOfType(StringType), data)
      + Pass(TypeCheck, FieldsOfType(NumberType), data)
      + Pass(TypeCheck, FieldsOfType(ArrayType), data)
      + Pass(TypeCheck, FieldsOfType(BooleanType), data);
    assert TypeProblems(data) == rest + it;
    assert InvalidItems(f) in it;
  }

  /** Only present schema fields are type-checked: an absent field or a key
      outside the schema never yields a type problem. */
  lemma TypeProblemsPresent(data: Record, p: Problem)
    requires p in TypeProblems(data)
    ensures !p.NoMapping? && !p.Missing? && HasKey(data, Name(p.field))
  {
    TypeProblemsSound(data, p);
    FlagsKind(data, p.field);
    FlagsItems(data, p.field);
  }

  /** Each field is type-checked once: no problem is reported twice. */
  lemma TypeProblemsNoDup(data: Record)
    ensures NoDup(TypeProblems(data))
  {
    var s := Pass(TypeCheck, FieldsOfType(StringType), data);
    var n := Pass(TypeCheck, FieldsOfType(NumberType), data);
    var a := Pass(TypeCheck, FieldsOfType(ArrayType), data);
    var b := Pass(TypeCheck, FieldsOfType(BooleanType), data);
    var it := Pass(ItemsCheck, ArrayStringFields, data);
    PassNoDup(TypeCheck, FieldsOfType(StringType), data);
    PassNoDup(TypeCheck, FieldsOfType(NumberType), data);
    PassNoDup(TypeCheck, FieldsOfType(ArrayType), data);
    PassNoDup(TypeCheck, FieldsOfType(BooleanType), data);
    ArrayStringFieldsAreArrays();
    PassNoDup(ItemsCheck, ArrayStringFields, data);
    forall p | p in s ensures p !in n {
      TypeGroupMember(StringType, data, p);
      if p in n { TypeGroupMember(NumberType, data, p); }
    }
    AppendNoDup(s, n);
    forall p | p in s + n ensures p !in a {
      if p in a {
        TypeGroupMember(ArrayType, data, p);
        if p in s { TypeGroupMember(StringType, data, p); }
        else { TypeGroupMember(NumberType, data, p); }
      }
    }
    AppendNoDup(s + n, a);
    forall p | p in s + n + a ensures p !in b {
      if p in b {
        TypeGroupMember(BooleanType, data, p);
        if p in s { TypeGroupMember(StringType, data, p); }
        else if p in n { TypeGroupMember(NumberType, data, p); }
        else { TypeGroupMember(ArrayType, data, p); }
      }
    }
    AppendNoDup(s + n + a, b);
    forall p | p in s + n + a + b ensures p !in it {
      if p in it {
        ItemsGroupMember(data, p);
        if p in s { TypeGroupMember(StringType, data, p); }
        else if p in n { TypeGroupMember(NumberType, data, p); }
        else if p in a { TypeGroupMember(ArrayType, data, p); }
        else { TypeGroupMember(BooleanType, data, p); }
      }
    }
    AppendNoDup(s + n + a + b, it);
    assert TypeProblems(data) == s + n + a + b + it;
  }

  lemma AppendNoDup<T>(a: seq<T>, b: seq<T>)
    requires NoDup(a) && NoDup(b)
    requires forall x :: x in a ==> x !in b
    ensures NoDup(a + b)
  {
    var c := a + b;
    forall i, j | 0 <= i < j < |c| ensures c[i] != c[j] {
      if i < |a| && j >= |a| {
        assert c[i] in a && c[j] == b[j - |a|];
      } else if i >= |a| {
        assert c[i] == b[i - |a|] && c[j] == b[j - |a|];
      }
    }
  }

  /** A pass over fields that are all flagged reports every one of them. */
  lemma {:induction false} PassOfAll(c: Check, fs: seq<Field>, flagged: Field -> bool)
    requires forall f :: f in fs ==> flagged(f)
    ensures PassOf(c, fs, flagged) == Candidates(c, fs)
  {
    if |fs| > 0 {
      assert fs[0] in fs;
      assert forall f :: f in fs[1..] ==> f in fs;
      PassOfAll(c, fs[1..], flagged);
      assert Candidates(c, fs) == [ProblemOf(c, fs[0])] + Candidates(c, fs[1..]);
    }
  }

  /** A pass over fields none of which is flagged reports nothing. */
  lemma {:induction false} PassOfNone(c: Check, fs: seq<Field>, flagged: Field -> bool)
    requires forall f :: f in fs ==> !flagged(f)
    ensures PassOf(c, fs, flagged) == []
  {
    if |fs| > 0 {
      assert fs[0] in fs;
      assert forall f :: f in fs[1..] ==> f in fs;
      PassOfNone(c, fs[1..], flagged);
    }
  }

  /** An empty frontmatter block: every required field is reported missing,
      in schema order, then the unmapped specialty when the mapping gives
      nothing usable, and no type problem. */
  lemma EmptyRecordProblems(data: Record, specialty: Option<string>)
    requires |data| == 0
    ensures Problems(data, specialty) ==
      Candidates(PresenceCheck, RequiredValidateFields()) + (if IsFalsy(specialty) then [NoMapping] else [])
  {
    EmptyRecordFlags(data);
    PassOfAll(PresenceCheck, RequiredValidateFields(), Flagger(PresenceCheck, data));
    EmptyRecordTypeProblems(data);
    assert !HasKey(data, "specialty");
    var note: seq<Problem> := if IsFalsy(specialty) then [NoMapping] else [];
    assert MissingProblems(data, specialty) == Candidates(PresenceCheck, RequiredValidateFields()) + note;
    assert Problems(data, specialty) == MissingProblems(data, specialty) + [];
  }

  lemma EmptyRecordFlags(data: Record)
    requires |data| == 0
    ensures forall f :: Flagger(PresenceCheck, data)(f) && !Flagger(TypeCheck, data)(f) && !Flagger(ItemsCheck, data)(f)
  {
    forall f ensures Flagger(PresenceCheck, data)(f) && !Flagger(TypeCheck, data)(f) && !Flagger(ItemsCheck, data)(f) {
      EmptyRecordFlagsField(data, f);
    }
  }

  lemma EmptyRecordFlagsField(data: Record, f: Field)
    requires |data| == 0
    ensures Flags(PresenceCheck, data, f) && !Flags(TypeCheck, data, f) && !Flags(ItemsCheck, data, f)
  {
    EmptyFlags(PresenceCheck, data, f);
    EmptyFlags(TypeCheck, data, f);
    EmptyFlags(ItemsCheck, data, f);
  }

  lemma EmptyFlags(c: Check, data: Record, f: Field)
    requires |data| == 0
    ensures Flags(c, data, f) <==> c == PresenceCheck
  {
    EmptyGet(data, Name(f));
  }

  lemma EmptyGet(data: Record, k: string)
    requires |data| == 0
    ensures Get(data, k) == None
  {
    assert KeysOf(data) == [];
  }

  lemma EmptyRecordTypeProblems(data: Record)
    requires |data| == 0
    ensures TypeProblems(data) == []
  {
    EmptyPass(TypeCheck, FieldsOfType(StringType), data);
    EmptyPass(TypeCheck, FieldsOfType(NumberType), data);
    EmptyPass(TypeCheck, FieldsOfType(ArrayType), data);
    EmptyPass(TypeCheck, FieldsOfType(BooleanType), data);
    EmptyPass(ItemsCheck, ArrayStringFields, data);
  }

  lemma EmptyPass(c: Check, fs: seq<Field>, data: Record)
    requires |data| == 0 && c != PresenceCheck
    ensures Pass(c, fs, data) == []
  {
    EmptyRecordFlags(data);
    PassOfNone(c, fs, Flagger(c, data));
  }

  /** For `tags` and `info`: a value that is not an array is an invalid type
      and nothing else; an array is never an invalid type, and is reported
      for its items exactly when one of them is not a string. */
  lemma ArrayStringFieldProblems(data: Record, f: Field, v: Value)
    requires f in ArrayStringFields && Get(data, Name(f)) == Some(v)
    ensures InvalidType(f) in TypeProblems(data) <==> !v.Arr?
    ensures InvalidItems(f) in TypeProblems(data) <==> v.Arr? && !AllStrings(v.items)
  {
    ArrayStringFieldsAreArrays();
    assert Def(f).fieldType == ArrayType;
    FlagsKind(data, f);
    FlagsItems(data, f);
    TypePassExact(data, InvalidType(f));
    TypePassExact(data, InvalidItems(f));
  }

  /** A record whose `tags` are `["ok", 5]` is reported for the items of
      `tags`, not for their type. */
  lemma TagsMixedItems(data: Record)
    requires Get(data, Name(Tags)) == Some(Arr([Str("ok"), Num(5)]))
    ensures InvalidItems(Tags) in TypeProblems(data)
    ensures InvalidType(Tags) !in TypeProblems(data)
  {
    var v := Arr([Str("ok"), Num(5)]);
    assert !AllStrings(v.items) by {
      assert !v.items[1].Str?;
    }
    assert Tags in ArrayStringFields;
    ArrayStringFieldProblems(data, Tags, v);
  }

  /** Whether the value stored for `f`, if any, has the declared kind. */
  predicate KindOk(data: Record, f: Field) {
    var v := Get(data, Name(f));
    v.Some? ==> HasKind(v.value, Def(f).fieldType)
  }

  /** Whether the value stored for `f`, if it is an array, holds only strings. */
  predicate ItemsOk(data: Record, f: Field) {
    var v := Get(data, Name(f));
    v.Some? && v.value.Arr? ==> AllStrings(v.value.items)
  }

  /** The frontmatter the validator accepts, field by field. */
  predicate Conforms(data: Record, specialty: Option<string>) {
    && (forall f :: Def(f).required ==> HasKey(data, Name(f)))
    && (HasKey(data, "specialty") || !IsFalsy(specialty))
    && (forall f :: KindOk(data, f))
    && (forall f :: f in ArrayStringFields ==> ItemsOk(data, f))
  }

  /** A document yields no problem exactly when its frontmatter conforms. */
  lemma NoProblemsIffConforms(data: Record, specialty: Option<string>)
    ensures Problems(data, specialty) == [] <==> Conforms(data, specialty)
  {
    if Problems(data, specialty) == [] {
      NoProblemsConforms(data, specialty);
    }
    if Conforms(data, specialty) {
      ConformsNoMissing(data, specialty);
      ConformsNoTypeProblems(data, specialty);
    }
  }

  lemma NoProblemsConforms(data: Record, specialty: Option<string>)
    requires Problems(data, specialty) == []
    ensures Conforms(data, specialty)
  {
    assert MissingProblems(data, specialty) == [] && TypeProblems(data) == [];
    forall f | Def(f).required ensures HasKey(data, Name(f)) {
      if !HasKey(data, Name(f)) {
        MissingReported(data, specialty, f);
      }
    }
    forall f ensures KindOk(data, f) {
      if !KindOk(data, f) {
        TypeProblemsComplete(data, f);
      }
    }
    forall f | f in ArrayStringFields ensures ItemsOk(data, f) {
      if !ItemsOk(data, f) {
        ItemsProblemsComplete(data, f);
      }
    }
  }

  lemma ConformsNoMissing(data: Record, specialty: Option<string>)
    requires Conforms(data, specialty)
    ensures MissingProblems(data, specialty) == []
  {
    var mp := MissingProblems(data, specialty);
    if mp != [] {
      var p := mp[0];
      assert p in mp;
      MissingSound(data, specialty, p);
    }
  }

  lemma ConformsNoTypeProblems(data: Record, specialty: Option<string>)
    requires Conforms(data, specialty)
    ensures TypeProblems(data) == []
  {
    var tp := TypeProblems(data);
    if tp != [] {
      var p := tp[0];
      assert p in tp;
      TypeProblemsSound(data, p);
      FlagsKind(data, p.field);
      FlagsItems(data, p.field);
    }
  }

  lemma FlagsKind(data: Record, f: Field)
    ensures Flags(TypeCheck, data, f) <==> !KindOk(data, f)
  {
  }

  lemma FlagsItems(data: Record, f: Field)
    ensures Flags(ItemsCheck, data, f) <==> !ItemsOk(data, f)
  {
  }

  /** A document handed to the validator: its path relative to the docs
      directory and its parsed frontmatter. */
  datatype Document = Document(relPath: string, data: Record)

  /** `mapping[deriveFromPath(relPath).technology]`, as a function of the
      relative path: the specialty `runValidate` hands to the presence pass. */
  function PathSpecialty(mapping: map<string, string>, sep: char): string -> Option<string> {
    relPath => SpecialtyFor(mapping, DeriveFromPath(relPath, sep).technology)
  }

  /** The entry `runValidate` records for one document, given the specialty
      the mapping supplies for it, if any. */
  function ReportFor(doc: Document, specialty: Option<string>): (r: Option<FileIssue>)
    ensures r.Some? <==> Problems(doc.data, specialty) != []
    ensures r.Some? ==> r.value.file == doc.relPath && r.value.missing.None? && r.value.issues.Some? && |r.value.issues.value| > 0
  {
    var issues := Messages(Problems(doc.data, specialty));
    MessagesLength(Problems(doc.data, specialty));
    if |issues| > 0 then Some(FileIssue(doc.relPath, Some(issues), None)) else None
  }

  /** A document gets an entry exactly when its frontmatter does not conform. */
  lemma ReportIffNonconforming(doc: Document, specialty: Option<string>)
    ensures ReportFor(doc, specialty).Some? <==> !Conforms(doc.data, specialty)
  {
    NoProblemsIffConforms(doc.data, specialty);
  }

  /** The entries a run records when `report` gives each document's entry:
      the documents with an entry, in their order. */
  function ReportsOf(docs: seq<Document>, report: Document -> Option<FileIssue>): seq<FileIssue> {
    if |docs| == 0 then []
    else
      var last := report(docs[|docs| - 1]);
      ReportsOf(docs[..|docs| - 1], report) + (if last.Some? then [last.value] else [])
  }

  /** The entry of each document, when `specialtyOf` gives the specialty for its path. */
  function Reporter(specialtyOf: string -> Option<string>): Document -> Option<FileIssue> {
    (doc: Document) => ReportFor(doc, specialtyOf(doc.relPath))
  }

  /** The entries of `runValidate` for the documents `docs`; the run itself
      passes `PathSpecialty(mapping, path.sep)`. */
  function Reports(docs: seq<Document>, specialtyOf: string -> Option<string>): seq<FileIssue> {
    ReportsOf(docs, Reporter(specialtyOf))
  }

  /** The loop of `runValidate` over documents already read and parsed. */
  method ValidateDocuments(docs: seq<Document>, specialtyOf: string -> Option<string>) returns (issues: seq<FileIssue>)
    ensures issues == Reports(docs, specialtyOf)
  {
    issues := [];
    for i := 0 to |docs|
      invariant issues == ReportsOf(docs[..i], Reporter(specialtyOf))
    {
      var doc := docs[i];
      var fileIssues := ValidateDocument(doc, specialtyOf);
      ReportsOfSnoc(docs, i, Reporter(specialtyOf));
      if |fileIssues| > 0 {
        issues := issues + [FileIssue(doc.relPath, Some(fileIssues), None)];
      }
    }
    assert docs[..|docs|] == docs;
  }

  /** The issues of one document: its missing fields, then its type problems. */
  method ValidateDocument(doc: Document, specialtyOf: string -> Option<string>) returns (fileIssues: seq<string>)
    ensures fileIssues == Messages(Problems(doc.data, specialtyOf(doc.relPath)))
    ensures Reporter(specialtyOf)(doc) == if |fileIssues| > 0 then Some(FileIssue(doc.relPath, Some(fileIssues), None)) else None
  {
    var specialty := specialtyOf(doc.relPath);
    var missing := ValidateMissing(doc.data, specialty);
    var types := ValidateTypes(doc.data);
    fileIssues := missing + types;
    MessagesAppend(MissingProblems(doc.data, specialty), TypeProblems(doc.data));
  }

  /** One more document adds its entry, if any, at the end. */
  lemma ReportsOfSnoc(docs: seq<Document>, i: nat, report: Document -> Option<FileIssue>)
    requires i < |docs|
    ensures ReportsOf(docs[..i + 1], report) ==
      ReportsOf(docs[..i], report) + (if report(docs[i]).Some? then [report(docs[i]).value] else [])
  {
    assert docs[..i + 1][..i] == docs[..i];
  }

  /** Each document with an entry contributes exactly that entry, and the
      entries come from the documents. */
  lemma {:induction false} ReportsOfSpec(docs: seq<Document>, report: Document -> Option<FileIssue>)
    ensures |ReportsOf(docs, report)| <= |docs|
    ensures forall r :: r in ReportsOf(docs, report) ==> exists i :: 0 <= i < |docs| && report(docs[i]) == Some(r)
    ensures forall i :: 0 <= i < |docs| && report(docs[i]).Some? ==> report(docs[i]).value in ReportsOf(docs, report)
  {
    if |docs| > 0 {
      var init := docs[..|docs| - 1];
      ReportsOfSpec(init, report);
      forall i | 0 <= i < |init| ensures docs[i] == init[i] { }
    }
  }

  /** No entry is recorded exactly when no document has one. */
  lemma {:induction false} ReportsOfEmpty(docs: seq<Document>, report: Document -> Option<FileIssue>)
    ensures ReportsOf(docs, report) == [] <==> forall i :: 0 <= i < |docs| ==> report(docs[i]).None?
  {
    if |docs| > 0 {
      var init := docs[..|docs| - 1];
      ReportsOfEmpty(init, report);
      forall i | 0 <= i < |init| ensures docs[i] == init[i] { }
    }
  }

  /** Every document that does not conform gets its entry, every entry
      belongs to a document that does not conform, and there are no more
      entries than documents. */
  lemma ReportsSpec(docs: seq<Document>, specialtyOf: string -> Option<string>)
    ensures |Reports(docs, specialtyOf)| <= |docs|
    ensures forall r :: r in Reports(docs, specialtyOf) ==>
      exists i :: 0 <= i < |docs| && !Conforms(docs[i].data, specialtyOf(docs[i].relPath)) && ReportFor(docs[i], specialtyOf(docs[i].relPath)) == Some(r)
    ensures forall i :: 0 <= i < |docs| && !Conforms(docs[i].data, specialtyOf(docs[i].relPath)) ==>
      ReportFor(docs[i], specialtyOf(docs[i].relPath)).Some? && ReportFor(docs[i], specialtyOf(docs[i].relPath)).value in Reports(docs, specialtyOf)
  {
    var report := Reporter(specialtyOf);
    ReportsOfSpec(docs, report);
    forall i | 0 <= i < |docs|
      ensures report(docs[i]) == ReportFor(docs[i], specialtyOf(docs[i].relPath))
      ensures report(docs[i]).Some? <==> !Conforms(docs[i].data, specialtyOf(docs[i].relPath))
    {
      ReportIffNonconforming(docs[i], specialtyOf(docs[i].relPath));
    }
  }

  /** The run reports nothing exactly when every document conforms. */
  lemma ReportsEmptyIffAllConform(docs: seq<Document>, specialtyOf: string -> Option<string>)
    ensures Reports(docs, specialtyOf) == [] <==>
      forall i :: 0 <= i < |docs| ==> Conforms(docs[i].data, specialtyOf(docs[i].relPath))
  {
    var report := Reporter(specialtyOf);
    ReportsOfEmpty(docs, report);
    forall i | 0 <= i < |docs|
      ensures report(docs[i]).None? <==> Conforms(docs[i].data, specialtyOf(docs[i].relPath))
    {
      ReportIffNonconforming(docs[i], specialtyOf(docs[i].relPath));
    }
  }
}
