/** The per-file logic of the update flow (scripts/frontmatter/lib/update.ts):
    which autofill fields a document lacks, and the defaults filled in. */
module Update {
  import opened Seqs
  import opened Strings
  import opened Values
  import opened Constants
  import opened FieldSelection
  import opened PrefixStripping
  import opened Config

  /** `REQUIRED_FIELDS`: the schema fields marked `update`. */
  function RequiredFields(): (fs: seq<Field>)
    ensures forall f :: f in fs <==> (Def(f).required && f != Title) || f == Chapter
    ensures Subseq(fs, FieldOrder) && NoDup(fs)
  {
    var fs := PickFields((d: FieldDef) => d.update);
    forall f ensures f in fs <==> (Def(f).required && f != Title) || f == Chapter {
      AutofillFieldSet(f);
    }
    fs
  }

  /** `isMissingField`: the `in` operator, negated. */
  predicate IsMissingField(data: Record, field: string) {
    !HasKey(data, field)
  }

  /** The fields of `fs`, in order, that `data` lacks. */
  function MissingOf(fs: seq<Field>, data: Record): (ms: seq<Field>)
    ensures forall f :: f in ms <==> f in fs && IsMissingField(data, Name(f))
    ensures Subseq(ms, fs)
  {
    if |fs| == 0 then []
    else
      var rest := MissingOf(fs[1..], data);
      assert fs == [fs[0]] + fs[1..];
      SubseqPrepend(rest, fs[0], fs[1..]);
      if IsMissingField(data, Name(fs[0])) then
        assert ([fs[0]] + rest)[1..] == rest;
        [fs[0]] + rest
      else rest
  }

  function Names(fs: seq<Field>): (ks: seq<string>)
    ensures |ks| == |fs|
    ensures forall i :: 0 <= i < |fs| ==> ks[i] == Name(fs[i])
  {
    seq(|fs|, i requires 0 <= i < |fs| => Name(fs[i]))
  }

  /** Naming keeps order: the names of a subsequence form a subsequence of the names. */
  lemma {:induction false} NamesSubseq(a: seq<Field>, b: seq<Field>)
    requires Subseq(a, b)
    ensures Subseq(Names(a), Names(b))
    decreases |b|
  {
    if a != [] && b != [] {
      assert Names(b)[1..] == Names(b[1..]);
      if a[0] == b[0] {
        NamesSubseq(a[1..], b[1..]);
        assert Names(a)[1..] == Names(a[1..]);
      } else {
        NamesSubseq(a, b[1..]);
        if Names(a)[0] == Names(b)[0] {
          NameInjective(a[0], b[0]);
        }
      }
    }
  }

  /** Distinct fields have distinct names. */
  lemma NamesNoDup(fs: seq<Field>)
    requires NoDup(fs)
    ensures NoDup(Names(fs))
  {
    forall i, j | 0 <= i < j < |fs| ensures Names(fs)[i] != Names(fs)[j] {
      NameInjective(fs[i], fs[j]);
    }
  }

  /** A field's name is in a list of names exactly when the field is in the list. */
  lemma NamesMember(fs: seq<Field>, f: Field)
    ensures Name(f) in Names(fs) <==> f in fs
  {
    if Name(f) in Names(fs) {
      var i :| 0 <= i < |fs| && Names(fs)[i] == Name(f);
      NameInjective(fs[i], f);
    }
    if f in fs {
      var i :| 0 <= i < |fs| && fs[i] == f;
      assert Names(fs)[i] == Name(f);
    }
  }

  /** The note for a document without a specialty that the mapping cannot supply. */
  const NoMappingNote: string := "specialty (no mapping)"

  lemma NoteIsNoName(f: Field)
    ensures Name(f) != NoMappingNote
  {
  }

  /** `buildMissingFields`: the autofill fields `data` lacks, in schema
      order, then the no-mapping note when `specialty` is among them and the
      mapping gave nothing usable. */
  function BuildMissingFields(data: Record, specialty: Option<string>): (missing: seq<string>)
    ensures forall f :: Name(f) in missing <==> Def(f).update && IsMissingField(data, Name(f))
    ensures NoMappingNote in missing <==> IsMissingField(data, "specialty") && IsFalsy(specialty)
    ensures NoDup(missing)
    ensures NoMappingNote in missing ==> missing[|missing| - 1] == NoMappingNote
    ensures Subseq(if NoMappingNote in missing then missing[..|missing| - 1] else missing, FieldKeys())
  {
    var ms := MissingOf(RequiredFields(), data);
    var names := Names(ms);
    var missing := if "specialty" in names && IsFalsy(specialty) then names + [NoMappingNote] else names;
    MissingNames(data, ms, names, specialty, missing);
    MissingShape(data, ms, names, missing);
    missing
  }

  /** The names, in schema order and each once, then possibly the note. */
  lemma MissingShape(data: Record, ms: seq<Field>, names: seq<string>, missing: seq<string>)
    requires ms == MissingOf(RequiredFields(), data) && names == Names(ms)
    requires missing == names || missing == names + [NoMappingNote]
    ensures NoDup(missing)
    ensures NoMappingNote in missing ==> missing[|missing| - 1] == NoMappingNote
    ensures Subseq(if NoMappingNote in missing then missing[..|missing| - 1] else missing, FieldKeys())
  {
    MissingOrder(data, ms, names);
    NoteNotAName(ms, names);
    if missing != names {
      assert missing[..|missing| - 1] == names;
    }
  }

  /** The names of the absent autofill fields come in schema order, each once. */
  lemma MissingOrder(data: Record, ms: seq<Field>, names: seq<string>)
    requires ms == MissingOf(RequiredFields(), data) && names == Names(ms)
    ensures Subseq(names, FieldKeys()) && NoDup(names)
  {
    FieldOrderComplete(Uid);
    SubseqTrans(ms, RequiredFields(), FieldOrder);
    SubseqNoDup(ms, FieldOrder);
    NamesNoDup(ms);
    NamesSubseq(ms, FieldOrder);
    assert Names(FieldOrder) == FieldKeys();
  }

  lemma MissingNames(data: Record, ms: seq<Field>, names: seq<string>, specialty: Option<string>, missing: seq<string>)
    requires ms == MissingOf(RequiredFields(), data) && names == Names(ms)
    requires missing == if "specialty" in names && IsFalsy(specialty) then names + [NoMappingNote] else names
    ensures forall f :: Name(f) in missing <==> Def(f).update && IsMissingField(data, Name(f))
    ensures NoMappingNote in missing <==> IsMissingField(data, "specialty") && IsFalsy(specialty)
  {
    forall f ensures Name(f) in missing <==> Def(f).update && IsMissingField(data, Name(f)) {
      MissingName(data, ms, names, missing, f);
    }
    MissingNote(data, ms, names, specialty, missing);
  }

  lemma MissingName(data: Record, ms: seq<Field>, names: seq<string>, missing: seq<string>, f: Field)
    requires ms == MissingOf(RequiredFields(), data) && names == Names(ms)
    requires missing == names || missing == names + [NoMappingNote]
    ensures Name(f) in missing <==> Def(f).update && IsMissingField(data, Name(f))
  {
    NamesMember(ms, f);
    NoteIsNoName(f);
  }

  lemma MissingNote(data: Record, ms: seq<Field>, names: seq<string>, specialty: Option<string>, missing: seq<string>)
    requires ms == MissingOf(RequiredFields(), data) && names == Names(ms)
    requires missing == if "specialty" in names && IsFalsy(specialty) then names + [NoMappingNote] else names
    ensures NoMappingNote in missing <==> IsMissingField(data, "specialty") && IsFalsy(specialty)
  {
    SpecialtyNamed(data, ms, names);
    NoteNotAName(ms, names);
  }

  lemma SpecialtyNamed(data: Record, ms: seq<Field>, names: seq<string>)
    requires ms == MissingOf(RequiredFields(), data) && names == Names(ms)
    ensures "specialty" in names <==> IsMissingField(data, "specialty")
  {
    NamesMember(ms, Specialty);
    assert Name(Specialty) == "specialty";
    assert Specialty in RequiredFields();
  }

  lemma NoteNotAName(ms: seq<Field>, names: seq<string>)
    requires names == Names(ms)
    ensures NoMappingNote !in names
  {
    if NoMappingNote in names {
      var i :| 0 <= i < |names| && names[i] == NoMappingNote;
      NoteIsNoName(ms[i]);
    }
  }

  /** Every reported item is the note or the name of an absent autofill field. */
  lemma MissingItems(data: Record, specialty: Option<string>, i: nat)
    requires i < |BuildMissingFields(data, specialty)|
    ensures var item := BuildMissingFields(data, specialty)[i];
      item == NoMappingNote || exists f :: Name(f) == item && Def(f).update && IsMissingField(data, item)
  {
    var ms := MissingOf(RequiredFields(), data);
    var names := Names(ms);
    var missing := BuildMissingFields(data, specialty);
    if i < |names| {
      assert missing[i] == names[i] == Name(ms[i]);
      assert ms[i] in ms;
    }
  }

  /** Nothing is reported for a document that has every autofill field. */
  lemma NothingMissing(data: Record, specialty: Option<string>)
    requires forall f :: Def(f).update ==> HasKey(data, Name(f))
    ensures BuildMissingFields(data, specialty) == []
  {
    var missing := BuildMissingFields(data, specialty);
    if missing != [] {
      MissingItems(data, specialty, 0);
    }
  }

  /** The title derived from a file name: ".md" dropped, then the order prefix. */
  function TitleFromFilename(filename: string): (t: string)
    ensures IsTrimmed(t)
    ensures EndsWith(filename, ".md") ==> t == StripOrderPrefix(filename[..|filename| - 3])
    ensures !EndsWith(filename, ".md") ==> t == StripOrderPrefix(filename)
  {
    var base := DropSuffix(filename, ".md");
    assert EndsWith(filename, ".md") ==> base == filename[..|filename| - 3] by {
      if EndsWith(filename, ".md") {
        assert base + ".md" == filename;
        assert filename[..|filename| - 3] == (base + ".md")[..|base|];
      }
    }
    StripOrderPrefix(base)
  }

  /** A field and its default value; `None` is `undefined`. */
  type Candidate = (string, Option<Value>)

  /** The value test of the loop: `undefined`, `null` and "" are not written. */
  predicate IsBlank(v: Option<Value>) {
    v.None? || v.value == Null || v.value == Str("")
  }

  /** Whether a candidate is written to `data`: its field is absent and its
      value is not blank. */
  predicate Fills(data: Record, c: Candidate) {
    IsMissingField(data, c.0) && !IsBlank(c.1)
  }

  /** The entries the loop adds to `data`, in candidate order. */
  function Additions(data: Record, cs: seq<Candidate>): (a: seq<(string, Value)>)
    ensures forall k, v :: (k, v) in a <==> (k, Some(v)) in cs && Fills(data, (k, Some(v)))
    ensures forall i :: 0 <= i < |a| ==> a[i].0 in KeysOf(cs) && IsMissingField(data, a[i].0)
    ensures NoDup(KeysOf(cs)) ==> UniqueKeys(a)
    decreases |cs|
  {
    if |cs| == 0 then []
    else
      var n := |cs| - 1;
      var rest := Additions(data, cs[..n]);
      var c := cs[n];
      AdditionsStep(data, cs, rest);
      if Fills(data, c) then rest + [(c.0, c.1.value)] else rest
  }

  lemma AdditionsStep(data: Record, cs: seq<Candidate>, rest: seq<(string, Value)>)
    requires |cs| > 0
    requires var n := |cs| - 1;
      && (forall k, v :: (k, v) in rest <==> (k, Some(v)) in cs[..n] && Fills(data, (k, Some(v))))
      && (forall i :: 0 <= i < |rest| ==> rest[i].0 in KeysOf(cs[..n]) && IsMissingField(data, rest[i].0))
      && (NoDup(KeysOf(cs[..n])) ==> UniqueKeys(rest))
    ensures var c := cs[|cs| - 1];
      var a := if Fills(data, c) then rest + [(c.0, c.1.value)] else rest;
      && (forall k, v :: (k, v) in a <==> (k, Some(v)) in cs && Fills(data, (k, Some(v))))
      && (forall i :: 0 <= i < |a| ==> a[i].0 in KeysOf(cs) && IsMissingField(data, a[i].0))
      && (NoDup(KeysOf(cs)) ==> UniqueKeys(a))
  {
    var n := |cs| - 1;
    var c := cs[n];
    assert cs == cs[..n] + [c];
    assert KeysOf(cs) == KeysOf(cs[..n]) + [c.0];
    if NoDup(KeysOf(cs)) {
      assert NoDup(KeysOf(cs[..n])) by {
        forall i, j | 0 <= i < j < n ensures KeysOf(cs[..n])[i] != KeysOf(cs[..n])[j] {
          assert KeysOf(cs)[i] == KeysOf(cs[..n])[i] && KeysOf(cs)[j] == KeysOf(cs[..n])[j];
        }
      }
      assert c.0 !in KeysOf(cs[..n]) by {
        forall i | 0 <= i < n ensures KeysOf(cs[..n])[i] != c.0 {
          assert KeysOf(cs)[i] == KeysOf(cs[..n])[i] && KeysOf(cs)[n] == c.0;
        }
      }
    }
  }

  /** `next` after the loop: `{ ...data }` plus the additions, each a new key. */
  function Filled(data: Record, cs: seq<Candidate>): (next: Record)
    requires NoDup(KeysOf(cs))
  {
    var a := Additions(data, cs);
    assert forall k :: HasKey(data, k) ==> !HasKey(a, k) by {
      forall k | HasKey(data, k) ensures !HasKey(a, k) {
        if HasKey(a, k) {
          var i := IndexOf(a, k);
        }
      }
    }
    AppendUnique(data, a);
    data + a
  }

  /** One pass of the loop body on the record built so far: the field test
      on `next` agrees with the test on `data`, since each field comes once. */
  lemma FillStep(data: Record, cs: seq<Candidate>, i: nat, next: Record)
    requires NoDup(KeysOf(cs)) && i < |cs|
    requires next == data + Additions(data, cs[..i])
    ensures IsMissingField(next, cs[i].0) <==> IsMissingField(data, cs[i].0)
    ensures Additions(data, cs[..i + 1]) ==
      Additions(data, cs[..i]) + (if Fills(data, cs[i]) then [(cs[i].0, cs[i].1.value)] else [])
  {
    var a := Additions(data, cs[..i]);
    assert cs[..i + 1][..i] == cs[..i];
    KeysAppend(data, a);
    assert KeysOf(cs[..i]) == KeysOf(cs)[..i];
    assert cs[i].0 !in KeysOf(cs[..i]) by {
      forall j | 0 <= j < i ensures KeysOf(cs[..i])[j] != cs[i].0 {
        assert KeysOf(cs)[j] == KeysOf(cs[..i])[j] && KeysOf(cs)[i] == cs[i].0;
      }
    }
    assert !HasKey(a, cs[i].0);
  }

  /** The loop body's effect on the record built so far. */
  lemma FillLoopStep(data: Record, cs: seq<Candidate>, i: nat, next: Record)
    requires NoDup(KeysOf(cs)) && i < |cs|
    requires next == data + Additions(data, cs[..i])
    ensures IsMissingField(next, cs[i].0) && !IsBlank(cs[i].1) ==>
      next + [(cs[i].0, cs[i].1.value)] == data + Additions(data, cs[..i + 1])
    ensures !(IsMissingField(next, cs[i].0) && !IsBlank(cs[i].1)) ==>
      next == data + Additions(data, cs[..i + 1])
    ensures Additions(data, cs[..i + 1]) != [] <==>
      Additions(data, cs[..i]) != [] || (IsMissingField(next, cs[i].0) && !IsBlank(cs[i].1))
  {
    FillStep(data, cs, i, next);
  }

  /** The loop of `applyDefaults` over distinct candidate fields. */
  method FillDefaults(data: Record, cs: seq<Candidate>) returns (next: Record, changed: bool)
    requires NoDup(KeysOf(cs))
    ensures next == Filled(data, cs)
    ensures changed <==> Additions(data, cs) != []
  {
    next := data;
    changed := false;
    var i := 0;
    while i < |cs|
      invariant 0 <= i <= |cs|
      invariant next == data + Additions(data, cs[..i])
      invariant changed <==> Additions(data, cs[..i]) != []
    {
      var (field, value) := cs[i];
      FillLoopStep(data, cs, i, next);
      if IsMissingField(next, field) && !IsBlank(value) {
        SetNew(next, field, value.value);
        next := Set(next, field, value.value);
        changed := true;
      }
      i := i + 1;
    }
    assert cs[..i] == cs;
  }

  /** The fields of `DEFAULTS_VALUES`, in order. */
  const DefaultFields: seq<Field> := [Title, Order, Technology, Specialty, Tools, Chapter, Access]

  /** What the thunk of `DEFAULTS_VALUES` for field `f` returns. */
  function DefaultValue(f: Field, derived: Derived, specialty: Option<string>, filename: string): Option<Value>
  {
    match f
    case Title => Some(Str(TitleFromFilename(filename)))
    case Order => Some(Num(derived.order))
    case Technology => Some(Str(derived.technology))
    case Specialty => if specialty.Some? then Some(Str(specialty.value)) else None
    case Tools => Get(Defaults, "tools")
    case Chapter => Get(Defaults, "chapter")
    case Access => Get(Defaults, "access")
    case _ => None
  }

  /** `DEFAULTS_VALUES`, each thunk evaluated: the loop calls a thunk only
      for a missing field, and the thunks have no effects. */
  function DefaultCandidates(derived: Derived, specialty: Option<string>, filename: string): (cs: seq<Candidate>)
    ensures |cs| == |DefaultFields|
    ensures forall i :: 0 <= i < |cs| ==>
      cs[i] == (Name(DefaultFields[i]), DefaultValue(DefaultFields[i], derived, specialty, filename))
  {
    seq(|DefaultFields|, i requires 0 <= i < |DefaultFields| =>
      (Name(DefaultFields[i]), DefaultValue(DefaultFields[i], derived, specialty, filename)))
  }

  /** The seven fields are distinct, so each is looked at once. */
  lemma DefaultCandidateKeys(derived: Derived, specialty: Option<string>, filename: string)
    ensures NoDup(KeysOf(DefaultCandidates(derived, specialty, filename)))
  {
    var cs := DefaultCandidates(derived, specialty, filename);
    DefaultFieldsNoDup();
    forall i, j | 0 <= i < j < |cs| ensures KeysOf(cs)[i] != KeysOf(cs)[j] {
      assert KeysOf(cs)[i] == Name(DefaultFields[i]) && KeysOf(cs)[j] == Name(DefaultFields[j]);
      NameInjective(DefaultFields[i], DefaultFields[j]);
    }
  }

  lemma DefaultFieldsNoDup()
    ensures NoDup(DefaultFields)
  {
  }

  /** The record `applyDefaults` returns as `next`. */
  function Defaulted(data: Record, derived: Derived, specialty: Option<string>, filename: string): Record
  {
    DefaultCandidateKeys(derived, specialty, filename);
    Filled(data, DefaultCandidates(derived, specialty, filename))
  }

  /** `applyDefaults`. */
  method ApplyDefaults(data: Record, derived: Derived, specialty: Option<string>, filename: string)
    returns (next: Record, changed: bool)
    ensures next == Defaulted(data, derived, specialty, filename)
    ensures changed <==> next != data
  {
    var cs := DefaultCandidates(derived, specialty, filename);
    DefaultCandidateKeys(derived, specialty, filename);
    next, changed := FillDefaults(data, cs);
    assert |next| == |data| + |Additions(data, cs)|;
  }

  /** The record keeps every entry of `data`, in place; new keys follow. */
  lemma FilledKeepsData(data: Record, cs: seq<Candidate>, k: string)
    requires NoDup(KeysOf(cs))
    ensures Filled(data, cs)[..|data|] == data
    ensures HasKey(data, k) ==> Get(Filled(data, cs), k) == Get(data, k)
  {
    GetAppend(data, Additions(data, cs), k);
  }

  /** The value a candidate's field has afterwards, when `data` lacked it:
      the candidate's value unless that is blank, and no value if it is. */
  lemma FilledCandidate(data: Record, cs: seq<Candidate>, i: nat)
    requires NoDup(KeysOf(cs)) && i < |cs|
    requires IsMissingField(data, cs[i].0)
    ensures Get(Filled(data, cs), cs[i].0) == if IsBlank(cs[i].1) then None else cs[i].1
  {
    var a := Additions(data, cs);
    var k := cs[i].0;
    GetAppend(data, a, k);
    assert KeysOf(cs)[i] == k;
    if !IsBlank(cs[i].1) {
      var v := cs[i].1.value;
      assert cs[i] == (k, Some(v));
      assert (k, v) in a;
      GetIn(a, k, v);
    }
  }

  /** A key neither in `data` nor among the candidates is not added. */
  lemma FilledOnlyCandidates(data: Record, cs: seq<Candidate>, k: string)
    requires NoDup(KeysOf(cs))
    requires IsMissingField(data, k) && k !in KeysOf(cs)
    ensures IsMissingField(Filled(data, cs), k)
  {
    var a := Additions(data, cs);
    KeysAppend(data, a);
    if HasKey(a, k) {
      var j := IndexOf(a, k);
    }
  }

  /** Filling twice adds nothing the second time. */
  lemma FilledIdempotent(data: Record, cs: seq<Candidate>)
    requires NoDup(KeysOf(cs))
    ensures Additions(Filled(data, cs), cs) == []
  {
    var next := Filled(data, cs);
    var a := Additions(next, cs);
    if a != [] {
      assert a[0] in a;
      var k, v := a[0].0, a[0].1;
      var i :| 0 <= i < |cs| && cs[i] == (k, Some(v));
      if HasKey(data, k) {
        FilledKeepsData(data, cs, k);
      } else {
        FilledCandidate(data, cs, i);
      }
    }
  }

  /** A second `applyDefaults` on its own output reports no change. */
  lemma ApplyDefaultsIdempotent(data: Record, derived: Derived, specialty: Option<string>, filename: string)
    ensures var next := Defaulted(data, derived, specialty, filename);
      Defaulted(next, derived, specialty, filename) == next
  {
    var cs := DefaultCandidates(derived, specialty, filename);
    DefaultCandidateKeys(derived, specialty, filename);
    FilledIdempotent(data, cs);
    var next := Filled(data, cs);
    assert next + [] == next;
  }

  /** The value an absent default field has after `applyDefaults`. */
  lemma DefaultedAt(data: Record, derived: Derived, specialty: Option<string>, filename: string, i: nat)
    requires i < |DefaultFields| && IsMissingField(data, Name(DefaultFields[i]))
    ensures var v := DefaultValue(DefaultFields[i], derived, specialty, filename);
      Get(Defaulted(data, derived, specialty, filename), Name(DefaultFields[i])) == if IsBlank(v) then None else v
  {
    DefaultCandidateKeys(derived, specialty, filename);
    FilledCandidate(data, DefaultCandidates(derived, specialty, filename), i);
  }

  /** Present fields are never overwritten, and the input entries keep their places. */
  lemma DefaultsKeepPresent(data: Record, derived: Derived, specialty: Option<string>, filename: string, k: string)
    ensures Defaulted(data, derived, specialty, filename)[..|data|] == data
    ensures HasKey(data, k) ==> Get(Defaulted(data, derived, specialty, filename), k) == Get(data, k)
  {
    DefaultCandidateKeys(derived, specialty, filename);
    FilledKeepsData(data, DefaultCandidates(derived, specialty, filename), k);
  }

  /** A missing `order` is always filled, 0 included: a number is never blank. */
  lemma DefaultedOrder(data: Record, derived: Derived, specialty: Option<string>, filename: string)
    requires IsMissingField(data, "order")
    ensures Get(Defaulted(data, derived, specialty, filename), "order") == Some(Num(derived.order))
  {
    assert DefaultFields[1] == Order;
    assert Name(Order) == "order";
    DefaultedAt(data, derived, specialty, filename, 1);
  }

  /** A missing `title` comes from the file name, unless that leaves nothing. */
  lemma DefaultedTitle(data: Record, derived: Derived, specialty: Option<string>, filename: string)
    requires IsMissingField(data, "title")
    ensures var t := TitleFromFilename(filename);
      Get(Defaulted(data, derived, specialty, filename), "title") == if t == "" then None else Some(Str(t))
  {
    assert DefaultFields[0] == Title;
    assert Name(Title) == "title";
    DefaultedAt(data, derived, specialty, filename, 0);
  }

  /** A missing `technology` comes from the path, unless it is empty. */
  lemma DefaultedTechnology(data: Record, derived: Derived, specialty: Option<string>, filename: string)
    requires IsMissingField(data, "technology")
    ensures var t := derived.technology;
      Get(Defaulted(data, derived, specialty, filename), "technology") == if t == "" then None else Some(Str(t))
  {
    assert DefaultFields[2] == Technology;
    assert Name(Technology) == "technology";
    DefaultedAt(data, derived, specialty, filename, 2);
  }

  /** A missing `specialty` comes from the mapping, unless it gave nothing usable. */
  lemma DefaultedSpecialty(data: Record, derived: Derived, specialty: Option<string>, filename: string)
    requires IsMissingField(data, "specialty")
    ensures Get(Defaulted(data, derived, specialty, filename), "specialty")
         == if IsFalsy(specialty) then None else Some(Str(specialty.value))
  {
    assert DefaultFields[3] == Specialty;
    assert Name(Specialty) == "specialty";
    DefaultedAt(data, derived, specialty, filename, 3);
  }

  /** A missing `tools` becomes the empty array of `DEFAULTS`. */
  lemma DefaultedTools(data: Record, derived: Derived, specialty: Option<string>, filename: string)
    requires IsMissingField(data, "tools")
    ensures Get(Defaulted(data, derived, specialty, filename), "tools") == Some(Arr([]))
  {
    DefaultValues();
    assert DefaultFields[4] == Tools;
    assert Name(Tools) == "tools";
    DefaultedAt(data, derived, specialty, filename, 4);
  }

  /** The empty `chapter` of `DEFAULTS` is blank, so a missing `chapter` stays missing. */
  lemma DefaultedChapter(data: Record, derived: Derived, specialty: Option<string>, filename: string)
    requires IsMissingField(data, "chapter")
    ensures IsMissingField(Defaulted(data, derived, specialty, filename), "chapter")
  {
    DefaultValues();
    assert DefaultFields[5] == Chapter;
    assert Name(Chapter) == "chapter";
    DefaultedAt(data, derived, specialty, filename, 5);
  }

  /** A missing `access` becomes "free". */
  lemma DefaultedAccess(data: Record, derived: Derived, specialty: Option<string>, filename: string)
    requires IsMissingField(data, "access")
    ensures Get(Defaulted(data, derived, specialty, filename), "access") == Some(Str("free"))
  {
    DefaultValues();
    assert DefaultFields[6] == Access;
    assert Name(Access) == "access";
    DefaultedAt(data, derived, specialty, filename, 6);
  }

  /** No other field is added: in particular not `uid`, `created_at` or `updated_at`. */
  lemma DefaultedOnlyDefaultFields(data: Record, derived: Derived, specialty: Option<string>, filename: string, k: string)
    requires IsMissingField(data, k)
    requires k !in Names(DefaultFields)
    ensures IsMissingField(Defaulted(data, derived, specialty, filename), k)
  {
    var cs := DefaultCandidates(derived, specialty, filename);
    DefaultCandidateKeys(derived, specialty, filename);
    assert KeysOf(cs) == Names(DefaultFields);
    FilledOnlyCandidates(data, cs, k);
  }

  /** `changed` is false exactly when every default field is present or blank. */
  lemma UnchangedWhenComplete(data: Record, derived: Derived, specialty: Option<string>, filename: string)
    ensures Defaulted(data, derived, specialty, filename) == data <==>
      forall i :: 0 <= i < |DefaultFields| ==>
        !IsMissingField(data, Name(DefaultFields[i]))
        || IsBlank(DefaultValue(DefaultFields[i], derived, specialty, filename))
  {
    var cs := DefaultCandidates(derived, specialty, filename);
    DefaultCandidateKeys(derived, specialty, filename);
    var a := Additions(data, cs);
    assert Defaulted(data, derived, specialty, filename) == data + a;
    if a != [] {
      assert a[0] in a;
      var i :| 0 <= i < |cs| && cs[i] == (a[0].0, Some(a[0].1));
    } else {
      forall i | 0 <= i < |cs| && IsMissingField(data, cs[i].0) ensures IsBlank(cs[i].1) {
        FilledCandidate(data, cs, i);
        assert data + a == data;
      }
    }
  }
}
