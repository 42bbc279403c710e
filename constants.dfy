/** The field schema shared by the reconciler and the validator
    (scripts/frontmatter/constants/index.ts). */
module Constants {
  import opened Values
  import opened Seqs

  /** The keys of `FIELD_DEFS` (the `FieldKey` union of string literals). */
  datatype Field =
    | Uid | Title | Subtitle | Description | Tags | Info | Draft | Technology
    | Specialty | Tools | Chapter | Order | Access | CreatedAt | UpdatedAt

  datatype FieldType = StringType | NumberType | BooleanType | ArrayType

  /** One schema entry: `required` drives validation, `update` marks the
      fields the update flow reports when they are absent. */
  datatype FieldDef = FieldDef(required: bool, fieldType: FieldType, update: bool)

  /** The property name a field is stored under. */
  function Name(f: Field): string {
    match f
    case Uid => "uid"
    case Title => "title"
    case Subtitle => "subtitle"
    case Description => "description"
    case Tags => "tags"
    case Info => "info"
    case Draft => "draft"
    case Technology => "technology"
    case Specialty => "specialty"
    case Tools => "tools"
    case Chapter => "chapter"
    case Order => "order"
    case Access => "access"
    case CreatedAt => "created_at"
    case UpdatedAt => "updated_at"
  }

  /** The schema field stored under a property name, if there is one. */
  function FieldOf(k: string): Option<Field> {
    if k == "uid" then Some(Uid)
    else if k == "title" then Some(Title)
    else if k == "subtitle" then Some(Subtitle)
    else if k == "description" then Some(Description)
    else if k == "tags" then Some(Tags)
    else if k == "info" then Some(Info)
    else if k == "draft" then Some(Draft)
    else if k == "technology" then Some(Technology)
    else if k == "specialty" then Some(Specialty)
    else if k == "tools" then Some(Tools)
    else if k == "chapter" then Some(Chapter)
    else if k == "order" then Some(Order)
    else if k == "access" then Some(Access)
    else if k == "created_at" then Some(CreatedAt)
    else if k == "updated_at" then Some(UpdatedAt)
    else None
  }

  /** `FIELD_DEFS[f]`. */
  function Def(f: Field): FieldDef {
    match f
    case Uid => FieldDef(true, StringType, true)
    case Title => FieldDef(true, StringType, false)
    case Subtitle => FieldDef(false, StringType, false)
    case Description => FieldDef(false, StringType, false)
    case Tags => FieldDef(false, ArrayType, false)
    case Info => FieldDef(false, ArrayType, false)
    case Draft => FieldDef(false, BooleanType, false)
    case Technology => FieldDef(true, StringType, true)
    case Specialty => FieldDef(true, StringType, true)
    case Tools => FieldDef(true, ArrayType, true)
    case Chapter => FieldDef(false, StringType, true)
    case Order => FieldDef(true, NumberType, true)
    case Access => FieldDef(true, StringType, true)
    case CreatedAt => FieldDef(true, StringType, true)
    case UpdatedAt => FieldDef(true, StringType, true)
  }

  /** `Object.keys(FIELD_DEFS)` as fields: the declaration order, which is
      the canonical key order. */
  const FieldOrder: seq<Field> :=
    [Uid, Title, Subtitle, Description, Tags, Info, Draft, Technology,
     Specialty, Tools, Chapter, Order, Access, CreatedAt, UpdatedAt]

  /** The schema's property names in canonical order. */
  function FieldKeys(): (ks: seq<string>)
    ensures |ks| == |FieldOrder|
    ensures forall i :: 0 <= i < |FieldOrder| ==> ks[i] == Name(FieldOrder[i])
  {
    seq(|FieldOrder|, i requires 0 <= i < |FieldOrder| => Name(FieldOrder[i]))
  }

  /** `k in FIELD_DEFS`. */
  predicate IsSchemaKey(k: string) {
    k in FieldKeys()
  }

  /** `DEFAULTS`. */
  const Defaults: Record := [("tools", Arr([])), ("chapter", Str("")), ("access", Str("free"))]

  /** `ARRAY_STRING_FIELDS`: the arrays whose items must be strings. */
  const ArrayStringFields: seq<Field> := [Tags, Info]

  /** Names and fields correspond one to one. */
  lemma NameRoundTrip(f: Field, k: string)
    ensures FieldOf(Name(f)) == Some(f)
    ensures FieldOf(k).Some? ==> Name(FieldOf(k).value) == k
  {
    FieldOfName(f);
    NameOfField(k);
  }

  lemma FieldOfName(f: Field)
    ensures FieldOf(Name(f)) == Some(f)
  {
    match f
    case Uid =>
    case Title =>
    case Subtitle =>
    case Description =>
    case Tags =>
    case Info =>
    case Draft =>
    case Technology =>
    case Specialty =>
    case Tools =>
    case Chapter =>
    case Order =>
    case Access =>
    case CreatedAt =>
    case UpdatedAt =>
  }

  lemma NameOfField(k: string)
    ensures FieldOf(k).Some? ==> Name(FieldOf(k).value) == k
  {
  }

  lemma NameInjective(f: Field, g: Field)
    ensures Name(f) == Name(g) ==> f == g
  {
    NameRoundTrip(f, "");
    NameRoundTrip(g, "");
  }

  /** The schema declares every field exactly once: 15 keys. */
  lemma FieldOrderComplete(f: Field)
    ensures |FieldOrder| == 15
    ensures f in FieldOrder
    ensures NoDup(FieldOrder)
  {
    match f
    case Uid => assert FieldOrder[0] == f;
    case Title => assert FieldOrder[1] == f;
    case Subtitle => assert FieldOrder[2] == f;
    case Description => assert FieldOrder[3] == f;
    case Tags => assert FieldOrder[4] == f;
    case Info => assert FieldOrder[5] == f;
    case Draft => assert FieldOrder[6] == f;
    case Technology => assert FieldOrder[7] == f;
    case Specialty => assert FieldOrder[8] == f;
    case Tools => assert FieldOrder[9] == f;
    case Chapter => assert FieldOrder[10] == f;
    case Order => assert FieldOrder[11] == f;
    case Access => assert FieldOrder[12] == f;
    case CreatedAt => assert FieldOrder[13] == f;
    case UpdatedAt => assert FieldOrder[14] == f;
  }

  /** The schema's property names are distinct. */
  lemma FieldKeysNoDup()
    ensures NoDup(FieldKeys())
  {
    var ks := FieldKeys();
    FieldOrderComplete(Uid);
    forall i, j | 0 <= i < j < |ks| ensures ks[i] != ks[j] {
      NameInjective(FieldOrder[i], FieldOrder[j]);
    }
  }

  /** No schema key is a name a plain object inherits, so `key in data`
      for a schema key tests for an own key. */
  lemma FieldKeysOwn()
    ensures forall k :: k in FieldKeys() ==> !InheritedKey(k)
  {
    forall k | k in FieldKeys() ensures !InheritedKey(k) {
      var i :| 0 <= i < |FieldKeys()| && FieldKeys()[i] == k;
      NameOwn(FieldOrder[i]);
    }
  }

  lemma NameOwn(f: Field)
    ensures !InheritedKey(Name(f))
  {
    match f
    case Uid =>
    case Title =>
    case Subtitle =>
    case Description =>
    case Tags =>
    case Info =>
    case Draft =>
    case Technology =>
    case Specialty =>
    case Tools =>
    case Chapter =>
    case Order =>
    case Access =>
    case CreatedAt =>
    case UpdatedAt =>
  }

  /** A property name is among `Object.keys(FIELD_DEFS)` exactly when it names a field. */
  lemma SchemaKeyMembership(k: string)
    ensures IsSchemaKey(k) <==> FieldOf(k).Some?
  {
    var ks := FieldKeys();
    if FieldOf(k).Some? {
      var f := FieldOf(k).value;
      NameRoundTrip(f, k);
      FieldOrderComplete(f);
      var i :| 0 <= i < |FieldOrder| && FieldOrder[i] == f;
      assert ks[i] == k;
    }
    if k in ks {
      var i :| 0 <= i < |ks| && ks[i] == k;
      NameRoundTrip(FieldOrder[i], k);
    }
  }

  lemma RequiredFieldSet(f: Field)
    ensures Def(f).required <==>
            f in {Uid, Title, Technology, Specialty, Tools, Order, Access, CreatedAt, UpdatedAt}
  {
  }

  /** The autofill set is the required set without `title` and with `chapter`. */
  lemma AutofillFieldSet(f: Field)
    ensures Def(f).update <==> (Def(f).required && f != Title) || f == Chapter
  {
  }

  /** Each field has one type: only `order` is a number, only `draft` a
      boolean, `tags`, `info` and `tools` are the arrays, the rest strings. */
  lemma FieldTypes(f: Field)
    ensures Def(f).fieldType == NumberType <==> f == Order
    ensures Def(f).fieldType == BooleanType <==> f == Draft
    ensures Def(f).fieldType == ArrayType <==> f in {Tags, Info, Tools}
    ensures Def(f).fieldType == StringType <==> f !in {Order, Draft, Tags, Info, Tools}
  {
  }

  lemma DefaultValues()
    ensures Get(Defaults, "tools") == Some(Arr([]))
    ensures Get(Defaults, "chapter") == Some(Str(""))
    ensures Get(Defaults, "access") == Some(Str("free"))
    ensures KeysOf(Defaults) == ["tools", "chapter", "access"]
  {
  }

  lemma ArrayStringFieldsAreArrays()
    ensures forall f :: f in ArrayStringFields <==> f == Tags || f == Info
    ensures forall f :: f in ArrayStringFields ==> Def(f).fieldType == ArrayType
    ensures NoDup(ArrayStringFields)
  {
  }
}
