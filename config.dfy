/** scripts/frontmatter/config/index.ts: the values derived from a document's
    path, and the normalisation of the category mapping table. */
module Config {
  import opened Strings
  import opened Values
  import opened PrefixStripping
  import opened OrderParsing

  /** `DerivedValues`. */
  datatype Derived = Derived(category: string, technology: string, chapter: string, order: nat)

  /** `relPath.split(path.sep).filter(Boolean)`. */
  function Segments(relPath: string, sep: char): (segs: seq<string>)
    ensures forall i :: 0 <= i < |segs| ==> segs[i] != [] && sep !in segs[i]
  {
    var parts := Split(relPath, sep);
    var segs := NonEmpty(parts);
    assert forall i :: 0 <= i < |segs| ==> segs[i] in parts;
    segs
  }

  /** `/^\d+/.test(s)`. */
  predicate StartsWithDigit(s: string) {
    |s| > 0 && IsDigit(s[0])
  }

  /** `deriveFromPath`, with `path.sep` as a parameter. A first segment that
      starts with a digit is itself the technology when there are at least
      two segments; otherwise the technology is the second segment, or the
      first when there is only one. */
  function DeriveFromPath(relPath: string, sep: char): (d: Derived)
    ensures IsTrimmed(d.category) && IsTrimmed(d.chapter)
  {
    DeriveFromSegments(Segments(relPath, sep))
  }

  /** The values `deriveFromPath` takes from the path's nonempty segments. */
  function DeriveFromSegments(segs: seq<string>): (d: Derived)
    ensures IsTrimmed(d.category) && IsTrimmed(d.chapter)
  {
    var fileName := if |segs| > 0 then segs[|segs| - 1] else "";
    var categoryRaw := if |segs| > 0 then segs[0] else "";
    var technologyRaw :=
      if StartsWithDigit(categoryRaw) && |segs| >= 2 then categoryRaw
      else if |segs| >= 2 then segs[1]
      else categoryRaw;
    var chapterRaw := if |segs| >= 3 then segs[2] else "";
    Derived(
      StripOrderPrefix(categoryRaw),
      DropSuffix(StripOrderPrefix(technologyRaw), ".md"),
      StripOrderPrefix(chapterRaw),
      ParseOrder(fileName))
  }

  /** Splitting a path built from nonempty, separator-free segments gives the segments back. */
  lemma SegmentsOfJoin(parts: seq<string>, sep: char)
    requires |parts| >= 1
    requires forall i :: 0 <= i < |parts| ==> parts[i] != [] && sep !in parts[i]
    ensures Segments(Join(parts, [sep]), sep) == parts
  {
    SplitJoin(parts, sep);
    NonEmptyAll(parts);
  }

  /** Segments a path can be built from: nonempty and free of the separator. */
  predicate PathParts(parts: seq<string>, sep: char) {
    forall i :: 0 <= i < |parts| ==> parts[i] != [] && sep !in parts[i]
  }

  /** A folder or file name with an order prefix: a digit run, whitespace,
      then a name with no surrounding whitespace ("001 Frontend"). */
  predicate OrderPrefixed(digits: string, ws: string, name: string) {
    |digits| > 0 && AllDigits(digits) && |ws| > 0 && AllWs(ws) && IsTrimmed(name)
  }

  /** A file name that carries an order: a digit run and a separator ("001 Intro.md"). */
  predicate OrderedFileName(digits: string, c: char) {
    |digits| > 0 && AllDigits(digits) && IsOrderSeparator(c)
  }

  /** The prefix of a prefixed name goes and the name is left as it is. */
  lemma StripPrefixed(digits: string, ws: string, name: string)
    requires OrderPrefixed(digits, ws, name)
    ensures StripOrderPrefix(digits + ws + name) == name
  {
    StripDigitsWs(digits, ws, name);
    TrimTrimmed(name);
  }

  /** A path of three folders or more whose first folder is numbered: the
      technology is the category, less one trailing ".md". */
  lemma NumberedSegments(segs: seq<string>, cat: string, chap: string, n: nat)
    requires |segs| >= 4 && StartsWithDigit(segs[0]) && StripOrderPrefix(segs[0]) == cat
    requires StripOrderPrefix(segs[2]) == chap && ParseOrder(segs[|segs| - 1]) == n
    ensures DeriveFromSegments(segs) == Derived(cat, DropSuffix(cat, ".md"), chap, n)
  {
  }

  /** Numbered layout, "<d1> <cat>/<any>/<d3> <chap>/.../<d4>.<rest>": the
      category is the first folder's name, the technology is that same name
      (less one trailing ".md"), the chapter is the third folder's name and
      the order is the file's number. The second folder plays no part. */
  lemma NumberedPath(parts: seq<string>, sep: char, d1: string, w1: string, cat: string,
                     d3: string, w3: string, chap: string, d4: string, c: char, rest: string)
    requires |parts| >= 4 && PathParts(parts, sep)
    requires parts[0] == d1 + w1 + cat && parts[2] == d3 + w3 + chap && parts[|parts| - 1] == d4 + [c] + rest
    requires OrderPrefixed(d1, w1, cat) && OrderPrefixed(d3, w3, chap) && OrderedFileName(d4, c)
    ensures DeriveFromPath(Join(parts, [sep]), sep) == Derived(cat, DropSuffix(cat, ".md"), chap, DigitsValue(d4))
  {
    SegmentsOfJoin(parts, sep);
    NumberedNames(parts, d1, w1, cat, d3, w3, chap, d4, c, rest);
    NumberedSegments(parts, cat, chap, DigitsValue(d4));
  }

  lemma NumberedNames(parts: seq<string>, d1: string, w1: string, cat: string,
                      d3: string, w3: string, chap: string, d4: string, c: char, rest: string)
    requires |parts| >= 4
    requires parts[0] == d1 + w1 + cat && parts[2] == d3 + w3 + chap && parts[|parts| - 1] == d4 + [c] + rest
    requires OrderPrefixed(d1, w1, cat) && OrderPrefixed(d3, w3, chap) && OrderedFileName(d4, c)
    ensures StartsWithDigit(parts[0]) && StripOrderPrefix(parts[0]) == cat
    ensures StripOrderPrefix(parts[2]) == chap && ParseOrder(parts[|parts| - 1]) == DigitsValue(d4)
  {
    assert StartsWithDigit(parts[0]);
    StripPrefixed(d1, w1, cat);
    StripPrefixed(d3, w3, chap);
    ParseDigitsSeparator(d4, c, rest);
  }

  /** A path of three folders or more whose first folder is not numbered:
      the technology comes from the second folder. */
  lemma UnnumberedSegments(segs: seq<string>, cat: string, tech: string, chap: string, n: nat)
    requires |segs| >= 4 && !StartsWithDigit(segs[0]) && StripOrderPrefix(segs[0]) == cat
    requires StripOrderPrefix(segs[1]) == tech && StripOrderPrefix(segs[2]) == chap
    requires ParseOrder(segs[|segs| - 1]) == n
    ensures DeriveFromSegments(segs) == Derived(cat, DropSuffix(tech, ".md"), chap, n)
  {
  }

  /** Layout with an unnumbered first folder, "<cat>/<d2> <tech>/<d3> <chap>/.../<d4>.<rest>":
      the category is the first folder, the technology the second folder's
      name (less one trailing ".md"), the chapter the third folder's name
      and the order the file's number. */
  lemma UnnumberedPath(parts: seq<string>, sep: char, cat: string, d2: string, w2: string, tech: string,
                       d3: string, w3: string, chap: string, d4: string, c: char, rest: string)
    requires |parts| >= 4 && PathParts(parts, sep)
    requires parts[0] == cat && parts[1] == d2 + w2 + tech && parts[2] == d3 + w3 + chap
    requires parts[|parts| - 1] == d4 + [c] + rest
    requires !IsDigit(cat[0]) && IsTrimmed(cat)
    requires OrderPrefixed(d2, w2, tech) && OrderPrefixed(d3, w3, chap) && OrderedFileName(d4, c)
    ensures DeriveFromPath(Join(parts, [sep]), sep) == Derived(cat, DropSuffix(tech, ".md"), chap, DigitsValue(d4))
  {
    SegmentsOfJoin(parts, sep);
    UnnumberedNames(parts, cat, d2, w2, tech, d3, w3, chap, d4, c, rest);
    UnnumberedSegments(parts, cat, tech, chap, DigitsValue(d4));
  }

  lemma UnnumberedNames(parts: seq<string>, cat: string, d2: string, w2: string, tech: string,
                        d3: string, w3: string, chap: string, d4: string, c: char, rest: string)
    requires |parts| >= 4
    requires parts[0] == cat && parts[1] == d2 + w2 + tech && parts[2] == d3 + w3 + chap
    requires parts[|parts| - 1] == d4 + [c] + rest
    requires cat != [] && !IsDigit(cat[0]) && IsTrimmed(cat)
    requires OrderPrefixed(d2, w2, tech) && OrderPrefixed(d3, w3, chap) && OrderedFileName(d4, c)
    ensures !StartsWithDigit(parts[0]) && StripOrderPrefix(parts[0]) == cat
    ensures StripOrderPrefix(parts[1]) == tech && StripOrderPrefix(parts[2]) == chap
    ensures ParseOrder(parts[|parts| - 1]) == DigitsValue(d4)
  {
    NoLeadingDigitNoPrefix(cat);
    TrimTrimmed(cat);
    StripPrefixed(d2, w2, tech);
    StripPrefixed(d3, w3, chap);
    ParseDigitsSeparator(d4, c, rest);
  }

  /** A folder and a file split back into the two. */
  lemma FolderFileSegments(folder: string, file: string, sep: char)
    requires PathParts([folder, file], sep)
    ensures var segs := Segments(Join([folder, file], [sep]), sep);
      |segs| == 2 && segs[0] == folder && segs[1] == file
  {
    SegmentsOfJoin([folder, file], sep);
  }

  /** A file directly under a numbered folder, "<d1> <cat>/<d2>.<rest>":
      category and technology come from the folder, there is no chapter,
      and the order is the file's number. */
  lemma NumberedFolderFile(d1: string, w1: string, cat: string, d2: string, c: char, rest: string, sep: char)
    requires OrderPrefixed(d1, w1, cat) && OrderedFileName(d2, c)
    requires PathParts([d1 + w1 + cat, d2 + [c] + rest], sep)
    ensures var d := DeriveFromPath(Join([d1 + w1 + cat, d2 + [c] + rest], [sep]), sep);
      d == Derived(cat, DropSuffix(cat, ".md"), "", DigitsValue(d2))
  {
    var folder, file := d1 + w1 + cat, d2 + [c] + rest;
    FolderFileSegments(folder, file, sep);
    assert StartsWithDigit(folder);
    StripPrefixed(d1, w1, cat);
    ParseDigitsSeparator(d2, c, rest);
    NoLeadingDigitNoPrefix("");
    TrimTrimmed("");
  }

  /** Numbered nested layout ("100 Git/..."): the technology is the
      category, give or take a trailing ".md". */
  lemma NumberedLayoutTechnology(relPath: string, sep: char)
    requires |Segments(relPath, sep)| >= 2 && StartsWithDigit(Segments(relPath, sep)[0])
    ensures DeriveFromPath(relPath, sep).technology
         == DropSuffix(DeriveFromPath(relPath, sep).category, ".md")
  {
  }

  /** A single segment is category, technology and file at once. */
  lemma SingleSegment(relPath: string, sep: char)
    requires |Segments(relPath, sep)| == 1
    ensures var d := DeriveFromPath(relPath, sep);
      var s := Segments(relPath, sep)[0];
      d.category == StripOrderPrefix(s) && d.technology == DropSuffix(d.category, ".md")
      && d.chapter == "" && d.order == ParseOrder(s)
  {
  }

  /** A path with no nonempty segment derives empty values and order 0. */
  lemma EmptyPath(relPath: string, sep: char)
    requires Segments(relPath, sep) == []
    ensures DeriveFromPath(relPath, sep) == Derived("", "", "", 0)
  {
    TrimTrimmed("");
    assert !HasOrderPrefix("");
  }

  lemma NoSegmentsInEmptyPath(sep: char)
    ensures Segments("", sep) == []
  {
  }

  // Mapping table normalisation (`loadCategoryMapping` after the file read and `yaml.load`).

  /** The table the loop walks: `(parsed ?? {}).specialtyByCategory ?? parsed`.
      `Null` stands for both `null` and `undefined` of an empty document.
      Only a plain object can carry a `specialtyByCategory` property. */
  function MappingSource(parsed: Value): (v: Value)
    ensures parsed == Null ==> v == Obj([])
  {
    var root := if parsed == Null then Obj([]) else parsed;
    match root
    case Obj(fs) =>
      (match Get(fs, "specialtyByCategory")
       case Some(table) => if table == Null then root else table
       case None => root)
    case _ => root
  }

  /** `Object.entries`: the fields of an object, index keys for an array or
      a string, and nothing for numbers, booleans and other objects. */
  function Entries(v: Value): (es: seq<(string, Value)>)
    ensures v.Obj? ==> es == v.fields
    ensures v.Arr? ==> |es| == |v.items| && forall i :: 0 <= i < |es| ==> es[i] == (DecimalString(i), v.items[i])
    ensures v.Str? ==> |es| == |v.s| && forall i :: 0 <= i < |es| ==> es[i] == (DecimalString(i), Str([v.s[i]]))
    ensures !v.Obj? && !v.Arr? && !v.Str? ==> es == []
  {
    match v
    case Obj(fs) => fs
    case Arr(items) => seq(|items|, i requires 0 <= i < |items| => (DecimalString(i), items[i]))
    case Str(s) => seq(|s|, i requires 0 <= i < |s| => (DecimalString(i), Str([s[i]])))
    case _ => []
  }

  /** What one table entry contributes: a string is kept, an object with a
      string `specialty` gives that string, anything else is dropped. */
  function SpecialtyOf(v: Value): (r: Option<string>)
    ensures r.Some? <==> v.Str? || (v.Obj? && exists s :: Get(v.fields, "specialty") == Some(Str(s)))
    ensures v.Str? ==> r == Some(v.s)
    ensures v.Obj? && r.Some? ==> Get(v.fields, "specialty") == Some(Str(r.value))
  {
    match v
    case Str(s) => Some(s)
    case Obj(fs) =>
      var config: Option<Value> := Get(fs, "specialty");
      if config.Some? && config.value.Str? then Some(config.value.s) else None
    case _ => None
  }

  /** The normalisation loop of `loadCategoryMapping`: every output key is an
      input key whose entry contributes that value, every contributing entry
      is in the output, and, keys being unique, with its own value. */
  method LoadCategoryMapping(parsed: Value) returns (result: map<string, string>)
    ensures var es := Entries(MappingSource(parsed));
      forall k :: k in result ==>
        exists j :: 0 <= j < |es| && es[j].0 == k && SpecialtyOf(es[j].1) == Some(result[k])
    ensures var es := Entries(MappingSource(parsed));
      forall j :: 0 <= j < |es| && SpecialtyOf(es[j].1).Some? ==> es[j].0 in result
    ensures var es := Entries(MappingSource(parsed));
      UniqueKeys(es) ==>
        forall j :: 0 <= j < |es| && SpecialtyOf(es[j].1).Some? ==> result[es[j].0] == SpecialtyOf(es[j].1).value
  {
    var es := Entries(MappingSource(parsed));
    result := map[];
    var i := 0;
    while i < |es|
      invariant 0 <= i <= |es|
      invariant forall k :: k in result ==>
        exists j :: 0 <= j < i && es[j].0 == k && SpecialtyOf(es[j].1) == Some(result[k])
      invariant forall j :: 0 <= j < i && SpecialtyOf(es[j].1).Some? ==> es[j].0 in result
      invariant UniqueKeys(es) ==>
        forall j :: 0 <= j < i && SpecialtyOf(es[j].1).Some? ==> result[es[j].0] == SpecialtyOf(es[j].1).value
    {
      var (key, value) := es[i];
      match SpecialtyOf(value) {
        case Some(s) => result := result[key := s];
        case None =>
      }
      i := i + 1;
    }
  }

  /** The legacy layout: a non-null `specialtyByCategory` table is used instead of the root. */
  lemma LegacyTableUsed(fs: seq<(string, Value)>, table: Value)
    requires Get(fs, "specialtyByCategory") == Some(table) && table != Null
    ensures MappingSource(Obj(fs)) == table
  {
  }

  /** The current layout: without that key, or with it null, the root is the table. */
  lemma RootTableUsed(fs: seq<(string, Value)>)
    requires Get(fs, "specialtyByCategory").None? || Get(fs, "specialtyByCategory") == Some(Null)
    ensures MappingSource(Obj(fs)) == Obj(fs)
  {
  }

  /** An empty document yields no entries, hence an empty mapping. */
  lemma EmptyDocumentNoEntries()
    ensures Entries(MappingSource(Null)) == []
  {
  }

  lemma DecimalStringInjective(m: nat, n: nat)
    ensures DecimalString(m) == DecimalString(n) ==> m == n
  {
  }

  /** The index keys `Object.entries` gives an array or string are distinct. */
  lemma IndexEntriesUnique(v: Value)
    requires !v.Obj?
    ensures UniqueKeys(Entries(v))
  {
    var es := Entries(v);
    forall i, j | 0 <= i < j < |es| ensures es[i].0 != es[j].0 {
      DecimalStringInjective(i, j);
    }
  }

  /** `mapping[derived.technology]`, `undefined` for a technology the table does not list. */
  function SpecialtyFor(mapping: map<string, string>, technology: string): (r: Option<string>)
    ensures r.Some? <==> technology in mapping
    ensures r.Some? ==> r.value == mapping[technology]
  {
    if technology in mapping then Some(mapping[technology]) else None
  }

  /** `!specialty` for the lookup result, a `string | undefined`. */
  predicate IsFalsy(specialty: Option<string>) {
    specialty.None? || specialty.value == ""
  }
}
