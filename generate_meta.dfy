/** The metadata generator (scripts/frontmatter/lib/generate-meta.ts): the
    fill rule of `updateFile`, which gives a document a `uid` and a
    `created_at` when it lacks them and then stamps `updated_at`, and the
    pick of the first commit date from `git log` output. The generated id,
    the git output and the current time are parameters. */
module MetaGeneration {
  import opened Values
  import opened Strings
  import opened StagedFiles
  import opened KeyOrdering

  const UidKey: string := "uid"
  const CreatedAtKey: string := "created_at"
  const UpdatedAtKey: string := "updated_at"

  /** `updateFile` changes the document exactly when one of the two
      generated keys is absent. */
  predicate NeedsMeta(data: Record) {
    !HasKey(data, UidKey) || !HasKey(data, CreatedAtKey)
  }

  /** `createdAt ?? nowIso`. */
  function CreatedAtOrNow(createdAt: Option<string>, nowIso: string): string {
    if createdAt.Some? then createdAt.value else nowIso
  }

  /** The record `updateFile` ends with, for the id `uid` it would generate
      and the date `createdAt` that `getCreatedAt` would return. */
  function WithMeta(data: Record, uid: string, createdAt: Option<string>, nowIso: string): Record {
    var withUid := if HasKey(data, UidKey) then data else Set(data, UidKey, Str(uid));
    var withCreated :=
      if HasKey(data, CreatedAtKey) then withUid
      else Set(withUid, CreatedAtKey, Str(CreatedAtOrNow(createdAt, nowIso)));
    if NeedsMeta(data) then Set(withCreated, UpdatedAtKey, Str(nowIso)) else withCreated
  }

  /** Setting another key leaves the answer of `in` alone. */
  lemma SetHasOther(r: Record, k: string, v: Value, k': string)
    requires k' != k
    ensures HasKey(Set(r, k, v), k') <==> HasKey(r, k')
  {
    KeysAppend(r, [(k, v)]);
  }

  /** The fill rule of `updateFile` on the parsed frontmatter: `next` is the
      record it writes (before ordering), `changed` its result, and
      `written` the frontmatter handed to the serializer, if any. */
  method UpdateFile(data: Record, uid: string, createdAt: Option<string>, nowIso: string)
    returns (next: Record, changed: bool, written: Option<Record>)
    ensures changed <==> !HasKey(data, UidKey) || !HasKey(data, CreatedAtKey)
    ensures next == WithMeta(data, uid, createdAt, nowIso)
    ensures written == if changed then Some(Ordered(next)) else None
  {
    next := data;
    changed := false;
    if !HasKey(next, UidKey) {
      next := Set(next, UidKey, Str(uid));
      changed := true;
    }
    SetHasOther(data, UidKey, Str(uid), CreatedAtKey);
    if !HasKey(next, CreatedAtKey) {
      next := Set(next, CreatedAtKey, Str(CreatedAtOrNow(createdAt, nowIso)));
      changed := true;
    }
    if changed {
      next := Set(next, UpdatedAtKey, Str(nowIso));
      var ordered := OrderFrontmatter(next);
      written := Some(ordered);
    } else {
      written := None;
    }
  }

  /** An existing `uid` is never replaced; an absent one becomes the generated id. */
  lemma MetaUid(data: Record, uid: string, createdAt: Option<string>, nowIso: string)
    ensures Get(WithMeta(data, uid, createdAt, nowIso), UidKey)
         == if HasKey(data, UidKey) then Get(data, UidKey) else Some(Str(uid))
  {
    MetaGet(data, uid, createdAt, nowIso, UidKey);
  }

  /** An existing `created_at` is kept; an absent one becomes the git date,
      or the current time when git gives none. */
  lemma MetaCreatedAt(data: Record, uid: string, createdAt: Option<string>, nowIso: string)
    ensures Get(WithMeta(data, uid, createdAt, nowIso), CreatedAtKey)
         == if HasKey(data, CreatedAtKey) then Get(data, CreatedAtKey)
            else Some(Str(CreatedAtOrNow(createdAt, nowIso)))
  {
    MetaGet(data, uid, createdAt, nowIso, CreatedAtKey);
  }

  /** A changed document is stamped with the current time, whatever
      `updated_at` held before. */
  lemma MetaUpdatedAt(data: Record, uid: string, createdAt: Option<string>, nowIso: string)
    requires NeedsMeta(data)
    ensures Get(WithMeta(data, uid, createdAt, nowIso), UpdatedAtKey) == Some(Str(nowIso))
  {
    MetaGet(data, uid, createdAt, nowIso, UpdatedAtKey);
  }

  /** Every other key keeps its value. */
  lemma MetaOthers(data: Record, uid: string, createdAt: Option<string>, nowIso: string, k: string)
    requires k != UidKey && k != CreatedAtKey && k != UpdatedAtKey
    ensures Get(WithMeta(data, uid, createdAt, nowIso), k) == Get(data, k)
  {
    MetaGet(data, uid, createdAt, nowIso, k);
  }

  /** The value of every key after the fill rule, by the three steps. */
  lemma MetaGet(data: Record, uid: string, createdAt: Option<string>, nowIso: string, k: string)
    ensures Get(WithMeta(data, uid, createdAt, nowIso), k) ==
      if k == UpdatedAtKey && NeedsMeta(data) then Some(Str(nowIso))
      else if k == CreatedAtKey && !HasKey(data, CreatedAtKey) then Some(Str(CreatedAtOrNow(createdAt, nowIso)))
      else if k == UidKey && !HasKey(data, UidKey) then Some(Str(uid))
      else Get(data, k)
  {
    var withUid := if HasKey(data, UidKey) then data else Set(data, UidKey, Str(uid));
    if !HasKey(data, UidKey) {
      SetGet(data, UidKey, Str(uid));
    }
    var withCreated :=
      if HasKey(data, CreatedAtKey) then withUid
      else Set(withUid, CreatedAtKey, Str(CreatedAtOrNow(createdAt, nowIso)));
    if !HasKey(data, CreatedAtKey) {
      SetGet(withUid, CreatedAtKey, Str(CreatedAtOrNow(createdAt, nowIso)));
    }
    if NeedsMeta(data) {
      SetGet(withCreated, UpdatedAtKey, Str(nowIso));
    }
  }

  /** The keys of `data` keep their places; the generated keys follow them. */
  lemma MetaKeysExtend(data: Record, uid: string, createdAt: Option<string>, nowIso: string)
    ensures var next := WithMeta(data, uid, createdAt, nowIso);
      |data| <= |next| && KeysOf(next)[..|data|] == KeysOf(data)
  {
    var withUid := if HasKey(data, UidKey) then data else Set(data, UidKey, Str(uid));
    var withCreated :=
      if HasKey(data, CreatedAtKey) then withUid
      else Set(withUid, CreatedAtKey, Str(CreatedAtOrNow(createdAt, nowIso)));
    var next := WithMeta(data, uid, createdAt, nowIso);
    assert KeysOf(withUid)[..|data|] == KeysOf(data);
    assert KeysOf(withCreated)[..|withUid|] == KeysOf(withUid);
    assert KeysOf(next)[..|withCreated|] == KeysOf(withCreated);
  }

  /** `changed` is true exactly when the record really changes: a document
      that has both keys is left exactly as it was. */
  lemma MetaChangedIff(data: Record, uid: string, createdAt: Option<string>, nowIso: string)
    ensures NeedsMeta(data) <==> WithMeta(data, uid, createdAt, nowIso) != data
  {
    if NeedsMeta(data) {
      var next := WithMeta(data, uid, createdAt, nowIso);
      MetaGet(data, uid, createdAt, nowIso, UidKey);
      MetaGet(data, uid, createdAt, nowIso, CreatedAtKey);
      assert Get(next, UidKey) != Get(data, UidKey) || Get(next, CreatedAtKey) != Get(data, CreatedAtKey);
    }
  }

  /** A second run changes nothing, whatever id, git date and time it is given. */
  lemma MetaIdempotent(data: Record, uid: string, createdAt: Option<string>, nowIso: string,
                       uid': string, createdAt': Option<string>, nowIso': string)
    ensures var next := WithMeta(data, uid, createdAt, nowIso);
      !NeedsMeta(next) && WithMeta(next, uid', createdAt', nowIso') == next
  {
    var next := WithMeta(data, uid, createdAt, nowIso);
    MetaGet(data, uid, createdAt, nowIso, UidKey);
    MetaGet(data, uid, createdAt, nowIso, CreatedAtKey);
    assert HasKey(next, UidKey) && HasKey(next, CreatedAtKey);
  }

  /** The written frontmatter holds the same entries as the filled record,
      less any key named like an `Object.prototype` property. */
  lemma WrittenSameEntries(data: Record, uid: string, createdAt: Option<string>, nowIso: string, k: string)
    ensures Get(Ordered(WithMeta(data, uid, createdAt, nowIso)), k)
         == if InheritedKey(k) then None else Get(WithMeta(data, uid, createdAt, nowIso), k)
  {
    OrderedSameEntries(WithMeta(data, uid, createdAt, nowIso), k);
  }

  /** `.find((value) => value.trim().length > 0)`: the first line that is not blank. */
  function FirstNonBlank(lines: seq<string>): (line: Option<string>)
    ensures line.None? <==> forall i :: 0 <= i < |lines| ==> Trim(lines[i]) == []
    ensures line.Some? ==> exists i :: 0 <= i < |lines| && lines[i] == line.value && Trim(line.value) != []
                                       && forall j :: 0 <= j < i ==> Trim(lines[j]) == []
  {
    if |lines| == 0 then None
    else if Trim(lines[0]) != [] then Some(lines[0])
    else
      var rest := FirstNonBlank(lines[1..]);
      FirstNonBlankStep(lines, rest);
      rest
  }

  lemma FirstNonBlankStep(lines: seq<string>, rest: Option<string>)
    requires |lines| > 0 && Trim(lines[0]) == []
    requires rest.None? <==> forall i :: 0 <= i < |lines| - 1 ==> Trim(lines[1..][i]) == []
    requires rest.Some? ==> exists i :: 0 <= i < |lines| - 1 && lines[1..][i] == rest.value && Trim(rest.value) != []
                                        && forall j :: 0 <= j < i ==> Trim(lines[1..][j]) == []
    ensures rest.None? <==> forall i :: 0 <= i < |lines| ==> Trim(lines[i]) == []
    ensures rest.Some? ==> exists i :: 0 <= i < |lines| && lines[i] == rest.value && Trim(rest.value) != []
                                       && forall j :: 0 <= j < i ==> Trim(lines[j]) == []
  {
    if rest.None? {
      forall i | 0 <= i < |lines| ensures Trim(lines[i]) == [] {
        if i > 0 {
          assert lines[i] == lines[1..][i - 1];
        }
      }
    } else {
      var i :| 0 <= i < |lines| - 1 && lines[1..][i] == rest.value && Trim(rest.value) != []
                && forall j :: 0 <= j < i ==> Trim(lines[1..][j]) == [];
      assert lines[i + 1] == rest.value;
      forall j | 0 <= j < i + 1 ensures Trim(lines[j]) == [] {
        if j > 0 {
          assert lines[j] == lines[1..][j - 1];
        }
      }
    }
    if exists i :: 0 <= i < |lines| && Trim(lines[i]) != [] {
      var i :| 0 <= i < |lines| && Trim(lines[i]) != [];
      assert i > 0 && lines[1..][i - 1] == lines[i];
    }
  }

  /** `getCreatedAt` after the git call: the first nonblank line of the
      output, trimmed, or null. A failed git call also gives null, which is
      the `None` a caller passes as `createdAt`. */
  function CreatedAtFromLog(stdout: string): (date: Option<string>)
  {
    var line := FirstNonBlank(Lines(stdout));
    if line.Some? then Some(Trim(line.value)) else None
  }

  /** The picked date is the trimmed first nonblank line; there is none only
      when every line is blank. */
  lemma CreatedAtPick(stdout: string)
    ensures var date := CreatedAtFromLog(stdout);
      && (date.None? <==> forall i :: 0 <= i < |Lines(stdout)| ==> Trim(Lines(stdout)[i]) == [])
      && (date.Some? ==>
            && date.value != [] && IsTrimmed(date.value)
            && exists i :: 0 <= i < |Lines(stdout)| && date.value == Trim(Lines(stdout)[i])
                 && forall j :: 0 <= j < i ==> Trim(Lines(stdout)[j]) == [])
  {
    var lines := Lines(stdout);
    var line := FirstNonBlank(lines);
    if line.Some? {
      var i :| 0 <= i < |lines| && lines[i] == line.value && Trim(line.value) != []
               && forall j :: 0 <= j < i ==> Trim(lines[j]) == [];
      assert CreatedAtFromLog(stdout).value == Trim(lines[i]);
    }
  }

  /** The date `updateFile` stores for a document without `created_at` is
      never empty when the current time is not: a picked date is a nonblank line. */
  lemma CreatedAtNonEmpty(stdout: string, nowIso: string)
    requires nowIso != []
    ensures CreatedAtOrNow(CreatedAtFromLog(stdout), nowIso) != []
  {
    CreatedAtPick(stdout);
  }
}
