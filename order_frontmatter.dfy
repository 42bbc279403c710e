/** `orderFrontmatter` (scripts/frontmatter/helpers/orderFrontmatter/orderFrontmatter.ts):
    the schema keys present in a record, in `FIELD_DEFS` order, then every
    other key in its original order, except the keys that `!(key in ordered)`
    rejects because `ordered` inherits them from `Object.prototype`. */
module KeyOrdering {
  import opened Seqs
  import opened Values
  import opened Constants

  /** The entry of `data` under `key`, if `data` has one. */
  function EntryFor(key: string, data: Record): (e: seq<(string, Value)>)
    ensures |e| <= 1
    ensures e != [] <==> HasKey(data, key)
    ensures e != [] ==> e[0].0 == key && Get(data, key) == Some(e[0].1)
  {
    var v: Option<Value> := Get(data, key);
    if v.Some? then [(key, v.value)] else []
  }

  /** The entries of `data` under `keys`, in the order of `keys`
      (what the first loop collects). */
  function SchemaEntries(keys: seq<string>, data: Record): (r: seq<(string, Value)>)
    ensures forall k :: HasKey(r, k) <==> k in keys && HasKey(data, k)
    ensures forall i :: 0 <= i < |r| ==> r[i].0 in keys && Get(data, r[i].0) == Some(r[i].1)
    ensures NoDup(keys) ==> UniqueKeys(r)
    ensures Subseq(KeysOf(r), keys)
  {
    if |keys| == 0 then []
    else
      var head := EntryFor(keys[0], data);
      var rest := SchemaEntries(keys[1..], data);
      StepKeys(keys, data, head, rest);
      StepValues(keys, data, head, rest);
      StepUnique(keys, data, head, rest);
      StepOrder(keys, data, head, rest);
      head + rest
  }

  lemma StepKeys(keys: seq<string>, data: Record, head: seq<(string, Value)>, rest: seq<(string, Value)>)
    requires |keys| > 0 && head == EntryFor(keys[0], data)
    requires forall k :: HasKey(rest, k) <==> k in keys[1..] && HasKey(data, k)
    ensures forall k :: HasKey(head + rest, k) <==> k in keys && HasKey(data, k)
  {
    KeysAppend(head, rest);
    assert keys == [keys[0]] + keys[1..];
  }

  lemma StepValues(keys: seq<string>, data: Record, head: seq<(string, Value)>, rest: seq<(string, Value)>)
    requires |keys| > 0 && head == EntryFor(keys[0], data)
    requires forall i :: 0 <= i < |rest| ==> rest[i].0 in keys[1..] && Get(data, rest[i].0) == Some(rest[i].1)
    ensures forall i :: 0 <= i < |head + rest| ==>
      (head + rest)[i].0 in keys && Get(data, (head + rest)[i].0) == Some((head + rest)[i].1)
  {
    assert keys == [keys[0]] + keys[1..];
    forall i | 0 <= i < |head + rest|
      ensures (head + rest)[i].0 in keys && Get(data, (head + rest)[i].0) == Some((head + rest)[i].1)
    {
      if i >= |head| {
        assert (head + rest)[i] == rest[i - |head|];
      }
    }
  }

  lemma StepUnique(keys: seq<string>, data: Record, head: seq<(string, Value)>, rest: seq<(string, Value)>)
    requires |keys| > 0 && head == EntryFor(keys[0], data)
    requires forall k :: HasKey(rest, k) <==> k in keys[1..] && HasKey(data, k)
    requires NoDup(keys[1..]) ==> UniqueKeys(rest)
    ensures NoDup(keys) ==> UniqueKeys(head + rest)
  {
    if NoDup(keys) {
      assert NoDup(keys[1..]) by {
        forall i, j | 0 <= i < j < |keys| - 1 ensures keys[1..][i] != keys[1..][j] {
          assert keys[1..][i] == keys[i + 1] && keys[1..][j] == keys[j + 1];
        }
      }
      if head != [] {
        var r := head + rest;
        assert keys[0] !in keys[1..] by {
          forall j | 0 <= j < |keys| - 1 ensures keys[1..][j] != keys[0] {
            assert keys[1..][j] == keys[j + 1];
          }
        }
        assert !HasKey(rest, keys[0]);
        forall i, j | 0 <= i < j < |r| ensures r[i].0 != r[j].0 {
          assert r[j] == rest[j - 1];
          assert rest[j - 1].0 in KeysOf(rest);
          if i > 0 {
            assert r[i] == rest[i - 1];
          }
        }
      } else {
        assert head + rest == rest;
      }
    }
  }

  lemma StepOrder(keys: seq<string>, data: Record, head: seq<(string, Value)>, rest: seq<(string, Value)>)
    requires |keys| > 0 && head == EntryFor(keys[0], data)
    requires Subseq(KeysOf(rest), keys[1..])
    ensures Subseq(KeysOf(head + rest), keys)
  {
    KeysAppend(head, rest);
    assert keys == [keys[0]] + keys[1..];
    if head != [] {
      assert KeysOf(head) == [keys[0]];
      SubseqCons(keys[0], KeysOf(rest), keys[1..]);
    } else {
      assert KeysOf(head) + KeysOf(rest) == KeysOf(rest);
      SubseqPrepend(KeysOf(rest), keys[0], keys[1..]);
    }
  }

  /** Whether the second loop skips key `k`: it is already placed, or
      `ordered` inherits it. */
  predicate Skipped(schema: seq<string>, k: string) {
    k in schema || InheritedKey(k)
  }

  /** The entries of `r` whose key is outside `schema` and not inherited,
      in order (what the second loop adds). */
  function ExtraEntries(schema: seq<string>, r: seq<(string, Value)>): (e: seq<(string, Value)>)
    ensures forall x :: x in e <==> x in r && !Skipped(schema, x.0)
    ensures Subseq(e, r)
  {
    if |r| == 0 then []
    else
      var rest := ExtraEntries(schema, r[1..]);
      assert r == [r[0]] + r[1..];
      SubseqPrepend(rest, r[0], r[1..]);
      if !Skipped(schema, r[0].0) then
        assert ([r[0]] + rest)[1..] == rest;
        [r[0]] + rest
      else rest
  }

  /** The keys the second loop adds are the record's keys it does not skip. */
  lemma ExtraKeys(schema: seq<string>, r: seq<(string, Value)>)
    ensures forall k :: HasKey(ExtraEntries(schema, r), k) <==> HasKey(r, k) && !Skipped(schema, k)
  {
    var e := ExtraEntries(schema, r);
    forall k ensures HasKey(e, k) <==> HasKey(r, k) && !Skipped(schema, k) {
      if HasKey(e, k) {
        var i := IndexOf(e, k);
        assert e[i] in e;
        var j :| 0 <= j < |r| && r[j] == e[i];
        assert KeysOf(r)[j] == k;
      }
      if HasKey(r, k) && !Skipped(schema, k) {
        var j := IndexOf(r, k);
        assert r[j] in r;
        var i :| 0 <= i < |e| && e[i] == r[j];
        assert KeysOf(e)[i] == k;
      }
    }
  }

  /** A key order whose keys a plain object does not inherit, as
      `Object.keys(FIELD_DEFS)` is (`FieldKeysOwn`): for them the first
      loop's `key in data` asks for an own key. */
  predicate OwnKeyNames(schema: seq<string>) {
    forall k :: k in schema ==> !InheritedKey(k)
  }

  /** The record `orderFrontmatter` builds for a key order `schema`. */
  function OrderBy(schema: seq<string>, data: Record): (o: Record)
    requires NoDup(schema) && OwnKeyNames(schema)
  {
    var s := SchemaEntries(schema, data);
    var e := ExtraEntries(schema, data);
    SubseqUniqueKeys(e, data);
    ExtraKeys(schema, data);
    AppendUnique(s, e);
    s + e
  }

  /** The record `orderFrontmatter` returns: the `FIELD_DEFS` order. */
  function Ordered(data: Record): (o: Record)
  {
    FieldKeysNoDup();
    FieldKeysOwn();
    OrderBy(FieldKeys(), data)
  }

  /** One step of the first loop: the next schema key is new, and its entry
      (when `data` has the key) goes last. */
  lemma SchemaStep(schema: seq<string>, i: nat, data: Record)
    requires NoDup(schema) && i < |schema|
    ensures SchemaEntries(schema[..i + 1], data) == SchemaEntries(schema[..i], data) + EntryFor(schema[i], data)
    ensures !HasKey(SchemaEntries(schema[..i], data), schema[i])
  {
    assert schema[..i + 1] == schema[..i] + [schema[i]];
    SchemaEntriesSnoc(schema[..i], schema[i], data);
    assert schema[i] !in schema[..i];
  }

  lemma {:induction false} SchemaEntriesSnoc(fs: seq<string>, f: string, data: Record)
    ensures SchemaEntries(fs + [f], data) == SchemaEntries(fs, data) + EntryFor(f, data)
    decreases |fs|
  {
    var g := fs + [f];
    if |fs| == 0 {
      assert g[1..] == [];
      assert SchemaEntries(g, data) == EntryFor(f, data) + [];
    } else {
      assert g[1..] == fs[1..] + [f];
      assert g[0] == fs[0];
      SchemaEntriesSnoc(fs[1..], f, data);
      var h := EntryFor(fs[0], data);
      assert SchemaEntries(g, data) == h + SchemaEntries(g[1..], data);
      assert SchemaEntries(fs, data) == h + SchemaEntries(fs[1..], data);
      AppendAssoc(h, SchemaEntries(fs[1..], data), EntryFor(f, data));
    }
  }

  lemma {:induction false} ExtraEntriesSnoc(schema: seq<string>, r: seq<(string, Value)>, x: (string, Value))
    ensures ExtraEntries(schema, r + [x]) == ExtraEntries(schema, r) + (if Skipped(schema, x.0) then [] else [x])
    decreases |r|
  {
    if |r| == 0 {
      assert ([] + [x])[1..] == [];
    } else {
      assert (r + [x])[1..] == r[1..] + [x];
      assert (r + [x])[0] == r[0];
      ExtraEntriesSnoc(schema, r[1..], x);
    }
  }

  /** One step of the second loop: only a key it does not skip extends
      the extra entries. */
  lemma ExtraStepEntries(schema: seq<string>, data: Record, j: nat)
    requires j < |data|
    ensures ExtraEntries(schema, data[..j + 1])
         == ExtraEntries(schema, data[..j]) + (if Skipped(schema, data[j].0) then [] else [data[j]])
  {
    assert data[..j + 1] == data[..j] + [data[j]];
    ExtraEntriesSnoc(schema, data[..j], data[j]);
  }

  /** One step of the second loop: the key of `data[j]` is already in the
      record being built exactly when it is a schema key. */
  lemma ExtraStepKey(schema: seq<string>, data: Record, j: nat)
    requires j < |data|
    ensures HasKey(SchemaEntries(schema, data) + ExtraEntries(schema, data[..j]), data[j].0)
        <==> data[j].0 in schema
  {
    var key := data[j].0;
    var s := SchemaEntries(schema, data);
    var e := ExtraEntries(schema, data[..j]);
    KeysAppend(s, e);
    assert HasKey(data, key) by { assert KeysOf(data)[j] == key; }
    assert HasKey(s, key) <==> key in schema;
    EarlierKeysDiffer(data, j);
    ExtraKeys(schema, data[..j]);
    assert !HasKey(e, key);
  }

  /** In a record, the key at `j` is not among the keys before it. */
  lemma EarlierKeysDiffer(data: Record, j: nat)
    requires j < |data|
    ensures !HasKey(data[..j], data[j].0)
  {
  }

  /** The first loop's body applied to the record built so far. */
  lemma SchemaLoopStep(schema: seq<string>, i: nat, data: Record, ordered: Record)
    requires NoDup(schema) && i < |schema|
    requires ordered == SchemaEntries(schema[..i], data)
    ensures HasKey(data, schema[i]) ==>
      Set(ordered, schema[i], Get(data, schema[i]).value) == SchemaEntries(schema[..i + 1], data)
    ensures !HasKey(data, schema[i]) ==> ordered == SchemaEntries(schema[..i + 1], data)
  {
    SchemaStep(schema, i, data);
    if HasKey(data, schema[i]) {
      SetNew(ordered, schema[i], Get(data, schema[i]).value);
    }
  }

  /** The second loop's body, for a key not `in` the record built so far:
      the entry is appended. */
  lemma ExtraLoopAdd(schema: seq<string>, data: Record, j: nat, ordered: Record)
    requires j < |data|
    requires ordered == SchemaEntries(schema, data) + ExtraEntries(schema, data[..j])
    requires !In(ordered, data[j].0)
    ensures Set(ordered, data[j].0, Get(data, data[j].0).value)
         == SchemaEntries(schema, data) + ExtraEntries(schema, data[..j + 1])
  {
    GetAt(data, j);
    SetNew(ordered, data[j].0, data[j].1);
    ExtraLoopAppend(schema, data, j, ordered);
  }

  lemma ExtraLoopAppend(schema: seq<string>, data: Record, j: nat, ordered: seq<(string, Value)>)
    requires j < |data|
    requires ordered == SchemaEntries(schema, data) + ExtraEntries(schema, data[..j])
    requires !In(ordered, data[j].0)
    ensures ordered + [data[j]] == SchemaEntries(schema, data) + ExtraEntries(schema, data[..j + 1])
  {
    ExtraStepKey(schema, data, j);
    ExtraStepEntries(schema, data, j);
    AppendAssoc(SchemaEntries(schema, data), ExtraEntries(schema, data[..j]), [data[j]]);
  }

  /** The second loop's body, for a key already placed or inherited:
      nothing changes. */
  lemma ExtraLoopKeep(schema: seq<string>, data: Record, j: nat, ordered: seq<(string, Value)>)
    requires j < |data|
    requires ordered == SchemaEntries(schema, data) + ExtraEntries(schema, data[..j])
    requires In(ordered, data[j].0)
    ensures ordered == SchemaEntries(schema, data) + ExtraEntries(schema, data[..j + 1])
  {
    ExtraStepKey(schema, data, j);
    ExtraStepEntries(schema, data, j);
    AppendEmpty(ExtraEntries(schema, data[..j]));
  }

  /** The two loops of `orderFrontmatter` over a fresh `ordered` record,
      for the key order `fieldOrder`. */
  method OrderBySchema(fieldOrder: seq<string>, data: Record) returns (ordered: Record)
    requires NoDup(fieldOrder) && OwnKeyNames(fieldOrder)
    ensures ordered == OrderBy(fieldOrder, data)
  {
    ordered := [];
    var i := 0;
    while i < |fieldOrder|
      invariant 0 <= i <= |fieldOrder|
      invariant ordered == SchemaEntries(fieldOrder[..i], data)
    {
      var key := fieldOrder[i];
      SchemaLoopStep(fieldOrder, i, data, ordered);
      if HasKey(data, key) {
        ordered := Set(ordered, key, Get(data, key).value);
      }
      i := i + 1;
    }
    assert fieldOrder[..i] == fieldOrder;
    ghost var schema := ordered;
    assert schema == SchemaEntries(fieldOrder, data);
    var keys := KeysOf(data);
    var j := 0;
    while j < |keys|
      invariant 0 <= j <= |keys|
      invariant ordered == schema + ExtraEntries(fieldOrder, data[..j])
    {
      var key := keys[j];
      assert key == data[j].0;
      if !In(ordered, key) {
        ExtraLoopAdd(fieldOrder, data, j, ordered);
        ordered := Set(ordered, key, Get(data, key).value);
      } else {
        ExtraLoopKeep(fieldOrder, data, j, ordered);
      }
      j := j + 1;
    }
    assert data[..j] == data;
  }

  /** `orderFrontmatter`: the key order is `Object.keys(FIELD_DEFS)`. */
  method OrderFrontmatter(data: Record) returns (ordered: Record)
    ensures ordered == Ordered(data)
  {
    FieldKeysNoDup();
    FieldKeysOwn();
    ordered := OrderBySchema(FieldKeys(), data);
  }

  /** The output has the input's keys, each with the same value, except the
      keys a plain object inherits, which are dropped. */
  lemma OrderBySameEntries(schema: seq<string>, data: Record, k: string)
    requires NoDup(schema) && OwnKeyNames(schema)
    ensures Get(OrderBy(schema, data), k) == if InheritedKey(k) then None else Get(data, k)
  {
    var s := SchemaEntries(schema, data);
    var e := ExtraEntries(schema, data);
    GetAppend(s, e, k);
    ExtraKeys(schema, data);
    SubseqUniqueKeys(e, data);
    if InheritedKey(k) {
      assert !HasKey(s, k) && !HasKey(e, k);
    } else if HasKey(s, k) {
      var i := IndexOf(s, k);
      GetAt(s, i);
    } else if HasKey(data, k) {
      var v := Get(data, k).value;
      assert (k, v) in e;
      GetIn(e, k, v);
    }
  }

  lemma OrderedSameEntries(data: Record, k: string)
    ensures Get(Ordered(data), k) == if InheritedKey(k) then None else Get(data, k)
  {
    FieldKeysNoDup();
    FieldKeysOwn();
    OrderBySameEntries(FieldKeys(), data, k);
  }

  /** Schema keys come first: no schema key follows a key outside the schema. */
  lemma SchemaKeysFirst(data: Record)
    ensures forall i, j :: 0 <= i < j < |Ordered(data)| && IsSchemaKey(Ordered(data)[j].0)
              ==> IsSchemaKey(Ordered(data)[i].0)
  {
    FieldKeysNoDup();
    FieldKeysOwn();
    var s := SchemaEntries(FieldKeys(), data);
    var e := ExtraEntries(FieldKeys(), data);
    assert Ordered(data) == s + e;
    KeysThenOthers(FieldKeys(), s, e);
  }

  /** Entries whose keys are all in `keys`, followed by entries whose keys
      are not: no key in `keys` follows one outside it. */
  lemma KeysThenOthers(keys: seq<string>, s: seq<(string, Value)>, e: seq<(string, Value)>)
    requires forall i :: 0 <= i < |s| ==> s[i].0 in keys
    requires forall x :: x in e ==> x.0 !in keys
    ensures forall i, j :: 0 <= i < j < |s + e| && (s + e)[j].0 in keys ==> (s + e)[i].0 in keys
  {
    var o := s + e;
    forall i | 0 <= i < |s| ensures o[i].0 in keys {
      assert o[i] == s[i];
    }
    forall i | |s| <= i < |o| ensures o[i].0 !in keys {
      assert o[i] == e[i - |s|];
    }
  }

  /** The schema keys come in `FIELD_DEFS` order and the other keys in their
      input order; inherited names are gone. */
  lemma OrderedOrder(data: Record)
    ensures var s := SchemaEntries(FieldKeys(), data);
      var e := ExtraEntries(FieldKeys(), data);
      && Ordered(data) == s + e
      && Subseq(KeysOf(s), FieldKeys())
      && Subseq(e, data)
      && (forall x :: x in e <==> x in data && !IsSchemaKey(x.0) && !InheritedKey(x.0))
  {
    FieldKeysNoDup();
    FieldKeysOwn();
  }

  lemma {:induction false} ExtraEntriesOfSchema(schema: seq<string>, s: seq<(string, Value)>)
    requires forall i :: 0 <= i < |s| ==> s[i].0 in schema
    ensures ExtraEntries(schema, s) == []
  {
    if |s| > 0 {
      ExtraEntriesOfSchema(schema, s[1..]);
    }
  }

  lemma {:induction false} ExtraEntriesAppend(schema: seq<string>, a: seq<(string, Value)>, b: seq<(string, Value)>)
    ensures ExtraEntries(schema, a + b) == ExtraEntries(schema, a) + ExtraEntries(schema, b)
    decreases |a|
  {
    if |a| == 0 {
      assert a + b == b;
    } else {
      assert (a + b)[1..] == a[1..] + b;
      assert (a + b)[0] == a[0];
      ExtraEntriesAppend(schema, a[1..], b);
    }
  }

  lemma {:induction false} ExtraEntriesIdempotent(schema: seq<string>, r: seq<(string, Value)>)
    ensures ExtraEntries(schema, ExtraEntries(schema, r)) == ExtraEntries(schema, r)
    decreases |r|
  {
    if |r| > 0 {
      ExtraEntriesIdempotent(schema, r[1..]);
      if !Skipped(schema, r[0].0) {
        var rest := ExtraEntries(schema, r[1..]);
        assert ([r[0]] + rest)[1..] == rest;
      }
    }
  }

  lemma {:induction false} SchemaEntriesSameGet(fs: seq<string>, a: Record, b: Record)
    requires forall k :: k in fs ==> Get(a, k) == Get(b, k)
    ensures SchemaEntries(fs, a) == SchemaEntries(fs, b)
    decreases |fs|
  {
    if |fs| > 0 {
      SchemaEntriesSameGet(fs[1..], a, b);
      assert Get(a, fs[0]) == Get(b, fs[0]);
    }
  }

  /** Ordering an ordered record changes nothing. */
  lemma OrderByIdempotent(schema: seq<string>, data: Record)
    requires NoDup(schema) && OwnKeyNames(schema)
    ensures OrderBy(schema, OrderBy(schema, data)) == OrderBy(schema, data)
  {
    var o := OrderBy(schema, data);
    var s := SchemaEntries(schema, data);
    var e := ExtraEntries(schema, data);
    forall k | k in schema ensures Get(o, k) == Get(data, k) {
      OrderBySameEntries(schema, data, k);
    }
    SchemaEntriesSameGet(schema, o, data);
    ExtraEntriesAppend(schema, s, e);
    ExtraEntriesOfSchema(schema, s);
    ExtraEntriesIdempotent(schema, data);
    assert [] + e == e;
  }

  lemma OrderedIdempotent(data: Record)
    ensures Ordered(Ordered(data)) == Ordered(data)
  {
    FieldKeysNoDup();
    FieldKeysOwn();
    OrderByIdempotent(FieldKeys(), data);
  }
}
