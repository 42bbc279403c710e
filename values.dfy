/** The JavaScript values a parsed frontmatter block or mapping table can hold,
    and records (plain objects) as ordered key/value lists in insertion order.
    `Object.keys` and the serializer list integer-like keys ("1", "42") before
    all others in ascending numeric order; a record here keeps them where they
    were inserted, so the model's key order is the engine's only for records
    without integer-like keys. */
module Values {
  import opened Seqs

  datatype Option<+T> = None | Some(value: T)

  /** A value produced by the YAML parser: `Other` stands for every object the
      parser builds that is not a plain object or array (a `Date` made from an
      ISO timestamp, for instance). Numbers are kept as integers. */
  datatype Value =
    | Str(s: string)
    | Num(n: int)
    | Bool(b: bool)
    | Arr(items: seq<Value>)
    | Obj(fields: seq<(string, Value)>)
    | Null
    | Other

  function KeysOf<V>(r: seq<(string, V)>): (ks: seq<string>)
    ensures |ks| == |r|
    ensures forall i :: 0 <= i < |r| ==> ks[i] == r[i].0
  {
    seq(|r|, i requires 0 <= i < |r| => r[i].0)
  }

  predicate UniqueKeys<V>(r: seq<(string, V)>) {
    forall i, j :: 0 <= i < j < |r| ==> r[i].0 != r[j].0
  }

  /** A plain object: its own keys in insertion order, each once. */
  type Record = r: seq<(string, Value)> | UniqueKeys(r) witness []

  /** An own key of the object. For a key that is not inherited (see
      `InheritedKey`), this is the `in` operator. */
  predicate HasKey<V>(r: seq<(string, V)>, k: string) {
    k in KeysOf(r)
  }

  /** The property names a plain object inherits from `Object.prototype`:
      `k in obj` holds for them even when `obj` has no own key `k`. */
  predicate InheritedKey(k: string) {
    k in {"constructor", "__proto__", "toString", "toLocaleString", "valueOf",
          "hasOwnProperty", "isPrototypeOf", "propertyIsEnumerable",
          "__defineGetter__", "__defineSetter__", "__lookupGetter__", "__lookupSetter__"}
  }

  /** The `in` operator on a plain object: an own key or an inherited one. */
  predicate In<V>(r: seq<(string, V)>, k: string) {
    HasKey(r, k) || InheritedKey(k)
  }

  /** Property access: `None` is `undefined`. */
  function Get<V>(r: seq<(string, V)>, k: string): (v: Option<V>)
    ensures v.Some? <==> HasKey(r, k)
    ensures v.Some? ==> (k, v.value) in r
  {
    if |r| == 0 then None
    else if r[0].0 == k then Some(r[0].1)
    else
      assert KeysOf(r) == [r[0].0] + KeysOf(r[1..]);
      Get(r[1..], k)
  }

  lemma {:induction false} GetAt<V>(r: seq<(string, V)>, i: nat)
    requires UniqueKeys(r) && i < |r|
    ensures Get(r, r[i].0) == Some(r[i].1)
  {
    if i > 0 {
      assert r[0].0 != r[i].0;
      assert r[1..][i - 1] == r[i];
      GetAt(r[1..], i - 1);
    }
  }

  lemma {:induction false} GetAppend<V>(a: seq<(string, V)>, b: seq<(string, V)>, k: string)
    ensures Get(a + b, k) == if HasKey(a, k) then Get(a, k) else Get(b, k)
  {
    if |a| > 0 {
      assert (a + b)[1..] == a[1..] + b;
      assert KeysOf(a) == [a[0].0] + KeysOf(a[1..]);
      GetAppend(a[1..], b, k);
    } else {
      assert a + b == b;
    }
  }

  /** In a record with unique keys, an entry is what property access finds. */
  lemma GetIn<V>(r: seq<(string, V)>, k: string, v: V)
    requires UniqueKeys(r) && (k, v) in r
    ensures Get(r, k) == Some(v)
  {
    var i :| 0 <= i < |r| && r[i] == (k, v);
    GetAt(r, i);
  }

  /** Deleting entries deletes their keys: the keys keep their order. */
  lemma {:induction false} SubseqKeys<V>(a: seq<(string, V)>, b: seq<(string, V)>)
    requires Subseq(a, b)
    ensures Subseq(KeysOf(a), KeysOf(b))
    decreases |b|
  {
    if a != [] && b != [] {
      assert KeysOf(b)[1..] == KeysOf(b[1..]);
      if a[0] == b[0] {
        SubseqKeys(a[1..], b[1..]);
        assert KeysOf(a)[1..] == KeysOf(a[1..]);
      } else {
        SubseqKeys(a, b[1..]);
        if KeysOf(a)[0] == KeysOf(b)[0] {
          SubseqTail(KeysOf(a), KeysOf(b[1..]));
          assert KeysOf(a)[1..] == KeysOf(a[1..]);
          SubseqPrepend(KeysOf(a)[1..], KeysOf(b)[0], KeysOf(b[1..]));
        }
      }
    }
  }

  lemma UniqueKeysNoDup<V>(r: seq<(string, V)>)
    ensures UniqueKeys(r) <==> NoDup(KeysOf(r))
  {
  }

  lemma SubseqUniqueKeys<V>(a: seq<(string, V)>, b: seq<(string, V)>)
    requires Subseq(a, b) && UniqueKeys(b)
    ensures UniqueKeys(a)
  {
    SubseqKeys(a, b);
    UniqueKeysNoDup(a);
    UniqueKeysNoDup(b);
    SubseqNoDup(KeysOf(a), KeysOf(b));
  }

  lemma KeysAppend<V>(a: seq<(string, V)>, b: seq<(string, V)>)
    ensures KeysOf(a + b) == KeysOf(a) + KeysOf(b)
  {
  }

  /** Two records without a common key concatenate to a record. */
  lemma AppendUnique(a: seq<(string, Value)>, b: seq<(string, Value)>)
    requires UniqueKeys(a) && UniqueKeys(b)
    requires forall k :: HasKey(a, k) ==> !HasKey(b, k)
    ensures UniqueKeys(a + b)
  {
    var c := a + b;
    forall i, j | 0 <= i < j < |c| ensures c[i].0 != c[j].0 {
      if j < |a| {
        assert c[i] == a[i] && c[j] == a[j];
      } else if i < |a| {
        assert c[i] == a[i] && c[j] == b[j - |a|];
        assert KeysOf(a)[i] == a[i].0 && KeysOf(b)[j - |a|] == b[j - |a|].0;
        assert HasKey(a, a[i].0);
      } else {
        assert c[i] == b[i - |a|] && c[j] == b[j - |a|];
      }
    }
  }

  /** Position of a key that is present. */
  function IndexOf<V>(r: seq<(string, V)>, k: string): (i: nat)
    requires HasKey(r, k)
    ensures i < |r| && r[i].0 == k
  {
    if r[0].0 == k then 0
    else
      assert HasKey(r[1..], k) by {
        var j :| 0 <= j < |r| && KeysOf(r)[j] == k;
        assert KeysOf(r[1..])[j - 1] == k;
      }
      1 + IndexOf(r[1..], k)
  }

  /** Assignment `r[k] = v`: an existing key keeps its position, a new key goes last. */
  function Set(r: Record, k: string, v: Value): (r': Record)
    ensures KeysOf(r') == if HasKey(r, k) then KeysOf(r) else KeysOf(r) + [k]
  {
    if HasKey(r, k) then
      var i := IndexOf(r, k);
      var r' := r[i := (k, v)];
      assert KeysOf(r') == KeysOf(r);
      r'
    else
      var r' := r + [(k, v)];
      assert KeysOf(r') == KeysOf(r) + [k];
      r'
  }

  /** Assigning to a new key appends the entry. */
  lemma SetNew(r: Record, k: string, v: Value)
    requires !HasKey(r, k)
    ensures Set(r, k, v) == r + [(k, v)]
  {
  }

  lemma SetGet(r: Record, k: string, v: Value)
    ensures Get(Set(r, k, v), k) == Some(v)
    ensures forall k' :: k' != k ==> Get(Set(r, k, v), k') == Get(r, k')
  {
    var r' := Set(r, k, v);
    if HasKey(r, k) {
      var i := IndexOf(r, k);
      GetAt(r', i);
      forall k' | k' != k ensures Get(r', k') == Get(r, k') {
        if HasKey(r, k') {
          var j := IndexOf(r, k');
          GetAt(r, j);
          GetAt(r', j);
        }
      }
    } else {
      GetAppend(r, [(k, v)], k);
      forall k' | k' != k ensures Get(r', k') == Get(r, k') {
        GetAppend(r, [(k, v)], k');
      }
    }
  }
}
