/** `pickFields` (scripts/frontmatter/helpers/pickFields/pickFields.ts): the
    schema keys, in declaration order, whose definition satisfies a predicate. */
module FieldSelection {
  import opened Seqs
  import opened Constants

  /** The fields of `fs`, in order, whose definition satisfies `pred`. */
  function PickFrom(fs: seq<Field>, pred: FieldDef -> bool): (keys: seq<Field>)
    ensures forall f :: f in keys <==> f in fs && pred(Def(f))
    ensures Subseq(keys, fs)
  {
    if |fs| == 0 then []
    else
      var rest := PickFrom(fs[1..], pred);
      assert fs == [fs[0]] + fs[1..];
      SubseqPrepend(rest, fs[0], fs[1..]);
      if pred(Def(fs[0])) then
        assert ([fs[0]] + rest)[1..] == rest;
        [fs[0]] + rest
      else rest
  }

  /** `pickFields`: exactly the schema fields whose definition satisfies
      `pred`, each once, in `FIELD_DEFS` order. */
  function PickFields(pred: FieldDef -> bool): (keys: seq<Field>)
    ensures forall f :: f in keys <==> pred(Def(f))
    ensures Subseq(keys, FieldOrder)
    ensures NoDup(keys)
  {
    var keys := PickFrom(FieldOrder, pred);
    forall f ensures f in FieldOrder {
      FieldOrderComplete(f);
    }
    FieldOrderComplete(Uid);
    SubseqNoDup(keys, FieldOrder);
    keys
  }

  lemma {:induction false} PickFromAll(fs: seq<Field>, pred: FieldDef -> bool)
    requires forall d :: pred(d)
    ensures PickFrom(fs, pred) == fs
  {
    if |fs| > 0 {
      PickFromAll(fs[1..], pred);
      assert fs == [fs[0]] + fs[1..];
    }
  }

  lemma {:induction false} PickFromNone(fs: seq<Field>, pred: FieldDef -> bool)
    requires forall d :: !pred(d)
    ensures PickFrom(fs, pred) == []
  {
    if |fs| > 0 {
      PickFromNone(fs[1..], pred);
    }
  }

  /** A predicate that holds of every definition selects the whole schema. */
  lemma PickAll(pred: FieldDef -> bool)
    requires forall d :: pred(d)
    ensures PickFields(pred) == FieldOrder
  {
    PickFromAll(FieldOrder, pred);
  }

  /** A predicate that holds of no definition selects nothing. */
  lemma PickNone(pred: FieldDef -> bool)
    requires forall d :: !pred(d)
    ensures PickFields(pred) == []
  {
    PickFromNone(FieldOrder, pred);
  }
}
