/**
 The registry `New` builds: each operation type is mapped to its position in
 the caller's ordered list, and the list itself is kept to resolve a record's
 kind back to a type during replay.
 */
module OpRegistry {
  import opened Results
  import opened KvOps

  /** `i` is the position of the last occurrence of `t` in `types`. */
  predicate IsLastIndexOf(types: seq<OpType>, t: OpType, i: int)
  {
    && 0 <= i < |types|
    && types[i] == t
    && forall j :: i < j < |types| ==> types[j] != t
  }

  /**
   The type-to-index map of `New`, filled in list order. When a type appears
   more than once, the later assignment overwrites the earlier one, so every
   registered type maps to its last position.
   */
  function BuildEvents(types: seq<OpType>): (m: map<OpType, nat>)
    ensures forall t :: t in m <==> t in types
    ensures forall t :: t in m ==> IsLastIndexOf(types, t, m[t])
    decreases |types|
  {
    if |types| == 0 then map[]
    else
      var n := |types| - 1;
      BuildEvents(types[..n])[types[n] := n]
  }

  /** The registered list (`ops`) and the map from type to kind (`events`). */
  datatype Registry = Registry(ops: seq<OpType>, events: map<OpType, nat>) {

    /** The map is the one `New` builds from the list. */
    predicate Valid()
    {
      events == BuildEvents(ops)
    }

    /**
     The lookup `Append` does for an operation's kind. In a registry `New`
     built, an operation has a kind exactly when its type was listed, and the
     kind is the type's last position in the list.
     */
    function TagOf(op: Op): (r: Option<nat>)
      ensures Valid() ==> (r.Some? <==> TypeOf(op) in ops)
      ensures Valid() && r.Some? ==> IsLastIndexOf(ops, TypeOf(op), r.value)
    {
      if TypeOf(op) in events then Some(events[TypeOf(op)]) else None
    }

    /**
     The type replay decodes a record of this kind into; `None` where indexing
     `ops` would be out of range. The type found is the one listed at that
     position; it is registered, and its own kind is this one or a later
     position of the same type.
     */
    function TypeAt(kind: int): (r: Option<OpType>)
      ensures r.Some? <==> 0 <= kind < |ops|
      ensures r.Some? ==> r.value == ops[kind]
      ensures Valid() && r.Some? ==> r.value in events && kind <= events[r.value]
    {
      if 0 <= kind < |ops| then Some(ops[kind]) else None
    }
  }

  /**
   The registry part of `New`. An operation has a tag exactly when its type is
   in the list, and the tag is the type's last position in it.
   */
  function New(types: seq<OpType>): (reg: Registry)
    ensures reg.Valid() && reg.ops == types
    ensures forall op :: reg.TagOf(op).Some? <==> TypeOf(op) in types
    ensures forall op :: reg.TagOf(op).Some? ==> IsLastIndexOf(types, TypeOf(op), reg.TagOf(op).value)
  {
    Registry(types, BuildEvents(types))
  }

  /** Resolving the tag of a registered operation gives back that operation's type. */
  lemma TypeAtTagOf(reg: Registry, op: Op)
    requires reg.Valid()
    requires reg.TagOf(op).Some?
    ensures reg.TypeAt(reg.TagOf(op).value) == Some(TypeOf(op))
  {
  }

  /** The test's registration gives `Set` kind 0 and `Delete` kind 1. */
  lemma KvTags(k: string, v: string)
    ensures New(KvOpTypes).TagOf(Set(k, v)) == Some(0)
    ensures New(KvOpTypes).TagOf(Delete(k)) == Some(1)
  {
    assert IsLastIndexOf(KvOpTypes, SetType, 0);
    assert IsLastIndexOf(KvOpTypes, DeleteType, 1);
  }
}
