/**
 The operations the package's test registers: `Set` and `Delete` over a
 string-to-string map. In the source they are pointer types implementing the
 `Op` interface; here they form one closed datatype, and the runtime type that
 `reflect.TypeOf` reports becomes the `OpType` tag of each variant.
 */
module KvOps {
  import opened Results

  /** The runtime type of an operation (`*Set` or `*Delete`). */
  datatype OpType = SetType | DeleteType

  /** An operation value with its JSON-encodable fields. */
  datatype Op = Set(key: string, value: string) | Delete(key: string)

  /**
   What `Apply` does to the state it is handed: the state as `Apply` leaves it,
   and the error it returned, if any. The state is the caller's map, passed by
   reference, so `Apply` may have changed it before returning an error.
   */
  datatype Applied<S> = Applied(state: S, failure: Option<string>)

  /** `reflect.TypeOf` of an operation: which of the registered types it is. */
  function TypeOf(op: Op): (t: OpType)
    ensures t == SetType <==> op.Set?
    ensures t == DeleteType <==> op.Delete?
  {
    match op
    case Set(_, _) => SetType
    case Delete(_) => DeleteType
  }

  /** The state the test replays into. */
  type KV = map<string, string>

  /** The registration order of the test: `*Set` first, `*Delete` second. */
  const KvOpTypes: seq<OpType> := [SetType, DeleteType]

  /**
   `Apply` of both operations: `Set` stores its value under its key, `Delete`
   removes its key (nothing happens when the key is absent). Neither reports
   an error, and no key other than the operation's own is touched.
   */
  function Apply(op: Op, kv: KV): (r: Applied<KV>)
    ensures r.failure.None?
    ensures op.Set? ==> op.key in r.state && r.state[op.key] == op.value
    ensures op.Delete? ==> op.key !in r.state
    ensures op.Delete? && op.key !in kv ==> r.state == kv
    ensures forall k :: k != op.key ==> (k in r.state <==> k in kv)
    ensures forall k :: k != op.key && k in kv ==> r.state[k] == kv[k]
  {
    match op
    case Set(k, v) => Applied(kv[k := v], None)
    case Delete(k) => Applied(kv - {k}, None)
  }

  /** Setting a key and then deleting it leaves a state that never held the key as it was. */
  lemma SetThenDeleteRestores(kv: KV, k: string, v: string)
    requires k !in kv
    ensures Apply(Delete(k), Apply(Set(k, v), kv).state) == Applied(kv, None)
  {
    var mid := Apply(Set(k, v), kv).state;
    var after := Apply(Delete(k), mid).state;
    assert after.Keys == kv.Keys;
    assert forall x | x in after :: after[x] == kv[x];
    assert after == kv;
  }
}
