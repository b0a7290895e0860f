/**
 The record format, abstracted from its JSON bytes. Each record is one JSON
 object `{"k": kind, "e": payload}`. The outer object is decoded strictly
 (unknown fields make the record corrupt); the payload is then decoded with
 plain `json.Unmarshal` into a fresh zero-valued operation, which ignores
 unknown fields, leaves missing fields at their zero value and only fails on
 a value of the wrong JSON type.
 */
module Codec {
  import opened Results
  import opened KvOps

  /** A JSON value found at a field of a payload, classified by how a string field decodes it. */
  datatype Json = JString(s: string) | JNull | JOther

  /** The raw `e` payload of a record: an object, the literal `null`, or anything else. */
  datatype Payload = Object(fields: map<string, Json>) | Null | Malformed

  /**
   One record of the stream as the entry decoder sees it: a well-formed
   `{k, e}` object, or bytes it rejects (a syntax error, a truncated record,
   an unknown field, a non-integer kind).
   */
  datatype Frame = Entry(kind: int, event: Payload) | Corrupt

  /** The JSON field names of each operation type, from its struct tags. */
  function FieldNames(t: OpType): set<string>
  {
    match t
    case SetType => {"k", "v"}
    case DeleteType => {"k"}
  }

  /** `json.Marshal` of an operation: every field, under its tag, as a JSON string. */
  function Encode(op: Op): (p: Payload)
    ensures p.Object? && p.fields.Keys == FieldNames(TypeOf(op))
    ensures p.Object? ==> p.fields["k"] == JString(op.key)
    ensures op.Set? && p.Object? ==> p.fields["v"] == JString(op.value)
  {
    match op
    case Set(k, v) => Object(map["k" := JString(k), "v" := JString(v)])
    case Delete(k) => Object(map["k" := JString(k)])
  }

  /** The fresh, zero-valued instance that replay creates for a type before decoding into it. */
  function Zero(t: OpType): (op: Op)
    ensures TypeOf(op) == t && op.key == ""
    ensures op.Set? ==> op.value == ""
  {
    match t
    case SetType => Set("", "")
    case DeleteType => Delete("")
  }

  /** True when decoding field `name` of `fields` into a zero-valued string field yields `s`. */
  predicate DecodesTo(fields: map<string, Json>, name: string, s: string)
  {
    if name in fields then fields[name] == JString(s) || (fields[name] == JNull && s == "")
    else s == ""
  }

  /** Decoding of one string field into its zero value: absent or `null` keep "". */
  function StringField(fields: map<string, Json>, name: string): (r: Option<string>)
    ensures r.None? <==> name in fields && fields[name] == JOther
    ensures r.Some? ==> DecodesTo(fields, name, r.value)
  {
    if name !in fields then Some("")
    else match fields[name]
      case JString(s) => Some(s)
      case JNull => Some("")
      case JOther => None
  }

  /**
   `json.Unmarshal(payload, fresh zero-valued instance of t)`. It fails exactly
   when the payload is not an object or `null`, or a field of the type holds a
   non-string value; otherwise every field of the result is what its JSON
   field decodes to.
   */
  function Unmarshal(t: OpType, p: Payload): (r: Option<Op>)
    ensures r.Some? ==> TypeOf(r.value) == t
    ensures p.Malformed? ==> r.None?
    ensures p.Null? ==> r == Some(Zero(t))
    ensures p.Object? ==>
              (r.None? <==> exists name :: name in FieldNames(t) && name in p.fields && p.fields[name] == JOther)
    ensures p.Object? && r.Some? ==> DecodesTo(p.fields, "k", r.value.key)
    ensures p.Object? && r.Some? && r.value.Set? ==> DecodesTo(p.fields, "v", r.value.value)
  {
    match p
    case Malformed => None
    case Null => Some(Zero(t))
    case Object(fields) =>
      match t
      case SetType =>
        (match (StringField(fields, "k"), StringField(fields, "v"))
         case (Some(k), Some(v)) => Some(Set(k, v))
         case _ => None)
      case DeleteType =>
        (match StringField(fields, "k")
         case Some(k) => Some(Delete(k))
         case None => None)
  }

  /** Round trip of the payload codec: decoding an encoded operation as its own type gives it back. */
  lemma UnmarshalEncode(op: Op)
    ensures Unmarshal(TypeOf(op), Encode(op)) == Some(op)
  {
  }

  /** Payload decoding is lenient: a field the type does not declare is ignored. */
  lemma UnmarshalIgnoresUnknownField(t: OpType, fields: map<string, Json>, name: string, v: Json)
    requires name !in FieldNames(t)
    ensures Unmarshal(t, Object(fields[name := v])) == Unmarshal(t, Object(fields))
  {
    assert forall f | f in FieldNames(t) :: f != name;
  }

  /**
   Because payload decoding is lenient, a payload decodes under the other
   operation type too: a `Set` payload read as `Delete` drops its value, and a
   `Delete` payload read as `Set` gets an empty value.
   */
  lemma UnmarshalAcrossTypes(k: string, v: string)
    ensures Unmarshal(DeleteType, Encode(Set(k, v))) == Some(Delete(k))
    ensures Unmarshal(SetType, Encode(Delete(k))) == Some(Set(k, ""))
  {
  }
}
