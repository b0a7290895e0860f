# replaylog in Dafny

A model of `replaylog`, a type-safe append-only replay log for Go. The log is a
file of records. Each record is `{"k": kind, "e": payload}`, where the kind is
the position of the operation's type in the list given to `New` and the payload
is the operation's JSON encoding. `Append` writes one record and syncs the file.
`Replay` decodes records from the current file position and applies each one to
a caller-supplied state, stopping at the end of the file. `Rewind` seeks back to
the start, so that a fresh state can be rebuilt from the whole log.

The model works at record granularity. A `File` is a sequence of `Frame`s plus
the index of the next record to read or write. A `Log` pairs a file with the
`Registry` that `New` builds. The operations are those of the package's test:
`Set` and `Delete` over a `map<string, string>`. They form the closed datatype
`KvOps.Op`, and `KvOps.OpType` stands for the runtime type that reflection
reports. The state replay works on is a type parameter `S`. It stands for a
reference-like `State`, such as the test's map or a pointer. `Replay(dest State)`
and `Apply(state State)` take `State` by value (replaylog.go:96, 119), so only
such a state lets the caller see what `Apply` changed. The operations' `Apply`
methods are passed in as a total function `Applier<S>`. It returns the state as
`Apply` left it, together with the error it returned, if any. The Go `Apply`
gets the caller's map by reference and may change it before failing. So the
error path of replay is part of the model, including such partial changes.
`KvOps.Apply` is the instance the test uses, and it never fails.

Modules, one per concern:

- `Results` (results.dfy): `Option` and `Result`.
- `KvOps` (kv_ops.dfy): the test's `Set` and `Delete`, their `Apply`, and the
  registration order.
- `Codec` (codec.dfy): the record shape and the payload codec, abstracted from
  JSON bytes.
- `OpRegistry` (op_registry.dfy): the type-to-kind map that `New` builds.
- `ReplayLog` (replay_log.dfy): `New`, `Append`, `Replay`, `Rewind`, and the
  lemmas relating them to "apply the operations directly".
- `Scenario` (scenario.dfy): the test `TestLog`, subtest by subtest.

Behaviour of the code that the model follows:

- Only the entry decoder rejects unknown fields. The payload is decoded with
  plain `json.Unmarshal`, which ignores unknown fields and leaves missing or
  `null` fields at their zero value. So a `Set` payload under the `Delete` kind
  decodes, and so does a `Delete` payload under the `Set` kind
  (`Codec.UnmarshalAcrossTypes`).
- A record whose kind is not a position in the registered list makes
  `l.ops[logEntry.Kind]` panic (replaylog.go:108). The model returns the error
  `TagOutOfRange` at that record instead.
- The returned errors name no record index. The `at` field of `Failed` is
  model-level information about where replay stopped.
- `Append` leaves the file position after the record it wrote. When the cursor
  was at the tail (after catching up, say), a `Replay` straight after the
  `Append`, with no `Rewind`, therefore applies nothing
  (`ReplayLog.ReplayAfterAppendAppliesNothing`). The newly appended records are
  then seen only by a replay that starts before them: a reopened file, or a
  `Rewind`. From a cursor before the tail, the `Append` overwrites, and the
  replay goes on with whatever follows the record written.
- A failed sync is reported after the record has been written. The record
  remains and later replays apply it.
- The test registers `[&Set{}, &Delete{}]` (replaylog_test.go:11) but passes
  that slice to the variadic `New` without `...`. The model registers
  `[Set, Delete]` in that order.

## Model

| member | source | states |
|---|---|---|
| KvOps.TypeOf | replaylog.go:73 | the runtime type of an operation is `SetType` exactly for `Set` values and `DeleteType` exactly for `Delete` values |
| KvOps.Apply | replaylog_test.go:20-32 | `Set` stores its value under its key, `Delete` removes its key and does nothing when the key is absent; neither returns an error and no other key changes |
| KvOps.SetThenDeleteRestores | replaylog_test.go:20-32 | setting an absent key and then deleting it gives back the original map |
| Codec.Encode | replaylog.go:77-81 | the payload of an operation is an object with exactly the type's tagged fields (`k`, and `v` for `Set`), each holding the field as a JSON string |
| Codec.Zero | replaylog.go:108-114 | replay decodes into a fresh instance of the resolved type whose string fields are empty |
| Codec.StringField | replaylog.go:115-118 | decoding one string field of a payload into its zero value fails exactly when the field holds a non-string, non-null value; otherwise the result is what the field decodes to, with an absent or `null` field left empty |
| Codec.Unmarshal | replaylog.go:115-118 | payload decoding fails exactly for a non-object payload or a declared field holding a non-string value; `null` gives the zero value; otherwise each field is what its JSON field decodes to, with absent and `null` fields left empty |
| Codec.UnmarshalEncode | replaylog.go:115-118 | decoding an encoded operation as its own type gives the operation back |
| Codec.UnmarshalIgnoresUnknownField | replaylog.go:115-118 | a field the type does not declare does not change what the payload decodes to |
| Codec.UnmarshalAcrossTypes | replaylog.go:108-118 | a `Set` payload read as `Delete` keeps only the key; a `Delete` payload read as `Set` gets an empty value |
| OpRegistry.BuildEvents | replaylog.go:57-60 | a type is in the map exactly when it is in the list, and it maps to its last position there (a later duplicate overwrites an earlier one) |
| OpRegistry.New | replaylog.go:56-67 | an operation has a tag exactly when its type is registered, and the tag is the type's last position in the list |
| OpRegistry.Registry.TagOf | replaylog.go:73-76 | in a registry built by `New`, an operation has a kind exactly when its type was listed, and that kind is the type's last position in the list |
| OpRegistry.Registry.TypeAt | replaylog.go:108 | a kind resolves to a type exactly when it is a position in the list, and the type found is the one listed at that position (`l.ops[kind]`); it is registered, with its own kind at that position or a later one |
| OpRegistry.TypeAtTagOf | replaylog.go:56-60 | resolving a registered operation's tag through the list gives back that operation's type |
| OpRegistry.KvTags | replaylog_test.go:11 | the test's registration gives `Set` kind 0 and `Delete` kind 1 |
| ReplayLog.New | replaylog.go:56-67 | the log owns the given file unchanged and its registry tags exactly the listed types |
| ReplayLog.RecordOf | replaylog.go:77-81 | the record for an operation is an entry carrying the given kind, whose payload decodes back to the operation under the operation's own type |
| ReplayLog.Append | replaylog.go:70-91 | an unregistered operation returns `Unregistered` and leaves records and cursor unchanged; otherwise exactly the record `{tag, encoding}` is written at the cursor, no other record changes, the cursor moves past it, and a failed sync returns `SyncFailed` with the record written; at the tail the log is extended by that one record |
| ReplayLog.File.Write | replaylog.go:81-85 | the encoder writes one record at the file position: that record is at the cursor afterwards, every other record is unchanged, the log grows only when writing at the tail, and the cursor moves past the record |
| ReplayLog.DecodeFrame | replaylog.go:100-118 | a record decodes exactly when the entry is well formed, its kind indexes the registered list and its payload decodes into that type, and the operation it gives is what the payload decodes to; a corrupt entry gives `CorruptEntry`, a payload that does not decode gives `DecodeFailed` with the record's kind, and an out-of-range kind gives `TagOutOfRange` (the source panics there) |
| ReplayLog.DecodeRecordOf | replaylog.go:73-81 | the record `Append` writes for a registered operation decodes back to that operation |
| ReplayLog.Step | replaylog.go:100-122 | one loop iteration: a record that does not decode stops with its decoding error and the state untouched; otherwise the decoded operation is applied, replay continues with the state it leaves when it returns no error, and stops with `ApplyFailed` of its error and the state it left when it does |
| ReplayLog.Replay | replaylog.go:96-125 | reaching the end of the stream is success and leaves the cursor at the tail with the records unchanged; a failure is reported at a record between the cursor and the tail |
| ReplayLog.ReplayCatchesUpIffFold | replaylog.go:96-125 | replay succeeds with state `t` if and only if every record from the cursor decodes and applying the decoded operations in order to the initial state gives `t` |
| ReplayLog.ReplayFailsIffFirstFailure | replaylog.go:101-122 | replay fails at record `at` with error `e` and state `t` if and only if the records from the cursor up to `at` decode, applying them in order succeeds, and the step for record `at` from the state they reach stops with `e` and leaves `t`: the state holds exactly the records before `at` plus whatever a failing `Apply` changed before returning its error |
| ReplayLog.ReplayInTwoSessions | replaylog.go:93-97 | catching up and then replaying records appended later from the tail gives the same result as one replay of the longer log |
| ReplayLog.FailureIgnoresLaterRecords | replaylog.go:105-122 | records after the failing one do not change where or how replay fails, nor the state it leaves |
| ReplayLog.AppendAfterCatchUp | replaylog.go:93-97 | after catching up, Append extends the log at the tail; replaying from just before the new record applies only its operation to the rebuilt state, which equals replaying the whole extended log from the original cursor, whether or not the sync failed |
| ReplayLog.ReplayAfterAppendAppliesNothing | replaylog.go:82-85 | when the cursor was at the tail (after catching up, say), Append leaves the cursor past its record, at the new tail, so a replay that follows it without a rewind leaves the state unchanged |
| ReplayLog.ReplayAgainResumesAtTail | replaylog.go:96-104 | a second replay after catching up, without a rewind, applies nothing and stays at the tail |
| ReplayLog.Rewind | replaylog.go:128-134 | on success the cursor is 0 and the records are unchanged; a failed seek returns `RewindFailed` and leaves the log as it was |
| ReplayLog.AppendAll | replaylog.go:70-91 | appending registered operations one by one at the tail keeps the earlier records and adds records that decode, in order, to exactly those operations |
| ReplayLog.RoundTrip | replaylog.go:3-6 | appending operations to an empty log, rewinding and replaying into a state gives the state reached by applying the operations to it directly; if that application fails, so does replay |
| ReplayLog.ReplayRepeatable | replaylog.go:127-134 | rewinding after a full replay and replaying into the same initial state gives the same state and log again |
| Scenario.AppendSubtest | replaylog_test.go:43-56 | appending `Set{foo,bar}`, `Set{bar,waz}`, `Delete{foo}` to an empty file succeeds and writes the three records with kinds 0, 0, 1 |
| Scenario.WrittenDecodes | replaylog_test.go:43-56 | the three records written, and the four after the later append, decode under the registration `[Set, Delete]` back to exactly the operations appended, in order |
| Scenario.KvFolds | replaylog_test.go:20-32 | applying `Set{foo,bar}`, `Set{bar,waz}`, `Delete{foo}` to `{}` gives `{"bar": "waz"}`, and a further `Set{foo,bar}` gives `{"bar": "waz", "foo": "bar"}` |
| Scenario.ReplayThenAppendSubtest | replaylog_test.go:58-74 | replaying those records into `{}` gives `{"bar": "waz"}` with the cursor at the tail, and the next `Set{foo,bar}` is appended as a fourth record |
| Scenario.ReplayAgainSubtest | replaylog_test.go:76-100 | replaying the four records into `{}` gives `{"bar": "waz", "foo": "bar"}`; after a rewind, replaying into a fresh `{}` gives the same result |

## Left out

- JSON bytes. The entry decoder is abstracted to `Frame`: a well-formed
  `{k, e}` entry, or `Corrupt` for everything it rejects (syntax errors,
  truncated records, unknown fields, a non-integer kind). A missing `k` is an
  entry of kind 0. A missing `e` is a `Malformed` payload.
- Payload details of Go's JSON decoder. The model does not cover
  case-insensitive field-name matching, duplicate keys in one object (the model
  keeps only the last) or the replacement of invalid UTF-8 on encoding. Strings
  are sequences of characters.
- Reflection. It is replaced by the closed `Op` datatype and an exhaustive match
  on `OpType`. Only pointer operation types, like the test's `*Set` and
  `*Delete`, are modelled. For a non-pointer type, replay builds a value
  instance (replaylog.go:112-113), and `json.Unmarshal` rejects a non-pointer
  target. Such operations can be appended, but every replay of them fails with
  "could not decode event". The model does not cover this.
- ReplayLog.DecodeFrame: a kind outside the registered list makes the source
  panic on `l.ops[logEntry.Kind]` (replaylog.go:108). The model returns the
  error `TagOutOfRange` at that record instead, and does not model the panic.
- `json.Marshal` errors. They cannot occur for the string fields of `Set` and
  `Delete`, so `Encode` is total.
- Failed or torn writes from `enc.Encode`. What reaches storage after them is
  not determined at record granularity, so the write is taken to succeed. Only
  the sync can fail, through the `syncFails` flag.
- Byte-level overwrite. `ReplayLog.Append` at a cursor before the tail (after
  a `Rewind`, say) overwrites exactly one record. The real file would overwrite
  bytes and could leave a garbled tail.
- ReplayLog.Replay: returns no log after a failure. The file position then
  depends on how far the JSON decoder read ahead into its buffer.
- The mutex and all concurrency. The lock only serialises `Append` within one
  process.
- A value-type `State`. Go's `Apply` would then change a copy, and replay would
  leave the caller's value unchanged. The fold that the model threads through
  replay describes only a reference-like state, such as the test's map.
- `Close`, and the behaviour of a closed log.
- File handling. Temp files and `os.OpenFile` are outside the model. The test's
  reopen becomes `ReplayLog.New` over the same records with the cursor at 0.
- Error messages and `%w` wrapping. Each error is one constructor of
  `ReplayLog.Error`.
