/**
 The replay log: a stream of records behind a cursor, with `Append` writing
 one record at the cursor, `Replay` decoding and applying records from the
 cursor to the end of the stream, and `Rewind` moving the cursor back to the
 start. The file is modelled at record granularity: `frames` are the records
 in storage order and `offset` is the index of the next record to read or
 write.
 */
module ReplayLog {
  import opened Results
  import opened KvOps
  import opened Codec
  import opened OpRegistry

  /** The errors the log returns. */
  datatype Error =
    | Unregistered(t: OpType)     // Append: the operation's type was not given to New
    | SyncFailed                  // Append: the record was written but the sync failed
    | CorruptEntry                // Replay: the entry decoder rejected the next record
    | TagOutOfRange(kind: int)    // Replay: the record's kind is not a position in the list
    | DecodeFailed(kind: int)     // Replay: the payload does not decode into the kind's type
    | ApplyFailed(cause: string)  // Replay: the operation's Apply returned an error
    | RewindFailed                // Rewind: the seek failed

  /** The error return of `Append` and `Rewind`. */
  datatype Outcome = Pass | Fail(error: Error)

  /** The storage handle: the records it holds and the position of its cursor. */
  datatype File = File(frames: seq<Frame>, offset: nat) {

    predicate Valid()
    {
      offset <= |frames|
    }

    /** Writes one record at the cursor, over the record there if any, and moves past it. */
    function Write(rec: Frame): (f: File)
      requires Valid()
      ensures f.Valid() && f.offset == offset + 1
      ensures |f.frames| == if offset < |frames| then |frames| else |frames| + 1
      ensures f.frames[offset] == rec
      ensures forall j :: 0 <= j < |frames| && j != offset ==> f.frames[j] == frames[j]
    {
      var rest := if offset < |frames| then frames[offset + 1..] else [];
      File(frames[..offset] + [rec] + rest, offset + 1)
    }
  }

  /** A log: the registry `New` built and the file it owns. */
  datatype Log = Log(reg: Registry, file: File) {

    predicate Valid()
    {
      reg.Valid() && file.Valid()
    }

    predicate AtTail()
    {
      file.offset == |file.frames|
    }

    /** The same log with its cursor moved to record `n`. */
    function SeekTo(n: nat): Log
    {
      Log(reg, File(file.frames, n))
    }
  }

  /** The log after an `Append` or `Rewind`, with the error that call returned. */
  datatype Effect = Effect(log: Log, outcome: Outcome)

  /**
   The `Apply` methods of the registered operations, over a state of type `S`:
   the state as the operation leaves it, and the error it returned, if any.
   */
  type Applier<!S> = (Op, S) -> Applied<S>

  /**
   The result of `Replay`: it caught up with the end of the stream, or it
   stopped at record `at` with an error. Either way `state` holds every
   mutation made before it returned, including any that a failing `Apply`
   made before reporting its error. After a failure the cursor sits
   wherever the decoder's read-ahead left it, which the model does not fix,
   so no log is returned.
   */
  datatype Replayed<S> = CaughtUp(state: S, log: Log) | Failed(state: S, error: Error, at: nat)

  /** `New`: a log over an existing file; the registry maps each type to its position in `types`. */
  function New(file: File, types: seq<OpType>): (log: Log)
    ensures log.file == file && log.reg.ops == types && log.reg.Valid()
    ensures forall op :: log.reg.TagOf(op).Some? <==> TypeOf(op) in types
  {
    Log(OpRegistry.New(types), file)
  }

  /** The record `Append` writes for an operation of kind `kind`: an entry whose payload decodes back to the operation. */
  function RecordOf(kind: nat, op: Op): (f: Frame)
    ensures f.Entry? && f.kind == kind
    ensures Unmarshal(TypeOf(op), f.event) == Some(op)
  {
    UnmarshalEncode(op);
    Entry(kind, Encode(op))
  }

  /**
   `Append`. An operation whose type is not registered is rejected and nothing
   is written. Otherwise exactly one record, holding the operation's tag and
   its encoding, is written at the cursor and the cursor moves past it; a
   failing sync is reported after the record has been written. At the tail
   the record extends the log.
   */
  function Append(log: Log, op: Op, syncFails: bool): (r: Effect)
    requires log.Valid()
    ensures r.log.Valid() && r.log.reg == log.reg
    ensures log.reg.TagOf(op).None? ==> r == Effect(log, Fail(Unregistered(TypeOf(op))))
    ensures log.reg.TagOf(op).Some? ==>
              && r.log.file == log.file.Write(RecordOf(log.reg.TagOf(op).value, op))
              && r.outcome == (if syncFails then Fail(SyncFailed) else Pass)
    ensures log.reg.TagOf(op).Some? && log.AtTail() ==>
              && r.log.AtTail()
              && r.log.file.frames == log.file.frames + [RecordOf(log.reg.TagOf(op).value, op)]
  {
    match log.reg.TagOf(op)
    case None => Effect(log, Fail(Unregistered(TypeOf(op))))
    case Some(kind) =>
      var written := Log(log.reg, log.file.Write(RecordOf(kind, op)));
      if syncFails then Effect(written, Fail(SyncFailed)) else Effect(written, Pass)
  }

  /**
   Decoding of one record during replay: the entry must be well formed, its
   kind must index the registered list, and its payload must decode into a
   fresh instance of that type.
   */
  function DecodeFrame(reg: Registry, f: Frame): (r: Result<Op, Error>)
    ensures r == Err(CorruptEntry) <==> f.Corrupt?
    ensures f.Entry? && reg.TypeAt(f.kind).None? ==> r == Err(TagOutOfRange(f.kind))
    ensures r.Ok? <==> f.Entry? && reg.TypeAt(f.kind).Some? && Unmarshal(reg.TypeAt(f.kind).value, f.event).Some?
    ensures r.Ok? ==> f.Entry? && reg.TypeAt(f.kind) == Some(TypeOf(r.value))
    ensures r.Ok? ==> Unmarshal(reg.TypeAt(f.kind).value, f.event) == Some(r.value)
    ensures f.Entry? && reg.TypeAt(f.kind).Some? && Unmarshal(reg.TypeAt(f.kind).value, f.event).None? ==>
              r == Err(DecodeFailed(f.kind))
  {
    match f
    case Corrupt => Err(CorruptEntry)
    case Entry(kind, event) =>
      match reg.TypeAt(kind)
      case None => Err(TagOutOfRange(kind))
      case Some(t) =>
        match Unmarshal(t, event)
        case None => Err(DecodeFailed(kind))
        case Some(op) => Ok(op)
  }

  /** Every record `Append` writes for a registered operation decodes back to that operation. */
  lemma DecodeRecordOf(reg: Registry, op: Op)
    requires reg.Valid() && reg.TagOf(op).Some?
    ensures DecodeFrame(reg, RecordOf(reg.TagOf(op).value, op)) == Ok(op)
  {
    TypeAtTagOf(reg, op);
    UnmarshalEncode(op);
  }

  /** The outcome of one iteration of the replay loop: go on with a state, or stop with an error. */
  datatype Stepped<S> = Next(state: S) | Stop(state: S, error: Error)

  /**
   One iteration of the replay loop: decode the record, then apply it. A
   record that does not decode stops replay with the state untouched; an
   `Apply` that fails stops it with whatever state the operation left.
   */
  function Step<S>(reg: Registry, f: Frame, s: S, apply: Applier<S>): (r: Stepped<S>)
    ensures DecodeFrame(reg, f).Err? ==> r == Stop(s, DecodeFrame(reg, f).error)
    ensures DecodeFrame(reg, f).Ok? ==>
              && r.state == apply(DecodeFrame(reg, f).value, s).state
              && (r.Next? <==> apply(DecodeFrame(reg, f).value, s).failure.None?)
              && (r.Stop? ==> r.error == ApplyFailed(apply(DecodeFrame(reg, f).value, s).failure.value))
  {
    match DecodeFrame(reg, f)
    case Err(e) => Stop(s, e)
    case Ok(op) =>
      var a := apply(op, s);
      match a.failure
      case None => Next(a.state)
      case Some(cause) => Stop(a.state, ApplyFailed(cause))
  }

  /**
   `Replay`: records are decoded and applied one by one, in log order, from
   the cursor. Reaching the end of the stream is success and leaves the cursor
   at the tail; the first record that fails stops replay with its error.
   */
  function Replay<S>(log: Log, s: S, apply: Applier<S>): (r: Replayed<S>)
    requires log.file.Valid()
    ensures r.CaughtUp? ==> r.log == log.SeekTo(|log.file.frames|)
    ensures r.Failed? ==> log.file.offset <= r.at < |log.file.frames|
    decreases |log.file.frames| - log.file.offset
  {
    var f := log.file;
    if f.offset == |f.frames| then CaughtUp(s, log)
    else
      match Step(log.reg, f.frames[f.offset], s, apply)
      case Stop(t, e) => Failed(t, e, f.offset)
      case Next(s1) => Replay(log.SeekTo(f.offset + 1), s1, apply)
  }

  /** `Rewind`: the cursor goes back to the first record; a failed seek leaves the log as it was. */
  function Rewind(log: Log, seekFails: bool): (r: Effect)
    requires log.Valid()
    ensures r.log.Valid() && r.log.reg == log.reg && r.log.file.frames == log.file.frames
    ensures seekFails ==> r == Effect(log, Fail(RewindFailed))
    ensures !seekFails ==> r.log.file.offset == 0 && r.outcome == Pass
  {
    if seekFails then Effect(log, Fail(RewindFailed)) else Effect(log.SeekTo(0), Pass)
  }

  // ---------------------------------------------------------------------------
  // Reference semantics: the records as a list of operations, and the
  // operations applied in order directly to a state.

  /** The operations the records denote, if every one of them decodes. */
  function DecodeAll(reg: Registry, frames: seq<Frame>): (r: Option<seq<Op>>)
    ensures r.Some? <==> forall j :: 0 <= j < |frames| ==> DecodeFrame(reg, frames[j]).Ok?
    ensures r.Some? ==> |r.value| == |frames|
    ensures r.Some? ==> forall j :: 0 <= j < |frames| ==> DecodeFrame(reg, frames[j]) == Ok(r.value[j])
    decreases |frames|
  {
    if |frames| == 0 then Some([])
    else
      match DecodeFrame(reg, frames[0])
      case Err(_) => None
      case Ok(op) =>
        match DecodeAll(reg, frames[1..])
        case None => None
        case Some(rest) => Some([op] + rest)
  }

  /** The operations applied to a state in order, stopping at the first error. */
  function ApplyAll<S>(ops: seq<Op>, s: S, apply: Applier<S>): Result<S, string>
    decreases |ops|
  {
    if |ops| == 0 then Ok(s)
    else
      var a := apply(ops[0], s);
      match a.failure
      case Some(cause) => Err(cause)
      case None => ApplyAll(ops[1..], a.state, apply)
  }

  /**
   A replay catches up exactly when every record from the cursor decodes and
   applying the decoded operations in order succeeds; the state it reaches is
   the result of that application.
   */
  lemma {:induction false} ReplayCatchesUpIffFold<S>(log: Log, s: S, t: S, apply: Applier<S>)
    requires log.file.Valid()
    ensures Replay(log, s, apply) == CaughtUp(t, log.SeekTo(|log.file.frames|))
        <==> (&& DecodeAll(log.reg, log.file.frames[log.file.offset..]).Some?
              && ApplyAll(DecodeAll(log.reg, log.file.frames[log.file.offset..]).value, s, apply) == Ok(t))
    decreases |log.file.frames| - log.file.offset
  {
    var f := log.file;
    var rest := f.frames[f.offset..];
    if f.offset < |f.frames| {
      assert rest[0] == f.frames[f.offset];
      assert rest[1..] == f.frames[f.offset + 1..];
      var next := log.SeekTo(f.offset + 1);
      match DecodeFrame(log.reg, f.frames[f.offset])
      case Err(_) =>
      case Ok(op) =>
        if apply(op, s).failure.None? {
          ReplayCatchesUpIffFold(next, apply(op, s).state, t, apply);
        }
    }
  }

  /**
   A replay fails at record `at` with error `e`, leaving state `t`, exactly
   when every record from the cursor up to `at` decodes, applying those
   operations in order succeeds, and the step for record `at` from the state
   they reach stops with `e` and state `t`: replay stops at the first
   failure, and the state reflects exactly the records before it plus
   whatever the failing `Apply` did before returning its error.
   */
  lemma {:induction false} ReplayFailsIffFirstFailure<S>(log: Log, s: S, t: S, e: Error, at: nat, apply: Applier<S>)
    requires log.file.Valid()
    ensures Replay(log, s, apply) == Failed(t, e, at)
        <==> (&& log.file.offset <= at < |log.file.frames|
              && DecodeAll(log.reg, log.file.frames[log.file.offset..at]).Some?
              && ApplyAll(DecodeAll(log.reg, log.file.frames[log.file.offset..at]).value, s, apply).Ok?
              && Step(log.reg, log.file.frames[at],
                      ApplyAll(DecodeAll(log.reg, log.file.frames[log.file.offset..at]).value, s, apply).value,
                      apply) == Stop(t, e))
    decreases |log.file.frames| - log.file.offset
  {
    var f := log.file;
    if f.offset < |f.frames| {
      var next := log.SeekTo(f.offset + 1);
      if at > f.offset && at < |f.frames| {
        var head := f.frames[f.offset..at];
        assert head[0] == f.frames[f.offset];
        assert head[1..] == f.frames[f.offset + 1..at];
      }
      match DecodeFrame(log.reg, f.frames[f.offset])
      case Err(_) =>
      case Ok(op) =>
        if apply(op, s).failure.None? {
          ReplayFailsIffFirstFailure(next, apply(op, s).state, t, e, at, apply);
        }
    }
  }

  /**
   Replay resumes: catching up with a log and then replaying records appended
   after it from the tail gives what one replay over the longer log gives.
   */
  lemma {:induction false} ReplayInTwoSessions<S>(reg: Registry, before: seq<Frame>, after: seq<Frame>, o: nat, s: S, t: S, apply: Applier<S>)
    requires o <= |before|
    requires Replay(Log(reg, File(before, o)), s, apply) == CaughtUp(t, Log(reg, File(before, |before|)))
    ensures Replay(Log(reg, File(before + after, o)), s, apply)
         == Replay(Log(reg, File(before + after, |before|)), t, apply)
    decreases |before| - o
  {
    if o < |before| {
      var all := before + after;
      assert all[o] == before[o];
      match Step(reg, before[o], s, apply)
      case Stop(_, _) =>
      case Next(s1) =>
        ReplayInTwoSessions(reg, before, after, o + 1, s1, t, apply);
    }
  }

  /** Records appended after a failing record do not change where or how replay fails. */
  lemma {:induction false} FailureIgnoresLaterRecords<S>(log: Log, after: seq<Frame>, s: S, apply: Applier<S>)
    requires log.file.Valid()
    requires Replay(log, s, apply).Failed?
    ensures Replay(Log(log.reg, File(log.file.frames + after, log.file.offset)), s, apply) == Replay(log, s, apply)
    decreases |log.file.frames| - log.file.offset
  {
    var f := log.file;
    var all := f.frames + after;
    assert all[f.offset] == f.frames[f.offset];
    match Step(log.reg, f.frames[f.offset], s, apply)
    case Stop(_, _) =>
    case Next(s1) =>
      FailureIgnoresLaterRecords(log.SeekTo(f.offset + 1), after, s1, apply);
  }

  /**
   Append after catching up: the cursor is already at the tail, so the record
   extends the log and the cursor moves past it. A replay that starts just
   before the new record applies only its operation to the reconstructed
   state, and that is also what one replay of the extended log from the
   original cursor gives. A failed sync makes no difference, since the record
   was written.
   */
  lemma AppendAfterCatchUp<S>(log: Log, s: S, op: Op, syncFails: bool, apply: Applier<S>)
    requires log.Valid()
    requires Replay(log, s, apply).CaughtUp?
    requires log.reg.TagOf(op).Some?
    ensures var caught := Replay(log, s, apply);
            var appended := Append(caught.log, op, syncFails).log;
            var tail := appended.SeekTo(|log.file.frames|);
            && appended.AtTail()
            && appended.file.frames == log.file.frames + [RecordOf(log.reg.TagOf(op).value, op)]
            && Replay(tail, caught.state, apply)
               == (var a := apply(op, caught.state);
                   if a.failure.None? then CaughtUp(a.state, appended)
                   else Failed(a.state, ApplyFailed(a.failure.value), |log.file.frames|))
            && Replay(appended.SeekTo(log.file.offset), s, apply) == Replay(tail, caught.state, apply)
  {
    var caught := Replay(log, s, apply);
    var appended := Append(caught.log, op, syncFails).log;
    var rec := RecordOf(log.reg.TagOf(op).value, op);
    DecodeRecordOf(log.reg, op);
    assert appended.file.frames[|log.file.frames|] == rec;
    ReplayInTwoSessions(log.reg, log.file.frames, [rec], log.file.offset, s, caught.state, apply);
  }

  /**
   Append at the tail (after catching up, say) leaves the cursor past the
   record it wrote, which is the new tail, so a replay that follows it without
   a rewind finds nothing to apply. From a cursor before the tail, the replay
   goes on with the records after the one written.
   */
  lemma ReplayAfterAppendAppliesNothing<S>(log: Log, op: Op, syncFails: bool, s: S, apply: Applier<S>)
    requires log.Valid() && log.AtTail()
    ensures Replay(Append(log, op, syncFails).log, s, apply) == CaughtUp(s, Append(log, op, syncFails).log)
  {
  }

  /** A second replay after catching up, without a rewind, applies nothing. */
  lemma ReplayAgainResumesAtTail<S>(log: Log, s: S, u: S, apply: Applier<S>)
    requires log.file.Valid()
    requires Replay(log, s, apply).CaughtUp?
    ensures Replay(Replay(log, s, apply).log, u, apply) == CaughtUp(u, Replay(log, s, apply).log)
  {
  }

  /** Decoding a record in front of decodable records. */
  lemma DecodeAllCons(reg: Registry, f: Frame, op: Op, frames: seq<Frame>, ops: seq<Op>)
    requires DecodeFrame(reg, f) == Ok(op)
    requires DecodeAll(reg, frames) == Some(ops)
    ensures DecodeAll(reg, [f] + frames) == Some([op] + ops)
  {
    assert ([f] + frames)[1..] == frames;
  }

  /** Appends each operation in turn, with every sync succeeding. */
  function AppendAll(log: Log, ops: seq<Op>): (r: Log)
    requires log.Valid() && log.AtTail()
    requires forall j :: 0 <= j < |ops| ==> log.reg.TagOf(ops[j]).Some?
    ensures r.Valid() && r.AtTail() && r.reg == log.reg
    ensures |r.file.frames| == |log.file.frames| + |ops|
    ensures r.file.frames[..|log.file.frames|] == log.file.frames
    ensures DecodeAll(log.reg, r.file.frames[|log.file.frames|..]) == Some(ops)
    decreases |ops|
  {
    if |ops| == 0 then
      assert log.file.frames[|log.file.frames|..] == [];
      log
    else
      var next := Append(log, ops[0], false).log;
      var r := AppendAll(next, ops[1..]);
      AppendAllStep(log, ops, next, r);
      r
  }

  /** The proof step of `AppendAll`: the first record, then the records of the rest. */
  lemma AppendAllStep(log: Log, ops: seq<Op>, next: Log, r: Log)
    requires log.Valid() && log.AtTail() && |ops| > 0
    requires log.reg.TagOf(ops[0]).Some?
    requires next == Append(log, ops[0], false).log
    requires next.reg == r.reg
    requires |r.file.frames| == |next.file.frames| + |ops| - 1
    requires r.file.frames[..|next.file.frames|] == next.file.frames
    requires DecodeAll(next.reg, r.file.frames[|next.file.frames|..]) == Some(ops[1..])
    ensures r.file.frames[..|log.file.frames|] == log.file.frames
    ensures DecodeAll(log.reg, r.file.frames[|log.file.frames|..]) == Some(ops)
  {
    var n := |log.file.frames|;
    var all := r.file.frames;
    var rest := all[n + 1..];
    var rec := RecordOf(log.reg.TagOf(ops[0]).value, ops[0]);
    assert next.file.frames == log.file.frames + [rec];
    assert all[..n] == next.file.frames[..n];
    assert all[n] == rec;
    assert all[n..] == [rec] + rest;
    assert DecodeAll(log.reg, rest) == Some(ops[1..]);
    DecodeRecordOf(log.reg, ops[0]);
    DecodeAllCons(log.reg, rec, ops[0], rest, ops[1..]);
    assert [ops[0]] + ops[1..] == ops;
  }

  /**
   The round trip the package promises: appending operations to an empty log,
   rewinding and replaying into an initial state gives the state reached by
   applying the operations to it directly, in order.
   */
  lemma RoundTrip<S>(types: seq<OpType>, ops: seq<Op>, s0: S, apply: Applier<S>)
    requires forall j :: 0 <= j < |ops| ==> TypeOf(ops[j]) in types
    ensures var written := AppendAll(New(File([], 0), types), ops);
            var rewound := Rewind(written, false).log;
            && (ApplyAll(ops, s0, apply).Ok? ==> Replay(rewound, s0, apply) == CaughtUp(ApplyAll(ops, s0, apply).value, written))
            && (ApplyAll(ops, s0, apply).Err? ==> Replay(rewound, s0, apply).Failed?)
  {
    var log := New(File([], 0), types);
    var written := AppendAll(log, ops);
    var rewound := Rewind(written, false).log;
    assert written.file.frames[0..] == written.file.frames;
    assert rewound.SeekTo(|rewound.file.frames|) == written;
    var r := Replay(rewound, s0, apply);
    if r.CaughtUp? {
      ReplayCatchesUpIffFold(rewound, s0, r.state, apply);
    }
    if ApplyAll(ops, s0, apply).Ok? {
      ReplayCatchesUpIffFold(rewound, s0, ApplyAll(ops, s0, apply).value, apply);
    }
  }

  /** Replay is repeatable: rewinding after a full replay and replaying again reaches the same state. */
  lemma ReplayRepeatable<S>(log: Log, s0: S, apply: Applier<S>)
    requires log.Valid() && log.file.offset == 0
    requires Replay(log, s0, apply).CaughtUp?
    ensures var first := Replay(log, s0, apply);
            Replay(Rewind(first.log, false).log, s0, apply) == first
  {
    assert Rewind(Replay(log, s0, apply).log, false).log == log;
  }
}
