/**
 The package's end-to-end test over the key-value operations: three appends
 to an empty file; a fresh log over the reopened file replays them and
 appends one more; another fresh log replays all four, rewinds and replays
 them again.
 */
module Scenario {
  import opened Results
  import opened KvOps
  import opened Codec
  import opened OpRegistry
  import opened ReplayLog

  /** The file after the first three appends. */
  function Written3(): seq<Frame>
  {
    [RecordOf(0, Set("foo", "bar")), RecordOf(0, Set("bar", "waz")), RecordOf(1, Delete("foo"))]
  }

  /** The file after the fourth append. */
  function Written4(): seq<Frame>
  {
    Written3() + [RecordOf(0, Set("foo", "bar"))]
  }

  /** Appending `Set{foo,bar}`, `Set{bar,waz}` and `Delete{foo}` to an empty file succeeds and writes three records. */
  lemma AppendSubtest()
    ensures var l0 := ReplayLog.New(File([], 0), KvOpTypes);
            var a := Append(l0, Set("foo", "bar"), false);
            var b := Append(a.log, Set("bar", "waz"), false);
            var c := Append(b.log, Delete("foo"), false);
            && a.outcome == Pass && b.outcome == Pass && c.outcome == Pass
            && c.log == ReplayLog.New(File(Written3(), 3), KvOpTypes)
  {
    KvTags("foo", "bar");
    KvTags("bar", "waz");
  }

  /** The operations of the first three appends. */
  function Ops3(): seq<Op>
  {
    [Set("foo", "bar"), Set("bar", "waz"), Delete("foo")]
  }

  /** The operations of all four appends. */
  function Ops4(): seq<Op>
  {
    Ops3() + [Set("foo", "bar")]
  }

  /** The records written decode, under the test's registration, to the operations appended. */
  lemma WrittenDecodes()
    ensures DecodeAll(OpRegistry.New(KvOpTypes), Written3()) == Some(Ops3())
    ensures DecodeAll(OpRegistry.New(KvOpTypes), Written4()) == Some(Ops4())
  {
    var reg := OpRegistry.New(KvOpTypes);
    var ops := Ops4();
    KvTags("foo", "bar");
    KvTags("bar", "waz");
    DecodeRecordOf(reg, ops[0]);
    DecodeRecordOf(reg, ops[1]);
    DecodeRecordOf(reg, ops[2]);
    assert forall j | 0 <= j < 4 :: DecodeFrame(reg, Written4()[j]) == Ok(ops[j]);
    assert DecodeAll(reg, Written4()).value == ops;
    assert forall j | 0 <= j < 3 :: DecodeFrame(reg, Written3()[j]) == Ok(Ops3()[j]);
    assert DecodeAll(reg, Written3()).value == Ops3();
  }

  /** Applying the operations directly to `{}`: three give `{"bar": "waz"}`, four give `{"bar": "waz", "foo": "bar"}`. */
  lemma KvFolds()
    ensures ApplyAll(Ops3(), map[], Apply) == Ok(map["bar" := "waz"])
    ensures ApplyAll(Ops4(), map[], Apply) == Ok(map["bar" := "waz", "foo" := "bar"])
  {
    var ops := Ops4();
    var s1 := map["foo" := "bar"];
    var s2 := map["foo" := "bar", "bar" := "waz"];
    var s3 := map["bar" := "waz"];
    var s4 := map["bar" := "waz", "foo" := "bar"];
    assert Apply(ops[0], map[]) == Applied(s1, None);
    assert Apply(ops[1], s1) == Applied(s2, None);
    assert (s2 - {"foo"}).Keys == s3.Keys;
    assert s2 - {"foo"} == s3;
    assert Apply(ops[2], s2) == Applied(s3, None);
    assert Apply(ops[3], s3) == Applied(s4, None);
    assert ApplyAll(Ops3()[2..], s2, Apply) == Ok(s3);
    assert ApplyAll(Ops3(), map[], Apply) == Ok(s3);
    assert ApplyAll(ops[3..], s3, Apply) == Ok(s4);
    assert ApplyAll(ops, map[], Apply) == Ok(s4);
  }

  /** Replaying the three records into `{}` gives `{"bar": "waz"}`, and the append that follows extends the file. */
  lemma ReplayThenAppendSubtest()
    ensures var log := ReplayLog.New(File(Written3(), 0), KvOpTypes);
            var replayed := Replay(log, map[], Apply);
            && replayed == CaughtUp(map["bar" := "waz"], log.SeekTo(3))
            && Append(replayed.log, Set("foo", "bar"), false) == Effect(ReplayLog.New(File(Written4(), 4), KvOpTypes), Pass)
  {
    var log := ReplayLog.New(File(Written3(), 0), KvOpTypes);
    KvTags("foo", "bar");
    WrittenDecodes();
    KvFolds();
    assert Written3()[0..] == Written3();
    ReplayCatchesUpIffFold(log, map[], map["bar" := "waz"], Apply);
  }

  /** Replaying all four records into `{}` gives `{"bar": "waz", "foo": "bar"}`; after a rewind, replaying into a fresh `{}` gives it again. */
  lemma ReplayAgainSubtest()
    ensures var log := ReplayLog.New(File(Written4(), 0), KvOpTypes);
            var replayed := Replay(log, map[], Apply);
            var rewound := Rewind(replayed.log, false);
            && replayed == CaughtUp(map["bar" := "waz", "foo" := "bar"], log.SeekTo(4))
            && rewound.outcome == Pass
            && Replay(rewound.log, map[], Apply) == replayed
  {
    var log := ReplayLog.New(File(Written4(), 0), KvOpTypes);
    WrittenDecodes();
    KvFolds();
    assert Written4()[0..] == Written4();
    ReplayCatchesUpIffFold(log, map[], map["bar" := "waz", "foo" := "bar"], Apply);
    ReplayRepeatable(log, map[], Apply);
  }
}
