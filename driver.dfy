/**
 The whole run: plan the header, then move the planned fields of every record
 of the input stream, in stream order, counting the records read. The run
 stops at the first record the reader cannot parse and at the first record
 whose INFO values cannot be read with their planned types.

 StreamOf states the record loop's outcome item by item, for any per-record
 transfer; ProcessRecords computes it, with the transfer of Transfer, the way
 the program does, with early returns.
 */
module Driver {

  import opened Wrappers
  import opened Vcf
  import opened Planner
  import opened Transfer

  /** Where the record loop stands: the records written, the count of records read, and why it stopped early. */
  datatype Stream = Stream(written: seq<Record>, processed: nat, error: Option<RunError>)

  /** One more item of the input stream, unless the loop has stopped; `move` is the per-record transfer. */
  ghost function Step(s: Stream, item: ReadResult, move: Record -> Result<Record, RunError>): Stream
  {
    if s.error.Some? then s
    else match item
      case Malformed(reason) => s.(error := Some(MalformedRecord(reason)))
      case Parsed(rec) =>
        match move(rec)
        case Err(e) => Stream(s.written, s.processed + 1, Some(e))
        case Ok(out) => Stream(s.written + [out], s.processed + 1, None)
  }

  /** The record loop over a stream, item by item. */
  ghost function StreamOf(input: seq<ReadResult>, move: Record -> Result<Record, RunError>): Stream
    decreases |input|
  {
    if input == [] then Stream([], 0, None)
    else Step(StreamOf(input[..|input| - 1], move), input[|input| - 1], move)
  }

  /** The per-record transfer of a plan's field types, with or without QUAL. */
  ghost function TransferOf(types: map<string, TagType>, qual: bool): Record -> Result<Record, RunError>
  {
    rec => TransferSpec(rec, types, qual)
  }

  /** The outcome of a run: the header written (when planning succeeded), the records written, the count, the error. */
  datatype Outcome = Outcome(header: Option<Header>, written: seq<Record>, processed: nat, error: Option<RunError>)

  ghost function RunSpec(h: Header, fields: seq<string>, qual: bool, input: seq<ReadResult>): Outcome
  {
    match PlanSpec(h, fields, qual)
    case Err(e) => Outcome(None, [], 0, Some(e))
    case Ok(p) =>
      var s := StreamOf(input, TransferOf(p.types, qual));
      Outcome(Some(p.header), s.written, s.processed, s.error)
  }

  // ---------------------------------------------------------------------------
  // The loop as the program runs it

  lemma StreamStep(input: seq<ReadResult>, move: Record -> Result<Record, RunError>, i: nat)
    requires i < |input|
    ensures StreamOf(input[..i + 1], move) == Step(StreamOf(input[..i], move), input[i], move)
  {
    assert input[..i + 1][..i] == input[..i];
  }

  /** Once the loop has stopped on a prefix of the stream, the rest of the stream changes nothing. */
  lemma {:induction false} StreamErrorPersists(input: seq<ReadResult>, move: Record -> Result<Record, RunError>, k: nat)
    requires k <= |input| && StreamOf(input[..k], move).error.Some?
    ensures StreamOf(input, move) == StreamOf(input[..k], move)
    decreases |input|
  {
    if k < |input| {
      var p := input[..|input| - 1];
      assert p[..k] == input[..k];
      StreamErrorPersists(p, move, k);
    } else {
      assert input[..k] == input;
    }
  }

  /**
   The record loop: a record the reader cannot parse stops the run before it is
   counted; every parsed record is counted, then its planned fields are moved,
   and a failure there stops the run.
   */
  method ProcessRecords(input: seq<ReadResult>, types: map<string, TagType>, qual: bool) returns (s: Stream)
    ensures s == StreamOf(input, TransferOf(types, qual))
  {
    ghost var move := TransferOf(types, qual);
    var written: seq<Record> := [];
    var nRecords: nat := 0;
    var i := 0;
    while i < |input|
      invariant 0 <= i <= |input|
      invariant StreamOf(input[..i], move) == Stream(written, nRecords, None)
    {
      StreamStep(input, move, i);
      match input[i] {
        case Malformed(reason) =>
          StreamErrorPersists(input, move, i + 1);
          return Stream(written, nRecords, Some(MalformedRecord(reason)));
        case Parsed(rec) =>
          nRecords := nRecords + 1;
          var r := TransferRecord(rec, types, qual);
          assert move(rec) == r;
          match r {
            case Err(e) =>
              StreamErrorPersists(input, move, i + 1);
              return Stream(written, nRecords, Some(e));
            case Ok(out) =>
              written := written + [out];
          }
      }
      i := i + 1;
    }
    assert input[..i] == input;
    return Stream(written, nRecords, None);
  }

  /** A run: planning, then the record loop over the stream with the planned types. */
  method Run(h: Header, fields: seq<string>, qual: bool, input: seq<ReadResult>) returns (o: Outcome)
    ensures o == RunSpec(h, fields, qual, input)
  {
    var plan := PlanHeader(h, fields, qual);
    if plan.Err? {
      return Outcome(None, [], 0, Some(plan.error));
    }
    var s := ProcessRecords(input, plan.value.types, qual);
    return Outcome(Some(plan.value.header), s.written, s.processed, s.error);
  }

  // ---------------------------------------------------------------------------
  // What the record loop guarantees, whatever the per-record transfer

  /**
   The records written are the transfers of the first items of the stream, in
   order, each of them a parsed record; a loop that runs to the end writes and
   counts every record.
   */
  lemma {:induction false} StreamWritten(input: seq<ReadResult>, move: Record -> Result<Record, RunError>)
    ensures var s := StreamOf(input, move);
            && |s.written| <= |input|
            && (s.error.None? ==> |s.written| == |input| && s.processed == |input|)
            && forall k :: 0 <= k < |s.written| ==> input[k].Parsed? && move(input[k].rec) == Ok(s.written[k])
    decreases |input|
  {
    if input != [] {
      var p := input[..|input| - 1];
      var last := input[|input| - 1];
      StreamWritten(p, move);
      var s := StreamOf(p, move);
      assert forall k :: 0 <= k < |p| ==> input[k] == p[k];
      if s.error.None? && last.Parsed? && move(last.rec).Ok? {
        assert StreamOf(input, move).written == s.written + [move(last.rec).value];
        assert input[|s.written|] == last;
      }
    }
  }

  /** The loop runs to the end exactly when every item is a parsed record whose transfer succeeds. */
  lemma {:induction false} StreamCompletes(input: seq<ReadResult>, move: Record -> Result<Record, RunError>)
    ensures StreamOf(input, move).error.None? <==>
              forall k :: 0 <= k < |input| ==> input[k].Parsed? && move(input[k].rec).Ok?
    decreases |input|
  {
    if input != [] {
      var p := input[..|input| - 1];
      StreamCompletes(p, move);
      assert forall k :: 0 <= k < |p| ==> input[k] == p[k];
    }
  }

  /**
   A loop that stops early stops at the item right after the last record
   written: an unparsable item stops it uncounted, a parsed record whose
   transfer fails stops it counted, with that transfer's error.
   */
  lemma {:induction false} StreamStops(input: seq<ReadResult>, move: Record -> Result<Record, RunError>)
    ensures var s := StreamOf(input, move);
            s.error.Some? ==>
              && |s.written| < |input|
              && (input[|s.written|].Malformed? ==>
                    s.error == Some(MalformedRecord(input[|s.written|].reason)) && s.processed == |s.written|)
              && (input[|s.written|].Parsed? ==>
                    move(input[|s.written|].rec) == Err(s.error.value) && s.processed == |s.written| + 1)
    ensures var s := StreamOf(input, move);
            s.error.None? ==> s.processed == |s.written|
    decreases |input|
  {
    if input != [] {
      var p := input[..|input| - 1];
      StreamStops(p, move);
      var s := StreamOf(p, move);
      if s.error.Some? {
        assert input[|s.written|] == p[|s.written|];
      } else {
        StreamWritten(p, move);
      }
    }
  }

  // ---------------------------------------------------------------------------
  // What a run guarantees

  /**
   A run whose planning fails writes no header and reads no record, and reports
   the planning error; otherwise the planned header is written.
   */
  lemma PlanFailureReadsNothing(h: Header, fields: seq<string>, qual: bool, input: seq<ReadResult>)
    ensures var o := RunSpec(h, fields, qual, input);
            o.header.None? <==> PlanSpec(h, fields, qual).Err?
    ensures var o := RunSpec(h, fields, qual, input);
            PlanSpec(h, fields, qual).Err? ==>
              o.written == [] && o.processed == 0 && o.error == Some(PlanSpec(h, fields, qual).error)
    ensures var o := RunSpec(h, fields, qual, input);
            PlanSpec(h, fields, qual).Ok? ==> o.header == Some(PlanSpec(h, fields, qual).value.header)
  {
  }

  /**
   After a successful plan, every record written is the transfer of the parsed
   record at the same position, and the count is the number of records read:
   all of them when the run completes, the records written plus the one whose
   transfer failed otherwise.
   */
  lemma RunRecords(h: Header, fields: seq<string>, qual: bool, input: seq<ReadResult>, p: Plan)
    requires PlanSpec(h, fields, qual) == Ok(p)
    ensures var o := RunSpec(h, fields, qual, input);
            forall k :: 0 <= k < |o.written| ==>
              k < |input| && input[k].Parsed? && TransferSpec(input[k].rec, p.types, qual) == Ok(o.written[k])
    ensures var o := RunSpec(h, fields, qual, input);
            o.processed == |o.written| + (if o.error.Some? && o.error.value.InfoAccess? then 1 else 0)
    ensures var o := RunSpec(h, fields, qual, input);
            o.error.None? ==> |o.written| == |input| == o.processed
  {
    var move := TransferOf(p.types, qual);
    var s := StreamOf(input, move);
    assert RunSpec(h, fields, qual, input) == Outcome(Some(p.header), s.written, s.processed, s.error);
    StreamWritten(input, move);
    StreamStops(input, move);
    forall k | 0 <= k < |s.written|
      ensures TransferSpec(input[k].rec, p.types, qual) == Ok(s.written[k])
    {
      assert move(input[k].rec) == Ok(s.written[k]);
    }
    if s.error.Some? {
      var item := input[|s.written|];
      if item.Parsed? {
        assert move(item.rec) == Err(s.error.value);
        TransferErrorKind(item.rec, p.types, qual);
      }
    }
  }

  /** The only way moving a record's fields can fail is an INFO value of the wrong type. */
  lemma TransferErrorKind(rec: Record, types: map<string, TagType>, qual: bool)
    requires TransferSpec(rec, types, qual).Err?
    ensures TransferSpec(rec, types, qual).error.InfoAccess?
  {
  }
}
