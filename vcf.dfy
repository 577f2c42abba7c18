/**
 The variant-file objects the transfer engine works on, reduced to plain values:
 a header is its ordered list of metadata records plus a sample count, a record
 is its INFO values, its FORMAT values for the one sample and its quality score.
 The few header and record operations the engine calls are defined here.
 */
module Vcf {

  import opened Wrappers

  /** A 32-bit signed integer, as htslib stores INTEGER values. */
  newtype int32 = x: int | -0x8000_0000 <= x < 0x8000_0000

  newtype byte = x: int | 0 <= x < 0x100

  /** A 32-bit float, kept as its bit pattern: the engine only copies floats. */
  datatype Float32 = Float32(bits: bv32)

  /** The four value types an INFO or FORMAT declaration may have. */
  datatype TagType = Flag | Integer | Float | String

  /**
   One metadata record of a header. INFO and FORMAT declarations carry their
   key/value pairs (ID, Number, Type, Description, ...); every other kind of
   record (FILTER, contig, generic lines) is kept as its text.
   */
  datatype HeaderRecord =
    | Info(values: map<string, string>)
    | Format(values: map<string, string>)
    | Other(line: string)

  datatype Header = Header(records: seq<HeaderRecord>, samples: nat)

  /** An INFO value of a record, tagged with the kind of buffer htslib returns for it. */
  datatype InfoValue =
    | InfoFlag
    | InfoIntegers(ints: seq<int32>)
    | InfoFloats(floats: seq<Float32>)
    | InfoStrings(strs: seq<seq<byte>>)

  /** A FORMAT value of the single sample. */
  datatype FormatValue =
    | FormatIntegers(ints: seq<int32>)
    | FormatFloats(floats: seq<Float32>)
    | FormatStrings(strs: seq<seq<byte>>)

  datatype FormatField = FormatField(id: string, value: FormatValue)

  /** A variant record: its INFO map, its FORMAT fields in order, and QUAL. */
  datatype Record = Record(info: map<string, InfoValue>, format: seq<FormatField>, qual: Float32)

  /** One item of the input stream: a parsed record or a parse failure. */
  datatype ReadResult = Parsed(rec: Record) | Malformed(reason: string)

  /** Every way a run can stop before it has transferred the whole stream. */
  datatype RunError =
    | NoFields                              // neither fields nor QUAL requested
    | NotSingleSample(samples: nat)         // the input does not have exactly one sample
    | MissingKey(id: string, key: string)   // a relocated INFO declaration lacks Number, Type or Description
    | UnknownType(ttype: string)            // a relocated INFO declaration has a Type outside the four
    | MissingInfo(id: string)               // a requested field has no INFO declaration
    | InfoAccess(id: string)                // a record's INFO value does not have its declared type
    | MalformedRecord(reason: string)       // the input stream yielded a record it could not parse

  /** True when `r` is an INFO declaration carrying ID `id`. */
  predicate DeclaresInfo(r: HeaderRecord, id: string)
  {
    r.Info? && "ID" in r.values && r.values["ID"] == id
  }

  /** True when `r` is a FORMAT declaration carrying ID `id`. */
  predicate DeclaresFormat(r: HeaderRecord, id: string)
  {
    r.Format? && "ID" in r.values && r.values["ID"] == id
  }

  /** True when `r` is an INFO declaration of one of `ids`. */
  predicate DeclaresInfoOf(r: HeaderRecord, ids: set<string>)
  {
    r.Info? && "ID" in r.values && r.values["ID"] in ids
  }

  /** The header records without the INFO declarations of `ids`. */
  function Without(records: seq<HeaderRecord>, ids: set<string>): seq<HeaderRecord>
  {
    if records == [] then []
    else if DeclaresInfoOf(records[0], ids) then Without(records[1..], ids)
    else [records[0]] + Without(records[1..], ids)
  }

  /**
   Removing the INFO declaration of `id` from a header: every INFO record with
   that ID goes, and the other records stay in their order.
   */
  function RemoveInfo(records: seq<HeaderRecord>, id: string): (r: seq<HeaderRecord>)
    ensures r == Without(records, {id})
    ensures |r| <= |records|
    ensures forall x :: x in r <==> x in records && !DeclaresInfo(x, id)
  {
    if records == [] then []
    else if DeclaresInfo(records[0], id) then RemoveInfo(records[1..], id)
    else [records[0]] + RemoveInfo(records[1..], id)
  }

  /** The FORMAT value of `id` in a record's FORMAT fields, if it has one. */
  function LookupFormat(fields: seq<FormatField>, id: string): Option<FormatValue>
  {
    if fields == [] then None
    else if fields[0].id == id then Some(fields[0].value)
    else LookupFormat(fields[1..], id)
  }

  /** True when some FORMAT field of the record has ID `id`. */
  predicate HasFormat(fields: seq<FormatField>, id: string)
  {
    exists i :: 0 <= i < |fields| && fields[i].id == id
  }

  /**
   Writing FORMAT value `v` under `id`: a field already present is replaced in
   place, otherwise the field is appended.
   */
  function PushFormat(fields: seq<FormatField>, id: string, v: FormatValue): (r: seq<FormatField>)
    ensures LookupFormat(r, id) == Some(v)
    ensures forall other :: other != id ==> LookupFormat(r, other) == LookupFormat(fields, other)
    ensures !HasFormat(fields, id) ==> r == fields + [FormatField(id, v)]
    ensures HasFormat(fields, id) ==> |r| == |fields|
  {
    if fields == [] then [FormatField(id, v)]
    else if fields[0].id == id then [FormatField(id, v)] + fields[1..]
    else
      var rest := PushFormat(fields[1..], id, v);
      assert HasFormat(fields, id) ==> HasFormat(fields[1..], id) by {
        if HasFormat(fields, id) {
          var i :| 0 <= i < |fields| && fields[i].id == id;
          assert fields[1..][i - 1].id == id;
        }
      }
      assert !HasFormat(fields, id) ==> !HasFormat(fields[1..], id) by {
        if HasFormat(fields[1..], id) {
          var i :| 0 <= i < |fields[1..]| && fields[1..][i].id == id;
          assert fields[i + 1].id == id;
        }
      }
      [fields[0]] + rest
  }

  /**
   Writing under an ID the fields already have replaces its first field at its
   position and leaves every other field where it was.
   */
  lemma {:induction false} PushFormatInPlace(fields: seq<FormatField>, id: string, v: FormatValue, i: nat)
    requires i < |fields| && fields[i].id == id
    requires forall j :: 0 <= j < i ==> fields[j].id != id
    ensures PushFormat(fields, id, v) == fields[i := FormatField(id, v)]
    decreases i
  {
    if i == 0 {
      UpdateCons(fields, 0, FormatField(id, v));
    } else {
      var rest := fields[1..];
      assert rest[i - 1] == fields[i];
      assert forall j :: 0 <= j < i - 1 ==> rest[j] == fields[j + 1];
      PushFormatInPlace(rest, id, v, i - 1);
      UpdateCons(fields, i, FormatField(id, v));
    }
  }

  /** Updating position `i` of a sequence updates its head or, past the head, its tail. */
  lemma UpdateCons<T>(s: seq<T>, i: nat, x: T)
    requires i < |s|
    ensures i == 0 ==> [x] + s[1..] == s[i := x]
    ensures i > 0 ==> [s[0]] + s[1..][i - 1 := x] == s[i := x]
  {
  }

  // ---------------------------------------------------------------------------
  // Reading INFO values by type. A value stored under a different type than the
  // one asked for is an access failure (the program unwraps it and stops).

  /** A Flag is set when present; absence reads as unset. */
  function ReadFlag(info: map<string, InfoValue>, tag: string): Result<bool, RunError>
  {
    if tag !in info then Ok(false)
    else if info[tag].InfoFlag? then Ok(true)
    else Err(InfoAccess(tag))
  }

  function ReadIntegers(info: map<string, InfoValue>, tag: string): Result<Option<seq<int32>>, RunError>
  {
    if tag !in info then Ok(None)
    else if info[tag].InfoIntegers? then Ok(Some(info[tag].ints))
    else Err(InfoAccess(tag))
  }

  function ReadFloats(info: map<string, InfoValue>, tag: string): Result<Option<seq<Float32>>, RunError>
  {
    if tag !in info then Ok(None)
    else if info[tag].InfoFloats? then Ok(Some(info[tag].floats))
    else Err(InfoAccess(tag))
  }

  function ReadStrings(info: map<string, InfoValue>, tag: string): Result<Option<seq<seq<byte>>>, RunError>
  {
    if tag !in info then Ok(None)
    else if info[tag].InfoStrings? then Ok(Some(info[tag].strs))
    else Err(InfoAccess(tag))
  }
}
