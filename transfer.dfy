/**
 The per-record transfer: for every field of the plan, in key order, read the
 INFO value by its type and clear it; then write the captured values as FORMAT
 values of the sample, in key order, and QUAL last when asked for.

 TransferSpec states the outcome over the whole record at once; TransferRecord
 computes it the way the program does, field by field.
 */
module Transfer {

  import opened Wrappers
  import opened Vcf
  import opened Ordering

  /** A captured INFO value, one case per type; a Flag is captured as 1 or 0. */
  datatype TagValue =
    | FlagValue(flag: int32)
    | IntegerValues(ints: seq<int32>)
    | FloatValues(floats: seq<Float32>)
    | StringValues(strs: seq<seq<byte>>)

  /** The INFO value has the kind of buffer its declared type reads as. */
  predicate Matches(v: InfoValue, t: TagType)
  {
    match t
    case Flag => v.InfoFlag?
    case Integer => v.InfoIntegers?
    case Float => v.InfoFloats?
    case String => v.InfoStrings?
  }

  /** A planned field whose INFO value on this record cannot be read as its type. */
  predicate Mismatch(info: map<string, InfoValue>, types: map<string, TagType>, tag: string)
  {
    tag in types && tag in info && !Matches(info[tag], types[tag])
  }

  /** Every planned field present on the record has its declared type. */
  predicate WellTyped(info: map<string, InfoValue>, types: map<string, TagType>)
  {
    forall tag :: tag in types && tag in info ==> Matches(info[tag], types[tag])
  }

  /** The first field in `order` that cannot be read as its type. */
  function FirstMismatch(order: seq<string>, info: map<string, InfoValue>, types: map<string, TagType>): Option<string>
  {
    if order == [] then None
    else if Mismatch(info, types, order[0]) then Some(order[0])
    else FirstMismatch(order[1..], info, types)
  }

  /** The fields that capture a value: every Flag field, and every other field the record has. */
  predicate Captures(info: map<string, InfoValue>, types: map<string, TagType>, tag: string)
  {
    tag in types && (types[tag] == Flag || tag in info)
  }

  /** The value captured for one field. */
  function Capture(info: map<string, InfoValue>, types: map<string, TagType>, tag: string): TagValue
    requires Captures(info, types, tag) && !Mismatch(info, types, tag)
  {
    match types[tag]
    case Flag => FlagValue(if tag in info then 1 else 0)
    case Integer => IntegerValues(info[tag].ints)
    case Float => FloatValues(info[tag].floats)
    case String => StringValues(info[tag].strs)
  }

  /** The values captured from a well-typed record. */
  function Captured(info: map<string, InfoValue>, types: map<string, TagType>): map<string, TagValue>
    requires WellTyped(info, types)
  {
    map tag | tag in types && Captures(info, types, tag) :: Capture(info, types, tag)
  }

  /**
   Reading one planned field as its declared type: a Flag always yields a value
   (1 when set, 0 when not), any other type only when the record has it.
   */
  function ReadTag(info: map<string, InfoValue>, types: map<string, TagType>, tag: string): (r: Result<Option<TagValue>, RunError>)
    requires tag in types
    ensures Mismatch(info, types, tag) ==> r == Err(InfoAccess(tag))
    ensures !Mismatch(info, types, tag) && Captures(info, types, tag) ==> r == Ok(Some(Capture(info, types, tag)))
    ensures !Mismatch(info, types, tag) && !Captures(info, types, tag) ==> r == Ok(None)
  {
    match types[tag]
    case Flag =>
      (match ReadFlag(info, tag)
       case Err(e) => Err(e)
       case Ok(v) => Ok(Some(FlagValue(if v then 1 else 0))))
    case Integer =>
      (match ReadIntegers(info, tag)
       case Err(e) => Err(e)
       case Ok(None) => Ok(None)
       case Ok(Some(x)) => Ok(Some(IntegerValues(x))))
    case Float =>
      (match ReadFloats(info, tag)
       case Err(e) => Err(e)
       case Ok(None) => Ok(None)
       case Ok(Some(x)) => Ok(Some(FloatValues(x))))
    case String =>
      (match ReadStrings(info, tag)
       case Err(e) => Err(e)
       case Ok(None) => Ok(None)
       case Ok(Some(x)) => Ok(Some(StringValues(x))))
  }

  /** How a captured value is written as a FORMAT value: a Flag as a one-element integer list. */
  function ToFormat(v: TagValue): FormatValue
  {
    match v
    case FlagValue(x) => FormatIntegers([x])
    case IntegerValues(x) => FormatIntegers(x)
    case FloatValues(x) => FormatFloats(x)
    case StringValues(x) => FormatStrings(x)
  }

  /** The FORMAT fields written for `keys`, in that order. */
  function Pushes(keys: seq<string>, data: map<string, TagValue>): seq<FormatField>
    requires forall k :: 0 <= k < |keys| ==> keys[k] in data
    decreases |keys|
  {
    if keys == [] then []
    else Pushes(keys[..|keys| - 1], data) + [FormatField(keys[|keys| - 1], ToFormat(data[keys[|keys| - 1]]))]
  }

  /** Writing a sequence of FORMAT fields one after the other. */
  function PushAll(fields: seq<FormatField>, pushes: seq<FormatField>): seq<FormatField>
    decreases |pushes|
  {
    if pushes == [] then fields
    else
      var last := pushes[|pushes| - 1];
      PushFormat(PushAll(fields, pushes[..|pushes| - 1]), last.id, last.value)
  }

  const QualId := "QUAL"

  /** The QUAL value written as a FORMAT field. */
  function QualPush(rec: Record, qual: bool): seq<FormatField>
  {
    if qual then [FormatField(QualId, FormatFloats([rec.qual]))] else []
  }

  /**
   The outcome of transferring one record: the first planned field (in key
   order) whose value cannot be read stops the run; otherwise the planned
   fields leave INFO, the captured values are written in key order, then QUAL.
   */
  ghost function TransferSpec(rec: Record, types: map<string, TagType>, qual: bool): Result<Record, RunError>
  {
    match FirstMismatch(SortedSeq(types.Keys), rec.info, types)
    case Some(tag) => Err(InfoAccess(tag))
    case None =>
      FirstMismatchNone(SortedSeq(types.Keys), rec.info, types);
      var data := Captured(rec.info, types);
      var pushes := Pushes(SortedSeq(data.Keys), data) + QualPush(rec, qual);
      Ok(Record(rec.info - types.Keys, PushAll(rec.format, pushes), rec.qual))
  }

  /** No field of `order` mismatches exactly when FirstMismatch finds none. */
  lemma {:induction false} FirstMismatchNone(order: seq<string>, info: map<string, InfoValue>, types: map<string, TagType>)
    ensures FirstMismatch(order, info, types) == None <==> forall k :: 0 <= k < |order| ==> !Mismatch(info, types, order[k])
    ensures Elems(order) == types.Keys && FirstMismatch(order, info, types) == None ==> WellTyped(info, types)
    decreases |order|
  {
    if order != [] {
      FirstMismatchNone(order[1..], info, types);
      assert forall k :: 1 <= k < |order| ==> order[k] == order[1..][k - 1];
    }
    if Elems(order) == types.Keys && FirstMismatch(order, info, types) == None {
      forall tag | tag in types && tag in info
        ensures Matches(info[tag], types[tag])
      {
        assert tag in Elems(order);
        var k :| 0 <= k < |order| && order[k] == tag;
        assert !Mismatch(info, types, order[k]);
      }
    }
  }

  lemma {:induction false} FirstMismatchAt(order: seq<string>, info: map<string, InfoValue>, types: map<string, TagType>, i: int)
    requires 0 <= i < |order| && Mismatch(info, types, order[i])
    requires forall k :: 0 <= k < i ==> !Mismatch(info, types, order[k])
    ensures FirstMismatch(order, info, types) == Some(order[i])
    decreases i
  {
    if i > 0 {
      assert !Mismatch(info, types, order[0]);
      FirstMismatchAt(order[1..], info, types, i - 1);
    }
  }

  /** What holds after the first `i` planned fields have been read and cleared. */
  ghost predicate Extracted(rec: Record, types: map<string, TagType>, order: seq<string>, i: int,
                            out: Record, data: map<string, TagValue>)
  {
    && 0 <= i <= |order|
    && (forall k :: 0 <= k < i ==> !Mismatch(rec.info, types, order[k]))
    && out.format == rec.format && out.qual == rec.qual
    && out.info == rec.info - Elems(order[..i])
    && CapturedFrom(rec.info, types, Elems(order[..i]), data)
  }

  /** `data` holds exactly the values captured from the fields in `seen`. */
  ghost predicate CapturedFrom(info: map<string, InfoValue>, types: map<string, TagType>, seen: set<string>, data: map<string, TagValue>)
  {
    && (forall tag :: tag in data <==> tag in seen && Captures(info, types, tag))
    && (forall tag :: tag in data ==> !Mismatch(info, types, tag) && data[tag] == Capture(info, types, tag))
  }

  lemma CaptureStep(info: map<string, InfoValue>, types: map<string, TagType>, seen: set<string>, data: map<string, TagValue>,
                    tag: string, o: Option<TagValue>)
    requires CapturedFrom(info, types, seen, data) && tag in types && !Mismatch(info, types, tag)
    requires o == if Captures(info, types, tag) then Some(Capture(info, types, tag)) else None
    ensures CapturedFrom(info, types, seen + {tag}, if o.Some? then data[tag := o.value] else data)
  {
  }

  lemma ExtractStart(rec: Record, types: map<string, TagType>, order: seq<string>)
    ensures Extracted(rec, types, order, 0, rec, map[])
  {
    assert Elems(order[..0]) == {};
    assert rec.info - Elems(order[..0]) == rec.info;
  }

  /** Reading the next field from the partly cleared record reads what the input record holds. */
  lemma ExtractReads(rec: Record, types: map<string, TagType>, order: seq<string>, i: int,
                     out: Record, data: map<string, TagValue>)
    requires Extracted(rec, types, order, i, out, data) && i < |order| && order[i] in types
    requires order[i] !in Elems(order[..i])
    ensures Mismatch(out.info, types, order[i]) <==> Mismatch(rec.info, types, order[i])
    ensures Captures(out.info, types, order[i]) <==> Captures(rec.info, types, order[i])
    ensures Captures(rec.info, types, order[i]) && !Mismatch(rec.info, types, order[i]) ==>
              Capture(out.info, types, order[i]) == Capture(rec.info, types, order[i])
  {
    var tag := order[i];
    assert tag in out.info <==> tag in rec.info;
    assert tag in rec.info ==> out.info[tag] == rec.info[tag];
  }

  lemma ExtractFails(rec: Record, types: map<string, TagType>, order: seq<string>, i: int,
                     out: Record, data: map<string, TagValue>)
    requires Extracted(rec, types, order, i, out, data) && i < |order|
    requires StrictlySorted(order) && Elems(order) == types.Keys
    requires order[i] in types && ReadTag(out.info, types, order[i]).Err?
    ensures FirstMismatch(order, rec.info, types) == Some(order[i])
  {
    SortedFresh(order, i);
    ExtractReads(rec, types, order, i, out, data);
    FirstMismatchAt(order, rec.info, types, i);
  }

  lemma ExtractStep(rec: Record, types: map<string, TagType>, order: seq<string>, i: int,
                    out: Record, data: map<string, TagValue>, o: Option<TagValue>,
                    out': Record, data': map<string, TagValue>)
    requires Extracted(rec, types, order, i, out, data) && i < |order|
    requires StrictlySorted(order) && Elems(order) == types.Keys
    requires order[i] in types && ReadTag(out.info, types, order[i]) == Ok(o)
    requires out'.format == out.format && out'.qual == out.qual
    requires out'.info == if o.Some? && order[i] in out.info then out.info - {order[i]} else out.info
    requires data' == if o.Some? then data[order[i] := o.value] else data
    ensures Extracted(rec, types, order, i + 1, out', data')
  {
    SortedFresh(order, i);
    ExtractReads(rec, types, order, i, out, data);
    ElemsPrefix(order, i);
    CaptureStep(rec.info, types, Elems(order[..i]), data, order[i], o);
    assert out'.info == out.info - {order[i]};
  }

  lemma ExtractEnd(rec: Record, types: map<string, TagType>, order: seq<string>,
                   out: Record, data: map<string, TagValue>)
    requires Extracted(rec, types, order, |order|, out, data) && Elems(order) == types.Keys
    ensures FirstMismatch(order, rec.info, types) == None && WellTyped(rec.info, types)
    ensures out == rec.(info := rec.info - types.Keys) && data == Captured(rec.info, types)
  {
    assert order[..|order|] == order;
    FirstMismatchNone(order, rec.info, types);
  }

  /** Lines up the second loop's step with Pushes and PushAll. */
  lemma PushStep(fields: seq<FormatField>, keys: seq<string>, j: int, data: map<string, TagValue>)
    requires 0 <= j < |keys| && forall k :: 0 <= k < |keys| ==> keys[k] in data
    ensures PushAll(fields, Pushes(keys[..j + 1], data))
         == PushFormat(PushAll(fields, Pushes(keys[..j], data)), keys[j], ToFormat(data[keys[j]]))
  {
    assert keys[..j + 1][..j] == keys[..j];
    var ps := Pushes(keys[..j + 1], data);
    assert ps[..|ps| - 1] == Pushes(keys[..j], data);
  }

  lemma QualStep(fields: seq<FormatField>, pushes: seq<FormatField>, q: FormatField)
    ensures PushAll(fields, pushes + [q]) == PushFormat(PushAll(fields, pushes), q.id, q.value)
  {
    assert (pushes + [q])[..|pushes|] == pushes;
  }

  /**
   The first loop of a record's transfer: reads each planned INFO field in key
   order as its declared type, clears it from INFO and keeps the value.
   */
  method ExtractFields(rec: Record, types: map<string, TagType>) returns (r: Result<(Record, map<string, TagValue>), RunError>)
    ensures FirstMismatch(SortedSeq(types.Keys), rec.info, types).Some? ==>
              r == Err(InfoAccess(FirstMismatch(SortedSeq(types.Keys), rec.info, types).value))
    ensures FirstMismatch(SortedSeq(types.Keys), rec.info, types) == None ==>
              WellTyped(rec.info, types) && r == Ok((rec.(info := rec.info - types.Keys), Captured(rec.info, types)))
  {
    var out := rec;
    var data: map<string, TagValue> := map[];
    var order := SortedKeys(types);
    var i := 0;
    ExtractStart(rec, types, order);
    while i < |order|
      invariant Extracted(rec, types, order, i, out, data)
    {
      var tag := order[i];
      assert tag in Elems(order);
      match ReadTag(out.info, types, tag) {
      case Err(e) =>
        ExtractFails(rec, types, order, i, out, data);
        return Err(e);
      case Ok(None) =>
        ExtractStep(rec, types, order, i, out, data, None, out, data);
      case Ok(Some(v)) =>
        var data0, out0 := data, out;
        data := data[tag := v];
        if tag in out.info {
          out := out.(info := out.info - {tag});
        }
        ExtractStep(rec, types, order, i, out0, data0, Some(v), out, data);
      }
      i := i + 1;
    }
    ExtractEnd(rec, types, order, out, data);
    return Ok((out, data));
  }

  /**
   The second loop of a record's transfer: writes each captured value as a
   FORMAT field of the sample in key order, then QUAL when asked for.
   */
  method WriteFormats(rec: Record, data: map<string, TagValue>, qual: bool) returns (out: Record)
    ensures out == rec.(format := PushAll(rec.format, Pushes(SortedSeq(data.Keys), data) + QualPush(rec, qual)))
  {
    out := rec;
    var keys := SortedKeys(data);
    var j := 0;
    assert keys[..j] == [];
    while j < |keys|
      invariant 0 <= j <= |keys| && Elems(keys) == data.Keys
      invariant out.info == rec.info && out.qual == rec.qual
      invariant out.format == PushAll(rec.format, Pushes(keys[..j], data))
    {
      var tag := keys[j];
      assert tag in Elems(keys);
      PushStep(rec.format, keys, j, data);
      out := out.(format := PushFormat(out.format, tag, ToFormat(data[tag])));
      j := j + 1;
    }
    assert keys[..j] == keys;
    var pushes := Pushes(keys, data);
    if qual {
      QualStep(rec.format, pushes, FormatField(QualId, FormatFloats([out.qual])));
      out := out.(format := PushFormat(out.format, QualId, FormatFloats([out.qual])));
    } else {
      assert pushes + QualPush(rec, qual) == pushes;
    }
  }

  /**
   Transfers one record: the planned INFO fields become FORMAT fields of the
   sample; the record now refers to the output header, which changes nothing
   else about it.
   */
  method TransferRecord(rec: Record, types: map<string, TagType>, qual: bool) returns (r: Result<Record, RunError>)
    ensures r == TransferSpec(rec, types, qual)
  {
    var extracted := ExtractFields(rec, types);
    match extracted {
    case Err(e) =>
      return Err(e);
    case Ok((out, data)) =>
      var written := WriteFormats(out, data, qual);
      return Ok(written);
    }
  }
}
