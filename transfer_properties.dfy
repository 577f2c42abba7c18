/**
 What a record's transfer promises: where each planned field's value ends up,
 what is left alone, the order new FORMAT fields are written in, and when and
 how a record stops the run.
 */
module TransferProperties {

  import opened Wrappers
  import opened Vcf
  import opened Ordering
  import opened Transfer

  /** The value written for the last field with ID `id` in a sequence of writes. */
  function LastWrite(pushes: seq<FormatField>, id: string): Option<FormatValue>
    decreases |pushes|
  {
    if pushes == [] then None
    else if pushes[|pushes| - 1].id == id then Some(pushes[|pushes| - 1].value)
    else LastWrite(pushes[..|pushes| - 1], id)
  }

  /** The IDs of a sequence of FORMAT fields. */
  function FieldIds(fields: seq<FormatField>): (r: seq<string>)
    ensures |r| == |fields| && forall k :: 0 <= k < |fields| ==> r[k] == fields[k].id
  {
    seq(|fields|, k requires 0 <= k < |fields| => fields[k].id)
  }

  /** A non-Flag INFO value written as a FORMAT value of the same type and contents. */
  function Moved(v: InfoValue): FormatValue
    requires !v.InfoFlag?
  {
    match v
    case InfoIntegers(x) => FormatIntegers(x)
    case InfoFloats(x) => FormatFloats(x)
    case InfoStrings(x) => FormatStrings(x)
  }

  // ---------------------------------------------------------------------------
  // Writing a sequence of FORMAT fields

  /** After a sequence of writes, an ID holds its last write, or what it held before. */
  lemma {:induction false} LookupPushAll(fields: seq<FormatField>, pushes: seq<FormatField>, id: string)
    ensures LookupFormat(PushAll(fields, pushes), id)
         == if LastWrite(pushes, id).Some? then LastWrite(pushes, id) else LookupFormat(fields, id)
    decreases |pushes|
  {
    if pushes != [] {
      LookupPushAll(fields, pushes[..|pushes| - 1], id);
    }
  }

  lemma LastWriteAppend(pushes: seq<FormatField>, q: FormatField, id: string)
    ensures LastWrite(pushes + [q], id) == if q.id == id then Some(q.value) else LastWrite(pushes, id)
  {
    assert (pushes + [q])[..|pushes|] == pushes;
  }

  lemma {:induction false} PushesShape(keys: seq<string>, data: map<string, TagValue>)
    requires forall k :: 0 <= k < |keys| ==> keys[k] in data
    ensures |Pushes(keys, data)| == |keys|
    ensures forall k :: 0 <= k < |keys| ==> Pushes(keys, data)[k] == FormatField(keys[k], ToFormat(data[keys[k]]))
    decreases |keys|
  {
    if keys != [] {
      PushesShape(keys[..|keys| - 1], data);
    }
  }

  /** With distinct keys, each key's last write is its own captured value. */
  lemma {:induction false} LastWritePushes(keys: seq<string>, data: map<string, TagValue>, id: string)
    requires forall k :: 0 <= k < |keys| ==> keys[k] in data
    ensures LastWrite(Pushes(keys, data), id) == if id in keys then Some(ToFormat(data[id])) else None
    decreases |keys|
  {
    if keys != [] {
      var init := keys[..|keys| - 1];
      LastWritePushes(init, data, id);
      assert keys == init + [keys[|keys| - 1]];
    }
  }

  /** Writes of fresh, distinct IDs append in order. */
  lemma {:induction false} PushAllAppends(fields: seq<FormatField>, pushes: seq<FormatField>)
    requires forall k, l :: 0 <= k < l < |pushes| ==> pushes[k].id != pushes[l].id
    requires forall k :: 0 <= k < |pushes| ==> !HasFormat(fields, pushes[k].id)
    ensures PushAll(fields, pushes) == fields + pushes
    decreases |pushes|
  {
    if pushes != [] {
      var init := pushes[..|pushes| - 1];
      var last := pushes[|pushes| - 1];
      PushAllAppends(fields, init);
      forall i | 0 <= i < |fields + init|
        ensures (fields + init)[i].id != last.id
      {
        if i < |fields| {
          assert !HasFormat(fields, last.id);
        } else {
          assert (fields + init)[i] == pushes[i - |fields|];
        }
      }
      assert pushes == init + [last];
    }
  }

  // ---------------------------------------------------------------------------
  // Unfolding a transfer

  lemma {:induction false} FirstMismatchSome(order: seq<string>, info: map<string, InfoValue>, types: map<string, TagType>, tag: string)
    requires FirstMismatch(order, info, types) == Some(tag)
    ensures exists i :: 0 <= i < |order| && order[i] == tag && Mismatch(info, types, tag)
                        && forall k :: 0 <= k < i ==> !Mismatch(info, types, order[k])
    decreases |order|
  {
    if !Mismatch(info, types, order[0]) {
      FirstMismatchSome(order[1..], info, types, tag);
      var i :| 0 <= i < |order[1..]| && order[1..][i] == tag && Mismatch(info, types, tag)
               && forall k :: 0 <= k < i ==> !Mismatch(info, types, order[1..][k]);
      assert forall k :: 1 <= k < i + 1 ==> order[k] == order[1..][k - 1];
      assert order[i + 1] == tag;
    } else {
      assert order[0] == tag;
    }
  }

  lemma TransferOk(rec: Record, types: map<string, TagType>, qual: bool, out: Record)
    requires TransferSpec(rec, types, qual) == Ok(out)
    ensures FirstMismatch(SortedSeq(types.Keys), rec.info, types) == None && WellTyped(rec.info, types)
    ensures out.info == rec.info - types.Keys && out.qual == rec.qual
    ensures var data := Captured(rec.info, types);
            out.format == PushAll(rec.format, Pushes(SortedSeq(data.Keys), data) + QualPush(rec, qual))
  {
    FirstMismatchNone(SortedSeq(types.Keys), rec.info, types);
  }

  lemma TransferErr(rec: Record, types: map<string, TagType>, qual: bool, e: RunError)
    requires TransferSpec(rec, types, qual) == Err(e)
    ensures e.InfoAccess? && FirstMismatch(SortedSeq(types.Keys), rec.info, types) == Some(e.id)
  {
  }

  /** The value a planned field is written with: its captured value, or the QUAL value when it is named QUAL. */
  lemma FieldWritten(rec: Record, types: map<string, TagType>, qual: bool, out: Record, id: string)
    requires TransferSpec(rec, types, qual) == Ok(out)
    ensures WellTyped(rec.info, types)
    ensures LookupFormat(out.format, id)
         == if qual && id == QualId then Some(FormatFloats([rec.qual]))
            else if id in Captured(rec.info, types) then Some(ToFormat(Captured(rec.info, types)[id]))
            else LookupFormat(rec.format, id)
  {
    TransferOk(rec, types, qual, out);
    var data := Captured(rec.info, types);
    var keys := SortedSeq(data.Keys);
    assert forall k :: 0 <= k < |keys| ==> keys[k] in Elems(keys);
    WrittenValue(rec.format, keys, data, QualPush(rec, qual), id);
    LastWriteQual(rec, qual, id);
  }

  lemma LastWriteQual(rec: Record, qual: bool, id: string)
    ensures LastWrite(QualPush(rec, qual), id) == if qual && id == QualId then Some(FormatFloats([rec.qual])) else None
  {
    if qual {
      assert QualPush(rec, qual)[..0] == [];
    }
  }

  /** Where each ID stands after the captured values and then `extra` are written. */
  lemma WrittenValue(fields: seq<FormatField>, keys: seq<string>, data: map<string, TagValue>, extra: seq<FormatField>, id: string)
    requires Elems(keys) == data.Keys
    requires forall k :: 0 <= k < |keys| ==> keys[k] in data
    ensures LookupFormat(PushAll(fields, Pushes(keys, data) + extra), id)
         == if LastWrite(extra, id).Some? then LastWrite(extra, id)
            else if id in data then Some(ToFormat(data[id]))
            else LookupFormat(fields, id)
  {
    var ps := Pushes(keys, data);
    LookupPushAll(fields, ps + extra, id);
    LastWritePushes(keys, data, id);
    LastWriteConcat(ps, extra, id);
    assert id in keys <==> id in Elems(keys);
  }

  lemma {:induction false} LastWriteConcat(ps: seq<FormatField>, extra: seq<FormatField>, id: string)
    ensures LastWrite(ps + extra, id) == if LastWrite(extra, id).Some? then LastWrite(extra, id) else LastWrite(ps, id)
    decreases |extra|
  {
    if extra == [] {
      assert ps + extra == ps;
    } else {
      var init := extra[..|extra| - 1];
      LastWriteConcat(ps, init, id);
      assert ps + extra == (ps + init) + [extra[|extra| - 1]];
      LastWriteAppend(ps + init, extra[|extra| - 1], id);
    }
  }

  // ---------------------------------------------------------------------------
  // Properties

  /** A record stops the run exactly when some planned field it has cannot be read as its type. */
  lemma TransferFailsIff(rec: Record, types: map<string, TagType>, qual: bool)
    ensures TransferSpec(rec, types, qual).Err? <==> !WellTyped(rec.info, types)
  {
    var order := SortedSeq(types.Keys);
    FirstMismatchNone(order, rec.info, types);
    match FirstMismatch(order, rec.info, types)
    case None =>
    case Some(tag) =>
      FirstMismatchSome(order, rec.info, types, tag);
  }

  /** The failure names the least planned field, in key order, that cannot be read. */
  lemma TransferFailsOnLeast(rec: Record, types: map<string, TagType>, qual: bool, e: RunError)
    requires TransferSpec(rec, types, qual) == Err(e)
    ensures e.InfoAccess? && Mismatch(rec.info, types, e.id)
    ensures forall other :: Mismatch(rec.info, types, other) && other != e.id ==> Less(e.id, other)
  {
    TransferErr(rec, types, qual, e);
    LeastMismatch(SortedSeq(types.Keys), rec.info, types, e.id);
  }

  lemma LeastMismatch(order: seq<string>, info: map<string, InfoValue>, types: map<string, TagType>, tag: string)
    requires StrictlySorted(order) && Elems(order) == types.Keys
    requires FirstMismatch(order, info, types) == Some(tag)
    ensures Mismatch(info, types, tag)
    ensures forall other :: Mismatch(info, types, other) && other != tag ==> Less(tag, other)
  {
    FirstMismatchSome(order, info, types, tag);
    var i :| 0 <= i < |order| && order[i] == tag && Mismatch(info, types, tag)
             && forall k :: 0 <= k < i ==> !Mismatch(info, types, order[k]);
    forall other | Mismatch(info, types, other) && other != tag
      ensures Less(tag, other)
    {
      assert other in Elems(order);
      var l :| 0 <= l < |order| && order[l] == other;
      assert !(l < i);
    }
  }

  /** Planned fields leave INFO; every other INFO field and QUAL stay as they were. */
  lemma TransferClearsInfo(rec: Record, types: map<string, TagType>, qual: bool, out: Record)
    requires TransferSpec(rec, types, qual) == Ok(out)
    ensures forall tag :: tag in out.info <==> tag in rec.info && tag !in types
    ensures forall tag :: tag in out.info ==> out.info[tag] == rec.info[tag]
    ensures out.qual == rec.qual
  {
    TransferOk(rec, types, qual, out);
  }

  /** A Flag field is written as 1 when the record had it set and 0 when it did not. */
  lemma FlagTransferred(rec: Record, types: map<string, TagType>, qual: bool, out: Record, id: string)
    requires TransferSpec(rec, types, qual) == Ok(out)
    requires id in types && types[id] == Flag && !(qual && id == QualId)
    ensures LookupFormat(out.format, id) == Some(FormatIntegers([if id in rec.info then 1 else 0]))
  {
    FieldWritten(rec, types, qual, out, id);
  }

  /**
   Any other planned field the record has is written with the same values;
   one it lacks leaves the sample's FORMAT field as it was.
   */
  lemma ValueTransferred(rec: Record, types: map<string, TagType>, qual: bool, out: Record, id: string)
    requires TransferSpec(rec, types, qual) == Ok(out)
    requires id in types && types[id] != Flag && !(qual && id == QualId)
    ensures id in rec.info ==> !rec.info[id].InfoFlag? && LookupFormat(out.format, id) == Some(Moved(rec.info[id]))
    ensures id !in rec.info ==> LookupFormat(out.format, id) == LookupFormat(rec.format, id)
  {
    FieldWritten(rec, types, qual, out, id);
    if id in rec.info {
      CaptureMoved(rec.info, types, id);
    }
  }

  lemma CaptureMoved(info: map<string, InfoValue>, types: map<string, TagType>, id: string)
    requires id in types && types[id] != Flag && id in info && WellTyped(info, types)
    ensures !info[id].InfoFlag? && id in Captured(info, types)
    ensures ToFormat(Captured(info, types)[id]) == Moved(info[id])
  {
    assert Captures(info, types, id) && Matches(info[id], types[id]);
  }

  /** With QUAL asked for, the sample's QUAL field holds the record's quality. */
  lemma QualTransferred(rec: Record, types: map<string, TagType>, out: Record)
    requires TransferSpec(rec, types, true) == Ok(out)
    ensures LookupFormat(out.format, QualId) == Some(FormatFloats([rec.qual]))
  {
    FieldWritten(rec, types, true, out, QualId);
  }

  /** FORMAT fields that are not planned (nor QUAL, when written) are left as they were. */
  lemma OtherFormatKept(rec: Record, types: map<string, TagType>, qual: bool, out: Record, id: string)
    requires TransferSpec(rec, types, qual) == Ok(out)
    requires id !in types && !(qual && id == QualId)
    ensures LookupFormat(out.format, id) == LookupFormat(rec.format, id)
  {
    FieldWritten(rec, types, qual, out, id);
  }

  /**
   When none of the written IDs is already a FORMAT field of the record, the
   new fields are appended after the existing ones: the captured fields, then QUAL.
   */
  lemma FormatAppended(rec: Record, types: map<string, TagType>, qual: bool, out: Record)
    requires TransferSpec(rec, types, qual) == Ok(out)
    requires forall id :: id in types ==> !HasFormat(rec.format, id)
    requires qual ==> QualId !in types && !HasFormat(rec.format, QualId)
    ensures WellTyped(rec.info, types)
    ensures var data := Captured(rec.info, types);
            && |Pushes(SortedSeq(data.Keys), data)| == |data| && FieldIds(Pushes(SortedSeq(data.Keys), data)) == SortedSeq(data.Keys)
            && out.format == rec.format + Pushes(SortedSeq(data.Keys), data) + QualPush(rec, qual)
  {
    TransferOk(rec, types, qual, out);
    var data := Captured(rec.info, types);
    var extra := QualPush(rec, qual);
    assert data.Keys <= types.Keys;
    assert |extra| <= 1 && forall k :: 0 <= k < |extra| ==> extra[k].id !in types && !HasFormat(rec.format, extra[k].id);
    FreshAppend(rec.format, types, data, extra);
  }

  lemma FreshAppend(fields: seq<FormatField>, types: map<string, TagType>, data: map<string, TagValue>, extra: seq<FormatField>)
    requires data.Keys <= types.Keys && forall id :: id in types ==> !HasFormat(fields, id)
    requires |extra| <= 1 && forall k :: 0 <= k < |extra| ==> extra[k].id !in types && !HasFormat(fields, extra[k].id)
    ensures |Pushes(SortedSeq(data.Keys), data)| == |data| && FieldIds(Pushes(SortedSeq(data.Keys), data)) == SortedSeq(data.Keys)
    ensures PushAll(fields, Pushes(SortedSeq(data.Keys), data) + extra) == fields + Pushes(SortedSeq(data.Keys), data) + extra
  {
    var keys := SortedSeq(data.Keys);
    assert forall k :: 0 <= k < |keys| ==> keys[k] in Elems(keys) && keys[k] in types;
    SortedPushesAppend(fields, keys, data, extra);
  }

  /**
   The captured fields are written in strictly ascending key order, one per
   planned field that is a Flag or that the record has.
   */
  lemma PushedInKeyOrder(info: map<string, InfoValue>, types: map<string, TagType>)
    requires WellTyped(info, types)
    ensures var data := Captured(info, types);
            var ids := FieldIds(Pushes(SortedSeq(data.Keys), data));
            && StrictlySorted(ids)
            && forall id :: id in Elems(ids) <==> Captures(info, types, id)
  {
    var data := Captured(info, types);
    var keys := SortedSeq(data.Keys);
    assert forall k :: 0 <= k < |keys| ==> keys[k] in Elems(keys);
    PushesShape(keys, data);
    assert FieldIds(Pushes(keys, data)) == keys;
  }

  /** Writing fresh IDs in strictly ascending order, then one more fresh ID at most, appends them. */
  lemma SortedPushesAppend(fields: seq<FormatField>, keys: seq<string>, data: map<string, TagValue>, extra: seq<FormatField>)
    requires StrictlySorted(keys) && forall k :: 0 <= k < |keys| ==> keys[k] in data && !HasFormat(fields, keys[k])
    requires |extra| <= 1 && forall k :: 0 <= k < |extra| ==> extra[k].id !in keys && !HasFormat(fields, extra[k].id)
    ensures |Pushes(keys, data)| == |keys| && FieldIds(Pushes(keys, data)) == keys
    ensures PushAll(fields, Pushes(keys, data) + extra) == fields + Pushes(keys, data) + extra
  {
    var ps := Pushes(keys, data);
    PushesShape(keys, data);
    assert |ps| == |keys| && forall k :: 0 <= k < |ps| ==> ps[k].id == keys[k];
    assert FieldIds(ps) == keys;
    DistinctIds(keys, ps, extra);
    assert forall k :: 0 <= k < |ps| ==> !HasFormat(fields, ps[k].id);
    FreshIds(fields, ps, extra);
    PushAllAppends(fields, ps + extra);
    ConcatAssoc(fields, ps, extra);
  }

  lemma ConcatAssoc(a: seq<FormatField>, b: seq<FormatField>, c: seq<FormatField>)
    ensures a + b + c == a + (b + c)
  {
  }

  lemma DistinctIds(keys: seq<string>, ps: seq<FormatField>, extra: seq<FormatField>)
    requires StrictlySorted(keys) && |ps| == |keys| && forall k :: 0 <= k < |ps| ==> ps[k].id == keys[k]
    requires |extra| <= 1 && forall k :: 0 <= k < |extra| ==> extra[k].id !in keys
    ensures forall k, l :: 0 <= k < l < |ps + extra| ==> (ps + extra)[k].id != (ps + extra)[l].id
  {
    var all := ps + extra;
    forall k, l | 0 <= k < l < |all|
      ensures all[k].id != all[l].id
    {
      if l < |ps| {
        LessIrreflexive(keys[k]);
        assert Less(keys[k], keys[l]);
      } else {
        assert all[l] == extra[0];
        assert all[k].id == keys[k];
      }
    }
  }

  lemma FreshIds(fields: seq<FormatField>, ps: seq<FormatField>, extra: seq<FormatField>)
    requires forall k :: 0 <= k < |ps| ==> !HasFormat(fields, ps[k].id)
    requires forall k :: 0 <= k < |extra| ==> !HasFormat(fields, extra[k].id)
    ensures forall k :: 0 <= k < |ps + extra| ==> !HasFormat(fields, (ps + extra)[k].id)
  {
    forall k | 0 <= k < |ps + extra|
      ensures !HasFormat(fields, (ps + extra)[k].id)
    {
      if k >= |ps| {
        assert (ps + extra)[k] == extra[k - |ps|];
      } else {
        assert (ps + extra)[k] == ps[k];
      }
    }
  }
}
