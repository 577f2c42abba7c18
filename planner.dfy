/**
 Header planning: from the input header and the requested fields, build the
 output header (each relocated INFO declaration replaced by an equivalent
 FORMAT declaration, plus the QUAL declaration when asked for) and the map
 from relocated field to its type that drives the per-record transfer.

 PlanSpec states the outcome declaratively; PlanHeader computes it the way the
 program does, scanning the header records once and shrinking the set of
 requested fields as it goes.
 */
module Planner {

  import opened Wrappers
  import opened Vcf
  import opened Ordering
  import opened HeaderLine

  /** The output header and the type of every relocated field. */
  datatype Plan = Plan(header: Header, types: map<string, TagType>)

  /** The declared Type text of a field, read as one of the four value types. */
  function ParseType(t: string): (r: Option<TagType>)
    ensures r == Some(Flag) <==> t == "Flag"
    ensures r == Some(Integer) <==> t == "Integer"
    ensures r == Some(Float) <==> t == "Float"
    ensures r == Some(String) <==> t == "String"
  {
    if t == "Flag" then Some(Flag)
    else if t == "Integer" then Some(Integer)
    else if t == "Float" then Some(Float)
    else if t == "String" then Some(String)
    else None
  }

  /** An INFO declaration chosen for relocation: its ID and all its key/value pairs. */
  datatype Relocation = Relocation(id: string, values: map<string, string>)

  function Ids(rs: seq<Relocation>): set<string>
  {
    set r | r in rs :: r.id
  }

  /**
   The INFO declarations that are relocated, in header order: each one whose ID
   is requested and not already carried by an earlier relocated declaration.
   */
  function Relocations(records: seq<HeaderRecord>, requested: set<string>): seq<Relocation>
    decreases |records|
  {
    if records == [] then []
    else
      var prev := Relocations(records[..|records| - 1], requested);
      var r := records[|records| - 1];
      if r.Info? && "ID" in r.values && r.values["ID"] in requested - Ids(prev)
      then prev + [Relocation(r.values["ID"], r.values)]
      else prev
  }

  /** A relocation that resolved: the FORMAT declaration it adds and the field's type. */
  datatype Resolved = Resolved(id: string, decl: HeaderRecord, ttype: TagType)

  /**
   Resolving one relocation: the FORMAT declaration takes the INFO declaration's
   Number, Type and Description (a missing one stops the run, in that order),
   and the Type must be one of the four.
   */
  function Resolve(r: Relocation): (res: Result<Resolved, RunError>)
    ensures res.Ok? <==> "Number" in r.values && "Type" in r.values && "Description" in r.values
                         && ParseType(r.values["Type"]).Some?
    ensures res.Ok? ==> res.value.id == r.id && res.value.decl.Format? && DeclaresFormat(res.value.decl, r.id)
    ensures res.Ok? ==> res.value.decl == FormatDecl(r.id, r.values["Number"], r.values["Type"], r.values["Description"])
                        && ParseType(r.values["Type"]) == Some(res.value.ttype)
    ensures res.Err? ==> res.error.MissingKey? || res.error.UnknownType?
    ensures "Number" !in r.values ==> res == Err(MissingKey(r.id, "Number"))
    ensures "Number" in r.values && "Type" !in r.values ==> res == Err(MissingKey(r.id, "Type"))
    ensures "Number" in r.values && "Type" in r.values && "Description" !in r.values
            ==> res == Err(MissingKey(r.id, "Description"))
    ensures "Number" in r.values && "Type" in r.values && "Description" in r.values && ParseType(r.values["Type"]).None?
            ==> res == Err(UnknownType(r.values["Type"]))
  {
    var v := r.values;
    if "Number" !in v then Err(MissingKey(r.id, "Number"))
    else if "Type" !in v then Err(MissingKey(r.id, "Type"))
    else if "Description" !in v then Err(MissingKey(r.id, "Description"))
    else match ParseType(v["Type"])
      case None => Err(UnknownType(v["Type"]))
      case Some(t) => Ok(Resolved(r.id, FormatDecl(r.id, v["Number"], v["Type"], v["Description"]), t))
  }

  /** Resolving relocations in order; the first that fails stops the run. */
  function ResolveAll(rs: seq<Relocation>): Result<seq<Resolved>, RunError>
    decreases |rs|
  {
    if rs == [] then Ok([])
    else match ResolveAll(rs[..|rs| - 1])
      case Err(e) => Err(e)
      case Ok(prev) =>
        match Resolve(rs[|rs| - 1])
        case Err(e) => Err(e)
        case Ok(x) => Ok(prev + [x])
  }

  /** The field types recorded for resolved relocations. */
  function Types(rs: seq<Resolved>): map<string, TagType>
    decreases |rs|
  {
    if rs == [] then map[]
    else Types(rs[..|rs| - 1])[rs[|rs| - 1].id := rs[|rs| - 1].ttype]
  }

  /** The FORMAT declarations appended for resolved relocations, in order. */
  function Decls(rs: seq<Resolved>): seq<HeaderRecord>
    decreases |rs|
  {
    if rs == [] then [] else Decls(rs[..|rs| - 1]) + [rs[|rs| - 1].decl]
  }

  /** The first requested field, in argument order, that has no type in `types`. */
  function FirstMissing(fields: seq<string>, types: map<string, TagType>): Option<string>
  {
    if fields == [] then None
    else if fields[0] !in types then Some(fields[0])
    else FirstMissing(fields[1..], types)
  }

  /** What scanning the header records yields: the rewritten records and the field types. */
  function ScanSpec(records: seq<HeaderRecord>, requested: set<string>): Result<(seq<HeaderRecord>, map<string, TagType>), RunError>
  {
    var relocations := Relocations(records, requested);
    match ResolveAll(relocations)
    case Err(e) => Err(e)
    case Ok(rs) => Ok((Without(records, Ids(relocations)) + Decls(rs), Types(rs)))
  }

  /**
   The outcome of planning: the refusals when nothing is requested or the input
   is not single-sample, then the scan, then the first requested field (in
   argument order) that the scan did not find.
   */
  function PlanSpec(h: Header, fields: seq<string>, qual: bool): Result<Plan, RunError>
  {
    if |fields| == 0 && !qual then Err(NoFields)
    else if h.samples != 1 then Err(NotSingleSample(h.samples))
    else
      match ScanSpec(h.records, Elems(fields))
      case Err(e) => Err(e)
      case Ok((records, types)) =>
        match FirstMissing(fields, types)
        case Some(f) => Err(MissingInfo(f))
        case None => Ok(Plan(Header(if qual then records + [QualDecl] else records, h.samples), types))
  }

  // ---------------------------------------------------------------------------
  // Facts the planning loop relies on

  lemma {:induction false} ResolveAllShape(rs: seq<Relocation>, out: seq<Resolved>)
    requires ResolveAll(rs) == Ok(out)
    ensures |out| == |rs|
    ensures forall k :: 0 <= k < |rs| ==> out[k].id == rs[k].id && Resolve(rs[k]) == Ok(out[k])
    decreases |rs|
  {
    if rs != [] {
      var prev :| ResolveAll(rs[..|rs| - 1]) == Ok(prev) && out == prev + [out[|out| - 1]];
      ResolveAllShape(rs[..|rs| - 1], prev);
    }
  }

  lemma {:induction false} TypesKeys(rs: seq<Resolved>)
    ensures Types(rs).Keys == set r | r in rs :: r.id
    decreases |rs|
  {
    if rs != [] {
      var p := rs[..|rs| - 1];
      TypesKeys(p);
      assert rs == p + [rs[|rs| - 1]];
      assert (set r | r in rs :: r.id) == (set r | r in p :: r.id) + {rs[|rs| - 1].id};
    }
  }

  lemma ResolvedTypeKeys(rs: seq<Relocation>, out: seq<Resolved>)
    requires ResolveAll(rs) == Ok(out)
    ensures Types(out).Keys == Ids(rs)
  {
    ResolveAllShape(rs, out);
    TypesKeys(out);
    forall id ensures id in Ids(rs) <==> id in (set r | r in out :: r.id) {
      if id in Ids(rs) {
        var r :| r in rs && r.id == id;
        var k :| 0 <= k < |rs| && rs[k] == r;
        assert out[k] in out;
      }
      if id in (set r | r in out :: r.id) {
        var r :| r in out && r.id == id;
        var k :| 0 <= k < |out| && out[k] == r;
        assert rs[k] in rs;
      }
    }
  }

  lemma {:induction false} DeclsAreFormat(rs: seq<Resolved>)
    requires forall k :: 0 <= k < |rs| ==> rs[k].decl.Format?
    ensures forall r :: r in Decls(rs) ==> r.Format?
    decreases |rs|
  {
    if rs != [] { DeclsAreFormat(rs[..|rs| - 1]); }
  }

  lemma {:induction false} RemoveInfoAppend(a: seq<HeaderRecord>, b: seq<HeaderRecord>, id: string)
    ensures RemoveInfo(a + b, id) == RemoveInfo(a, id) + RemoveInfo(b, id)
    decreases |a|
  {
    if a != [] {
      assert (a + b)[0] == a[0] && (a + b)[1..] == a[1..] + b;
      RemoveInfoAppend(a[1..], b, id);
      if DeclaresInfo(a[0], id) {
        assert RemoveInfo(a + b, id) == RemoveInfo(a[1..] + b, id);
        assert RemoveInfo(a, id) == RemoveInfo(a[1..], id);
      } else {
        assert RemoveInfo(a + b, id) == [a[0]] + RemoveInfo(a[1..] + b, id);
        assert RemoveInfo(a, id) == [a[0]] + RemoveInfo(a[1..], id);
      }
    } else {
      assert a + b == b;
    }
  }

  lemma {:induction false} RemoveInfoOfFormats(d: seq<HeaderRecord>, id: string)
    requires forall r :: r in d ==> r.Format?
    ensures RemoveInfo(d, id) == d
    decreases |d|
  {
    if d != [] {
      assert d[0] in d;
      RemoveInfoOfFormats(d[1..], id);
      assert d == [d[0]] + d[1..];
    }
  }

  lemma {:induction false} RemoveInfoWithout(records: seq<HeaderRecord>, ids: set<string>, id: string)
    ensures RemoveInfo(Without(records, ids), id) == Without(records, ids + {id})
    decreases |records|
  {
    if records != [] { RemoveInfoWithout(records[1..], ids, id); }
  }

  lemma ResolveStep(rs: seq<Relocation>, x: Relocation, out: seq<Resolved>)
    requires ResolveAll(rs) == Ok(out)
    ensures ResolveAll(rs + [x]) == match Resolve(x) case Err(e) => Err(e) case Ok(y) => Ok(out + [y])
  {
    assert (rs + [x])[..|rs|] == rs;
  }

  /** Once resolving a prefix of the header's relocations fails, planning fails with the same error. */
  lemma {:induction false} ResolveErrorPersists(records: seq<HeaderRecord>, requested: set<string>, k: nat, e: RunError)
    requires k <= |records|
    requires ResolveAll(Relocations(records[..k], requested)) == Err(e)
    ensures ResolveAll(Relocations(records, requested)) == Err(e)
    decreases |records|
  {
    if k < |records| {
      var p := records[..|records| - 1];
      assert p[..k] == records[..k];
      ResolveErrorPersists(p, requested, k, e);
      var prev := Relocations(p, requested);
      var cur := Relocations(records, requested);
      if cur != prev {
        assert cur[..|cur| - 1] == prev;
      }
    } else {
      assert records[..k] == records;
    }
  }

  lemma {:induction false} FirstMissingAt(fields: seq<string>, types: map<string, TagType>, j: nat)
    requires j <= |fields|
    requires forall k :: 0 <= k < j ==> fields[k] in types
    requires j < |fields| ==> fields[j] !in types
    ensures FirstMissing(fields, types) == if j < |fields| then Some(fields[j]) else None
    decreases j
  {
    if j > 0 {
      FirstMissingAt(fields[1..], types, j - 1);
    } else if fields != [] {
      assert fields[0] !in types;
    }
  }

  /** One relocation applied to the rewritten records: its INFO declarations go, the FORMAT declaration is not yet added. */
  lemma RelocateStep(records: seq<HeaderRecord>, relocations: seq<Relocation>, resolved: seq<Resolved>, id: string)
    requires forall k :: 0 <= k < |resolved| ==> resolved[k].decl.Format?
    ensures RemoveInfo(Without(records, Ids(relocations)) + Decls(resolved), id)
         == Without(records, Ids(relocations) + {id}) + Decls(resolved)
  {
    DeclsAreFormat(resolved);
    RemoveInfoAppend(Without(records, Ids(relocations)), Decls(resolved), id);
    RemoveInfoOfFormats(Decls(resolved), id);
    RemoveInfoWithout(records, Ids(relocations), id);
  }

  // ---------------------------------------------------------------------------
  // The planning stage as the program runs it

  /**
   The scan over the header records: each INFO declaration whose ID is still
   requested is taken off the requested set and removed from the new header;
   then the FORMAT declaration Resolve builds from it is appended and its type
   recorded, or the run stops with Resolve's error.
   */
  method ScanHeader(records: seq<HeaderRecord>, requested: set<string>)
    returns (r: Result<(seq<HeaderRecord>, map<string, TagType>), RunError>)
    ensures r == ScanSpec(records, requested)
  {
    var fields := requested;
    var newRecords := records;
    var fieldTypes: map<string, TagType> := map[];
    ghost var relocations: seq<Relocation> := [];
    ghost var resolved: seq<Resolved> := [];
    WithoutNothing(records);
    assert Ids(relocations) == {};
    var i := 0;
    while i < |records|
      invariant 0 <= i <= |records|
      invariant ScanInvariant(records, requested, i, fields, newRecords, fieldTypes, relocations, resolved)
    {
      var rec := records[i];
      if rec.Info? && "ID" in rec.values && rec.values["ID"] in fields {
        var id := rec.values["ID"];
        var v := rec.values;
        fields := fields - {id};
        newRecords := RemoveInfo(newRecords, id);
        match Resolve(Relocation(id, v)) {
          case Err(e) =>
            ScanFails(records, requested, i, relocations, resolved, e);
            return Err(e);
          case Ok(x) =>
            newRecords := newRecords + [x.decl];
            fieldTypes := fieldTypes[id := x.ttype];
            ScanRelocates(records, requested, i, relocations, resolved, x);
            relocations := relocations + [Relocation(id, v)];
            resolved := resolved + [x];
        }
      } else {
        ScanSkips(records, requested, i, fields, relocations);
      }
      i := i + 1;
    }
    assert records[..i] == records;
    return Ok((newRecords, fieldTypes));
  }

  /** The state of the scan after the first `i` header records. */
  ghost predicate ScanInvariant(records: seq<HeaderRecord>, requested: set<string>, i: nat,
                                fields: set<string>, newRecords: seq<HeaderRecord>, fieldTypes: map<string, TagType>,
                                relocations: seq<Relocation>, resolved: seq<Resolved>)
  {
    && i <= |records|
    && relocations == Relocations(records[..i], requested)
    && ResolveAll(relocations) == Ok(resolved)
    && fields == requested - Ids(relocations)
    && fieldTypes == Types(resolved)
    && newRecords == Without(records, Ids(relocations)) + Decls(resolved)
    && (forall k :: 0 <= k < |resolved| ==> resolved[k].decl.Format?)
  }

  lemma ScanSkips(records: seq<HeaderRecord>, requested: set<string>, i: nat,
                  fields: set<string>, relocations: seq<Relocation>)
    requires i < |records| && relocations == Relocations(records[..i], requested)
    requires fields == requested - Ids(relocations)
    requires !(records[i].Info? && "ID" in records[i].values && records[i].values["ID"] in fields)
    ensures relocations == Relocations(records[..i + 1], requested)
  {
    assert records[..i + 1][..i] == records[..i] && records[..i + 1][i] == records[i];
  }

  lemma ScanFails(records: seq<HeaderRecord>, requested: set<string>, i: nat,
                  relocations: seq<Relocation>, resolved: seq<Resolved>, e: RunError)
    requires i < |records| && relocations == Relocations(records[..i], requested)
    requires ResolveAll(relocations) == Ok(resolved)
    requires records[i].Info? && "ID" in records[i].values
    requires records[i].values["ID"] in requested - Ids(relocations)
    requires Resolve(Relocation(records[i].values["ID"], records[i].values)) == Err(e)
    ensures ScanSpec(records, requested) == Err(e)
  {
    var x := Relocation(records[i].values["ID"], records[i].values);
    assert records[..i + 1][..i] == records[..i] && records[..i + 1][i] == records[i];
    assert Relocations(records[..i + 1], requested) == relocations + [x];
    ResolveStep(relocations, x, resolved);
    ResolveErrorPersists(records, requested, i + 1, e);
  }

  lemma ScanRelocates(records: seq<HeaderRecord>, requested: set<string>, i: nat,
                      relocations: seq<Relocation>, resolved: seq<Resolved>, x: Resolved)
    requires i < |records| && relocations == Relocations(records[..i], requested)
    requires ResolveAll(relocations) == Ok(resolved)
    requires forall k :: 0 <= k < |resolved| ==> resolved[k].decl.Format?
    requires records[i].Info? && "ID" in records[i].values
    requires records[i].values["ID"] in requested - Ids(relocations)
    requires Resolve(Relocation(records[i].values["ID"], records[i].values)) == Ok(x)
    ensures var id := records[i].values["ID"];
            var relocations' := relocations + [Relocation(id, records[i].values)];
            && relocations' == Relocations(records[..i + 1], requested)
            && ResolveAll(relocations') == Ok(resolved + [x])
            && Ids(relocations') == Ids(relocations) + {id}
            && Types(resolved + [x]) == Types(resolved)[id := x.ttype]
            && RemoveInfo(Without(records, Ids(relocations)) + Decls(resolved), id) + [x.decl]
               == Without(records, Ids(relocations')) + Decls(resolved + [x])
            && (forall k :: 0 <= k < |resolved + [x]| ==> (resolved + [x])[k].decl.Format?)
  {
    var id := records[i].values["ID"];
    var y := Relocation(id, records[i].values);
    assert Relocations(records[..i + 1], requested) == relocations + [y] by {
      assert records[..i + 1][..i] == records[..i] && records[..i + 1][i] == records[i];
    }
    ResolveStep(relocations, y, resolved);
    IdsAppend(relocations, y);
    AppendResolved(records, relocations, resolved, x, id);
  }

  lemma IdsAppend(rs: seq<Relocation>, y: Relocation)
    ensures Ids(rs + [y]) == Ids(rs) + {y.id}
  {
    assert forall r :: r in rs + [y] <==> r in rs || r == y;
  }

  lemma AppendResolved(records: seq<HeaderRecord>, relocations: seq<Relocation>, resolved: seq<Resolved>,
                       x: Resolved, id: string)
    requires forall k :: 0 <= k < |resolved| ==> resolved[k].decl.Format?
    requires x.id == id && x.decl.Format?
    ensures Types(resolved + [x]) == Types(resolved)[id := x.ttype]
    ensures RemoveInfo(Without(records, Ids(relocations)) + Decls(resolved), id) + [x.decl]
         == Without(records, Ids(relocations) + {id}) + Decls(resolved + [x])
    ensures forall k :: 0 <= k < |resolved + [x]| ==> (resolved + [x])[k].decl.Format?
  {
    assert (resolved + [x])[..|resolved|] == resolved;
    RelocateStep(records, relocations, resolved, id);
  }

  /**
   Planning as the program does it: the two early refusals, the scan, the check
   that every requested field was found (in argument order), and the QUAL
   declaration last.
   */
  method PlanHeader(h: Header, args: seq<string>, qual: bool) returns (r: Result<Plan, RunError>)
    ensures r == PlanSpec(h, args, qual)
  {
    if |args| == 0 && !qual {
      return Err(NoFields);
    }
    var fields := Elems(args);
    if h.samples != 1 {
      return Err(NotSingleSample(h.samples));
    }
    var scanned := ScanHeader(h.records, fields);
    if scanned.Err? {
      return Err(scanned.error);
    }
    var (newRecords, fieldTypes) := scanned.value;
    var j := 0;
    while j < |args|
      invariant 0 <= j <= |args|
      invariant forall k :: 0 <= k < j ==> args[k] in fieldTypes
    {
      if args[j] !in fieldTypes {
        FirstMissingAt(args, fieldTypes, j);
        return Err(MissingInfo(args[j]));
      }
      j := j + 1;
    }
    FirstMissingAt(args, fieldTypes, j);
    if qual {
      newRecords := newRecords + [QualDecl];
    }
    return Ok(Plan(Header(newRecords, h.samples), fieldTypes));
  }

  lemma {:induction false} WithoutNothing(records: seq<HeaderRecord>)
    ensures Without(records, {}) == records
    decreases |records|
  {
    if records != [] {
      WithoutNothing(records[1..]);
      assert records == [records[0]] + records[1..];
    }
  }
}
