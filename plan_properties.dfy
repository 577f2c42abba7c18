/**
 What planning guarantees, proved about PlanSpec (which PlanHeader computes):
 the refusals before any planning, the single FORMAT declaration per relocated
 field, the type map, the first missing field, the QUAL declaration, and that
 planning its own output again fails.
 */
module PlanProperties {

  import opened Wrappers
  import opened Vcf
  import opened Ordering
  import opened HeaderLine
  import opened Planner

  /** Some INFO declaration of the records carries ID `id`. */
  predicate Declared(records: seq<HeaderRecord>, id: string)
  {
    exists i :: 0 <= i < |records| && DeclaresInfo(records[i], id)
  }

  /** The key/value pairs of the first INFO declaration carrying ID `id`. */
  function FirstInfo(records: seq<HeaderRecord>, id: string): Option<map<string, string>>
    decreases |records|
  {
    if records == [] then None
    else match FirstInfo(records[..|records| - 1], id)
      case Some(v) => Some(v)
      case None => if DeclaresInfo(records[|records| - 1], id) then Some(records[|records| - 1].values) else None
  }

  /** The number of FORMAT declarations carrying ID `id`. */
  function CountFormat(records: seq<HeaderRecord>, id: string): nat
  {
    if records == [] then 0
    else (if DeclaresFormat(records[0], id) then 1 else 0) + CountFormat(records[1..], id)
  }

  // ---------------------------------------------------------------------------
  // Relocations: one per requested, declared ID, taken from its first declaration

  lemma {:induction false} FirstInfoDeclared(records: seq<HeaderRecord>, id: string)
    ensures FirstInfo(records, id).Some? <==> Declared(records, id)
    ensures FirstInfo(records, id).Some? ==>
              exists i :: 0 <= i < |records| && DeclaresInfo(records[i], id) && records[i].values == FirstInfo(records, id).value
    decreases |records|
  {
    if records != [] {
      var p := records[..|records| - 1];
      FirstInfoDeclared(p, id);
      assert forall i :: 0 <= i < |p| ==> records[i] == p[i];
      if Declared(p, id) {
        var i :| 0 <= i < |p| && DeclaresInfo(p[i], id);
        assert records[i] == p[i];
        var j :| 0 <= j < |p| && DeclaresInfo(p[j], id) && p[j].values == FirstInfo(p, id).value;
        assert records[j] == p[j];
      }
    }
  }

  /** The relocations are exactly the requested, declared IDs, each once, each with its first declaration. */
  lemma {:induction false} RelocationsFacts(records: seq<HeaderRecord>, requested: set<string>)
    ensures var rs := Relocations(records, requested);
            && (forall k :: 0 <= k < |rs| ==> rs[k].id in requested && FirstInfo(records, rs[k].id) == Some(rs[k].values))
            && (forall k, l :: 0 <= k < l < |rs| ==> rs[k].id != rs[l].id)
            && (forall id :: id in Ids(rs) <==> id in requested && FirstInfo(records, id).Some?)
    decreases |records|
  {
    if records != [] {
      var p := records[..|records| - 1];
      var last := records[|records| - 1];
      RelocationsFacts(p, requested);
      var prev := Relocations(p, requested);
      var rs := Relocations(records, requested);
      forall k | 0 <= k < |prev| ensures FirstInfo(records, prev[k].id) == Some(prev[k].values) {
        assert FirstInfo(p, prev[k].id).Some?;
      }
      if rs != prev {
        var y := rs[|rs| - 1];
        assert rs == prev + [y];
        assert y.id !in Ids(prev);
        assert FirstInfo(p, y.id).None?;
        forall k | 0 <= k < |prev| ensures prev[k].id != y.id {
          assert prev[k] in prev;
        }
        IdsAppend(prev, y);
        forall id ensures id in Ids(rs) <==> id in requested && FirstInfo(records, id).Some? {
          if id != y.id { assert FirstInfo(records, id) == FirstInfo(p, id) || DeclaresInfo(last, id); }
        }
      }
    }
  }

  // ---------------------------------------------------------------------------
  // The shape of the rewritten records

  lemma {:induction false} WithoutFacts(records: seq<HeaderRecord>, ids: set<string>)
    ensures forall x :: x in Without(records, ids) <==> x in records && !DeclaresInfoOf(x, ids)
    ensures forall id :: CountFormat(Without(records, ids), id) == CountFormat(records, id)
    decreases |records|
  {
    if records != [] {
      WithoutFacts(records[1..], ids);
      assert records == [records[0]] + records[1..];
      if !DeclaresInfoOf(records[0], ids) {
        assert Without(records, ids)[1..] == Without(records[1..], ids);
      }
    }
  }

  lemma {:induction false} CountFormatAppend(a: seq<HeaderRecord>, b: seq<HeaderRecord>, id: string)
    ensures CountFormat(a + b, id) == CountFormat(a, id) + CountFormat(b, id)
    decreases |a|
  {
    if a != [] {
      assert (a + b)[0] == a[0] && (a + b)[1..] == a[1..] + b;
      CountFormatAppend(a[1..], b, id);
    } else {
      assert a + b == b;
    }
  }

  lemma CountFormatSingle(x: HeaderRecord, id: string)
    ensures CountFormat([x], id) == if DeclaresFormat(x, id) then 1 else 0
  {
    assert [x][1..] == [];
  }

  /** The FORMAT declarations added for resolved relocations with distinct IDs: one per ID. */
  lemma {:induction false} DeclsCount(rs: seq<Relocation>, out: seq<Resolved>)
    requires ResolveAll(rs) == Ok(out)
    requires forall k, l :: 0 <= k < l < |rs| ==> rs[k].id != rs[l].id
    ensures forall id :: CountFormat(Decls(out), id) == if id in Ids(rs) then 1 else 0
    decreases |rs|
  {
    if rs != [] {
      var p := rs[..|rs| - 1];
      var op := out[..|out| - 1];
      var y := rs[|rs| - 1];
      var x := out[|out| - 1];
      ResolveAllLast(rs, out);
      LastIdFresh(rs);
      assert forall k, l :: 0 <= k < l < |p| ==> p[k].id != p[l].id;
      DeclsCount(p, op);
      ResolvedDeclares(y, x);
      DeclsStep(op, x, y.id, Ids(p));
      assert out == op + [x];
    }
  }

  lemma {:induction false} ResolveAllLast(rs: seq<Relocation>, out: seq<Resolved>)
    requires ResolveAll(rs) == Ok(out) && rs != []
    ensures out != []
    ensures ResolveAll(rs[..|rs| - 1]) == Ok(out[..|out| - 1])
    ensures Resolve(rs[|rs| - 1]) == Ok(out[|out| - 1])
    ensures out == out[..|out| - 1] + [out[|out| - 1]]
  {
    var prev := ResolveAll(rs[..|rs| - 1]).value;
    var x := Resolve(rs[|rs| - 1]).value;
    assert out == prev + [x];
    assert out[..|out| - 1] == prev;
  }

  lemma LastIdFresh(rs: seq<Relocation>)
    requires rs != [] && forall k, l :: 0 <= k < l < |rs| ==> rs[k].id != rs[l].id
    ensures rs[|rs| - 1].id !in Ids(rs[..|rs| - 1])
    ensures Ids(rs) == Ids(rs[..|rs| - 1]) + {rs[|rs| - 1].id}
  {
    var p := rs[..|rs| - 1];
    var y := rs[|rs| - 1];
    assert rs == p + [y];
    IdsAppend(p, y);
    forall k | 0 <= k < |p| ensures p[k].id != y.id {
      assert p[k] == rs[k];
    }
  }

  lemma ResolvedDeclares(r: Relocation, x: Resolved)
    requires Resolve(r) == Ok(x)
    ensures forall id :: DeclaresFormat(x.decl, id) <==> id == r.id
  {
    ResolveOk(r);
  }

  lemma DeclsStep(op: seq<Resolved>, x: Resolved, yid: string, prev: set<string>)
    requires forall id :: CountFormat(Decls(op), id) == if id in prev then 1 else 0
    requires yid !in prev && forall id :: DeclaresFormat(x.decl, id) <==> id == yid
    ensures forall id :: CountFormat(Decls(op + [x]), id) == if id in prev + {yid} then 1 else 0
  {
    assert (op + [x])[..|op|] == op;
    assert Decls(op + [x]) == Decls(op) + [x.decl];
    forall id ensures CountFormat(Decls(op + [x]), id) == if id in prev + {yid} then 1 else 0 {
      CountFormatAppend(Decls(op), [x.decl], id);
      CountFormatSingle(x.decl, id);
    }
  }

  lemma {:induction false} DeclsContain(out: seq<Resolved>)
    ensures forall k :: 0 <= k < |out| ==> out[k].decl in Decls(out)
    ensures forall x :: x in Decls(out) ==> exists k :: 0 <= k < |out| && out[k].decl == x
    decreases |out|
  {
    if out != [] {
      var op := out[..|out| - 1];
      DeclsContain(op);
      forall k | 0 <= k < |op| ensures out[k] == op[k] { }
    }
  }

  // ---------------------------------------------------------------------------
  // The errors resolution can give

  /** A failed resolution names the first relocation, in header order, that cannot be resolved. */
  lemma {:induction false} ResolveAllFirstError(rs: seq<Relocation>, e: RunError)
    requires ResolveAll(rs) == Err(e)
    ensures exists k :: 0 <= k < |rs| && Resolve(rs[k]) == Err(e) && forall l :: 0 <= l < k ==> Resolve(rs[l]).Ok?
    decreases |rs|
  {
    var p := rs[..|rs| - 1];
    match ResolveAll(p)
    case Err(e') =>
      ResolveAllFirstError(p, e);
      var k :| 0 <= k < |p| && Resolve(p[k]) == Err(e) && forall l :: 0 <= l < k ==> Resolve(p[l]).Ok?;
      assert rs[k] == p[k];
      forall l | 0 <= l < k ensures Resolve(rs[l]).Ok? { assert rs[l] == p[l]; }
    case Ok(op) =>
      ResolveAllShape(p, op);
      forall l | 0 <= l < |rs| - 1 ensures Resolve(rs[l]).Ok? { assert rs[l] == p[l]; }
  }

  lemma ResolveAllErrorKind(rs: seq<Relocation>, e: RunError)
    requires ResolveAll(rs) == Err(e)
    ensures e.MissingKey? || e.UnknownType?
  {
    ResolveAllFirstError(rs, e);
  }

  /** A relocation whose declaration cannot be resolved makes resolution fail. */
  lemma {:induction false} ResolveAllFailsOn(rs: seq<Relocation>, k: nat)
    requires k < |rs| && Resolve(rs[k]).Err?
    ensures ResolveAll(rs).Err?
    decreases |rs|
  {
    var p := rs[..|rs| - 1];
    if k < |p| {
      assert p[k] == rs[k];
      ResolveAllFailsOn(p, k);
    }
  }

  // ---------------------------------------------------------------------------
  // The planning properties

  /** A successful plan, unfolded. */
  lemma PlanOk(h: Header, fields: seq<string>, qual: bool, p: Plan)
    requires PlanSpec(h, fields, qual) == Ok(p)
    ensures h.samples == 1 && p.header.samples == 1
    ensures ResolveAll(Relocations(h.records, Elems(fields))).Ok?
    ensures var rs := Relocations(h.records, Elems(fields));
            var out := ResolveAll(rs).value;
            && p.types == Types(out)
            && p.header.records == Without(h.records, Ids(rs)) + Decls(out) + (if qual then [QualDecl] else [])
            && FirstMissing(fields, p.types).None?
  {
  }

  /** With neither fields nor QUAL requested the run is refused, and only then. */
  lemma NoWorkRefused(h: Header, fields: seq<string>, qual: bool)
    ensures PlanSpec(h, fields, qual) == Err(NoFields) <==> |fields| == 0 && !qual
  {
    var rs := Relocations(h.records, Elems(fields));
    if ResolveAll(rs).Err? { ResolveAllErrorKind(rs, ResolveAll(rs).error); }
  }

  /** Once there is work, a header whose sample count is not 1 is refused, and only such a header. */
  lemma NotSingleSampleRefused(h: Header, fields: seq<string>, qual: bool)
    requires |fields| > 0 || qual
    ensures PlanSpec(h, fields, qual).Err? && PlanSpec(h, fields, qual).error.NotSingleSample? <==> h.samples != 1
    ensures h.samples != 1 ==> PlanSpec(h, fields, qual) == Err(NotSingleSample(h.samples))
  {
    var rs := Relocations(h.records, Elems(fields));
    if ResolveAll(rs).Err? { ResolveAllErrorKind(rs, ResolveAll(rs).error); }
  }

  lemma ResolveOk(r: Relocation)
    requires Resolve(r).Ok?
    ensures "Number" in r.values && "Type" in r.values && "Description" in r.values
    ensures Resolve(r).value.decl == FormatDecl(r.id, r.values["Number"], r.values["Type"], r.values["Description"])
    ensures ParseType(r.values["Type"]) == Some(Resolve(r).value.ttype)
  {
  }

  lemma QualDeclares(id: string)
    ensures DeclaresFormat(QualDecl, id) <==> id == "QUAL"
  {
  }

  /**
   A successful plan keeps every header record except the INFO declarations of
   the relocated fields, in their order, ahead of the added declarations, and
   leaves no INFO declaration of a relocated field.
   */
  lemma HeaderKept(h: Header, fields: seq<string>, qual: bool, p: Plan)
    requires PlanSpec(h, fields, qual) == Ok(p)
    ensures p.header.samples == h.samples == 1
    ensures Without(h.records, p.types.Keys) <= p.header.records
    ensures forall x: HeaderRecord :: x.Info? ==> (x in p.header.records <==> x in h.records && !DeclaresInfoOf(x, p.types.Keys))
    ensures forall id, x :: id in p.types && x in p.header.records ==> !DeclaresInfo(x, id)
  {
    PlanOk(h, fields, qual, p);
    var rs := Relocations(h.records, Elems(fields));
    var out := ResolveAll(rs).value;
    ResolvedTypeKeys(rs, out);
    ResolveAllShape(rs, out);
    DeclsAreFormat(out);
    WithoutFacts(h.records, Ids(rs));
    var kept := Without(h.records, Ids(rs));
    var added := Decls(out);
    var tail := if qual then [QualDecl] else [];
    assert p.header.records == kept + added + tail;
    assert forall x :: x in p.header.records <==> x in kept || x in added || x in tail;
    assert kept <= kept + added + tail;
  }

  /**
   A successful plan relocates every requested field exactly once: exactly one
   FORMAT declaration with its ID is added (besides the QUAL one), and it
   carries the Number, Type and Description of the field's first INFO
   declaration.
   */
  lemma RelocatedOnce(h: Header, fields: seq<string>, qual: bool, p: Plan, id: string)
    requires PlanSpec(h, fields, qual) == Ok(p) && id in p.types
    ensures CountFormat(p.header.records, id) == CountFormat(h.records, id) + 1 + (if qual && id == "QUAL" then 1 else 0)
    ensures FirstInfo(h.records, id).Some?
    ensures |Without(h.records, p.types.Keys)| <= |p.header.records|
    ensures var v := FirstInfo(h.records, id).value;
            "Number" in v && "Type" in v && "Description" in v &&
            FormatDecl(id, v["Number"], v["Type"], v["Description"]) in p.header.records[|Without(h.records, p.types.Keys)|..]
  {
    PlanOk(h, fields, qual, p);
    var requested := Elems(fields);
    var rs := Relocations(h.records, requested);
    var out := ResolveAll(rs).value;
    RelocationsFacts(h.records, requested);
    ResolvedTypeKeys(rs, out);
    var kept := Without(h.records, Ids(rs));
    var added := Decls(out);
    var tail := if qual then [QualDecl] else [];
    assert p.header.records == kept + added + tail;
    assert CountFormat(p.header.records, id) == CountFormat(h.records, id) + 1 + (if qual && id == "QUAL" then 1 else 0) by {
      DeclsCount(rs, out);
      WithoutFacts(h.records, Ids(rs));
      CountFormatAppend(kept + added, tail, id);
      CountFormatAppend(kept, added, id);
      if qual {
        CountFormatSingle(QualDecl, id);
        QualDeclares(id);
      }
    }
    var r :| r in rs && r.id == id;
    var k :| 0 <= k < |rs| && rs[k] == r;
    ResolveAllShape(rs, out);
    DeclsContain(out);
    ResolveOk(rs[k]);
    assert out[k].decl in added;
    assert Ids(rs) == p.types.Keys;
    AppendedPart(kept, added, tail, out[k].decl);
  }

  /** A record of the middle part of `kept + added + tail` lies after the kept records. */
  lemma AppendedPart(kept: seq<HeaderRecord>, added: seq<HeaderRecord>, tail: seq<HeaderRecord>, x: HeaderRecord)
    requires x in added
    ensures |kept| <= |kept + added + tail| && x in (kept + added + tail)[|kept|..]
  {
    assert (kept + added + tail)[|kept|..] == added + tail;
  }

  /**
   The type map of a successful plan: its keys are exactly the requested
   fields, and each maps to the Type of the field's first INFO declaration.
   */
  lemma TypeMap(h: Header, fields: seq<string>, qual: bool, p: Plan)
    requires PlanSpec(h, fields, qual) == Ok(p)
    ensures p.types.Keys == Elems(fields)
    ensures forall id :: id in p.types ==>
              FirstInfo(h.records, id).Some? && "Type" in FirstInfo(h.records, id).value &&
              ParseType(FirstInfo(h.records, id).value["Type"]) == Some(p.types[id])
  {
    PlanOk(h, fields, qual, p);
    var requested := Elems(fields);
    var rs := Relocations(h.records, requested);
    var out := ResolveAll(rs).value;
    RelocationsFacts(h.records, requested);
    ResolvedTypeKeys(rs, out);
    ResolveAllShape(rs, out);
    FirstMissingNone(fields, p.types);
    TypesOf(out);
    forall id | id in p.types
      ensures FirstInfo(h.records, id).Some? && "Type" in FirstInfo(h.records, id).value &&
              ParseType(FirstInfo(h.records, id).value["Type"]) == Some(p.types[id])
    {
      var k :| 0 <= k < |out| && out[k].id == id && p.types[id] == out[k].ttype;
      assert Resolve(rs[k]) == Ok(out[k]) && rs[k].id == id;
      ResolveOk(rs[k]);
      assert FirstInfo(h.records, id) == Some(rs[k].values);
    }
  }

  lemma {:induction false} FirstMissingNone(fields: seq<string>, types: map<string, TagType>)
    requires FirstMissing(fields, types).None?
    ensures Elems(fields) <= types.Keys
    decreases |fields|
  {
    if fields != [] {
      FirstMissingNone(fields[1..], types);
      assert forall f :: f in fields ==> f == fields[0] || f in fields[1..];
    }
  }

  lemma {:induction false} TypesOf(out: seq<Resolved>)
    ensures forall id :: id in Types(out) ==> exists k :: 0 <= k < |out| && out[k].id == id && Types(out)[id] == out[k].ttype
    decreases |out|
  {
    if out != [] {
      var p := out[..|out| - 1];
      TypesOf(p);
      forall id | id in Types(out)
        ensures exists k :: 0 <= k < |out| && out[k].id == id && Types(out)[id] == out[k].ttype
      {
        if id != out[|out| - 1].id {
          assert id in Types(p);
          var k :| 0 <= k < |p| && p[k].id == id && Types(p)[id] == p[k].ttype;
          assert out[k] == p[k];
        }
      }
    }
  }

  /**
   A requested field whose first INFO declaration has a Type outside the four
   makes planning fail; an UnknownType failure names the Type of such a field.
   */
  lemma UnknownTypeAborts(h: Header, fields: seq<string>, qual: bool)
    ensures (exists id :: id in fields && FirstInfo(h.records, id).Some? &&
               var v := FirstInfo(h.records, id).value;
               "Type" in v && ParseType(v["Type"]).None?)
            ==> PlanSpec(h, fields, qual).Err?
    ensures PlanSpec(h, fields, qual).Err? && PlanSpec(h, fields, qual).error.UnknownType? ==>
              exists id :: id in fields && FirstInfo(h.records, id).Some? && "Type" in FirstInfo(h.records, id).value &&
                var t := FirstInfo(h.records, id).value["Type"];
                ParseType(t).None? && PlanSpec(h, fields, qual).error == UnknownType(t)
  {
    var requested := Elems(fields);
    if exists id :: id in fields && FirstInfo(h.records, id).Some? &&
         var v := FirstInfo(h.records, id).value;
         "Type" in v && ParseType(v["Type"]).None? {
      var id :| id in fields && FirstInfo(h.records, id).Some? &&
         var v := FirstInfo(h.records, id).value;
         "Type" in v && ParseType(v["Type"]).None?;
      assert id in requested;
      BadTypeFails(h.records, requested, id);
    }
    var rs := Relocations(h.records, requested);
    if ResolveAll(rs).Err? && ResolveAll(rs).error.UnknownType? {
      var id := UnknownTypeNamed(h.records, requested, ResolveAll(rs).error);
      assert id in fields;
    }
  }

  /** A requested field whose first declaration has an unknown Type makes resolution fail, whatever its other keys. */
  lemma BadTypeFails(records: seq<HeaderRecord>, requested: set<string>, id: string)
    requires id in requested && FirstInfo(records, id).Some?
    requires var v := FirstInfo(records, id).value;
             "Type" in v && ParseType(v["Type"]).None?
    ensures ResolveAll(Relocations(records, requested)).Err?
  {
    var rs := Relocations(records, requested);
    RelocationsFacts(records, requested);
    assert id in Ids(rs);
    var r :| r in rs && r.id == id;
    var k :| 0 <= k < |rs| && rs[k] == r;
    assert rs[k].values == FirstInfo(records, id).value;
    ResolveAllFailsOn(rs, k);
  }

  /** An UnknownType failure of resolution names the Type of a requested field's first declaration. */
  lemma UnknownTypeNamed(records: seq<HeaderRecord>, requested: set<string>, e: RunError) returns (id: string)
    requires ResolveAll(Relocations(records, requested)) == Err(e) && e.UnknownType?
    ensures id in requested && FirstInfo(records, id).Some? && "Type" in FirstInfo(records, id).value
    ensures ParseType(FirstInfo(records, id).value["Type"]).None? && e == UnknownType(FirstInfo(records, id).value["Type"])
  {
    var rs := Relocations(records, requested);
    RelocationsFacts(records, requested);
    ResolveAllFirstError(rs, e);
    var k :| 0 <= k < |rs| && Resolve(rs[k]) == Err(e) && forall l :: 0 <= l < k ==> Resolve(rs[l]).Ok?;
    id := rs[k].id;
    assert FirstInfo(records, id) == Some(rs[k].values);
  }

  /**
   A missing field stops planning with the first requested field, in
   argument order, that no INFO declaration carries, provided the declarations
   that were found resolve; a MissingInfo failure names such a field.
   */
  lemma MissingFieldAborts(h: Header, fields: seq<string>, qual: bool, j: nat)
    requires h.samples == 1 && ScanSpec(h.records, Elems(fields)).Ok?
    requires j < |fields| && !Declared(h.records, fields[j])
    requires forall k :: 0 <= k < j ==> Declared(h.records, fields[k])
    ensures PlanSpec(h, fields, qual) == Err(MissingInfo(fields[j]))
  {
    var requested := Elems(fields);
    var rs := Relocations(h.records, requested);
    var out := ResolveAll(rs).value;
    RelocationsFacts(h.records, requested);
    ResolvedTypeKeys(rs, out);
    forall k | 0 <= k <= j ensures fields[k] in Types(out) <==> Declared(h.records, fields[k]) {
      FirstInfoDeclared(h.records, fields[k]);
    }
    FirstMissingAt(fields, Types(out), j);
  }

  lemma MissingInfoNamesFirst(h: Header, fields: seq<string>, qual: bool, f: string)
    requires PlanSpec(h, fields, qual) == Err(MissingInfo(f))
    ensures exists j :: 0 <= j < |fields| && fields[j] == f && !Declared(h.records, f) &&
              forall k :: 0 <= k < j ==> Declared(h.records, fields[k])
  {
    var requested := Elems(fields);
    var rs := Relocations(h.records, requested);
    if ResolveAll(rs).Err? { ResolveAllErrorKind(rs, ResolveAll(rs).error); }
    var out := ResolveAll(rs).value;
    RelocationsFacts(h.records, requested);
    ResolvedTypeKeys(rs, out);
    var j := FirstMissingIndex(fields, Types(out));
    forall k | 0 <= k <= j ensures fields[k] in Types(out) <==> Declared(h.records, fields[k]) {
      FirstInfoDeclared(h.records, fields[k]);
    }
  }

  lemma {:induction false} FirstMissingIndex(fields: seq<string>, types: map<string, TagType>) returns (j: nat)
    requires FirstMissing(fields, types).Some?
    ensures j < |fields| && fields[j] == FirstMissing(fields, types).value && fields[j] !in types
    ensures forall k :: 0 <= k < j ==> fields[k] in types
    decreases |fields|
  {
    if fields[0] in types {
      var j' := FirstMissingIndex(fields[1..], types);
      j := j' + 1;
    } else {
      j := 0;
    }
  }

  /** With QUAL requested, the QUAL declaration comes last, after every relocated declaration. */
  lemma QualDeclaredLast(h: Header, fields: seq<string>, qual: bool, p: Plan)
    requires PlanSpec(h, fields, qual) == Ok(p) && qual
    ensures |p.header.records| > 0 && p.header.records[|p.header.records| - 1] == QualDecl
  {
    PlanOk(h, fields, qual, p);
  }

  /** Without QUAL requested, a QUAL FORMAT declaration is added only for a relocated INFO field named QUAL. */
  lemma NoQualDeclared(h: Header, fields: seq<string>, qual: bool, p: Plan)
    requires PlanSpec(h, fields, qual) == Ok(p) && !qual
    ensures CountFormat(p.header.records, "QUAL") == CountFormat(h.records, "QUAL") + (if "QUAL" in p.types then 1 else 0)
  {
    if "QUAL" in p.types {
      RelocatedOnce(h, fields, qual, p, "QUAL");
    } else {
      PlanOk(h, fields, qual, p);
      var requested := Elems(fields);
      var rs := Relocations(h.records, requested);
      var out := ResolveAll(rs).value;
      ResolvedTypeKeys(rs, out);
      RelocationsFacts(h.records, requested);
      UnrelocatedCount(h.records, rs, out, "QUAL");
      assert p.header.records == Without(h.records, Ids(rs)) + Decls(out) + [];
      assert Without(h.records, Ids(rs)) + Decls(out) + [] == Without(h.records, Ids(rs)) + Decls(out);
    }
  }

  /** An ID that is not relocated keeps its number of FORMAT declarations. */
  lemma UnrelocatedCount(records: seq<HeaderRecord>, rs: seq<Relocation>, out: seq<Resolved>, id: string)
    requires ResolveAll(rs) == Ok(out) && id !in Ids(rs)
    requires forall k, l :: 0 <= k < l < |rs| ==> rs[k].id != rs[l].id
    ensures CountFormat(Without(records, Ids(rs)) + Decls(out), id) == CountFormat(records, id)
  {
    DeclsCount(rs, out);
    WithoutFacts(records, Ids(rs));
    CountFormatAppend(Without(records, Ids(rs)), Decls(out), id);
  }

  /**
   Planning is not idempotent: planning the output header again with the same
   fields fails on the first field, which is no longer an INFO declaration.
   */
  lemma ReplanFails(h: Header, fields: seq<string>, qual: bool, p: Plan)
    requires PlanSpec(h, fields, qual) == Ok(p) && |fields| > 0
    ensures PlanSpec(p.header, fields, qual) == Err(MissingInfo(fields[0]))
  {
    HeaderKept(h, fields, qual, p);
    TypeMap(h, fields, qual, p);
    assert fields[0] in Elems(fields);
    var requested := Elems(fields);
    var rs2 := Relocations(p.header.records, requested);
    RelocationsFacts(p.header.records, requested);
    var recs := p.header.records;
    forall id | id in requested ensures FirstInfo(recs, id).None? {
      FirstInfoDeclared(recs, id);
      forall i | 0 <= i < |recs| ensures !DeclaresInfo(recs[i], id) {
        assert recs[i] in recs;
      }
    }
    assert Ids(rs2) == {};
    assert |rs2| > 0 ==> rs2[0].id in Ids(rs2);
    assert Types([]) == map[];
  }
}
