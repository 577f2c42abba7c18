/**
 The text of the FORMAT declarations the planner adds to the new header, and a
 reader for that text: the reader recovers exactly the four values that were
 written, which is what makes the text a faithful declaration of them.
 */
module HeaderLine {

  import opened Wrappers
  import opened Vcf

  /** The FORMAT declaration with the given ID, Number, Type and Description. */
  function FormatDecl(id: string, number: string, ttype: string, description: string): HeaderRecord
  {
    Format(map["ID" := id, "Number" := number, "Type" := ttype, "Description" := description])
  }

  /** The declaration text `##FORMAT=<ID=..,Number=..,Type=..,Description=..>`. */
  function FormatLine(id: string, number: string, ttype: string, description: string): string
  {
    "##FORMAT=<ID=" + id + ",Number=" + number + ",Type=" + ttype + ",Description=" + description + ">"
  }

  /** The FORMAT declaration for QUAL, and its text. */
  const QualDescription := "Phred-scaled quality score for the assertion made in ALT"
  const QualDecl := FormatDecl("QUAL", "1", "Float", QualDescription)
  const QualLine := FormatLine("QUAL", "1", "Float", QualDescription)

  /** The rest of `s` after prefix `p`, when `s` starts with `p`. */
  function CutPrefix(s: string, p: string): (r: Option<string>)
    ensures r.Some? ==> s == p + r.value
    ensures r.None? ==> forall t :: s != p + t
  {
    if |p| <= |s| && s[..|p|] == p then
      assert s == p + s[|p|..];
      Some(s[|p|..])
    else
      assert forall t :: (p + t)[..|p|] == p;
      None
  }

  /** The position of the first comma in `s`. */
  function FirstComma(s: string): (r: Option<nat>)
    ensures r.Some? ==> r.value < |s| && s[r.value] == ',' && ',' !in s[..r.value]
    ensures r.None? ==> ',' !in s
  {
    if s == [] then None
    else if s[0] == ',' then Some(0)
    else match FirstComma(s[1..])
      case None => None
      case Some(k) =>
        assert s[..k + 1] == [s[0]] + s[1..][..k];
        Some(k + 1)
  }

  /** `s` split at its first comma. */
  function SplitComma(s: string): Option<(string, string)>
  {
    match FirstComma(s)
    case None => None
    case Some(k) => Some((s[..k], s[k + 1..]))
  }

  /** Reads `key` followed by a value up to the first comma; gives the value and what follows the comma. */
  function ReadField(s: string, key: string): Option<(string, string)>
  {
    match CutPrefix(s, key)
    case None => None
    case Some(rest) => SplitComma(rest)
  }

  /** Reads the text of a FORMAT declaration with its four keys in the order FormatLine writes them. */
  function ParseFormatLine(line: string): Option<HeaderRecord>
  {
    match ReadField(line, "##FORMAT=<ID=")
    case None => None
    case Some((id, r1)) =>
      match ReadField(r1, "Number=")
      case None => None
      case Some((number, r2)) =>
        match ReadField(r2, "Type=")
        case None => None
        case Some((ttype, r3)) =>
          match CutPrefix(r3, "Description=")
          case None => None
          case Some(r4) =>
            if |r4| > 0 && r4[|r4| - 1] == '>' then
              Some(FormatDecl(id, number, ttype, r4[..|r4| - 1]))
            else None
  }

  lemma {:induction false} FirstCommaAfter(a: string, b: string)
    requires ',' !in a
    ensures FirstComma(a + "," + b) == Some(|a|)
    decreases |a|
  {
    if a != [] {
      assert (a + "," + b)[1..] == a[1..] + "," + b;
      FirstCommaAfter(a[1..], b);
    }
  }

  lemma CutPrefixOf(p: string, t: string)
    ensures CutPrefix(p + t, p) == Some(t)
  {
    assert (p + t)[..|p|] == p;
  }

  lemma ReadFieldAfter(key: string, v: string, rest: string)
    requires ',' !in v
    ensures ReadField(key + v + "," + rest, key) == Some((v, rest))
  {
    var s := key + v + "," + rest;
    assert s == key + (v + "," + rest);
    CutPrefixOf(key, v + "," + rest);
    FirstCommaAfter(v, rest);
    var t := v + "," + rest;
    assert t[..|v|] == v && t[|v| + 1..] == rest;
  }

  /**
   The text written for a declaration reads back as that declaration, as long
   as ID, Number and Type hold no comma (the Description may hold anything).
   */
  lemma FormatLineRoundTrip(id: string, number: string, ttype: string, description: string)
    requires ',' !in id && ',' !in number && ',' !in ttype
    ensures ParseFormatLine(FormatLine(id, number, ttype, description)) == Some(FormatDecl(id, number, ttype, description))
  {
    var r4 := description + ">";
    var r3 := "Description=" + r4;
    var r2 := "Type=" + ttype + "," + r3;
    var r1 := "Number=" + number + "," + r2;
    var line := "##FORMAT=<ID=" + id + "," + r1;
    assert FormatLine(id, number, ttype, description) == line;
    ReadFieldAfter("##FORMAT=<ID=", id, r1);
    ReadFieldAfter("Number=", number, r2);
    ReadFieldAfter("Type=", ttype, r3);
    CutPrefixOf("Description=", r4);
    assert r4[..|r4| - 1] == description;
  }

  /** Two declarations with different values never share a text. */
  lemma FormatLineInjective(id: string, number: string, ttype: string, description: string,
                            id': string, number': string, ttype': string, description': string)
    requires ',' !in id && ',' !in number && ',' !in ttype
    requires ',' !in id' && ',' !in number' && ',' !in ttype'
    requires FormatLine(id, number, ttype, description) == FormatLine(id', number', ttype', description')
    ensures id == id' && number == number' && ttype == ttype' && description == description'
  {
    FormatLineRoundTrip(id, number, ttype, description);
    FormatLineRoundTrip(id', number', ttype', description');
    var m := FormatDecl(id, number, ttype, description).values;
    var m' := FormatDecl(id', number', ttype', description').values;
    assert m["ID"] == m'["ID"] && m["Number"] == m'["Number"];
    assert m["Type"] == m'["Type"] && m["Description"] == m'["Description"];
  }

  /** The fixed QUAL text reads back as the QUAL declaration. */
  lemma QualLineIsQualDecl()
    ensures ParseFormatLine(QualLine) == Some(QualDecl)
  {
    FormatLineRoundTrip("QUAL", "1", "Float", QualDescription);
  }
}
