/** `classify_site`: the keyword classifier for National Geological Monument
    names, written out identically in app.py and upload_missing_data.py. The
    name is lower-cased and searched for keywords group by group; the first
    group with a hit decides the label. */
module SiteClassifier {
  import opened Strings

  datatype SiteType = FossilSite | VolcanicIgneous | GeologicalStructure | NaturalFormation | OtherSite

  /** The label the dashboard stores in the SITE_TYPE column. */
  function Label(t: SiteType): string {
    match t
    case FossilSite => "Fossil Site"
    case VolcanicIgneous => "Volcanic/Igneous Formation"
    case GeologicalStructure => "Geological Structure"
    case NaturalFormation => "Natural Formation"
    case OtherSite => "Other Geological Site"
  }

  const Labels: set<string> := {
    "Fossil Site", "Volcanic/Igneous Formation", "Geological Structure",
    "Natural Formation", "Other Geological Site"
  }

  const VolcanicTerms: seq<string> := ["lava", "volcanic", "igneous"]
  const StructureTerms: seq<string> := ["fault", "unconformity"]
  const NaturalTerms: seq<string> := ["lake", "cliff", "island"]

  /** All ten keywords, in the order they are tested. */
  const Keywords: seq<string> := ["fossil"] + VolcanicTerms + StructureTerms + NaturalTerms

  /** Python's `any(term in s for term in terms)`. */
  predicate AnyIn(s: string, terms: seq<string>) {
    exists k :: 0 <= k < |terms| && Contains(s, terms[k])
  }

  /** The if/elif chain of `classify_site`. */
  function Classify(name: string): SiteType {
    var lowered := Lower(name);
    if Contains(lowered, "fossil") then FossilSite
    else if AnyIn(lowered, VolcanicTerms) then VolcanicIgneous
    else if AnyIn(lowered, StructureTerms) then GeologicalStructure
    else if AnyIn(lowered, NaturalTerms) then NaturalFormation
    else OtherSite
  }

  function ClassifySite(name: string): (siteType: string) {
    Label(Classify(name))
  }

  lemma AnyInSingle(s: string, term: string)
    ensures AnyIn(s, [term]) <==> Contains(s, term)
  {
    assert [term][0] == term;
  }

  /** The classifier is total onto the five labels, and distinct categories get distinct labels. */
  lemma ClassifySiteLabels(name: string)
    ensures ClassifySite(name) in Labels
    ensures forall a: SiteType, b: SiteType :: Label(a) == Label(b) ==> a == b
  {
  }

  /** "fossil" wins over every other keyword. */
  lemma FossilTakesPrecedence(name: string)
    requires Contains(Lower(name), "fossil")
    ensures ClassifySite(name) == "Fossil Site"
  {
  }

  /** First match wins: each label is returned exactly when its group matches and no earlier group does. */
  lemma FirstMatchWins(name: string)
    ensures var l := Lower(name);
      && (Classify(name) == FossilSite <==> Contains(l, "fossil"))
      && (Classify(name) == VolcanicIgneous <==>
            !Contains(l, "fossil") && AnyIn(l, VolcanicTerms))
      && (Classify(name) == GeologicalStructure <==>
            !Contains(l, "fossil") && !AnyIn(l, VolcanicTerms) && AnyIn(l, StructureTerms))
      && (Classify(name) == NaturalFormation <==>
            !Contains(l, "fossil") && !AnyIn(l, VolcanicTerms) && !AnyIn(l, StructureTerms)
            && AnyIn(l, NaturalTerms))
  {
  }

  /** The default label is returned exactly when none of the ten keywords occurs. */
  lemma OtherIffNoKeyword(name: string)
    ensures ClassifySite(name) == "Other Geological Site" <==>
            forall k :: 0 <= k < |Keywords| ==> !Contains(Lower(name), Keywords[k])
  {
    var l := Lower(name);
    if forall k :: 0 <= k < |Keywords| ==> !Contains(l, Keywords[k]) {
      assert !Contains(l, Keywords[0]);
      assert forall k :: 0 <= k < 3 ==> VolcanicTerms[k] == Keywords[1 + k];
      assert forall k :: 0 <= k < 2 ==> StructureTerms[k] == Keywords[4 + k];
      assert forall k :: 0 <= k < 3 ==> NaturalTerms[k] == Keywords[6 + k];
    } else {
      var k :| 0 <= k < |Keywords| && Contains(l, Keywords[k]);
      if 1 <= k < 4 {
        assert Keywords[k] == VolcanicTerms[k - 1];
      } else if 4 <= k < 6 {
        assert Keywords[k] == StructureTerms[k - 4];
      } else if 6 <= k {
        assert Keywords[k] == NaturalTerms[k - 6];
      }
    }
  }

  /** Classification ignores case. */
  lemma ClassifyIgnoresCase(name: string)
    ensures ClassifySite(Lower(name)) == ClassifySite(name)
    ensures ClassifySite(Upper(name)) == ClassifySite(name)
  {
    LowerIdempotent(name);
    LowerOfUpper(name);
  }

  /** The chain of upload_missing_data.py read as a rule table: keyword group, then label. */
  const Rules: seq<(seq<string>, string)> := [
    (["fossil"], "Fossil Site"),
    (VolcanicTerms, "Volcanic/Igneous Formation"),
    (StructureTerms, "Geological Structure"),
    (NaturalTerms, "Natural Formation")
  ]

  /** The upload script's copy, run as "first rule whose group matches, else the default":
      it returns the app's label for every name. */
  method ClassifyByRules(name: string) returns (siteType: string)
    ensures siteType == ClassifySite(name)
  {
    var lowered := Lower(name);
    AnyInSingle(lowered, "fossil");
    assert Rules[0] == (["fossil"], Label(FossilSite));
    assert Rules[1] == (VolcanicTerms, Label(VolcanicIgneous));
    assert Rules[2] == (StructureTerms, Label(GeologicalStructure));
    assert Rules[3] == (NaturalTerms, Label(NaturalFormation));
    var i := 0;
    while i < |Rules|
      invariant 0 <= i <= |Rules|
      invariant forall j :: 0 <= j < i ==> !AnyIn(lowered, Rules[j].0)
    {
      if AnyIn(lowered, Rules[i].0) {
        return Rules[i].1;
      }
      i := i + 1;
    }
    return "Other Geological Site";
  }
}
