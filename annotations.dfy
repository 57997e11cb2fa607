/** The variant section of the overview table for one sample: each `ANN`
    entry of each record is split at `|`, its HGVS protein notation is parsed
    and translated to one-letter codes, the alteration is classified as
    FLiRT, of-interest or other, and the three tier dictionaries are filled
    with `insert_entry` and rendered with `fmt_variants`. */
module Annotations {
  import opened Wrappers
  import opened Strings
  import opened AminoAcids
  import opened VariantDicts

  /** The three mutation columns of a sample. */
  datatype Tier = Flirt | OfInterest | Other

  /** `snakemake.params.flirt` and `snakemake.params.mth`: the alterations of
      interest for each feature. */
  type References = map<string, set<string>>

  /** `refs.get(feature, {})` */
  function Lookup(refs: References, feature: string): set<string>
  {
    if feature in refs then refs[feature] else {}
  }

  /** The tier tests, in the order of the `if`/`elif`/`else`. */
  function Classify(feature: string, alteration: string, flirt: References, mth: References): Tier
  {
    if alteration in Lookup(flirt, feature) then Flirt
    else if alteration in Lookup(mth, feature) then OfInterest
    else Other
  }

  /** Every alteration lands in exactly one tier: FLiRT when the feature's
      FLiRT set holds it, whatever the other set says; of-interest when only
      the feature's mutations-of-interest set holds it; other when neither
      does. */
  lemma ClassifyTiers(feature: string, alteration: string, flirt: References, mth: References)
    ensures Classify(feature, alteration, flirt, mth) == Flirt
      <==> feature in flirt && alteration in flirt[feature]
    ensures Classify(feature, alteration, flirt, mth) == OfInterest
      <==> !(feature in flirt && alteration in flirt[feature]) && feature in mth && alteration in mth[feature]
    ensures Classify(feature, alteration, flirt, mth) == Other
      <==> !(feature in flirt && alteration in flirt[feature]) && !(feature in mth && alteration in mth[feature])
  {
  }

  /** A feature that neither reference map knows behaves as an empty set. */
  lemma UnknownFeatureIsOther(feature: string, alteration: string, flirt: References, mth: References)
    requires feature !in flirt && feature !in mth
    ensures Classify(feature, alteration, flirt, mth) == Other
  {
  }

  /** The tests see the translated alteration: a reference listed in
      three-letter form misses the annotation it names, and its one-letter
      form hits it. */
  lemma ClassifiedOnTranslation(feature: string)
    ensures Classify(feature, Translated("Gly12Ala"), map[feature := {"Gly12Ala"}], map[]) == Other
    ensures Classify(feature, Translated("Gly12Ala"), map[feature := {"G12A"}], map[]) == Flirt
  {
    TranslatedGly12Ala();
    assert "G12A" != "Gly12Ala";
  }

  /** `ID:prefix.alteration`, as the two unpacking splits cut it up. */
  datatype Hgvsp = Hgvsp(id: string, prefix: string, alteration: string)

  /** Why a sample cannot be processed: `ann[11]` on an entry with too few
      fields raises `IndexError`; an HGVS field without `:`, or without `.`
      after it, makes the unpacking raise `ValueError`. */
  datatype Error = MissingField(count: nat) | MalformedHgvsp(hgvsp: string)

  /** `enssast_id, alteration = hgvsp.split(":", 1)` followed by
      `_prefix, alteration = alteration.split(".", 1)`. */
  function ParseHgvsp(hgvsp: string): Result<Hgvsp, Error>
  {
    match SplitOnce(hgvsp, ':')
    case None => Err(MalformedHgvsp(hgvsp))
    case Some((id, rest)) =>
      match SplitOnce(rest, '.')
      case None => Err(MalformedHgvsp(hgvsp))
      case Some((prefix, alteration)) => Ok(Hgvsp(id, prefix, alteration))
  }

  /** On success the parts glue back to the input, the id holding no `:` and
      the prefix no `.`; a failure names the input; and a notation without
      `:` always fails. */
  lemma ParseHgvspParts(hgvsp: string)
    ensures var r := ParseHgvsp(hgvsp);
      && (r.Ok? ==> && ':' !in r.value.id && '.' !in r.value.prefix
                    && hgvsp == r.value.id + ":" + r.value.prefix + "." + r.value.alteration)
      && (r.Err? ==> r.error == MalformedHgvsp(hgvsp))
      && (':' !in hgvsp ==> r.Err?)
  {
    SplitOnceParts(hgvsp, ':');
    match SplitOnce(hgvsp, ':')
    case None =>
    case Some((id, rest)) =>
      SplitOnceParts(rest, '.');
      match SplitOnce(rest, '.')
      case None =>
      case Some((prefix, alteration)) =>
        assert hgvsp == id + [':'] + (prefix + ['.'] + alteration);
  }

  /** Parsing recovers the parts of any well-formed notation. */
  lemma ParseHgvspRoundTrip(h: Hgvsp)
    requires ':' !in h.id && '.' !in h.prefix
    ensures ParseHgvsp(h.id + ":" + h.prefix + "." + h.alteration) == Ok(h)
  {
    var rest := h.prefix + "." + h.alteration;
    SplitOnceGlued(h.id, ':', rest);
    assert h.id + ":" + h.prefix + "." + h.alteration == h.id + [':'] + rest;
    SplitOnceGlued(h.prefix, '.', h.alteration);
  }

  /** A notation with no `.` after its first `:` is an error, not a skip. */
  lemma ParseHgvspNoDot(id: string, rest: string)
    requires ':' !in id && '.' !in rest
    ensures ParseHgvsp(id + ":" + rest) == Err(MalformedHgvsp(id + ":" + rest))
  {
    SplitOnceGlued(id, ':', rest);
    SplitOnceParts(rest, '.');
  }

  /** `f"{feature}:{alteration}"` */
  function Label(feature: string, alteration: string): string
  {
    feature + ":" + alteration
  }

  /** A feature without `:` can be read back from its label, so such labels
      are one per (feature, alteration) pair. */
  lemma LabelSplits(feature: string, alteration: string)
    requires ':' !in feature
    ensures SplitOnce(Label(feature, alteration), ':') == Some((feature, alteration))
  {
    SplitOnceGlued(feature, ':', alteration);
  }

  /** With a `:` inside a feature, two different annotations share a label
      and can still land in different tiers. */
  lemma LabelCollision()
    ensures Label("a:b", "c") == Label("a", "b:c")
    ensures Classify("a", "b:c", map["a" := {"b:c"}], map[]) == Flirt
    ensures Classify("a:b", "c", map["a" := {"b:c"}], map[]) == Other
  {
    assert "a:b" != "a";
  }

  /** A non-empty annotation, ready for `insert_entry`. */
  datatype Call = Call(tier: Tier, feature: string, alteration: string, vaf: real)

  /** The call's tier is the one its feature and alteration select. */
  ghost predicate WellFormed(c: Call, flirt: References, mth: References)
  {
    c.tier == Classify(c.feature, c.alteration, flirt, mth)
  }

  /** Position of the HGVS protein field in an `ANN` entry. */
  const HgvspField: nat := 11
  /** Position of the feature field in an `ANN` entry. */
  const FeatureField: nat := 3

  /** The body of the loop over `record.info["ANN"]`: `None` when the HGVS
      protein field is empty; otherwise the call, classified on the
      translated alteration. */
  function ProcessAnnotation(ann: string, vaf: real, flirt: References, mth: References): (r: Result<Option<Call>, Error>)
    ensures r.Ok? && r.value.Some? ==> WellFormed(r.value.value, flirt, mth) && r.value.value.vaf == vaf
  {
    var fields := SplitAll(ann, '|');
    if |fields| <= HgvspField then Err(MissingField(|fields|))
    else
      var hgvsp := fields[HgvspField];
      var feature := fields[FeatureField];
      if hgvsp == "" then Ok(None)
      else
        match ParseHgvsp(hgvsp)
        case Err(e) => Err(e)
        case Ok(h) =>
          var alteration := Translated(h.alteration);
          Ok(Some(Call(Classify(feature, alteration, flirt, mth), feature, alteration, vaf)))
  }

  /** An annotation with fewer than twelve fields stops the sample. */
  lemma AnnotationTooShort(fields: seq<string>, vaf: real, flirt: References, mth: References)
    requires 1 <= |fields| <= HgvspField
    requires forall i :: 0 <= i < |fields| ==> '|' !in fields[i]
    ensures ProcessAnnotation(Join(fields, '|'), vaf, flirt, mth) == Err(MissingField(|fields|))
  {
    SplitAllJoin(fields, '|');
  }

  /** An annotation with an empty HGVS protein field inserts nothing. */
  lemma AnnotationSkipped(fields: seq<string>, vaf: real, flirt: References, mth: References)
    requires |fields| > HgvspField && fields[HgvspField] == ""
    requires forall i :: 0 <= i < |fields| ==> '|' !in fields[i]
    ensures ProcessAnnotation(Join(fields, '|'), vaf, flirt, mth) == Ok(None)
  {
    SplitAllJoin(fields, '|');
  }

  /** A non-empty HGVS protein field without `:` stops the sample. */
  lemma AnnotationMalformed(fields: seq<string>, vaf: real, flirt: References, mth: References)
    requires |fields| > HgvspField && fields[HgvspField] != "" && ':' !in fields[HgvspField]
    requires forall i :: 0 <= i < |fields| ==> '|' !in fields[i]
    ensures ProcessAnnotation(Join(fields, '|'), vaf, flirt, mth) == Err(MalformedHgvsp(fields[HgvspField]))
  {
    SplitAllJoin(fields, '|');
    SplitOnceParts(fields[HgvspField], ':');
  }

  /** A well-formed annotation yields the call for its feature and its
      translated alteration, with the record's VAF. */
  lemma AnnotationParsed(fields: seq<string>, h: Hgvsp, vaf: real, flirt: References, mth: References)
    requires |fields| > HgvspField
    requires forall i :: 0 <= i < |fields| ==> '|' !in fields[i]
    requires ':' !in h.id && '.' !in h.prefix
    requires fields[HgvspField] == h.id + ":" + h.prefix + "." + h.alteration
    ensures var alteration := Translated(h.alteration);
      ProcessAnnotation(Join(fields, '|'), vaf, flirt, mth)
        == Ok(Some(Call(Classify(fields[FeatureField], alteration, flirt, mth), fields[FeatureField], alteration, vaf)))
  {
    SplitAllJoin(fields, '|');
    ParseHgvspRoundTrip(h);
  }

  /** `[c]` for `Some(c)`, `[]` for `None`. */
  function Calls(c: Option<Call>): seq<Call>
  {
    if c.Some? then [c.value] else []
  }

  /** One variant record: `AF[0]` of its first sample and its `ANN` entries. */
  datatype Record = Record(vaf: real, anns: seq<string>)

  /** The calls of a record's annotations in order; the first failing
      annotation ends the sample with its error. */
  function RecordCalls(vaf: real, anns: seq<string>, flirt: References, mth: References): (r: Result<seq<Call>, Error>)
    ensures r.Ok? ==> forall i :: 0 <= i < |r.value| ==> WellFormed(r.value[i], flirt, mth) && r.value[i].vaf == vaf
  {
    if |anns| == 0 then Ok([])
    else
      match RecordCalls(vaf, anns[..|anns| - 1], flirt, mth)
      case Err(e) => Err(e)
      case Ok(cs) =>
        match ProcessAnnotation(anns[|anns| - 1], vaf, flirt, mth)
        case Err(e) => Err(e)
        case Ok(c) => Ok(cs + Calls(c))
  }

  /** The calls of all records in order, or the first error. */
  function SampleCalls(records: seq<Record>, flirt: References, mth: References): (r: Result<seq<Call>, Error>)
    ensures r.Ok? ==> forall i :: 0 <= i < |r.value| ==> WellFormed(r.value[i], flirt, mth)
  {
    if |records| == 0 then Ok([])
    else
      var last := records[|records| - 1];
      match SampleCalls(records[..|records| - 1], flirt, mth)
      case Err(e) => Err(e)
      case Ok(cs) =>
        match RecordCalls(last.vaf, last.anns, flirt, mth)
        case Err(e) => Err(e)
        case Ok(more) => Ok(cs + more)
  }

  /** Once an annotation fails, the record fails with that error. */
  lemma {:induction false} RecordCallsKeepsError(vaf: real, anns: seq<string>, k: nat, flirt: References, mth: References)
    requires k <= |anns| && RecordCalls(vaf, anns[..k], flirt, mth).Err?
    ensures RecordCalls(vaf, anns, flirt, mth) == RecordCalls(vaf, anns[..k], flirt, mth)
    decreases |anns| - k
  {
    if k < |anns| {
      assert anns[..k + 1][..k] == anns[..k];
      RecordCallsKeepsError(vaf, anns, k + 1, flirt, mth);
    } else {
      assert anns[..k] == anns;
    }
  }

  /** Once a record fails, the sample fails with that error. */
  lemma {:induction false} SampleCallsKeepsError(records: seq<Record>, k: nat, flirt: References, mth: References)
    requires k <= |records| && SampleCalls(records[..k], flirt, mth).Err?
    ensures SampleCalls(records, flirt, mth) == SampleCalls(records[..k], flirt, mth)
    decreases |records| - k
  {
    if k < |records| {
      assert records[..k + 1][..k] == records[..k];
      SampleCallsKeepsError(records, k + 1, flirt, mth);
    } else {
      assert records[..k] == records;
    }
  }

  /** An annotation that is skipped leaves the record's calls as they were. */
  lemma SkippedAnnotationAddsNothing(vaf: real, anns: seq<string>, ann: string, flirt: References, mth: References)
    requires ProcessAnnotation(ann, vaf, flirt, mth) == Ok(None)
    ensures RecordCalls(vaf, anns + [ann], flirt, mth) == RecordCalls(vaf, anns, flirt, mth)
  {
    assert (anns + [ann])[..|anns|] == anns;
    var r := RecordCalls(vaf, anns, flirt, mth);
    if r.Ok? {
      assert r.value + [] == r.value;
    }
  }

  /** The `(label, vaf)` pairs handed to `insert_entry` for one tier, in call
      order. */
  function Entries(calls: seq<Call>, tier: Tier): seq<(string, real)>
  {
    if |calls| == 0 then []
    else
      var c := calls[|calls| - 1];
      Entries(calls[..|calls| - 1], tier)
        + (if c.tier == tier then [(Label(c.feature, c.alteration), c.vaf)] else [])
  }

  /** A tier's entries are exactly its calls' labels and VAFs. */
  lemma {:induction false} EntriesOfCalls(calls: seq<Call>, tier: Tier, x: (string, real))
    ensures x in Entries(calls, tier) <==>
      exists i :: 0 <= i < |calls| && calls[i].tier == tier && x == (Label(calls[i].feature, calls[i].alteration), calls[i].vaf)
  {
    if |calls| > 0 {
      var init := calls[..|calls| - 1];
      EntriesOfCalls(init, tier, x);
      assert forall i :: 0 <= i < |init| ==> init[i] == calls[i];
      var c := calls[|calls| - 1];
      if x in Entries(calls, tier) && !(c.tier == tier && x == (Label(c.feature, c.alteration), c.vaf)) {
        assert x in Entries(init, tier);
        var i :| 0 <= i < |init| && init[i].tier == tier && x == (Label(init[i].feature, init[i].alteration), init[i].vaf);
        assert calls[i] == init[i];
      }
    }
  }

  lemma EmptyValid()
    ensures Empty.Valid()
  {
  }

  /** A tier's dictionary after all of the sample's calls. */
  function TierTable(calls: seq<Call>, tier: Tier): Variants
  {
    InsertAll(Empty, Entries(calls, tier))
  }

  lemma TierTableValid(calls: seq<Call>, tier: Tier)
    ensures TierTable(calls, tier).Valid()
  {
    EmptyValid();
    InsertAllValid(Empty, Entries(calls, tier));
  }

  /** One more call inserts into its own tier's dictionary and no other. */
  lemma TierTableSnoc(calls: seq<Call>, c: Call, tier: Tier)
    ensures TierTable(calls + [c], tier)
      == if c.tier == tier then InsertEntry(TierTable(calls, tier), Label(c.feature, c.alteration), c.vaf)
         else TierTable(calls, tier)
  {
    assert (calls + [c])[..|calls|] == calls;
    var es := Entries(calls, tier);
    if c.tier == tier {
      var e := (Label(c.feature, c.alteration), c.vaf);
      assert (es + [e])[..|es|] == es;
    } else {
      assert es + [] == es;
    }
  }

  /** `label` has some call in `tier`. */
  ghost predicate Called(calls: seq<Call>, tier: Tier, key: string)
  {
    exists i :: 0 <= i < |calls| && calls[i].tier == tier && Label(calls[i].feature, calls[i].alteration) == key
  }

  /** A label is in a tier's dictionary exactly when some call put it there. */
  lemma TierTableKeys(calls: seq<Call>, tier: Tier, key: string)
    ensures key in TierTable(calls, tier).vafs <==> Called(calls, tier, key)
  {
    var es := Entries(calls, tier);
    InsertAllKeys(Empty, es, key);
    if Inserted(es, key) {
      var j :| 0 <= j < |es| && es[j].0 == key;
      EntriesOfCalls(calls, tier, es[j]);
    }
    if Called(calls, tier, key) {
      var i :| 0 <= i < |calls| && calls[i].tier == tier && Label(calls[i].feature, calls[i].alteration) == key;
      var x := (key, calls[i].vaf);
      EntriesOfCalls(calls, tier, x);
      var j :| 0 <= j < |es| && es[j] == x;
    }
  }

  /** Duplicate labels in a tier keep the highest VAF: no call for the label
      has a higher one, and some call has exactly the one kept. */
  lemma TierTableKeepsMax(calls: seq<Call>, tier: Tier, key: string)
    requires key in TierTable(calls, tier).vafs
    ensures forall i :: (0 <= i < |calls| && calls[i].tier == tier && Label(calls[i].feature, calls[i].alteration) == key
                         ==> calls[i].vaf <= TierTable(calls, tier).vafs[key])
    ensures exists i :: (0 <= i < |calls| && calls[i].tier == tier && Label(calls[i].feature, calls[i].alteration) == key
                         && calls[i].vaf == TierTable(calls, tier).vafs[key])
  {
    var es := Entries(calls, tier);
    var v := TierTable(calls, tier).vafs[key];
    InsertAllKeepsMax(Empty, es, key);
    forall i | 0 <= i < |calls| && calls[i].tier == tier && Label(calls[i].feature, calls[i].alteration) == key
      ensures calls[i].vaf <= v
    {
      EntriesOfCalls(calls, tier, (key, calls[i].vaf));
      var j :| 0 <= j < |es| && es[j] == (key, calls[i].vaf);
    }
    var j :| 0 <= j < |es| && es[j].0 == key && es[j].1 == v;
    EntriesOfCalls(calls, tier, es[j]);
  }

  /** When no feature holds a `:`, no label appears in two tiers. */
  lemma TiersDisjoint(calls: seq<Call>, flirt: References, mth: References, key: string, t1: Tier, t2: Tier)
    requires forall i :: 0 <= i < |calls| ==> WellFormed(calls[i], flirt, mth) && ':' !in calls[i].feature
    requires key in TierTable(calls, t1).vafs && key in TierTable(calls, t2).vafs
    ensures t1 == t2
  {
    TierTableKeys(calls, t1, key);
    TierTableKeys(calls, t2, key);
    var i :| 0 <= i < |calls| && calls[i].tier == t1 && Label(calls[i].feature, calls[i].alteration) == key;
    var j :| 0 <= j < |calls| && calls[j].tier == t2 && Label(calls[j].feature, calls[j].alteration) == key;
    LabelSplits(calls[i].feature, calls[i].alteration);
    LabelSplits(calls[j].feature, calls[j].alteration);
  }

  /** The three mutation columns of a sample. */
  datatype Row = Row(flirt: string, voc: string, other: string)

  /** `data.loc[sample, "FLiRT Mutations"]`, `"VOC Mutations"` and
      `"Other Mutations"` after the loop over the sample's records. */
  function SampleRow(records: seq<Record>, flirt: References, mth: References, fmt: real -> string): Result<Row, Error>
  {
    match SampleCalls(records, flirt, mth)
    case Err(e) => Err(e)
    case Ok(calls) =>
      TierTableValid(calls, Flirt);
      TierTableValid(calls, OfInterest);
      TierTableValid(calls, Other);
      Ok(Row(FmtVariants(TierTable(calls, Flirt), fmt),
             FmtVariants(TierTable(calls, OfInterest), fmt),
             FmtVariants(TierTable(calls, Other), fmt)))
  }

  /** A sample without records has three empty columns. */
  lemma EmptySample(flirt: References, mth: References, fmt: real -> string)
    ensures SampleRow([], flirt, mth, fmt) == Ok(Row("", "", ""))
  {
    EmptyValid();
  }

  /** A failing annotation fails its record with its error. */
  lemma AnnotationFailureEndsRecord(vaf: real, anns: seq<string>, j: nat, e: Error, flirt: References, mth: References)
    requires j < |anns|
    requires RecordCalls(vaf, anns[..j], flirt, mth).Ok?
    requires ProcessAnnotation(anns[j], vaf, flirt, mth) == Err(e)
    ensures RecordCalls(vaf, anns, flirt, mth) == Err(e)
  {
    assert anns[..j + 1][..j] == anns[..j];
    RecordCallsKeepsError(vaf, anns, j + 1, flirt, mth);
  }

  /** A failing record fails the whole sample with its error. */
  lemma RecordFailureEndsSample(records: seq<Record>, i: nat, e: Error, flirt: References, mth: References)
    requires i < |records|
    requires SampleCalls(records[..i], flirt, mth).Ok?
    requires RecordCalls(records[i].vaf, records[i].anns, flirt, mth) == Err(e)
    ensures SampleCalls(records, flirt, mth) == Err(e)
  {
    assert records[..i + 1][..i] == records[..i];
    SampleCallsKeepsError(records, i + 1, flirt, mth);
  }

  /** One more annotation of a record, when it does not fail. */
  lemma RecordCallsStep(vaf: real, anns: seq<string>, j: nat, more: seq<Call>, c: Option<Call>,
                        flirt: References, mth: References)
    requires j < |anns| && RecordCalls(vaf, anns[..j], flirt, mth) == Ok(more)
    requires ProcessAnnotation(anns[j], vaf, flirt, mth) == Ok(c)
    ensures RecordCalls(vaf, anns[..j + 1], flirt, mth) == Ok(more + Calls(c))
  {
    assert anns[..j + 1][..j] == anns[..j];
  }

  /** One more record of a sample, when it does not fail. */
  lemma SampleCallsStep(records: seq<Record>, i: nat, flirt: References, mth: References)
    requires i < |records| && SampleCalls(records[..i], flirt, mth).Ok?
    requires RecordCalls(records[i].vaf, records[i].anns, flirt, mth).Ok?
    ensures SampleCalls(records[..i + 1], flirt, mth)
      == Ok(SampleCalls(records[..i], flirt, mth).value + RecordCalls(records[i].vaf, records[i].anns, flirt, mth).value)
  {
    assert records[..i + 1][..i] == records[..i];
  }

  /** Zero or one more call. */
  lemma TierTablesStep(calls: seq<Call>, more: seq<Call>, c: Option<Call>, tier: Tier)
    ensures TierTable(calls + (more + Calls(c)), tier)
      == if c.Some? && c.value.tier == tier
         then InsertEntry(TierTable(calls + more, tier), Label(c.value.feature, c.value.alteration), c.value.vaf)
         else TierTable(calls + more, tier)
  {
    assert calls + (more + Calls(c)) == (calls + more) + Calls(c);
    if c.Some? {
      TierTableSnoc(calls + more, c.value, tier);
    } else {
      assert (calls + more) + [] == calls + more;
    }
  }

  /** The three tier dictionaries hold what `calls` inserts into them. */
  ghost predicate Mirrors(flirtMutations: VariantTable, mutationsOfInterest: VariantTable, otherMutations: VariantTable,
                          calls: seq<Call>)
    reads flirtMutations, mutationsOfInterest, otherMutations
  {
    && flirtMutations.Value() == TierTable(calls, Flirt)
    && mutationsOfInterest.Value() == TierTable(calls, OfInterest)
    && otherMutations.Value() == TierTable(calls, Other)
  }

  /** The body of the annotation loop: the annotation's outcome and, when it
      yields a call, its `insert_entry` into the tier it selects, so that the
      dictionaries then hold the calls made so far followed by this one. */
  method AddAnnotation(ann: string, vaf: real, flirt: References, mth: References,
                       flirtMutations: VariantTable, mutationsOfInterest: VariantTable, otherMutations: VariantTable,
                       ghost calls: seq<Call>)
    returns (outcome: Result<Option<Call>, Error>)
    requires flirtMutations != mutationsOfInterest && flirtMutations != otherMutations && mutationsOfInterest != otherMutations
    requires Mirrors(flirtMutations, mutationsOfInterest, otherMutations, calls)
    modifies flirtMutations, mutationsOfInterest, otherMutations
    ensures outcome == ProcessAnnotation(ann, vaf, flirt, mth)
    ensures outcome.Ok? ==> Mirrors(flirtMutations, mutationsOfInterest, otherMutations, calls + Calls(outcome.value))
  {
    var fields := SplitAll(ann, '|');
    if |fields| <= HgvspField {
      return Err(MissingField(|fields|));
    }
    var hgvsp := fields[HgvspField];
    var feature := fields[FeatureField];
    if hgvsp == "" {
      assert calls + [] == calls;
      return Ok(None);
    }
    var parsed := ParseHgvsp(hgvsp);
    if parsed.Err? {
      return Err(parsed.error);
    }
    var alteration := TranslateAlteration(parsed.value.alteration);
    var key := Label(feature, alteration);
    if alteration in Lookup(flirt, feature) {
      flirtMutations.Insert(key, vaf);
    } else if alteration in Lookup(mth, feature) {
      mutationsOfInterest.Insert(key, vaf);
    } else {
      otherMutations.Insert(key, vaf);
    }
    var call := Call(Classify(feature, alteration, flirt, mth), feature, alteration, vaf);
    TierTableSnoc(calls, call, Flirt);
    TierTableSnoc(calls, call, OfInterest);
    TierTableSnoc(calls, call, Other);
    outcome := Ok(Some(call));
  }

  /** One turn of the annotation loop, in terms of the record's calls: the
      record fails with this annotation's error, or its calls so far grow by
      this annotation's and the dictionaries follow. */
  method AddNext(vaf: real, anns: seq<string>, j: nat, flirt: References, mth: References,
                 flirtMutations: VariantTable, mutationsOfInterest: VariantTable, otherMutations: VariantTable,
                 ghost done: seq<Call>, ghost more: seq<Call>)
    returns (outcome: Result<Option<Call>, Error>)
    requires j < |anns| && RecordCalls(vaf, anns[..j], flirt, mth) == Ok(more)
    requires flirtMutations != mutationsOfInterest && flirtMutations != otherMutations && mutationsOfInterest != otherMutations
    requires Mirrors(flirtMutations, mutationsOfInterest, otherMutations, done + more)
    modifies flirtMutations, mutationsOfInterest, otherMutations
    ensures outcome.Err? ==> RecordCalls(vaf, anns, flirt, mth) == Err(outcome.error)
    ensures outcome.Ok? ==> RecordCalls(vaf, anns[..j + 1], flirt, mth) == Ok(more + Calls(outcome.value))
    ensures outcome.Ok? ==> Mirrors(flirtMutations, mutationsOfInterest, otherMutations, done + (more + Calls(outcome.value)))
  {
    outcome := AddAnnotation(anns[j], vaf, flirt, mth, flirtMutations, mutationsOfInterest, otherMutations, done + more);
    if outcome.Err? {
      AnnotationFailureEndsRecord(vaf, anns, j, outcome.error, flirt, mth);
    } else {
      RecordCallsStep(vaf, anns, j, more, outcome.value, flirt, mth);
      assert (done + more) + Calls(outcome.value) == done + (more + Calls(outcome.value));
    }
  }

  /** The loop over one record's annotations: the dictionaries take the
      record's calls after those already made, or the record's error is
      reported. */
  method AddRecord(record: Record, flirt: References, mth: References,
                   flirtMutations: VariantTable, mutationsOfInterest: VariantTable, otherMutations: VariantTable,
                   ghost done: seq<Call>)
    returns (failure: Option<Error>)
    requires flirtMutations != mutationsOfInterest && flirtMutations != otherMutations && mutationsOfInterest != otherMutations
    requires Mirrors(flirtMutations, mutationsOfInterest, otherMutations, done)
    modifies flirtMutations, mutationsOfInterest, otherMutations
    ensures failure.Some? <==> RecordCalls(record.vaf, record.anns, flirt, mth).Err?
    ensures failure.Some? ==> RecordCalls(record.vaf, record.anns, flirt, mth) == Err(failure.value)
    ensures failure.None? ==>
      Mirrors(flirtMutations, mutationsOfInterest, otherMutations, done + RecordCalls(record.vaf, record.anns, flirt, mth).value)
  {
    assert record.anns[..0] == [];
    assert done + [] == done;
    ghost var more: seq<Call> := [];
    var j := 0;
    while j < |record.anns|
      invariant 0 <= j <= |record.anns|
      invariant RecordCalls(record.vaf, record.anns[..j], flirt, mth) == Ok(more)
      invariant Mirrors(flirtMutations, mutationsOfInterest, otherMutations, done + more)
    {
      var outcome := AddNext(record.vaf, record.anns, j, flirt, mth,
                             flirtMutations, mutationsOfInterest, otherMutations, done, more);
      if outcome.Err? {
        return Some(outcome.error);
      }
      more := more + Calls(outcome.value);
      j := j + 1;
    }
    assert record.anns[..j] == record.anns;
    failure := None;
  }

  /** One turn of the record loop, in terms of the sample's calls: the
      sample fails with this record's error, or its calls so far grow by this
      record's and the dictionaries follow. */
  method AddNextRecord(records: seq<Record>, i: nat, flirt: References, mth: References,
                       flirtMutations: VariantTable, mutationsOfInterest: VariantTable, otherMutations: VariantTable,
                       ghost calls: seq<Call>)
    returns (failure: Option<Error>)
    requires i < |records| && SampleCalls(records[..i], flirt, mth) == Ok(calls)
    requires flirtMutations != mutationsOfInterest && flirtMutations != otherMutations && mutationsOfInterest != otherMutations
    requires Mirrors(flirtMutations, mutationsOfInterest, otherMutations, calls)
    modifies flirtMutations, mutationsOfInterest, otherMutations
    ensures failure.Some? ==> SampleCalls(records, flirt, mth) == Err(failure.value)
    ensures failure.None? ==> RecordCalls(records[i].vaf, records[i].anns, flirt, mth).Ok?
    ensures failure.None? ==>
      var more := RecordCalls(records[i].vaf, records[i].anns, flirt, mth).value;
      && SampleCalls(records[..i + 1], flirt, mth) == Ok(calls + more)
      && Mirrors(flirtMutations, mutationsOfInterest, otherMutations, calls + more)
  {
    failure := AddRecord(records[i], flirt, mth, flirtMutations, mutationsOfInterest, otherMutations, calls);
    if failure.Some? {
      RecordFailureEndsSample(records, i, failure.value, flirt, mth);
    } else {
      SampleCallsStep(records, i, flirt, mth);
    }
  }

  /** The loop over a sample's records: the dictionaries take all of the
      sample's calls, or the error of the first annotation that cannot be
      processed is reported. */
  method AddRecords(records: seq<Record>, flirt: References, mth: References,
                    flirtMutations: VariantTable, mutationsOfInterest: VariantTable, otherMutations: VariantTable)
    returns (failure: Option<Error>)
    requires flirtMutations != mutationsOfInterest && flirtMutations != otherMutations && mutationsOfInterest != otherMutations
    requires Mirrors(flirtMutations, mutationsOfInterest, otherMutations, [])
    modifies flirtMutations, mutationsOfInterest, otherMutations
    ensures failure.Some? ==> SampleCalls(records, flirt, mth) == Err(failure.value)
    ensures failure.None? ==> SampleCalls(records, flirt, mth).Ok?
    ensures failure.None? ==> Mirrors(flirtMutations, mutationsOfInterest, otherMutations, SampleCalls(records, flirt, mth).value)
  {
    assert records[..0] == [];
    ghost var calls: seq<Call> := [];
    var i := 0;
    while i < |records|
      invariant 0 <= i <= |records|
      invariant SampleCalls(records[..i], flirt, mth) == Ok(calls)
      invariant Mirrors(flirtMutations, mutationsOfInterest, otherMutations, calls)
    {
      failure := AddNextRecord(records, i, flirt, mth, flirtMutations, mutationsOfInterest, otherMutations, calls);
      if failure.Some? {
        return;
      }
      calls := calls + RecordCalls(records[i].vaf, records[i].anns, flirt, mth).value;
      i := i + 1;
    }
    assert records[..i] == records;
    failure := None;
  }

  /** The variant section for one sample: three empty tier dictionaries,
      each annotation of each record parsed, translated, classified and
      inserted in turn, and the three columns rendered; or the error of the
      first annotation that cannot be processed. */
  method AggregateSample(records: seq<Record>, flirt: References, mth: References, fmt: real -> string)
    returns (r: Result<Row, Error>)
    ensures r == SampleRow(records, flirt, mth, fmt)
  {
    var flirtMutations := new VariantTable();
    var mutationsOfInterest := new VariantTable();
    var otherMutations := new VariantTable();
    var failure := AddRecords(records, flirt, mth, flirtMutations, mutationsOfInterest, otherMutations);
    if failure.Some? {
      return Err(failure.value);
    }
    ghost var calls := SampleCalls(records, flirt, mth).value;
    TierTableValid(calls, Flirt);
    TierTableValid(calls, OfInterest);
    TierTableValid(calls, Other);
    r := Ok(Row(FmtVariants(flirtMutations.Value(), fmt),
                FmtVariants(mutationsOfInterest.Value(), fmt),
                FmtVariants(otherMutations.Value(), fmt)));
  }
}
