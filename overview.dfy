/** The overview table's cells outside the variant aggregation: the
    "Best Quality" label from the assembly-used codes, the "Pango Lineage"
    and "WHO Label" cells from the pangolin call, the three mutation columns
    per sample, and the length cap on "Other Mutations". */
module Overview {
  import opened Wrappers
  import opened Strings
  import opened Annotations

  /** A spreadsheet cell holds at most this many characters. */
  const MaxCellLength: nat := 32767
  const TooManyVariants := "Too many variants to display"

  /** The cap on an "Other Mutations" cell. */
  function Capped(s: string): (r: string)
    ensures |r| <= MaxCellLength
    ensures r == s <==> |s| <= MaxCellLength
  {
    if |s| > MaxCellLength then TooManyVariants else s
  }

  /** Capping twice is capping once. */
  lemma CappedIdempotent(s: string)
    ensures Capped(Capped(s)) == Capped(s)
  {
  }

  /** The two sides of the strict `>`: a cell of exactly the limit stays, one
      character more is replaced. */
  lemma CappedBoundary(s: string, c: char)
    requires |s| == MaxCellLength
    ensures Capped(s) == s
    ensures Capped(s + [c]) == TooManyVariants
  {
  }

  /** `sample, used = ele.split(",")` fails unless the element has exactly
      one comma. */
  datatype AssemblyError = UnpackMismatch(element: string, parts: nat)

  /** The unpacking of one `assembly_used` element into sample and code. */
  function SplitAssemblyUsed(ele: string): Result<(string, string), AssemblyError>
  {
    var parts := SplitAll(ele, ',');
    if |parts| != 2 then Err(UnpackMismatch(ele, |parts|)) else Ok((parts[0], parts[1]))
  }

  /** On success the element is `sample,code` with no comma in either part;
      a failure reports how many parts the split gave, never two. */
  lemma SplitAssemblyUsedParts(ele: string)
    ensures var r := SplitAssemblyUsed(ele);
      && (r.Ok? ==> ele == r.value.0 + "," + r.value.1 && ',' !in r.value.0 && ',' !in r.value.1)
      && (r.Err? ==> r.error.element == ele && r.error.parts == |SplitAll(ele, ',')| != 2)
  {
    SplitAllPieces(ele, ',');
    var parts := SplitAll(ele, ',');
    if |parts| == 2 {
      assert parts[1..] == [parts[1]];
      assert Join(parts, ',') == parts[0] + [','] + parts[1];
    }
  }

  /** Any comma-free sample and code are read back from `sample,code`. */
  lemma SplitAssemblyUsedRoundTrip(sample: string, used: string)
    requires ',' !in sample && ',' !in used
    ensures SplitAssemblyUsed(sample + "," + used) == Ok((sample, used))
  {
    assert forall i :: 0 <= i < |[sample, used]| ==> ',' !in [sample, used][i];
    SplitAllJoin([sample, used], ',');
    assert Join([sample, used], ',') == sample + "," + used by {
      assert [sample, used][1..] == [used];
    }
  }

  /** The "Best Quality" label of an assembly-used code, or none for any
      other code. */
  function QualityLabel(used: string): (r: Option<string>)
    ensures r.Some? <==> used in {"pseudo", "normal", "consensus", "not-accepted"}
  {
    if "pseudo" == used then Some("Pseudo")
    else if "normal" == used then Some("De Novo")
    else if "consensus" == used then Some("Consensus")
    else if "not-accepted" == used then Some("not accepted by QA")
    else None
  }

  /** The "Best Quality" column after the loop over `elements`, from `col`:
      each known code sets its sample's cell, an unknown one leaves it; the
      first malformed element stops the script. */
  function QualityColumn(col: map<string, string>, elements: seq<string>): Result<map<string, string>, AssemblyError>
  {
    if |elements| == 0 then Ok(col)
    else
      match QualityColumn(col, elements[..|elements| - 1])
      case Err(e) => Err(e)
      case Ok(before) =>
        match SplitAssemblyUsed(elements[|elements| - 1])
        case Err(e) => Err(e)
        case Ok((sample, used)) =>
          match QualityLabel(used)
          case None => Ok(before)
          case Some(quality) => Ok(before[sample := quality])
  }

  /** The label the last element naming `sample` with a known code gives it,
      if any. */
  function LastQuality(elements: seq<string>, sample: string): Option<string>
  {
    if |elements| == 0 then None
    else
      var r := SplitAssemblyUsed(elements[|elements| - 1]);
      if r.Ok? && r.value.0 == sample && QualityLabel(r.value.1).Some? then QualityLabel(r.value.1)
      else LastQuality(elements[..|elements| - 1], sample)
  }

  /** Read per sample: a sample's cell is the label of the last element that
      names it with a known code; a sample no such element names keeps the
      cell it had, or stays without one. */
  lemma {:induction false} QualityColumnPerSample(col: map<string, string>, elements: seq<string>, sample: string)
    requires QualityColumn(col, elements).Ok?
    ensures var after := QualityColumn(col, elements).value;
      match LastQuality(elements, sample)
      case Some(quality) => sample in after && after[sample] == quality
      case None => (sample in after <==> sample in col) && (sample in col ==> after[sample] == col[sample])
  {
    if |elements| > 0 {
      QualityColumnPerSample(col, elements[..|elements| - 1], sample);
    }
  }

  /** A malformed element stops the loop: whatever follows it, the result is
      its error. */
  lemma {:induction false} QualityColumnKeepsError(col: map<string, string>, elements: seq<string>, k: nat)
    requires k <= |elements| && QualityColumn(col, elements[..k]).Err?
    ensures QualityColumn(col, elements) == QualityColumn(col, elements[..k])
    decreases |elements| - k
  {
    if k < |elements| {
      assert elements[..k + 1][..k] == elements[..k];
      QualityColumnKeepsError(col, elements, k + 1);
    } else {
      assert elements[..k] == elements;
    }
  }

  /** `if lineage == "None": "no strain called" else f"{lineage}"`. */
  function LineageLabel(lineage: string): (r: string)
    ensures r == lineage <==> lineage != "None"
  {
    if lineage == "None" then "no strain called" else lineage
  }

  /** `if scorpio == "None": "-" else f"{scorpio}"`, the scorpio call taken
      as the text its f-string gives (a missing value reads `nan`). */
  function ScorpioCall(scorpio: string): (r: string)
    ensures r == scorpio <==> scorpio != "None"
  {
    if scorpio == "None" then "-" else scorpio
  }

  /** `data["WHO Label"].fillna("-")` over the samples of the table, then
      `.replace({"nan": "-"})`. */
  function CleanWhoColumn(col: map<string, string>, samples: seq<string>): (r: map<string, string>)
    ensures r.Keys == col.Keys + (set s | s in samples)
  {
    map k | k in col.Keys + (set s | s in samples) :: if k in col && col[k] != "nan" then col[k] else "-"
  }

  /** Afterwards every sample has a WHO cell, none reads `nan`, a cell that
      was neither missing nor `nan` is kept, and cleaning again changes
      nothing. */
  lemma CleanWhoColumnFacts(col: map<string, string>, samples: seq<string>)
    ensures var r := CleanWhoColumn(col, samples);
      && (forall s :: s in samples ==> s in r)
      && (forall k :: k in r ==> r[k] != "nan")
      && (forall k :: k in col && col[k] != "nan" ==> r[k] == col[k])
      && CleanWhoColumn(r, samples) == r
  {
    var r := CleanWhoColumn(col, samples);
    assert "-" != "nan";
    assert CleanWhoColumn(r, samples).Keys == r.Keys;
  }

  /** Cleaning adds cells only for rows of the index. */
  lemma CleanWhoColumnIndexed(col: map<string, string>, samples: seq<string>)
    requires forall s :: s in col ==> s in samples
    ensures forall s :: s in CleanWhoColumn(col, samples) ==> s in samples
  {
  }

  /** The column-wide form of the cap. */
  function CapColumn(col: map<string, string>): (r: map<string, string>)
    ensures r.Keys == col.Keys
  {
    map k | k in col :: Capped(col[k])
  }

  /** The index after `data.loc[sample, column] = ...`: a sample not yet in
      it is appended as a new row (pandas' enlargement by `.loc`). */
  function WithRow(index: seq<string>, sample: string): seq<string>
  {
    if sample in index then index else index + [sample]
  }

  /** The old index is kept in order, the sample is in the new one, and
      nothing else is added. */
  lemma WithRowFacts(index: seq<string>, sample: string)
    ensures var r := WithRow(index, sample);
      && |index| <= |r| && r[..|index|] == index
      && (forall s :: s in r <==> s in index || s == sample)
  {
    if sample !in index {
      assert (index + [sample])[..|index|] == index;
    }
  }

  /** The index after the loop over `elements`: each element with a known
      code writes its sample's "Best Quality" cell, and so adds the sample. */
  function IndexAfter(index: seq<string>, elements: seq<string>): seq<string>
  {
    if |elements| == 0 then index
    else
      var before := IndexAfter(index, elements[..|elements| - 1]);
      match SplitAssemblyUsed(elements[|elements| - 1])
      case Err(_) => before
      case Ok((sample, used)) => if QualityLabel(used).Some? then WithRow(before, sample) else before
  }

  /** The loop only appends to the index, and a sample it gives a cell is in
      the index afterwards. */
  lemma {:induction false} IndexAfterGrows(col: map<string, string>, index: seq<string>, elements: seq<string>)
    requires QualityColumn(col, elements).Ok?
    ensures var r := IndexAfter(index, elements);
      && |index| <= |r| && r[..|index|] == index
      && (forall s :: s in QualityColumn(col, elements).value ==> s in col || s in r)
  {
    if |elements| > 0 {
      var init := elements[..|elements| - 1];
      IndexAfterGrows(col, index, init);
      var before := IndexAfter(index, init);
      match SplitAssemblyUsed(elements[|elements| - 1])
      case Err(_) =>
      case Ok((sample, used)) =>
        WithRowFacts(before, sample);
        var r := IndexAfter(index, elements);
        assert r[..|before|] == before;
        assert r[..|index|] == before[..|index|];
    }
  }

  /** One more well-formed element: its known code sets its sample's cell
      and adds the sample to the index; an unknown code changes neither. */
  lemma AssemblyUsedStep(col: map<string, string>, index: seq<string>, elements: seq<string>, i: nat,
                         before: map<string, string>)
    requires i < |elements| && QualityColumn(col, elements[..i]) == Ok(before)
    requires SplitAssemblyUsed(elements[i]).Ok?
    ensures var (sample, used) := SplitAssemblyUsed(elements[i]).value;
      && QualityColumn(col, elements[..i + 1])
           == Ok(if QualityLabel(used).Some? then before[sample := QualityLabel(used).value] else before)
      && IndexAfter(index, elements[..i + 1])
           == if QualityLabel(used).Some? then WithRow(IndexAfter(index, elements[..i]), sample)
              else IndexAfter(index, elements[..i])
  {
    assert elements[..i + 1][..i] == elements[..i];
  }

  /** The rows of the overview table whose cells the modelled code writes:
      the sample index, and one map per column from sample to cell. */
  class OverviewTable {
    var samples: seq<string>
    var bestQuality: map<string, string>
    var pangoLineage: map<string, string>
    var whoLabel: map<string, string>
    var flirtMutations: map<string, string>
    var vocMutations: map<string, string>
    var otherMutations: map<string, string>

    /** A cell exists only in a row of the index. */
    ghost predicate Valid()
      reads this
    {
      && (forall s :: s in bestQuality ==> s in samples)
      && (forall s :: s in pangoLineage ==> s in samples)
      && (forall s :: s in whoLabel ==> s in samples)
      && (forall s :: s in flirtMutations ==> s in samples)
      && (forall s :: s in vocMutations ==> s in samples)
      && (forall s :: s in otherMutations ==> s in samples)
    }

    /** `pd.DataFrame(index=snakemake.params.samples)`: no cell is set. */
    constructor(samples: seq<string>)
      ensures Valid() && this.samples == samples
      ensures bestQuality == map[] && pangoLineage == map[] && whoLabel == map[]
      ensures flirtMutations == map[] && vocMutations == map[] && otherMutations == map[]
    {
      this.samples := samples;
      bestQuality := map[];
      pangoLineage := map[];
      whoLabel := map[];
      flirtMutations := map[];
      vocMutations := map[];
      otherMutations := map[];
    }

    /** The row enlargement a `data.loc[sample, ...]` write makes: the
      sample joins the index if it is missing, and no cell changes. */
    method AddRow(sample: string)
      requires Valid()
      modifies this
      ensures Valid()
      ensures samples == WithRow(old(samples), sample) && sample in samples
      ensures bestQuality == old(bestQuality) && pangoLineage == old(pangoLineage) && whoLabel == old(whoLabel)
      ensures flirtMutations == old(flirtMutations) && vocMutations == old(vocMutations)
      ensures otherMutations == old(otherMutations)
    {
      WithRowFacts(samples, sample);
      samples := WithRow(samples, sample);
    }

    /** `data.loc[sample, "Best Quality"] = quality`. */
    method SetBestQuality(sample: string, quality: string)
      requires Valid()
      modifies this
      ensures Valid()
      ensures samples == WithRow(old(samples), sample)
      ensures bestQuality == old(bestQuality)[sample := quality]
      ensures pangoLineage == old(pangoLineage) && whoLabel == old(whoLabel)
      ensures flirtMutations == old(flirtMutations) && vocMutations == old(vocMutations)
      ensures otherMutations == old(otherMutations)
    {
      AddRow(sample);
      bestQuality := bestQuality[sample := quality];
    }

    /** The loop over `assembly_used`: the "Best Quality" column becomes
      `QualityColumn` of the old one and the index `IndexAfter` the old one,
      or the first malformed element's error is reported. No other column
      changes. */
    method AddAssemblyUsed(elements: seq<string>) returns (failure: Option<AssemblyError>)
      requires Valid()
      modifies this
      ensures Valid()
      ensures failure.Some? <==> QualityColumn(old(bestQuality), elements).Err?
      ensures failure.Some? ==> QualityColumn(old(bestQuality), elements) == Err(failure.value)
      ensures failure.None? ==> bestQuality == QualityColumn(old(bestQuality), elements).value
      ensures failure.None? ==> samples == IndexAfter(old(samples), elements)
      ensures pangoLineage == old(pangoLineage) && whoLabel == old(whoLabel)
      ensures flirtMutations == old(flirtMutations) && vocMutations == old(vocMutations)
      ensures otherMutations == old(otherMutations)
    {
      ghost var start, index := bestQuality, samples;
      assert elements[..0] == [];
      var i := 0;
      while i < |elements|
        invariant 0 <= i <= |elements|
        invariant Valid()
        invariant QualityColumn(start, elements[..i]) == Ok(bestQuality)
        invariant samples == IndexAfter(index, elements[..i])
        invariant pangoLineage == old(pangoLineage) && whoLabel == old(whoLabel)
        invariant flirtMutations == old(flirtMutations) && vocMutations == old(vocMutations)
        invariant otherMutations == old(otherMutations)
      {
        var parsed := SplitAssemblyUsed(elements[i]);
        if parsed.Err? {
          assert elements[..i + 1][..i] == elements[..i];
          QualityColumnKeepsError(start, elements, i + 1);
          return Some(parsed.error);
        }
        AssemblyUsedStep(start, index, elements, i, bestQuality);
        var sample, used := parsed.value.0, parsed.value.1;
        var quality := QualityLabel(used);
        if quality.Some? {
          SetBestQuality(sample, quality.value);
        }
        i := i + 1;
      }
      assert elements[..i] == elements;
      failure := None;
    }

    /** One pangolin result: the sample's lineage and WHO cells (which add
      the sample to the index if it is missing), then the `fillna` and
      `replace` over the whole WHO column. */
    method AddPangolin(sample: string, lineage: string, scorpio: string)
      requires Valid()
      modifies this
      ensures Valid()
      ensures samples == WithRow(old(samples), sample)
      ensures pangoLineage == old(pangoLineage)[sample := LineageLabel(lineage)]
      ensures whoLabel == CleanWhoColumn(old(whoLabel)[sample := ScorpioCall(scorpio)], samples)
      ensures bestQuality == old(bestQuality)
      ensures flirtMutations == old(flirtMutations) && vocMutations == old(vocMutations)
      ensures otherMutations == old(otherMutations)
    {
      var pangolinCall: string;
      if lineage == "None" {
        pangolinCall := "no strain called";
      } else {
        pangolinCall := lineage;
      }
      AddRow(sample);
      pangoLineage := pangoLineage[sample := pangolinCall];
      var scorpioCall: string;
      if scorpio == "None" {
        scorpioCall := "-";
      } else {
        scorpioCall := scorpio;
      }
      whoLabel := whoLabel[sample := scorpioCall];
      CleanWhoColumnIndexed(whoLabel, samples);
      whoLabel := CleanWhoColumn(whoLabel, samples);
    }

    /** The end of one sample of the variant loop: its three mutation cells
      take the rendered tiers (the `Row` that `AggregateSample` returns). */
    method SetMutations(sample: string, row: Row)
      requires Valid()
      modifies this
      ensures Valid()
      ensures samples == WithRow(old(samples), sample)
      ensures flirtMutations == old(flirtMutations)[sample := row.flirt]
      ensures vocMutations == old(vocMutations)[sample := row.voc]
      ensures otherMutations == old(otherMutations)[sample := row.other]
      ensures bestQuality == old(bestQuality)
      ensures pangoLineage == old(pangoLineage) && whoLabel == old(whoLabel)
    {
      AddRow(sample);
      flirtMutations := flirtMutations[sample := row.flirt];
      vocMutations := vocMutations[sample := row.voc];
      otherMutations := otherMutations[sample := row.other];
    }

    /** The overflow guard: every "Other Mutations" cell is capped; the
      index, the FLiRT and VOC columns, and every other column, stay as they
      were. */
    method CapOtherMutations()
      requires Valid()
      modifies this
      ensures Valid()
      ensures otherMutations == CapColumn(old(otherMutations))
      ensures samples == old(samples) && bestQuality == old(bestQuality)
      ensures pangoLineage == old(pangoLineage) && whoLabel == old(whoLabel)
      ensures flirtMutations == old(flirtMutations) && vocMutations == old(vocMutations)
    {
      otherMutations := map k | k in otherMutations :: if |otherMutations[k]| > MaxCellLength then TooManyVariants else otherMutations[k];
    }
  }

  /** After the cap no cell is over the limit, a cell within it is kept, a
      longer one reads the message, and capping again changes nothing. */
  lemma CapColumnFacts(col: map<string, string>)
    ensures var r := CapColumn(col);
      && (forall k :: k in r ==> |r[k]| <= MaxCellLength)
      && (forall k :: k in col && |col[k]| <= MaxCellLength ==> r[k] == col[k])
      && (forall k :: k in col && |col[k]| > MaxCellLength ==> r[k] == TooManyVariants)
      && CapColumn(r) == r
  {
    var r := CapColumn(col);
    forall k | k in r ensures Capped(r[k]) == r[k] {
      CappedIdempotent(col[k]);
    }
  }
}
