# Overview-table variant aggregation, modelled in Dafny

This project models the variant section of `generate-overview-table.py`, the
script that builds the per-sample overview table of the workflow. For every
sample, the script:

1. reads the `ANN` entries of each variant record and splits each entry at `|`;
2. takes the HGVS protein notation (field 11) and the feature (field 3), and
   skips an entry whose notation is empty;
3. cuts the notation once at the first `:` and then once at the first `.`;
4. rewrites the 20 three-letter amino-acid codes of the alteration into
   one-letter codes, one `str.replace` per code, in the order of the dictionary;
5. puts the call `feature:alteration` into one of three tier dictionaries:
   FLiRT, then mutations of interest, then other;
6. keeps, within a tier, the highest VAF seen for each label (`insert_entry`);
7. renders each tier as its sorted `label:vaf` items joined by spaces
   (`fmt_variants`).

After the sample loop, the script replaces any "Other Mutations" cell longer
than 32767 characters with `Too many variants to display`. The model also
covers three cell mappings from the same script:

- the "Best Quality" label derived from the assembly-used codes;
- the "Pango Lineage" cell;
- the "WHO Label" cell.

Modules, one per file:

- `Wrappers`: `Option` and `Result`.
- `Strings`: Python's `str.split`, `str.split(sep, 1)`, `" ".join`,
  `str.replace` and `sorted` on strings. Each comes with the laws the rest of
  the model uses: the split/join round trips, replace on a text without the
  pattern, and uniqueness of the sorted permutation.
- `AminoAcids`: `AA_ALPHABET_TRANSLATION` and the translation loop. The loop
  is a method, proved equal to the chain of 20 replacements.
- `VariantDicts`: `insert_entry` and `fmt_variants`.
  - A dict is its key order plus its mapping, because `items()` walks keys in
    insertion order.
  - `VariantTable` is the dictionary updated in place.
- `Annotations`: one `ANN` entry (split, skip, parse, translate, classify),
  the folds over the records of a sample, and the per-sample tier dictionaries.
  - The loops are methods that update three `VariantTable` objects.
  - Each loop is proved to leave exactly the tables that the pure folds
    (`TierTable`, `SampleRow`) describe.
- `Overview`: the length cap, the assembly-used, lineage and scorpio cell
  rules, and `OverviewTable`. `OverviewTable` holds the table's columns as
  maps from sample to cell, which its methods update in place.

Points where the code's behaviour is easy to misread:

- **Classification uses the translated alteration.** Lines 227-228 rewrite
  `alteration` before the membership tests at lines 232-234. A reference
  written `Gly12Ala` therefore never matches the annotation `p.Gly12Ala`;
  its one-letter form `G12A` does (`Annotations.ClassifiedOnTranslation`).
- **Sorting is on the rendered strings `label:vaf`, not on the labels**
  (line 213). `S:A1` sorts before `S:A10`, yet `S:A10:0.100` is printed
  before `S:A1:0.200` (`VariantDicts.FmtSortsRenderedItems`).
- **The replacement chain is not token by token.** One replacement can
  leave an occurrence of the very code it replaced, made of the characters
  around it (`AminoAcids.ReplaceLeavesOccurrence`). A later entry can also
  create a code whose own entry has already run. The eleventh entry, `Pro`,
  turns `Prohe` into `Phe` after the fifth, `Phe`, has had its turn, so the
  output still holds a code (`AminoAcids.TranslatedProhe`).
- **The split at `.` does not check for a `p` prefix.** The notation is cut
  at the first `.` after the first `:`, whatever precedes it (lines 225-226).
- **Labels are not one per pair when a feature holds a `:`.** Two different
  (feature, alteration) pairs can then give the same label and land in
  different tiers (`Annotations.LabelCollision`). Tier disjointness is
  proved for features without `:` (`Annotations.TiersDisjoint`).

A malformed entry makes Python raise, which ends the script:

- fewer than 12 fields: `IndexError`;
- a notation without `:`, or without `.` after it: `ValueError`;
- an `assembly_used` element that does not split into exactly two parts at
  `,`: `ValueError`.

The model returns the first such error as a `Result` or `Option` value
instead.

The workflow's inputs are passed in as values:

- the VAF of a record, a `real`;
- the `ANN` entries of a record, as strings;
- the `flirt` and `mth` reference maps, as `map<string, set<string>>`;
- the `.3f` rendering of a VAF, as a function parameter `fmt`;
- the pangolin lineage and scorpio call, as the text their f-strings give.

## Model

| member | source | states |
|---|---|---|
| Strings.SplitOnce | workflow/scripts/generate-overview-table.py:225-226 | `s.split(sep, 1)` as a definition: the text before the first `sep` and the text after it, or nothing when `sep` is absent. Its contract says only that the tail is shorter than `s`; its meaning is stated by `SplitOnceParts` and `SplitOnceGlued`. |
| Strings.SplitOnceParts | workflow/scripts/generate-overview-table.py:225-226 | `split(sep, 1)` fails exactly when `sep` is absent. Otherwise the head holds no `sep` and head + sep + tail is the input. |
| Strings.SplitOnceGlued | workflow/scripts/generate-overview-table.py:225-226 | Splitting `a + sep + b` at the first `sep`, with `sep` not in `a`, gives back `(a, b)`. |
| Strings.SplitAll | workflow/scripts/generate-overview-table.py:219 | `str.split(sep)` always returns at least one piece. |
| Strings.SplitAllPieces | workflow/scripts/generate-overview-table.py:219 | No piece of `s.split(sep)` holds `sep`, and joining the pieces with `sep` gives back `s`. |
| Strings.SplitAllJoin | workflow/scripts/generate-overview-table.py:219 | Splitting a join of `sep`-free pieces gives back the pieces. |
| Strings.Join | workflow/scripts/generate-overview-table.py:213 | `sep.join(parts)` as a definition, without a contract. Its link to `split` is stated by `SplitAllPieces` and `SplitAllJoin`. |
| Strings.JoinNonEmpty | workflow/scripts/generate-overview-table.py:213 | A join whose first item is non-empty is non-empty. |
| Strings.ReplaceAll | workflow/scripts/generate-overview-table.py:228 | `s.replace(pat, rep)` as a definition, without a contract: non-overlapping occurrences, scanning from the left. Its properties are in the `ReplaceAll*` lemmas. |
| Strings.MissingCharNotContained | workflow/scripts/generate-overview-table.py:228 | A pattern holding a character the text lacks does not occur in the text. |
| Strings.ReplaceAllAbsent | workflow/scripts/generate-overview-table.py:228 | `s.replace(pat, rep)` leaves a text that does not contain `pat` unchanged. |
| Strings.ReplaceAllShrinks | workflow/scripts/generate-overview-table.py:228 | A replacement no longer than its pattern never lengthens the text. |
| Strings.ReplaceAllAround | workflow/scripts/generate-overview-table.py:228 | Replacing across a run of characters outside `pat` replaces on each side and keeps the run. |
| Strings.StrLe | workflow/scripts/generate-overview-table.py:213 | Python's `<=` on `str` as a definition, without a contract: code point by code point, with a proper prefix first. The order laws are in the `StrLe*` lemmas. |
| Strings.StrLeAntisymmetric | workflow/scripts/generate-overview-table.py:213 | Python's string order is antisymmetric. |
| Strings.StrLeTransitive | workflow/scripts/generate-overview-table.py:213 | Python's string order is transitive. |
| Strings.StrLeTotal | workflow/scripts/generate-overview-table.py:213 | Python's string order is total. |
| Strings.StrLeCommonPrefix | workflow/scripts/generate-overview-table.py:213 | A common prefix does not change how two strings compare. |
| Strings.InsertSorted | workflow/scripts/generate-overview-table.py:213 | Inserting into a sorted list keeps it sorted, and its multiset gains exactly the new item. |
| Strings.SortStrings | workflow/scripts/generate-overview-table.py:213 | `sorted(...)` is ascending and a permutation of its input. |
| Strings.SortedUnique | workflow/scripts/generate-overview-table.py:213 | Two sorted permutations of the same multiset are equal, so `sorted` is determined by its input's elements. |
| AminoAcids.CodesShape | workflow/scripts/generate-overview-table.py:172-193 | The table has 20 entries, each a three-letter code and a one-letter code, with no code listed twice. |
| AminoAcids.TranslatedBy | workflow/scripts/generate-overview-table.py:227-228 | The alteration after the first `n` replacements of the loop, as a definition without a contract. It is the loop invariant of `TranslateAlteration`. |
| AminoAcids.Translated | workflow/scripts/generate-overview-table.py:227-228 | The alteration after all 20 replacements, as a definition without a contract. Its properties are in the `Translated*` lemmas. |
| AminoAcids.TranslateAlteration | workflow/scripts/generate-overview-table.py:227-228 | The loop over the table returns the alteration after all 20 replacements, in dictionary order. |
| AminoAcids.TranslatedShrinks | workflow/scripts/generate-overview-table.py:227-228 | Translation never lengthens an alteration. |
| AminoAcids.TranslatedByAbsent | workflow/scripts/generate-overview-table.py:227-228 | Any prefix of the replacement chain leaves a text with no code in it unchanged. |
| AminoAcids.TranslatedAbsent | workflow/scripts/generate-overview-table.py:227-228 | An alteration containing none of the 20 codes is returned unchanged. |
| AminoAcids.NonLettersOutsideCodes | workflow/scripts/generate-overview-table.py:172-193 | No code holds a character that is not a letter. |
| AminoAcids.TranslatedByAround | workflow/scripts/generate-overview-table.py:227-228 | A run of characters outside every code separates the translation: each side is translated and the run is kept. |
| AminoAcids.TranslatedByCode | workflow/scripts/generate-overview-table.py:172-193 | A code is left alone until its own entry in the chain, then becomes its letter, which later entries keep. |
| AminoAcids.TranslatedCode | workflow/scripts/generate-overview-table.py:172-193 | The translation of each three-letter code is its one-letter code. |
| AminoAcids.TranslatedSubstitution | workflow/scripts/generate-overview-table.py:227-228 | `<Code><digits><Code>` translates to `<letter><digits><letter>`, for every pair of codes and every non-empty run of digits. |
| AminoAcids.TranslatedGly12Ala | workflow/scripts/generate-overview-table.py:227-228 | `Gly12Ala` translates to `G12A`. |
| AminoAcids.TranslatedMet1Leu | workflow/scripts/generate-overview-table.py:227-228 | `Met1Leu` translates to `M1L`. |
| AminoAcids.ReplaceLeavesOccurrence | workflow/scripts/generate-overview-table.py:228 | One `replace("Gly", "G")` pass turns `GGlyly` into `GGly`, which still contains `Gly`. |
| AminoAcids.TranslatedByStable | workflow/scripts/generate-overview-table.py:227-228 | Later entries of the chain change nothing when none of their codes occurs in the text so far. |
| AminoAcids.ProEntry | workflow/scripts/generate-overview-table.py:183 | The eleventh entry of the table maps `Pro` to `P`. |
| AminoAcids.ProheMissesFirstTen | workflow/scripts/generate-overview-table.py:173-182 | None of the first ten codes occurs in `Prohe`. |
| AminoAcids.PheMissesLastNine | workflow/scripts/generate-overview-table.py:184-192 | None of the last nine codes occurs in `Phe`. |
| AminoAcids.ProheBeforePro | workflow/scripts/generate-overview-table.py:227-228 | The first ten replacements leave `Prohe` unchanged. |
| AminoAcids.ReplacePro | workflow/scripts/generate-overview-table.py:228 | `"Prohe".replace("Pro", "P")` is `Phe`. |
| AminoAcids.ProheAfterPro | workflow/scripts/generate-overview-table.py:227-228 | After eleven replacements, `Prohe` has become `Phe`. |
| AminoAcids.TranslatedProhe | workflow/scripts/generate-overview-table.py:227-228 | `Prohe` translates to `Phe`, which still holds the code of the fifth entry: the chain is order-dependent. |
| VariantDicts.InsertEntry | workflow/scripts/generate-overview-table.py:200-210 | `insert_entry` as a definition, without a contract: a new key is appended, and a present key is overwritten only on a strictly larger VAF. Its meaning is stated by `InsertEntryKeepsMax`. |
| VariantDicts.InsertEntryKeepsMax | workflow/scripts/generate-overview-table.py:200-210 | After `insert_entry`, the key holds `vaf` if it was absent and the maximum of old and new otherwise. No other key or value changes, a new key is appended to the key order, and on a tie or a smaller VAF the dict is unchanged. |
| VariantDicts.InsertEntryValid | workflow/scripts/generate-overview-table.py:200-210 | `insert_entry` keeps each key listed once, and listed exactly when it is mapped. |
| VariantDicts.InsertNeverDecreases | workflow/scripts/generate-overview-table.py:202-210 | No stored VAF goes down and no key disappears. |
| VariantDicts.InsertAll | workflow/scripts/generate-overview-table.py:200-210 | A sequence of `insert_entry` calls as a definition, without a contract. Its properties are in `InsertAllValid`, `InsertAllKeys` and `InsertAllKeepsMax`. |
| VariantDicts.InsertAllValid | workflow/scripts/generate-overview-table.py:200-210 | A sequence of inserts keeps the dict valid. |
| VariantDicts.InsertAllKeys | workflow/scripts/generate-overview-table.py:200-210 | After a sequence of inserts, a label is present exactly when it was present before or some insert named it. |
| VariantDicts.InsertAllKeepsMax | workflow/scripts/generate-overview-table.py:202-210 | After a sequence of inserts, a label's VAF is at least every VAF inserted for it and at least its starting value, and it equals one of them. |
| VariantDicts.VariantTable.constructor | workflow/scripts/generate-overview-table.py:196-198 | A new dict is `{}`. |
| VariantDicts.VariantTable.Insert | workflow/scripts/generate-overview-table.py:200-210 | The in-place `insert_entry`: the new contents are `InsertEntry` of the old ones. |
| VariantDicts.Render | workflow/scripts/generate-overview-table.py:213 | `f"{hgvsp}:{vaf:.3f}"` as a definition, with the number formatting as the parameter `fmt`. It has no contract. |
| VariantDicts.RenderAll | workflow/scripts/generate-overview-table.py:213 | The comprehension yields one item per key. |
| VariantDicts.RenderAllAt | workflow/scripts/generate-overview-table.py:213 | The `i`-th item is `key:fmt(vaf)` of the `i`-th key. |
| VariantDicts.FmtVariants | workflow/scripts/generate-overview-table.py:212-213 | The output is empty exactly when the dict is. |
| VariantDicts.KeyCount | workflow/scripts/generate-overview-table.py:212-213 | A dict has as many keys as items to render. |
| VariantDicts.RenderAllPermutes | workflow/scripts/generate-overview-table.py:213 | Rendering two orders of the same keys gives the same multiset of items. |
| VariantDicts.FmtIgnoresInsertionOrder | workflow/scripts/generate-overview-table.py:212-213 | The output depends only on the mapping, not on the insertion order. |
| VariantDicts.SortedItems | workflow/scripts/generate-overview-table.py:213 | The sorted items are one per key, include each key's item, and are each some key's item. |
| VariantDicts.FmtVariantsEntries | workflow/scripts/generate-overview-table.py:212-213 | When neither labels nor formatted VAFs contain a space, splitting a non-empty output at spaces gives an ascending list: one item per key, every key's `label:vaf` among them, and nothing else. |
| VariantDicts.FmtOfTwo | workflow/scripts/generate-overview-table.py:212-213 | A two-key dict renders as its two items, the lesser first. |
| VariantDicts.TwoKeysValid | workflow/scripts/generate-overview-table.py:200-210 | Two different keys make a valid dict. |
| VariantDicts.FmtOfTwoKeys | workflow/scripts/generate-overview-table.py:212-213 | A dict of two different keys renders as its two items, in string order. |
| VariantDicts.FmtExample | workflow/scripts/generate-overview-table.py:200-213 | Inserting `ORF1a:G12A` (0.5), then `ORF1a:M1L` (0.25), renders as `ORF1a:G12A:0.500 ORF1a:M1L:0.250`. |
| VariantDicts.FmtSortsRenderedItems | workflow/scripts/generate-overview-table.py:213 | `S:A1` sorts before `S:A10`, yet inserting them with 0.2 and 0.1 renders as `S:A10:0.100 S:A1:0.200`. |
| Annotations.Lookup | workflow/scripts/generate-overview-table.py:232-234 | `refs.get(feature, {})` as a definition, without a contract. |
| Annotations.Classify | workflow/scripts/generate-overview-table.py:232-237 | The `if`/`elif`/`else` tier tests as a definition, without a contract. Its meaning is stated by `ClassifyTiers`. |
| Annotations.ClassifyTiers | workflow/scripts/generate-overview-table.py:232-237 | Each alteration gets exactly one tier. FLiRT when the feature's FLiRT set holds it. Of-interest when the FLiRT set does not but the feature's mutations-of-interest set does. Other otherwise. Each case is an iff. |
| Annotations.UnknownFeatureIsOther | workflow/scripts/generate-overview-table.py:232-237 | A feature missing from both maps behaves as empty sets, so the call goes to other. |
| Annotations.ClassifiedOnTranslation | workflow/scripts/generate-overview-table.py:227-234 | Membership is checked on the translated alteration. A reference set `{"Gly12Ala"}` misses the alteration `Gly12Ala`, and `{"G12A"}` hits it. |
| Annotations.ParseHgvsp | workflow/scripts/generate-overview-table.py:225-226 | The two unpacking splits as a definition, without a contract. Its meaning is stated by `ParseHgvspParts` and `ParseHgvspRoundTrip`. |
| Annotations.ParseHgvspParts | workflow/scripts/generate-overview-table.py:225-226 | A parse succeeds only with a `:`-free id and a `.`-free prefix that glue back into the input as `id:prefix.alteration`. A failure is a `ValueError` on the input, and a notation without `:` always fails. |
| Annotations.ParseHgvspRoundTrip | workflow/scripts/generate-overview-table.py:225-226 | Parsing `id:prefix.alteration`, with no `:` in the id and no `.` in the prefix, recovers the three parts. |
| Annotations.ParseHgvspNoDot | workflow/scripts/generate-overview-table.py:226 | A notation with no `.` after its first `:` is an error, not a skip. |
| Annotations.Label | workflow/scripts/generate-overview-table.py:230 | `f"{feature}:{alteration}"` as a definition, without a contract. `LabelSplits` and `LabelCollision` say when it can be read back. |
| Annotations.LabelSplits | workflow/scripts/generate-overview-table.py:230 | The label `feature:alteration` of a `:`-free feature splits back into feature and alteration. |
| Annotations.LabelCollision | workflow/scripts/generate-overview-table.py:230-237 | `a:b` + `c` and `a` + `b:c` share a label yet land in different tiers. |
| Annotations.ProcessAnnotation | workflow/scripts/generate-overview-table.py:218-237 | A call from one entry is classified on its own feature and alteration and carries the record's VAF. |
| Annotations.AnnotationTooShort | workflow/scripts/generate-overview-table.py:219-220 | An entry with 1 to 11 fields is an `IndexError` that stops the sample. |
| Annotations.AnnotationSkipped | workflow/scripts/generate-overview-table.py:223 | An empty HGVS protein field yields no call. |
| Annotations.AnnotationMalformed | workflow/scripts/generate-overview-table.py:225 | A non-empty HGVS field without `:` is a `ValueError` that stops the sample. |
| Annotations.AnnotationParsed | workflow/scripts/generate-overview-table.py:219-237 | A well-formed entry yields the call for field 3 and the translated alteration of field 11, classified, with the record's VAF. |
| Annotations.RecordCalls | workflow/scripts/generate-overview-table.py:218-237 | Every call of a record is well formed and carries the record's VAF. |
| Annotations.SampleCalls | workflow/scripts/generate-overview-table.py:215-237 | Every call of a sample is well formed. |
| Annotations.RecordCallsKeepsError | workflow/scripts/generate-overview-table.py:218-226 | Once an entry of a record fails, the record's result is that error, whatever follows it. |
| Annotations.SampleCallsKeepsError | workflow/scripts/generate-overview-table.py:216-226 | Once a record fails, the sample's result is that error, whatever follows it. |
| Annotations.SkippedAnnotationAddsNothing | workflow/scripts/generate-overview-table.py:223 | A skipped entry leaves the record's calls unchanged. |
| Annotations.EntriesOfCalls | workflow/scripts/generate-overview-table.py:230-237 | A tier is handed exactly the `(label, vaf)` pairs of the calls classified into it. |
| Annotations.TierTable | workflow/scripts/generate-overview-table.py:196-237 | A tier's dict after all of a sample's calls, as a definition without a contract. Its properties are in the `TierTable*` lemmas. |
| Annotations.TierTableValid | workflow/scripts/generate-overview-table.py:196-237 | Each tier dict is valid. |
| Annotations.TierTableSnoc | workflow/scripts/generate-overview-table.py:232-237 | One more call inserts into its own tier's dict and leaves the other two unchanged. |
| Annotations.TierTableKeys | workflow/scripts/generate-overview-table.py:230-237 | A label is in a tier's dict exactly when some call of that tier has it. |
| Annotations.TierTableKeepsMax | workflow/scripts/generate-overview-table.py:202-210 | A tier's VAF for a label is at least the VAF of every call with that label in that tier, and equals one of them. |
| Annotations.TiersDisjoint | workflow/scripts/generate-overview-table.py:230-237 | With `:`-free features, no label is in two tiers. |
| Annotations.SampleRow | workflow/scripts/generate-overview-table.py:195-241 | The three mutation cells of one sample, or its first error, as a definition without a contract. `AggregateSample` is proved to compute it. |
| Annotations.EmptySample | workflow/scripts/generate-overview-table.py:195-241 | A sample without records has three empty mutation cells. |
| Annotations.TierTablesStep | workflow/scripts/generate-overview-table.py:232-237 | A call added after any earlier ones updates only its own tier's dict. |
| Annotations.AnnotationFailureEndsRecord | workflow/scripts/generate-overview-table.py:218-226 | An entry that fails after earlier ones succeeded fails the whole record with its error. |
| Annotations.RecordFailureEndsSample | workflow/scripts/generate-overview-table.py:215-226 | A record that fails after earlier ones succeeded fails the whole sample with its error. |
| Annotations.RecordCallsStep | workflow/scripts/generate-overview-table.py:218-237 | An entry that does not fail appends its call, if any, to the record's calls so far. |
| Annotations.SampleCallsStep | workflow/scripts/generate-overview-table.py:216-237 | A record that does not fail appends its calls to the sample's calls so far. |
| Annotations.AddAnnotation | workflow/scripts/generate-overview-table.py:218-237 | The loop body returns the entry's outcome. When that is not an error, the three dicts hold the calls so far followed by this one. |
| Annotations.AddNext | workflow/scripts/generate-overview-table.py:218-237 | One turn of the entry loop either fails the record with the entry's error, or extends the record's calls and the dicts by the entry's call. |
| Annotations.AddRecord | workflow/scripts/generate-overview-table.py:218-237 | The entry loop fails exactly when the record does, with its error. Otherwise the dicts hold the earlier calls followed by the record's. |
| Annotations.AddNextRecord | workflow/scripts/generate-overview-table.py:216-237 | One turn of the record loop either fails the sample with the record's error, or extends the sample's calls and the dicts by the record's calls. |
| Annotations.AddRecords | workflow/scripts/generate-overview-table.py:215-237 | The record loop leaves the dicts holding all of the sample's calls, or reports its first error. |
| Annotations.AggregateSample | workflow/scripts/generate-overview-table.py:195-241 | For one sample, the three new dicts, the nested loops and the three `fmt_variants` produce exactly `SampleRow`, or its error. |
| Overview.Capped | workflow/scripts/generate-overview-table.py:244-246 | A capped cell has at most 32767 characters, and equals the original exactly when that is at most 32767 long. |
| Overview.CappedIdempotent | workflow/scripts/generate-overview-table.py:244-246 | Capping twice is capping once. |
| Overview.CappedBoundary | workflow/scripts/generate-overview-table.py:244-246 | A cell of exactly 32767 characters stays; one of 32768 becomes `Too many variants to display`. |
| Overview.CapColumn | workflow/scripts/generate-overview-table.py:244-246 | The cap keeps the column's samples. |
| Overview.CapColumnFacts | workflow/scripts/generate-overview-table.py:244-246 | After the cap no cell exceeds the limit. A cell within the limit is kept and a longer one reads the message. Capping again changes nothing. |
| Overview.SplitAssemblyUsed | workflow/scripts/generate-overview-table.py:127 | `sample, used = ele.split(",")` as a definition, without a contract. Its meaning is stated by `SplitAssemblyUsedParts` and `SplitAssemblyUsedRoundTrip`. |
| Overview.SplitAssemblyUsedParts | workflow/scripts/generate-overview-table.py:127 | `sample, used = ele.split(",")` succeeds only with comma-free parts glued by one comma. Otherwise it reports a part count other than two. |
| Overview.SplitAssemblyUsedRoundTrip | workflow/scripts/generate-overview-table.py:127 | Comma-free `sample,used` unpacks into its two parts. |
| Overview.QualityLabel | workflow/scripts/generate-overview-table.py:128-135 | A label is assigned exactly for `pseudo`, `normal`, `consensus` and `not-accepted`. |
| Overview.QualityColumn | workflow/scripts/generate-overview-table.py:126-135 | The "Best Quality" column after the loop, as a definition without a contract. Its meaning is stated by `QualityColumnPerSample` and `QualityColumnKeepsError`. |
| Overview.WithRow | workflow/scripts/generate-overview-table.py:129-135 | The index after a `.loc` write to a sample, as a definition without a contract. Its meaning is stated by `WithRowFacts`. |
| Overview.IndexAfter | workflow/scripts/generate-overview-table.py:126-135 | The index after the assembly loop, as a definition without a contract. Its meaning is stated by `IndexAfterGrows`. |
| Overview.WithRowFacts | workflow/scripts/generate-overview-table.py:129-135 | A `data.loc[sample, ...]` write keeps the index in order, adds the sample if it is missing, and adds nothing else. |
| Overview.IndexAfterGrows | workflow/scripts/generate-overview-table.py:126-135 | The loop only appends to the index, and every sample it gives a "Best Quality" cell ends up in the index. |
| Overview.AssemblyUsedStep | workflow/scripts/generate-overview-table.py:126-135 | One more well-formed element: a known code sets its sample's cell and adds the sample to the index. An unknown code changes neither. |
| Overview.QualityColumnPerSample | workflow/scripts/generate-overview-table.py:126-135 | After the loop, a sample's cell is the label of the last element naming it with a known code. A sample without such an element keeps its old cell, or stays without one. |
| Overview.QualityColumnKeepsError | workflow/scripts/generate-overview-table.py:126-127 | A malformed element stops the loop with its error, whatever follows it. |
| Overview.LineageLabel | workflow/scripts/generate-overview-table.py:145-161 | The lineage is shown as is exactly when it is not `None`. |
| Overview.ScorpioCall | workflow/scripts/generate-overview-table.py:162-166 | The scorpio call is shown as is exactly when it is not `None`. |
| Overview.CleanWhoColumn | workflow/scripts/generate-overview-table.py:167-168 | The cleaned WHO column covers every sample and every cell it had. |
| Overview.CleanWhoColumnIndexed | workflow/scripts/generate-overview-table.py:167 | `fillna` adds cells only for rows of the index. |
| Overview.CleanWhoColumnFacts | workflow/scripts/generate-overview-table.py:167-168 | After `fillna("-")` and `replace({"nan": "-"})`, every sample has a WHO cell and none reads `nan`. Other cells are kept, and cleaning again changes nothing. |
| Overview.OverviewTable.constructor | workflow/scripts/generate-overview-table.py:26 | The table starts with its sample index and no cells, so every cell is in a row of the index. |
| Overview.OverviewTable.AddRow | workflow/scripts/generate-overview-table.py:129-135 | The row enlargement of a `.loc` write: a missing sample joins the index and no cell changes. |
| Overview.OverviewTable.SetBestQuality | workflow/scripts/generate-overview-table.py:129-135 | `data.loc[sample, "Best Quality"] = quality`: the sample's cell is set and the sample is in the index. Nothing else changes. |
| Overview.OverviewTable.AddAssemblyUsed | workflow/scripts/generate-overview-table.py:126-135 | The loop over `assembly_used` leaves the "Best Quality" column as `QualityColumn` of the old one, or reports the first malformed element. The index grows as `IndexAfter` says: a sample that is not in the index gets a new row when its code is known. No other column changes, and every cell stays in a row of the index. |
| Overview.OverviewTable.AddPangolin | workflow/scripts/generate-overview-table.py:145-168 | The sample's lineage cell takes the lineage rule. Its WHO cell takes the scorpio rule, and then the whole WHO column is cleaned over the index, which has gained the sample if it lacked it. Nothing else changes. |
| Overview.OverviewTable.SetMutations | workflow/scripts/generate-overview-table.py:239-241 | The sample's three mutation cells take the rendered tiers, and the sample joins the index if it is missing. Nothing else changes. |
| Overview.OverviewTable.CapOtherMutations | workflow/scripts/generate-overview-table.py:244-246 | "Other Mutations" becomes its capped column. FLiRT, VOC and every other column are untouched. |

## Left out

- Reading BCF records and their `ANN` field with `pysam` (lines 215-218) is not modelled. A record is given as its VAF and its list of entries.
- Extracting the VAF from `record.samples[0]["AF"][0]` (line 217) is not modelled. The VAF is an abstract `real`.
- Floating-point semantics and the `.3f` rounding are not modelled. Formatting is the parameter `fmt`.
- The Kraken table, read counts and FASTA contig lengths (lines 29-123) are not modelled. They are file I/O and dataframe plumbing.
- Reading the pangolin CSV and its row-count assertion (lines 138-144) are not modelled. The lineage and scorpio call are given as text.
- Final post-processing (lines 248-267) is not modelled: integer formatting, column dropping, sorting and `to_csv` are pandas and CSV output.
- The `snakemake` globals (samples, reference sets, mode) are not modelled. They are parameters of the model.
  - The patient-report condition that guards the assembly and pangolin cells (line 110) is the caller's choice.
- The unused `entry` tuple (line 231) and the unused `enssast_id` reads (lines 221, 225) are not modelled. Nothing depends on them.
- The outer loop over samples (line 195) is not one method. Each of its steps is modelled (`AggregateSample`, then `OverviewTable.SetMutations`) and composing them is left to the caller.
  - A method whose contract spans all samples would have to restate `SampleRow` for each of them.
- Overview.CleanWhoColumn: assumes that `fillna` and `replace` on `data["WHO Label"]` (lines 167-168) change the table in place, which is what pandas did without copy-on-write.
- Overview.OverviewTable.CapOtherMutations: assumes the chained writes `data["Other Mutations"][...] = ...` (lines 244-246) reach the table, which is what pandas did without copy-on-write. Under copy-on-write they would change only a copy.
- Overview.OverviewTable.AddAssemblyUsed: on a malformed element it does not state the index or the column reached, because Python ends the script there.
- `AddAnnotation`, `AddNext` and `AddRecord`: when they stop on an error they do not state the dicts' contents, because Python ends the script there.
- Python's exceptions are not modelled as exceptions. The first error is returned as a value and the remaining input is not processed.
