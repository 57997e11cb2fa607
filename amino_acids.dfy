/** The rewriting of three-letter amino-acid codes to one-letter codes in an
    alteration: `AA_ALPHABET_TRANSLATION` and the loop of `str.replace` calls
    over it, in the dictionary's order. */
module AminoAcids {
  import opened Strings

  /** A three-letter amino-acid code. */
  type Triplet = s: string | |s| == 3 witness "Gly"

  /** The translation table, in the order the dictionary lists it. */
  const Codes: seq<(Triplet, string)> := [
    ("Gly", "G"), ("Ala", "A"), ("Leu", "L"), ("Met", "M"), ("Phe", "F"),
    ("Trp", "W"), ("Lys", "K"), ("Gln", "Q"), ("Glu", "E"), ("Ser", "S"),
    ("Pro", "P"), ("Val", "V"), ("Ile", "I"), ("Cys", "C"), ("Tyr", "Y"),
    ("His", "H"), ("Arg", "R"), ("Asn", "N"), ("Asp", "D"), ("Thr", "T")
  ]

  /** Every entry maps a three-letter code to a one-letter code, and the
      three-letter codes are pairwise different. */
  lemma CodesShape()
    ensures |Codes| == 20
    ensures forall i :: 0 <= i < |Codes| ==> |Codes[i].0| == 3 && |Codes[i].1| == 1
    ensures forall i, j :: 0 <= i < j < |Codes| ==> Codes[i].0 != Codes[j].0
  {
  }

  /** The alteration after the first `n` replacements of the loop. */
  function TranslatedBy(s: string, n: nat): string
    requires n <= |Codes|
  {
    if n == 0 then s
    else
      ReplaceAll(TranslatedBy(s, n - 1), Codes[n - 1].0, Codes[n - 1].1)
  }

  /** The alteration once the loop has gone through the whole table. */
  function Translated(s: string): string
  {
    TranslatedBy(s, 20)
  }

  /** The loop of lines 227-228: `alteration` is reassigned once per table entry. */
  method TranslateAlteration(alteration: string) returns (r: string)
    ensures r == Translated(alteration)
  {
    r := alteration;
    for i := 0 to |Codes|
      invariant r == TranslatedBy(alteration, i)
    {
      CodesShape();
      var triplet, amino := Codes[i].0, Codes[i].1;
      r := ReplaceAll(r, triplet, amino);
    }
  }

  /** Translation never lengthens the alteration: each three-letter code becomes one letter. */
  lemma {:induction false} TranslatedByShrinks(s: string, n: nat)
    requires n <= |Codes|
    ensures |TranslatedBy(s, n)| <= |s|
  {
    if n > 0 {
      CodesShape();
      TranslatedByShrinks(s, n - 1);
      ReplaceAllShrinks(TranslatedBy(s, n - 1), Codes[n - 1].0, Codes[n - 1].1);
    }
  }

  lemma TranslatedShrinks(s: string)
    ensures |Translated(s)| <= |s|
  {
    TranslatedByShrinks(s, |Codes|);
  }

  /** No three-letter code occurs in `s`. */
  predicate NoCodeIn(s: string)
  {
    forall i :: 0 <= i < |Codes| ==> !Contains(s, Codes[i].0)
  }

  /** An alteration holding none of the codes (four-letter, lower-case or
      unlisted codes, digits, punctuation) is returned unchanged. */
  lemma {:induction false} TranslatedByAbsent(s: string, n: nat)
    requires n <= |Codes| && NoCodeIn(s)
    ensures TranslatedBy(s, n) == s
  {
    if n > 0 {
      CodesShape();
      TranslatedByAbsent(s, n - 1);
      ReplaceAllAbsent(s, Codes[n - 1].0, Codes[n - 1].1);
    }
  }

  lemma TranslatedAbsent(s: string)
    requires NoCodeIn(s)
    ensures Translated(s) == s
  {
    TranslatedByAbsent(s, |Codes|);
  }

  /** `c` belongs to none of the three-letter codes. */
  predicate OutsideCodes(c: char)
  {
    forall i :: 0 <= i < |Codes| ==> c !in Codes[i].0
  }

  /** The codes are made of letters only, so digits and punctuation are outside them. */
  lemma NonLettersOutsideCodes(c: char)
    requires !('A' <= c <= 'Z') && !('a' <= c <= 'z')
    ensures OutsideCodes(c)
  {
  }

  /** A run of characters outside the codes (a position, say) splits the
      translation into the translations of its two sides. */
  lemma {:induction false} TranslatedByAround(a: string, m: string, b: string, n: nat)
    requires n <= |Codes| && |m| > 0
    requires forall k :: 0 <= k < |m| ==> OutsideCodes(m[k])
    ensures TranslatedBy(a + m + b, n) == TranslatedBy(a, n) + m + TranslatedBy(b, n)
  {
    if n > 0 {
      CodesShape();
      TranslatedByAround(a, m, b, n - 1);
      assert forall k :: 0 <= k < |m| ==> m[k] !in Codes[n - 1].0 by {
        forall k | 0 <= k < |m| ensures m[k] !in Codes[n - 1].0 {
          assert OutsideCodes(m[k]);
        }
      }
      ReplaceAllAround(TranslatedBy(a, n - 1), m, TranslatedBy(b, n - 1), Codes[n - 1].0, Codes[n - 1].1);
    }
  }

  /** Replacing `pat` in a text no longer than `pat` changes it only if it is `pat`. */
  lemma ReplaceAllShort(s: string, pat: string, rep: string)
    requires 0 < |s| <= |pat|
    ensures ReplaceAll(s, pat, rep) == if s == pat then rep else s
  {
    if |s| == |pat| {
      assert s[..|pat|] == s;
      if s != pat {
        assert [s[0]] + s[1..] == s;
      } else {
        assert s[|pat|..] == [];
      }
    }
  }

  /** Each three-letter code on its own is rewritten to its one letter, and
      to nothing else: before its own entry no other code matches it, after
      it the single letter is too short to match. */
  lemma {:induction false} TranslatedByCode(i: nat, n: nat)
    requires i < |Codes| && n <= |Codes|
    ensures TranslatedBy(Codes[i].0, n) == if n <= i then Codes[i].0 else Codes[i].1
  {
    if n > 0 {
      CodesShape();
      TranslatedByCode(i, n - 1);
      var prev := TranslatedBy(Codes[i].0, n - 1);
      ReplaceAllShort(prev, Codes[n - 1].0, Codes[n - 1].1);
    }
  }

  lemma TranslatedCode(i: nat)
    requires i < |Codes|
    ensures Translated(Codes[i].0) == Codes[i].1
  {
    TranslatedByCode(i, |Codes|);
  }

  /** A substitution `<Code><position><Code>` becomes `<letter><position><letter>`:
      the shape `"Gly12Ala"` to `"G12A"`, for every pair of codes and every
      position made of characters outside the codes. */
  lemma TranslatedSubstitution(i: nat, pos: string, j: nat)
    requires i < |Codes| && j < |Codes| && |pos| > 0
    requires forall k :: 0 <= k < |pos| ==> '0' <= pos[k] <= '9'
    ensures Translated(Codes[i].0 + pos + Codes[j].0) == Codes[i].1 + pos + Codes[j].1
  {
    forall k | 0 <= k < |pos| ensures OutsideCodes(pos[k]) {
      NonLettersOutsideCodes(pos[k]);
    }
    TranslatedByAround(Codes[i].0, pos, Codes[j].0, |Codes|);
    TranslatedCode(i);
    TranslatedCode(j);
  }

  /** The case given for the alteration part of `p.Gly12Ala`. */
  lemma TranslatedGly12Ala()
    ensures Translated("Gly12Ala") == "G12A"
  {
    TranslatedSubstitution(0, "12", 1);
    assert Codes[0].0 + "12" + Codes[1].0 == "Gly12Ala";
    assert Codes[0].1 + "12" + Codes[1].1 == "G12A";
  }

  /** The case given for the alteration part of `p.Met1Leu`. */
  lemma TranslatedMet1Leu()
    ensures Translated("Met1Leu") == "M1L"
  {
    TranslatedSubstitution(3, "1", 2);
    assert Codes[3].0 + "1" + Codes[2].0 == "Met1Leu";
    assert Codes[3].1 + "1" + Codes[2].1 == "M1L";
  }

  /** Entries `m` to `n - 1` of the chain change nothing when none of their
      codes occurs in the text the first `m` entries leave. */
  lemma {:induction false} TranslatedByStable(s: string, m: nat, n: nat)
    requires m <= n <= |Codes|
    requires forall i :: m <= i < n ==> !Contains(TranslatedBy(s, m), Codes[i].0)
    ensures TranslatedBy(s, n) == TranslatedBy(s, m)
  {
    if m < n {
      CodesShape();
      TranslatedByStable(s, m, n - 1);
      ReplaceAllAbsent(TranslatedBy(s, m), Codes[n - 1].0, Codes[n - 1].1);
    }
  }

  /** None of the first ten codes occurs in `Prohe`. */
  lemma ProheMissesFirstTen()
    ensures forall i :: 0 <= i < 10 ==> !Contains("Prohe", Codes[i].0)
  {
    forall i | 0 <= i < 10 ensures !Contains("Prohe", Codes[i].0) {
      if i == 4 {
        forall j | 0 <= j <= |"Prohe"| ensures !StartsWith("Prohe"[j..], "Phe") {
          if j == 0 {
            assert "Prohe"[..3][1] == 'r';
          } else if j < 3 {
            assert "Prohe"[j..][0] != 'P';
          }
        }
      } else {
        MissingCharNotContained("Prohe", Codes[i].0, Codes[i].0[0]);
      }
    }
  }

  /** None of the last nine codes occurs in `Phe`. */
  lemma PheMissesLastNine()
    ensures forall i :: 11 <= i < 20 ==> !Contains("Phe", Codes[i].0)
  {
    forall i | 11 <= i < 20 ensures !Contains("Phe", Codes[i].0) {
      MissingCharNotContained("Phe", Codes[i].0, Codes[i].0[0]);
    }
  }

  /** The eleventh entry of the table. */
  lemma ProEntry()
    ensures Codes[10].0 == "Pro" && Codes[10].1 == "P"
  {
  }

  /** The first ten entries leave `Prohe` alone. */
  lemma ProheBeforePro(s: string)
    requires s == "Prohe"
    ensures TranslatedBy(s, 10) == s
  {
    ProheMissesFirstTen();
    TranslatedByStable(s, 0, 10);
  }

  /** `"Prohe".replace("Pro", "P")` */
  lemma ReplacePro(s: string)
    requires s == "Prohe"
    ensures ReplaceAll(s, "Pro", "P") == "Phe"
  {
    assert s[..3] == "Pro" && s[3..] == "he";
    assert ReplaceAll(s, "Pro", "P") == "P" + ReplaceAll("he", "Pro", "P");
  }

  /** The eleventh entry, `Pro`, is the first to touch `Prohe`. */
  lemma ProheAfterPro(s: string)
    requires s == "Prohe"
    ensures TranslatedBy(s, 11) == "Phe"
  {
    ProheBeforePro(s);
    ProEntry();
    ReplacePro(s);
  }

  /** The output can still hold a code: `Pro`, the eleventh entry, turns
      `Prohe` into `Phe` after `Phe`, the fifth, has had its turn. */
  lemma TranslatedProhe()
    ensures Translated("Prohe") == "Phe"
    ensures Contains("Phe", Codes[4].0)
  {
    ProheAfterPro("Prohe");
    PheMissesLastNine();
    TranslatedByStable("Prohe", 11, 20);
    assert StartsWith("Phe"[0..], Codes[4].0);
  }

  /** One `str.replace` pass can leave an occurrence of the very code it
      replaced, made of the characters around the replaced one; the rewriting
      is therefore not a clean token-by-token translation. */
  lemma ReplaceLeavesOccurrence()
    ensures ReplaceAll("GGlyly", "Gly", "G") == "GGly"
    ensures Contains("GGly", "Gly")
  {
    assert StartsWith("GGly"[1..], "Gly");
  }
}
