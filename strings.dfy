/** The Python `str` operations the overview script relies on, with their
    Python semantics: `split(sep, 1)`, `split(sep)`, `sep.join`, `replace`,
    and the code-point order that `sorted` uses on strings. */
module Strings {
  import opened Wrappers

  /** `s.split(sep, 1)`: the text before the first `sep` and the text after it.
      None when `sep` does not occur, where a two-name unpacking in Python raises. */
  function SplitOnce(s: string, sep: char): (r: Option<(string, string)>)
    ensures r.Some? ==> |r.value.1| < |s|
  {
    if |s| == 0 then None
    else if s[0] == sep then Some(([], s[1..]))
    else
      match SplitOnce(s[1..], sep)
      case None => None
      case Some(parts) => Some(([s[0]] + parts.0, parts.1))
  }

  /** There is a first separator exactly when `s` holds one, and `s` is the
      part before it, the separator and the part after it. */
  lemma {:induction false} SplitOnceParts(s: string, sep: char)
    ensures var r := SplitOnce(s, sep);
      && (r.None? <==> sep !in s)
      && (r.Some? ==> sep !in r.value.0 && s == r.value.0 + [sep] + r.value.1)
  {
    if |s| > 0 && s[0] != sep {
      SplitOnceParts(s[1..], sep);
      assert s == [s[0]] + s[1..];
    }
  }

  /** Splitting at the first separator undoes gluing two parts together with it,
      provided the first part holds no separator. */
  lemma {:induction false} SplitOnceGlued(a: string, sep: char, b: string)
    requires sep !in a
    ensures SplitOnce(a + [sep] + b, sep) == Some((a, b))
  {
    var s := a + [sep] + b;
    if |a| > 0 {
      assert s[1..] == a[1..] + [sep] + b;
      SplitOnceGlued(a[1..], sep, b);
      assert [a[0]] + a[1..] == a;
    } else {
      assert s[1..] == b;
    }
  }

  /** `sep.join(parts)`. */
  function Join(parts: seq<string>, sep: char): string
  {
    if |parts| == 0 then []
    else if |parts| == 1 then parts[0]
    else parts[0] + [sep] + Join(parts[1..], sep)
  }

  /** Joining at least one piece whose first piece is not empty gives a non-empty text. */
  lemma JoinNonEmpty(parts: seq<string>, sep: char)
    requires |parts| > 0 && parts[0] != []
    ensures Join(parts, sep) != []
  {
  }

  /** `s.split(sep)`, which always gives at least one piece. */
  function SplitAll(s: string, sep: char): (r: seq<string>)
    ensures |r| >= 1
    decreases |s|
  {
    SplitOnceParts(s, sep);
    match SplitOnce(s, sep)
    case None => [s]
    case Some(parts) => [parts.0] + SplitAll(parts.1, sep)
  }

  /** No piece holds the separator, and joining the pieces with the
      separator gives back `s`. */
  lemma {:induction false} SplitAllPieces(s: string, sep: char)
    ensures forall i :: 0 <= i < |SplitAll(s, sep)| ==> sep !in SplitAll(s, sep)[i]
    ensures Join(SplitAll(s, sep), sep) == s
    decreases |s|
  {
    SplitOnceParts(s, sep);
    match SplitOnce(s, sep)
    case None =>
    case Some(parts) =>
      var rest := SplitAll(parts.1, sep);
      SplitAllPieces(parts.1, sep);
      assert SplitAll(s, sep) == [parts.0] + rest;
      assert ([parts.0] + rest)[1..] == rest;
  }

  /** The other round trip: splitting a join of separator-free pieces gives the pieces. */
  lemma {:induction false} SplitAllJoin(parts: seq<string>, sep: char)
    requires |parts| >= 1
    requires forall i :: 0 <= i < |parts| ==> sep !in parts[i]
    ensures SplitAll(Join(parts, sep), sep) == parts
  {
    if |parts| > 1 {
      var rest := Join(parts[1..], sep);
      assert Join(parts, sep) == parts[0] + [sep] + rest;
      SplitOnceGlued(parts[0], sep, rest);
      SplitAllJoin(parts[1..], sep);
      assert SplitAll(Join(parts, sep), sep) == [parts[0]] + SplitAll(rest, sep);
      assert [parts[0]] + parts[1..] == parts;
    } else {
      assert Join(parts, sep) == parts[0];
      SplitOnceParts(parts[0], sep);
    }
  }

  /** `s.startswith(pat)`. */
  predicate StartsWith(s: string, pat: string)
  {
    |pat| <= |s| && s[..|pat|] == pat
  }

  /** `pat in s` for strings. */
  predicate Contains(s: string, pat: string)
  {
    exists i :: 0 <= i <= |s| && StartsWith(s[i..], pat)
  }

  /** A pattern holding a character the text lacks does not occur in it. */
  lemma MissingCharNotContained(s: string, pat: string, c: char)
    requires c in pat && c !in s
    ensures !Contains(s, pat)
  {
    var j :| 0 <= j < |pat| && pat[j] == c;
    forall i | 0 <= i <= |s| ensures !StartsWith(s[i..], pat) {
      if |pat| <= |s[i..]| {
        assert s[i..][..|pat|][j] == s[i + j] != c;
      }
    }
  }

  /** `s.replace(pat, rep)`: every non-overlapping occurrence of `pat`, scanning
      from the left, is replaced by `rep`. */
  function ReplaceAll(s: string, pat: string, rep: string): string
    requires |pat| > 0
    decreases |s|
  {
    if |s| < |pat| then s
    else if StartsWith(s, pat) then rep + ReplaceAll(s[|pat|..], pat, rep)
    else [s[0]] + ReplaceAll(s[1..], pat, rep)
  }

  /** A replacement never lengthens the text when `rep` is no longer than `pat`. */
  lemma {:induction false} ReplaceAllShrinks(s: string, pat: string, rep: string)
    requires |pat| > 0 && |rep| <= |pat|
    ensures |ReplaceAll(s, pat, rep)| <= |s|
    decreases |s|
  {
    if |s| >= |pat| {
      if StartsWith(s, pat) {
        ReplaceAllShrinks(s[|pat|..], pat, rep);
      } else {
        ReplaceAllShrinks(s[1..], pat, rep);
      }
    }
  }

  /** Text in which `pat` never occurs is left unchanged by the replacement. */
  lemma {:induction false} ReplaceAllAbsent(s: string, pat: string, rep: string)
    requires |pat| > 0
    requires !Contains(s, pat)
    ensures ReplaceAll(s, pat, rep) == s
  {
    if |s| >= |pat| {
      assert s[0..] == s;
      assert !StartsWith(s, pat);
      assert !Contains(s[1..], pat) by {
        assert forall i :: 0 <= i <= |s[1..]| ==> s[1..][i..] == s[i + 1..];
      }
      ReplaceAllAbsent(s[1..], pat, rep);
      assert [s[0]] + s[1..] == s;
    }
  }

  /** Without an occurrence at the front, the replacement keeps the first character. */
  lemma ReplaceAllSkip(s: string, pat: string, rep: string)
    requires |pat| > 0 && |s| > 0 && !StartsWith(s, pat)
    ensures ReplaceAll(s, pat, rep) == [s[0]] + ReplaceAll(s[1..], pat, rep)
  {
    if |s| < |pat| {
      assert [s[0]] + s[1..] == s;
    }
  }

  /** A character outside `pat` just after a prefix that does not start with `pat`
      rules out an occurrence at the front. */
  lemma NoMatchBeforeChar(a: string, c: char, b: string, pat: string)
    requires |pat| > 0 && c !in pat && !StartsWith(a, pat)
    ensures !StartsWith(a + [c] + b, pat)
  {
    var s := a + [c] + b;
    if |a| < |pat| <= |s| {
      assert s[..|pat|][|a|] == c && pat[|a|] in pat;
    } else if |pat| <= |a| {
      assert s[..|pat|] == a[..|pat|];
    }
  }

  /** One step of the around-a-character argument: `pat` starts the text. */
  lemma AroundCharMatch(a: string, c: char, b: string, pat: string, rep: string)
    requires |pat| > 0 && StartsWith(a, pat)
    requires ReplaceAll(a[|pat|..] + [c] + b, pat, rep) == ReplaceAll(a[|pat|..], pat, rep) + [c] + ReplaceAll(b, pat, rep)
    ensures ReplaceAll(a + [c] + b, pat, rep) == ReplaceAll(a, pat, rep) + [c] + ReplaceAll(b, pat, rep)
  {
    var s := a + [c] + b;
    assert s[..|pat|] == a[..|pat|];
    assert s[|pat|..] == a[|pat|..] + [c] + b;
    var x, y := ReplaceAll(a[|pat|..], pat, rep), ReplaceAll(b, pat, rep);
    assert rep + (x + [c] + y) == (rep + x) + [c] + y;
  }

  /** One step of the around-a-character argument: `pat` does not start the text. */
  lemma AroundCharSkip(a: string, c: char, b: string, pat: string, rep: string)
    requires |pat| > 0 && c !in pat && |a| > 0 && !StartsWith(a, pat)
    requires ReplaceAll(a[1..] + [c] + b, pat, rep) == ReplaceAll(a[1..], pat, rep) + [c] + ReplaceAll(b, pat, rep)
    ensures ReplaceAll(a + [c] + b, pat, rep) == ReplaceAll(a, pat, rep) + [c] + ReplaceAll(b, pat, rep)
  {
    var s := a + [c] + b;
    var x, y := ReplaceAll(a[1..], pat, rep), ReplaceAll(b, pat, rep);
    calc {
      ReplaceAll(s, pat, rep);
    == { NoMatchBeforeChar(a, c, b, pat); ReplaceAllSkip(s, pat, rep); }
      [s[0]] + ReplaceAll(s[1..], pat, rep);
    == { assert s[1..] == a[1..] + [c] + b; }
      [a[0]] + (x + [c] + y);
    == { ReplaceAllSkip(a, pat, rep); }
      ReplaceAll(a, pat, rep) + [c] + y;
    }
  }

  /** A character that does not belong to `pat` cannot be part of an occurrence,
      so the replacement works on the two sides of it separately. */
  lemma {:induction false} ReplaceAllAroundChar(a: string, c: char, b: string, pat: string, rep: string)
    requires |pat| > 0 && c !in pat
    ensures ReplaceAll(a + [c] + b, pat, rep) == ReplaceAll(a, pat, rep) + [c] + ReplaceAll(b, pat, rep)
    decreases |a|
  {
    if |a| == 0 {
      NoMatchBeforeChar(a, c, b, pat);
      assert a + [c] + b == [c] + b;
      ReplaceAllSkip([c] + b, pat, rep);
      assert ([c] + b)[1..] == b;
    } else if StartsWith(a, pat) {
      ReplaceAllAroundChar(a[|pat|..], c, b, pat, rep);
      AroundCharMatch(a, c, b, pat, rep);
    } else {
      ReplaceAllAroundChar(a[1..], c, b, pat, rep);
      AroundCharSkip(a, c, b, pat, rep);
    }
  }

  /** A first character outside `pat` is kept as it is. */
  lemma ReplaceAllKeepsFirst(c: char, t: string, pat: string, rep: string)
    requires |pat| > 0 && c !in pat
    ensures ReplaceAll([c] + t, pat, rep) == [c] + ReplaceAll(t, pat, rep)
  {
    NoMatchBeforeChar([], c, t, pat);
    assert [] + [c] + t == [c] + t;
    ReplaceAllSkip([c] + t, pat, rep);
    assert ([c] + t)[1..] == t;
  }

  /** Characters outside `pat` at the front of the text are kept as they are. */
  lemma {:induction false} ReplaceAllKeepsRun(m: string, b: string, pat: string, rep: string)
    requires |pat| > 0
    requires forall k :: 0 <= k < |m| ==> m[k] !in pat
    ensures ReplaceAll(m + b, pat, rep) == m + ReplaceAll(b, pat, rep)
    decreases |m|
  {
    if |m| > 0 {
      var t := m[1..] + b;
      assert m + b == [m[0]] + t;
      ReplaceAllKeepsFirst(m[0], t, pat, rep);
      ReplaceAllKeepsRun(m[1..], b, pat, rep);
      var rb := ReplaceAll(b, pat, rep);
      assert [m[0]] + (m[1..] + rb) == m + rb;
    } else {
      assert m + b == b;
    }
  }

  lemma GlueAround(x: string, m: string, y: string)
    requires |m| > 0
    ensures x + [m[0]] + (m[1..] + y) == x + m + y
  {
    assert [m[0]] + m[1..] == m;
  }

  /** The same for a whole run of characters none of which belong to `pat`. */
  lemma ReplaceAllAround(a: string, m: string, b: string, pat: string, rep: string)
    requires |pat| > 0 && |m| > 0
    requires forall k :: 0 <= k < |m| ==> m[k] !in pat
    ensures ReplaceAll(a + m + b, pat, rep) == ReplaceAll(a, pat, rep) + m + ReplaceAll(b, pat, rep)
  {
    var c, t := m[0], m[1..] + b;
    assert a + m + b == a + [c] + t;
    ReplaceAllAroundChar(a, c, t, pat, rep);
    ReplaceAllKeepsRun(m[1..], b, pat, rep);
    GlueAround(ReplaceAll(a, pat, rep), m, ReplaceAll(b, pat, rep));
  }

  /** The order Python uses on `str`: lexicographic by code point, a proper
      prefix before the longer string. */
  predicate StrLe(a: string, b: string)
    decreases |a|
  {
    |a| == 0 || (|b| > 0 && (a[0] < b[0] || (a[0] == b[0] && StrLe(a[1..], b[1..]))))
  }

  lemma {:induction false} StrLeAntisymmetric(a: string, b: string)
    requires StrLe(a, b) && StrLe(b, a)
    ensures a == b
    decreases |a|
  {
    if |a| > 0 {
      StrLeAntisymmetric(a[1..], b[1..]);
      assert a == [a[0]] + a[1..] && b == [b[0]] + b[1..];
    }
  }

  lemma {:induction false} StrLeTransitive(a: string, b: string, c: string)
    requires StrLe(a, b) && StrLe(b, c)
    ensures StrLe(a, c)
    decreases |a|
  {
    if |a| > 0 && a[0] == b[0] == c[0] {
      StrLeTransitive(a[1..], b[1..], c[1..]);
    }
  }

  lemma {:induction false} StrLeTotal(a: string, b: string)
    ensures StrLe(a, b) || StrLe(b, a)
    decreases |a|
  {
    if |a| > 0 && |b| > 0 && a[0] == b[0] {
      StrLeTotal(a[1..], b[1..]);
    }
  }

  /** A common prefix does not change the order. */
  lemma {:induction false} StrLeCommonPrefix(p: string, a: string, b: string)
    ensures StrLe(p + a, p + b) == StrLe(a, b)
  {
    if |p| > 0 {
      assert (p + a)[0] == (p + b)[0];
      assert (p + a)[1..] == p[1..] + a;
      assert (p + b)[1..] == p[1..] + b;
      StrLeCommonPrefix(p[1..], a, b);
    } else {
      assert p + a == a && p + b == b;
    }
  }

  /** Ascending in the string order. */
  predicate Sorted(s: seq<string>)
  {
    forall i, j :: 0 <= i < j < |s| ==> StrLe(s[i], s[j])
  }

  /** A sorted list stays sorted below a head that is below all its elements. */
  lemma PrependSorted(h: string, t: seq<string>)
    requires Sorted(t)
    requires forall k :: 0 <= k < |t| ==> StrLe(h, t[k])
    ensures Sorted([h] + t)
  {
    forall i, j | 0 <= i < j < |[h] + t| ensures StrLe(([h] + t)[i], ([h] + t)[j]) {
      if i > 0 {
        assert ([h] + t)[i] == t[i - 1] && ([h] + t)[j] == t[j - 1];
      } else {
        assert ([h] + t)[j] == t[j - 1];
      }
    }
  }

  /** A bound on every element of `s` and on `x` is a bound on every element of
      any list holding exactly those. */
  lemma BoundOfElements(h: string, s: seq<string>, x: string, t: seq<string>)
    requires multiset(t) == multiset(s) + multiset{x}
    requires forall k :: 0 <= k < |s| ==> StrLe(h, s[k])
    requires StrLe(h, x)
    ensures forall k :: 0 <= k < |t| ==> StrLe(h, t[k])
  {
    forall k | 0 <= k < |t| ensures StrLe(h, t[k]) {
      assert t[k] in multiset(t);
      if t[k] != x {
        assert t[k] in multiset(s);
        var i :| 0 <= i < |s| && s[i] == t[k];
      }
    }
  }

  /** Inserting into a sorted list keeps it sorted and adds exactly the one element. */
  function InsertSorted(s: seq<string>, x: string): (r: seq<string>)
    requires Sorted(s)
    ensures Sorted(r) && multiset(r) == multiset(s) + multiset{x}
  {
    if |s| == 0 then [x]
    else if StrLe(x, s[0]) then
      assert forall j :: 0 <= j < |s| ==> StrLe(x, s[j]) by {
        forall j | 0 <= j < |s| ensures StrLe(x, s[j]) {
          if j > 0 { StrLeTransitive(x, s[0], s[j]); }
        }
      }
      PrependSorted(x, s);
      [x] + s
    else
      var t := InsertSorted(s[1..], x);
      StrLeTotal(x, s[0]);
      BoundOfElements(s[0], s[1..], x, t);
      PrependSorted(s[0], t);
      assert s == [s[0]] + s[1..];
      [s[0]] + t
  }

  /** What Python's `sorted` returns on a list of strings: the ascending
      arrangement of the same elements. */
  function SortStrings(s: seq<string>): (r: seq<string>)
    ensures Sorted(r) && multiset(r) == multiset(s)
  {
    if |s| == 0 then []
    else
      assert s == [s[0]] + s[1..];
      InsertSorted(SortStrings(s[1..]), s[0])
  }

  /** The head of a sorted list is below every element of it. */
  lemma SortedHeadLeast(s: seq<string>, x: string)
    requires Sorted(s) && x in multiset(s)
    ensures StrLe(s[0], x)
  {
    var j :| 0 <= j < |s| && s[j] == x;
    if j == 0 { StrLeTotal(x, x); }
  }

  /** Lists with the same elements and the same head have tails with the same elements. */
  lemma SameTails(a: seq<string>, b: seq<string>)
    requires |a| > 0 && |b| > 0 && a[0] == b[0] && multiset(a) == multiset(b)
    ensures multiset(a[1..]) == multiset(b[1..])
  {
    assert a == [a[0]] + a[1..] && b == [b[0]] + b[1..];
    assert multiset(a[1..]) == multiset(a) - multiset{a[0]};
    assert multiset(b[1..]) == multiset(b) - multiset{b[0]};
  }

  /** The tail of a sorted list is sorted. */
  lemma SortedTail(a: seq<string>)
    requires |a| > 0 && Sorted(a)
    ensures Sorted(a[1..])
  {
    forall i, j | 0 <= i < j < |a[1..]| ensures StrLe(a[1..][i], a[1..][j]) {
      assert a[1..][i] == a[i + 1] && a[1..][j] == a[j + 1];
    }
  }

  /** A multiset of strings has exactly one ascending arrangement, so `sorted`
      does not depend on the order its input came in. */
  lemma {:induction false} SortedUnique(a: seq<string>, b: seq<string>)
    requires Sorted(a) && Sorted(b) && multiset(a) == multiset(b)
    ensures a == b
  {
    assert |a| == |multiset(a)| == |multiset(b)| == |b|;
    if |a| > 0 {
      SortedHeadLeast(b, a[0]);
      SortedHeadLeast(a, b[0]);
      StrLeAntisymmetric(a[0], b[0]);
      SameTails(a, b);
      SortedTail(a);
      SortedTail(b);
      SortedUnique(a[1..], b[1..]);
      assert a == [a[0]] + a[1..] && b == [b[0]] + b[1..];
    }
  }
}
