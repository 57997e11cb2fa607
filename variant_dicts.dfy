/** The per-tier dictionaries of the variant section, `label -> vaf`:
    `insert_entry`, which keeps the highest VAF seen for a label, and
    `fmt_variants`, which renders a dictionary as one sorted string. */
module VariantDicts {
  import opened Strings

  /** A Python dict from protein-alteration label to VAF: its keys in
      insertion order (the order `items()` walks them) and the mapping. */
  datatype Variants = Variants(order: seq<string>, vafs: map<string, real>)
  {
    /** The keys are listed once each and are exactly the mapped keys. */
    ghost predicate Valid()
    {
      && (forall i, j :: 0 <= i < j < |order| ==> order[i] != order[j])
      && (forall k :: k in vafs <==> k in order)
    }
  }

  /** `{}` */
  const Empty := Variants([], map[])

  function Max(x: real, y: real): real
  {
    if x < y then y else x
  }

  /** `insert_entry(variants, hgvsp, vaf)`: a new key is appended and mapped
      to `vaf`; a present key takes `vaf` only when it is higher than the
      stored one, the test being a strict `<`. */
  function InsertEntry(d: Variants, key: string, vaf: real): Variants
  {
    if key !in d.vafs then Variants(d.order + [key], d.vafs[key := vaf])
    else if d.vafs[key] < vaf then Variants(d.order, d.vafs[key := vaf])
    else d
  }

  /** The key's VAF becomes `vaf` if the key was absent and the larger of the
      two otherwise; no other key changes; a new key goes to the end of the
      key order; and when the stored VAF is not smaller than `vaf` (a tie
      included) the dictionary is left exactly as it was. */
  lemma InsertEntryKeepsMax(d: Variants, key: string, vaf: real)
    ensures var r := InsertEntry(d, key, vaf);
      && key in r.vafs
      && r.vafs[key] == (if key in d.vafs then Max(d.vafs[key], vaf) else vaf)
      && (forall k :: k != key ==> (k in r.vafs <==> k in d.vafs))
      && (forall k :: k != key && k in d.vafs ==> r.vafs[k] == d.vafs[k])
      && r.order == (if key in d.vafs then d.order else d.order + [key])
      && (key in d.vafs && vaf <= d.vafs[key] ==> r == d)
  {
  }

  /** Inserting keeps every key listed once, and listed exactly when mapped. */
  lemma InsertEntryValid(d: Variants, key: string, vaf: real)
    requires d.Valid()
    ensures InsertEntry(d, key, vaf).Valid()
  {
  }

  /** No stored VAF ever goes down, and no key ever disappears. */
  lemma InsertNeverDecreases(d: Variants, key: string, vaf: real, k: string)
    requires k in d.vafs
    ensures k in InsertEntry(d, key, vaf).vafs
    ensures d.vafs[k] <= InsertEntry(d, key, vaf).vafs[k]
  {
  }

  /** The dictionary after inserting `entries` one after the other, from `d`. */
  function InsertAll(d: Variants, entries: seq<(string, real)>): Variants
  {
    if |entries| == 0 then d
    else
      var last := entries[|entries| - 1];
      InsertEntry(InsertAll(d, entries[..|entries| - 1]), last.0, last.1)
  }

  lemma {:induction false} InsertAllValid(d: Variants, entries: seq<(string, real)>)
    requires d.Valid()
    ensures InsertAll(d, entries).Valid()
  {
    if |entries| > 0 {
      var last := entries[|entries| - 1];
      InsertAllValid(d, entries[..|entries| - 1]);
      InsertEntryValid(InsertAll(d, entries[..|entries| - 1]), last.0, last.1);
    }
  }

  /** `key` is the label of some entry. */
  ghost predicate Inserted(entries: seq<(string, real)>, key: string)
  {
    exists i :: 0 <= i < |entries| && entries[i].0 == key
  }

  /** No entry for `key` has a VAF above `v`. */
  ghost predicate Bounds(entries: seq<(string, real)>, key: string, v: real)
  {
    forall i :: 0 <= i < |entries| && entries[i].0 == key ==> entries[i].1 <= v
  }

  /** Some entry for `key` has the VAF `v`. */
  ghost predicate Attains(entries: seq<(string, real)>, key: string, v: real)
  {
    exists i :: 0 <= i < |entries| && entries[i].0 == key && entries[i].1 == v
  }

  /** The three predicates above, split at the last entry. */
  lemma SnocFacts(entries: seq<(string, real)>, key: string, v: real)
    requires |entries| > 0
    ensures var init, last := entries[..|entries| - 1], entries[|entries| - 1];
      && (Inserted(entries, key) <==> Inserted(init, key) || last.0 == key)
      && (Bounds(entries, key, v) <==> Bounds(init, key, v) && (last.0 == key ==> last.1 <= v))
      && (Attains(entries, key, v) <==> Attains(init, key, v) || (last.0 == key && last.1 == v))
  {
    var init := entries[..|entries| - 1];
    assert forall i :: 0 <= i < |init| ==> init[i] == entries[i];
    if Inserted(entries, key) && entries[|entries| - 1].0 != key {
      var i :| 0 <= i < |entries| && entries[i].0 == key;
      assert init[i].0 == key;
    }
    if Attains(entries, key, v) && !(entries[|entries| - 1].0 == key && entries[|entries| - 1].1 == v) {
      var i :| 0 <= i < |entries| && entries[i].0 == key && entries[i].1 == v;
      assert init[i].0 == key && init[i].1 == v;
    }
  }

  /** Whatever the order of the calls, a label ends up present exactly when it
      was present or inserted. */
  lemma {:induction false} InsertAllKeys(d: Variants, entries: seq<(string, real)>, key: string)
    ensures key in InsertAll(d, entries).vafs <==> key in d.vafs || Inserted(entries, key)
  {
    if |entries| > 0 {
      var last := entries[|entries| - 1];
      InsertAllKeys(d, entries[..|entries| - 1], key);
      InsertEntryKeepsMax(InsertAll(d, entries[..|entries| - 1]), last.0, last.1);
      SnocFacts(entries, key, 0.0);
    }
  }

  /** ... and with the maximum of its VAFs: none of the VAFs given for it is
      higher, and the value kept is one of them (or the one it started with). */
  lemma {:induction false} InsertAllKeepsMax(d: Variants, entries: seq<(string, real)>, key: string)
    requires key in InsertAll(d, entries).vafs
    ensures var v := InsertAll(d, entries).vafs[key];
      && (key in d.vafs ==> d.vafs[key] <= v)
      && Bounds(entries, key, v)
      && ((key in d.vafs && v == d.vafs[key]) || Attains(entries, key, v))
  {
    var v := InsertAll(d, entries).vafs[key];
    if |entries| > 0 {
      var init := entries[..|entries| - 1];
      var before := InsertAll(d, init);
      InsertEntryKeepsMax(before, entries[|entries| - 1].0, entries[|entries| - 1].1);
      SnocFacts(entries, key, v);
      if key in before.vafs {
        InsertAllKeepsMax(d, init, key);
        var u := before.vafs[key];
        assert u <= v;
        SnocFacts(entries, key, u);
        forall i | 0 <= i < |init| && init[i].0 == key
          ensures init[i].1 <= v
        {
          assert init[i].1 <= u;
        }
      } else {
        InsertAllKeys(d, init, key);
      }
    }
  }

  /** A tier dictionary as the object the per-sample loop updates in place. */
  class VariantTable {
    var order: seq<string>
    var vafs: map<string, real>

    function Value(): Variants
      reads this
    {
      Variants(order, vafs)
    }

    /** `{}` */
    constructor()
      ensures Value() == Empty
    {
      order := [];
      vafs := map[];
    }

    /** `insert_entry(self, hgvsp, vaf)`. */
    method Insert(key: string, vaf: real)
      modifies this
      ensures Value() == InsertEntry(old(Value()), key, vaf)
    {
      if key !in vafs || vafs[key] < vaf {
        if key !in vafs {
          order := order + [key];
        }
        vafs := vafs[key := vaf];
      }
    }
  }

  /** `f"{hgvsp}:{vaf:.3f}"`, with the number formatting as a parameter. */
  function Render(key: string, vaf: real, fmt: real -> string): string
  {
    key + ":" + fmt(vaf)
  }

  /** The rendered items of a dictionary, in key order. */
  function RenderAll(keys: seq<string>, vafs: map<string, real>, fmt: real -> string): (r: seq<string>)
    requires forall k :: k in keys ==> k in vafs
    ensures |r| == |keys|
  {
    if |keys| == 0 then [] else [Render(keys[0], vafs[keys[0]], fmt)] + RenderAll(keys[1..], vafs, fmt)
  }

  /** The `i`-th item is the `i`-th key's. */
  lemma {:induction false} RenderAllAt(keys: seq<string>, vafs: map<string, real>, fmt: real -> string, i: int)
    requires forall k :: k in keys ==> k in vafs
    requires 0 <= i < |keys|
    ensures RenderAll(keys, vafs, fmt)[i] == Render(keys[i], vafs[keys[i]], fmt)
  {
    if i > 0 {
      RenderAllAt(keys[1..], vafs, fmt, i - 1);
    }
  }

  /** Every item holds the `:` between label and VAF. */
  lemma {:induction false} RenderedHaveColon(keys: seq<string>, vafs: map<string, real>, fmt: real -> string, x: string)
    requires forall k :: k in keys ==> k in vafs
    requires x in multiset(RenderAll(keys, vafs, fmt))
    ensures ':' in x
  {
    var j :| 0 <= j < |keys| && RenderAll(keys, vafs, fmt)[j] == x;
    RenderAllAt(keys, vafs, fmt, j);
    assert x == keys[j] + [':'] + fmt(vafs[keys[j]]);
  }

  /** `fmt_variants(variants)`: the rendered items, sorted as strings and
      joined by single spaces. It is empty exactly when the dictionary is,
      every rendered item holding at least the `:`. */
  function FmtVariants(d: Variants, fmt: real -> string): (r: string)
    requires d.Valid()
    ensures r == "" <==> d.vafs == map[]
  {
    var items := SortStrings(RenderAll(d.order, d.vafs, fmt));
    if |d.order| > 0 then
      assert items[0] in multiset(items);
      RenderedHaveColon(d.order, d.vafs, fmt, items[0]);
      JoinNonEmpty(items, ' ');
      Join(items, ' ')
    else
      assert forall k :: k !in d.vafs;
      Join(items, ' ')
  }

  /** A key order that lists each key once is a set's worth of multiset. */
  lemma {:induction false} DistinctCount(s: seq<string>, x: string)
    requires forall i, j :: 0 <= i < j < |s| ==> s[i] != s[j]
    ensures multiset(s)[x] == if x in s then 1 else 0
  {
    if |s| > 0 {
      DistinctCount(s[1..], x);
      assert s == [s[0]] + s[1..];
      assert s[0] !in s[1..];
    }
  }

  lemma {:induction false} DistinctCard(s: seq<string>)
    requires forall i, j :: 0 <= i < j < |s| ==> s[i] != s[j]
    ensures |set x | x in s| == |s|
  {
    if |s| > 0 {
      DistinctCard(s[1..]);
      assert s == [s[0]] + s[1..];
      assert (set x | x in s) == {s[0]} + (set x | x in s[1..]);
      assert s[0] !in s[1..];
    }
  }

  /** A dictionary has as many keys as its key order has entries. */
  lemma KeyCount(d: Variants)
    requires d.Valid()
    ensures |d.vafs| == |d.order|
  {
    DistinctCard(d.order);
    assert d.vafs.Keys == set x | x in d.order;
  }

  lemma {:induction false} RenderAllAppend(a: seq<string>, b: seq<string>, vafs: map<string, real>, fmt: real -> string)
    requires forall k :: k in a + b ==> k in vafs
    ensures RenderAll(a + b, vafs, fmt) == RenderAll(a, vafs, fmt) + RenderAll(b, vafs, fmt)
  {
    if |a| == 0 {
      assert a + b == b;
    } else {
      assert (a + b)[0] == a[0];
      assert (a + b)[1..] == a[1..] + b;
      RenderAllAppend(a[1..], b, vafs, fmt);
    }
  }

  /** Taking out `b[j]`, the first element of `a`, leaves the same multiset. */
  lemma MultisetTakeOut(a: seq<string>, b: seq<string>, j: int)
    requires multiset(a) == multiset(b) && |a| > 0 && 0 <= j < |b| && b[j] == a[0]
    ensures multiset(a[1..]) == multiset(b[..j] + b[j + 1..])
  {
    assert b == b[..j] + [b[j]] + b[j + 1..];
    assert a == [a[0]] + a[1..];
    calc {
      multiset(a[1..]);
      multiset(a) - multiset{a[0]};
      multiset(b[..j]) + multiset{b[j]} + multiset(b[j + 1..]) - multiset{a[0]};
      multiset(b[..j] + b[j + 1..]);
    }
  }

  /** Rendering `b` renders `b[j]` once besides the rest. */
  lemma RenderAllTakeOut(b: seq<string>, j: int, vafs: map<string, real>, fmt: real -> string)
    requires forall k :: k in b ==> k in vafs
    requires 0 <= j < |b|
    ensures multiset(RenderAll(b, vafs, fmt))
      == multiset{Render(b[j], vafs[b[j]], fmt)} + multiset(RenderAll(b[..j] + b[j + 1..], vafs, fmt))
  {
    var b1, b2 := b[..j], b[j + 1..];
    assert b == b1 + [b[j]] + b2;
    RenderAllAppend(b1 + [b[j]], b2, vafs, fmt);
    RenderAllAppend(b1, [b[j]], vafs, fmt);
    RenderAllAppend(b1, b2, vafs, fmt);
    var r1, r2 := RenderAll(b1, vafs, fmt), RenderAll(b2, vafs, fmt);
    var item := Render(b[j], vafs[b[j]], fmt);
    assert RenderAll([b[j]], vafs, fmt) == [item];
    calc {
      multiset(RenderAll(b, vafs, fmt));
      multiset(r1 + [item] + r2);
      multiset(r1) + multiset{item} + multiset(r2);
      multiset{item} + multiset(r1 + r2);
    }
  }

  lemma SameElements(a: seq<string>, b: seq<string>, vafs: map<string, real>)
    requires forall k :: k in a ==> k in vafs
    requires multiset(a) == multiset(b)
    ensures forall k :: k in b ==> k in vafs
  {
    forall k | k in b ensures k in vafs {
      assert k in multiset(b);
      assert k in multiset(a);
    }
  }

  /** Rendering two orderings of the same keys gives the same items. */
  lemma {:induction false} RenderAllPermutes(a: seq<string>, b: seq<string>, vafs: map<string, real>, fmt: real -> string)
    requires forall k :: k in a ==> k in vafs
    requires multiset(a) == multiset(b)
    ensures forall k :: k in b ==> k in vafs
    ensures multiset(RenderAll(a, vafs, fmt)) == multiset(RenderAll(b, vafs, fmt))
  {
    SameElements(a, b, vafs);
    if |a| == 0 {
      assert |b| == |multiset(b)|;
    } else {
      assert a[0] in multiset(b);
      var j :| 0 <= j < |b| && b[j] == a[0];
      var rest := b[..j] + b[j + 1..];
      MultisetTakeOut(a, b, j);
      SameElements(a[1..], rest, vafs);
      RenderAllPermutes(a[1..], rest, vafs, fmt);
      RenderAllTakeOut(b, j, vafs, fmt);
      var item := Render(a[0], vafs[a[0]], fmt);
      assert RenderAll(a, vafs, fmt) == [item] + RenderAll(a[1..], vafs, fmt);
      calc {
        multiset(RenderAll(a, vafs, fmt));
        multiset{item} + multiset(RenderAll(a[1..], vafs, fmt));
        multiset{item} + multiset(RenderAll(rest, vafs, fmt));
        multiset(RenderAll(b, vafs, fmt));
      }
    }
  }

  /** The output depends only on the mapping, not on the order in which the
      keys were first inserted. */
  lemma FmtIgnoresInsertionOrder(d1: Variants, d2: Variants, fmt: real -> string)
    requires d1.Valid() && d2.Valid() && d1.vafs == d2.vafs
    ensures FmtVariants(d1, fmt) == FmtVariants(d2, fmt)
  {
    forall x ensures multiset(d1.order)[x] == multiset(d2.order)[x] {
      DistinctCount(d1.order, x);
      DistinctCount(d2.order, x);
    }
    assert multiset(d1.order) == multiset(d2.order);
    RenderAllPermutes(d1.order, d2.order, d1.vafs, fmt);
    var s1 := SortStrings(RenderAll(d1.order, d1.vafs, fmt));
    var s2 := SortStrings(RenderAll(d2.order, d2.vafs, fmt));
    SortedUnique(s1, s2);
  }

  /** `s` is the rendered item of some key of `d`. */
  ghost predicate IsItem(d: Variants, fmt: real -> string, s: string)
  {
    exists k :: k in d.vafs && s == Render(k, d.vafs[k], fmt)
  }

  lemma RenderedAreItems(d: Variants, fmt: real -> string, x: string)
    requires d.Valid() && x in multiset(RenderAll(d.order, d.vafs, fmt))
    ensures IsItem(d, fmt, x)
  {
    var rendered := RenderAll(d.order, d.vafs, fmt);
    var j :| 0 <= j < |rendered| && rendered[j] == x;
    RenderAllAt(d.order, d.vafs, fmt, j);
  }

  lemma KeysAreRendered(d: Variants, fmt: real -> string, k: string)
    requires d.Valid() && k in d.vafs
    ensures Render(k, d.vafs[k], fmt) in multiset(RenderAll(d.order, d.vafs, fmt))
  {
    var j :| 0 <= j < |d.order| && d.order[j] == k;
    RenderAllAt(d.order, d.vafs, fmt, j);
  }

  /** The sorted items: one per key, each key's among them, and each the
      item of some key. */
  lemma SortedItems(d: Variants, fmt: real -> string)
    requires d.Valid()
    ensures var items := SortStrings(RenderAll(d.order, d.vafs, fmt));
      && |items| == |d.vafs|
      && (forall k :: k in d.vafs ==> Render(k, d.vafs[k], fmt) in items)
      && (forall i :: 0 <= i < |items| ==> IsItem(d, fmt, items[i]))
  {
    var rendered := RenderAll(d.order, d.vafs, fmt);
    var items := SortStrings(rendered);
    KeyCount(d);
    assert |items| == |rendered| by {
      assert |multiset(items)| == |multiset(rendered)|;
    }
    forall i | 0 <= i < |items| ensures IsItem(d, fmt, items[i]) {
      assert items[i] in multiset(items);
      RenderedAreItems(d, fmt, items[i]);
    }
    forall k | k in d.vafs ensures Render(k, d.vafs[k], fmt) in items {
      KeysAreRendered(d, fmt, k);
      assert Render(k, d.vafs[k], fmt) in multiset(items);
    }
  }

  lemma ItemsHaveNoSpace(d: Variants, fmt: real -> string, items: seq<string>)
    requires forall k :: k in d.vafs ==> ' ' !in k && ' ' !in fmt(d.vafs[k])
    requires forall i :: 0 <= i < |items| ==> IsItem(d, fmt, items[i])
    ensures forall i :: 0 <= i < |items| ==> ' ' !in items[i]
  {
    forall i | 0 <= i < |items| ensures ' ' !in items[i] {
      assert IsItem(d, fmt, items[i]);
      var k :| k in d.vafs && items[i] == Render(k, d.vafs[k], fmt);
    }
  }

  /** Read back at the spaces, a non-empty output is the ascending list of
      `label:vaf` items: one per key, and each key's item among them, as long
      as no label and no formatted VAF holds a space. */
  lemma FmtVariantsEntries(d: Variants, fmt: real -> string)
    requires d.Valid() && d.vafs != map[]
    requires forall k :: k in d.vafs ==> ' ' !in k && ' ' !in fmt(d.vafs[k])
    ensures var items := SplitAll(FmtVariants(d, fmt), ' ');
      && Sorted(items)
      && |items| == |d.vafs|
      && (forall k :: k in d.vafs ==> Render(k, d.vafs[k], fmt) in items)
      && (forall i :: 0 <= i < |items| ==> IsItem(d, fmt, items[i]))
  {
    var items := SortStrings(RenderAll(d.order, d.vafs, fmt));
    SortedItems(d, fmt);
    ItemsHaveNoSpace(d, fmt, items);
    SplitAllJoin(items, ' ');
  }

  /** A dictionary of two keys renders as its two items, the lesser first. */
  lemma FmtOfTwo(d: Variants, fmt: real -> string)
    requires d.Valid() && |d.order| == 2
    ensures var x := Render(d.order[0], d.vafs[d.order[0]], fmt);
      var y := Render(d.order[1], d.vafs[d.order[1]], fmt);
      FmtVariants(d, fmt) == if StrLe(x, y) then x + " " + y else y + " " + x
  {
    var x := Render(d.order[0], d.vafs[d.order[0]], fmt);
    var y := Render(d.order[1], d.vafs[d.order[1]], fmt);
    assert RenderAll(d.order, d.vafs, fmt) == [x, y];
    assert [x, y][1..] == [y];
    assert SortStrings([y]) == [y] by {
      assert [y][1..] == [];
    }
    if StrLe(x, y) {
      assert SortStrings([x, y]) == [x, y];
      assert Join([x, y], ' ') == x + " " + y;
    } else {
      assert SortStrings([x, y]) == [y, x];
      assert Join([y, x], ' ') == y + " " + x;
    }
  }

  lemma ExampleInserts()
    ensures InsertEntry(InsertEntry(Empty, "ORF1a:G12A", 0.5), "ORF1a:M1L", 0.25)
      == Variants(["ORF1a:G12A", "ORF1a:M1L"], map["ORF1a:G12A" := 0.5, "ORF1a:M1L" := 0.25])
  {
    assert "ORF1a:G12A" != "ORF1a:M1L";
  }

  lemma ExampleItems(fmt: real -> string)
    requires fmt(0.5) == "0.500" && fmt(0.25) == "0.250"
    ensures Render("ORF1a:G12A", 0.5, fmt) == "ORF1a:G12A:0.500"
    ensures Render("ORF1a:M1L", 0.25, fmt) == "ORF1a:M1L:0.250"
  {
  }

  lemma ExampleOrder()
    ensures StrLe("ORF1a:G12A:0.500", "ORF1a:M1L:0.250")
  {
    StrLeCommonPrefix("ORF1a:", "G12A:0.500", "M1L:0.250");
    assert "ORF1a:G12A:0.500" == "ORF1a:" + "G12A:0.500";
    assert "ORF1a:M1L:0.250" == "ORF1a:" + "M1L:0.250";
  }

  lemma ExampleJoin()
    ensures "ORF1a:G12A:0.500" + " " + "ORF1a:M1L:0.250" == "ORF1a:G12A:0.500 ORF1a:M1L:0.250"
  {
  }

  /** Two different keys make a valid dictionary. */
  lemma TwoKeysValid(a: string, b: string, va: real, vb: real)
    requires a != b
    ensures Variants([a, b], map[a := va, b := vb]).Valid()
  {
  }

  /** The two-key case spelled out on the keys and their VAFs. */
  lemma FmtOfTwoKeys(a: string, b: string, va: real, vb: real, fmt: real -> string)
    requires a != b
    ensures var x, y := Render(a, va, fmt), Render(b, vb, fmt);
      FmtVariants(Variants([a, b], map[a := va, b := vb]), fmt) == if StrLe(x, y) then x + " " + y else y + " " + x
  {
    TwoKeysValid(a, b, va, vb);
    FmtOfTwo(Variants([a, b], map[a := va, b := vb]), fmt);
  }

  lemma ExampleRendered(fmt: real -> string)
    requires fmt(0.5) == "0.500" && fmt(0.25) == "0.250"
    ensures FmtVariants(Variants(["ORF1a:G12A", "ORF1a:M1L"], map["ORF1a:G12A" := 0.5, "ORF1a:M1L" := 0.25]), fmt)
      == "ORF1a:G12A:0.500 ORF1a:M1L:0.250"
  {
    ExampleItems(fmt);
    ExampleOrder();
    ExampleJoin();
    assert "ORF1a:G12A" != "ORF1a:M1L" by {
      assert "ORF1a:G12A"[6] != "ORF1a:M1L"[6];
    }
    FmtOfTwoKeys("ORF1a:G12A", "ORF1a:M1L", 0.5, 0.25, fmt);
  }

  /** `{"ORF1a:G12A": 0.5, "ORF1a:M1L": 0.25}` renders as
      `"ORF1a:G12A:0.500 ORF1a:M1L:0.250"`. */
  lemma FmtExample(fmt: real -> string)
    requires fmt(0.5) == "0.500" && fmt(0.25) == "0.250"
    ensures FmtVariants(InsertEntry(InsertEntry(Empty, "ORF1a:G12A", 0.5), "ORF1a:M1L", 0.25), fmt)
      == "ORF1a:G12A:0.500 ORF1a:M1L:0.250"
  {
    ExampleInserts();
    ExampleRendered(fmt);
  }

  lemma SortExampleInserts()
    ensures InsertEntry(InsertEntry(Empty, "S:A1", 0.2), "S:A10", 0.1)
      == Variants(["S:A1", "S:A10"], map["S:A1" := 0.2, "S:A10" := 0.1])
  {
    assert "S:A1" != "S:A10";
  }

  lemma SortExampleItems(fmt: real -> string)
    requires fmt(0.2) == "0.200" && fmt(0.1) == "0.100"
    ensures Render("S:A1", 0.2, fmt) == "S:A1:0.200"
    ensures Render("S:A10", 0.1, fmt) == "S:A10:0.100"
  {
  }

  lemma SortExampleOrder()
    ensures !StrLe("S:A1:0.200", "S:A10:0.100")
    ensures StrLe("S:A1", "S:A10")
  {
    StrLeCommonPrefix("S:A1", ":0.200", "0:0.100");
    StrLeCommonPrefix("S:A1", "", "0");
    assert "S:A1:0.200" == "S:A1" + ":0.200";
    assert "S:A10:0.100" == "S:A1" + "0:0.100";
    assert "S:A1" == "S:A1" + "" && "S:A10" == "S:A1" + "0";
  }

  lemma SortExampleJoin()
    ensures "S:A10:0.100" + " " + "S:A1:0.200" == "S:A10:0.100 S:A1:0.200"
  {
  }

  /** The sort is on the rendered items, not on the labels: `S:A1` sorts
      before `S:A10`, yet its item comes second, since `1:` is above `10`. */
  lemma SortExampleRendered(fmt: real -> string)
    requires fmt(0.2) == "0.200" && fmt(0.1) == "0.100"
    ensures FmtVariants(Variants(["S:A1", "S:A10"], map["S:A1" := 0.2, "S:A10" := 0.1]), fmt)
      == "S:A10:0.100 S:A1:0.200"
  {
    SortExampleItems(fmt);
    SortExampleOrder();
    SortExampleJoin();
    assert "S:A1" != "S:A10" by {
      assert |"S:A1"| != |"S:A10"|;
    }
    FmtOfTwoKeys("S:A1", "S:A10", 0.2, 0.1, fmt);
  }

  lemma FmtSortsRenderedItems(fmt: real -> string)
    requires fmt(0.2) == "0.200" && fmt(0.1) == "0.100"
    ensures StrLe("S:A1", "S:A10") && "S:A1" != "S:A10"
    ensures FmtVariants(InsertEntry(InsertEntry(Empty, "S:A1", 0.2), "S:A10", 0.1), fmt)
      == "S:A10:0.100 S:A1:0.200"
  {
    SortExampleInserts();
    SortExampleOrder();
    SortExampleRendered(fmt);
  }
}
