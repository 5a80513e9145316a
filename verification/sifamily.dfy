/** firkin's `SIFamily`: a family filled with the metric prefixes of one
    base unit. */
module SIPrefixes {
  import opened Results
  import opened Families

  /** kilo … yotta, each 1000 times the previous one. */
  const Large: seq<string> := ["k", "M", "G", "T", "P", "E", "Z", "Y"]
  /** milli … yocto, each 1/1000 of the previous one. */
  const Small: seq<string> := ["m", "µ", "n", "p", "f", "a", "z", "y"]
  /** The optional hecto, deca, deci and centi units with their factors. */
  const Extra: seq<(string, real)> := [("h", 100.0), ("da", 10.0), ("d", 0.1), ("c", 0.01)]

  function Pow(b: real, n: nat): real {
    if n == 0 then 1.0 else b * Pow(b, n - 1)
  }

  lemma PowPositive(b: real, n: nat)
    requires b > 0.0
    ensures Pow(b, n) > 0.0
  {
    if n > 0 {
      PowPositive(b, n - 1);
      Families.MulPositive(b, Pow(b, n - 1));
    }
  }

  lemma GrowStep(b: real, p: real, q: real)
    requires p > 0.0 && q == b * p
    ensures b > 1.0 ==> p < q
    ensures b < 1.0 ==> q < p
  {
    assert q - p == (b - 1.0) * p;
    if b > 1.0 { Families.MulPositive(b - 1.0, p); }
    if b < 1.0 { Families.MulPositive(1.0 - b, p); }
  }

  /** One more factor of a base above 1 makes a power grow; of a base
      below 1, shrink. */
  lemma PowStep(b: real, n: nat)
    requires b > 0.0
    ensures b > 1.0 ==> Pow(b, n) < Pow(b, n + 1)
    ensures b < 1.0 ==> Pow(b, n + 1) < Pow(b, n)
  {
    PowPositive(b, n);
    GrowStep(b, Pow(b, n), Pow(b, n + 1));
  }

  /** Powers of a base above 1 grow, powers of a base below 1 shrink. */
  lemma {:induction false} PowMonotone(b: real, m: nat, n: nat)
    requires b > 0.0 && m < n
    ensures b > 1.0 ==> Pow(b, m) < Pow(b, n)
    ensures b < 1.0 ==> Pow(b, n) < Pow(b, m)
    decreases n - m
  {
    PowStep(b, m);
    if m + 1 < n {
      PowMonotone(b, m + 1, n);
    }
  }

  lemma SuffixInjective(p1: string, p2: string, b: string)
    requires p1 + b == p2 + b
    ensures p1 == p2
  {
    assert |p1| == |p2|;
    assert p1 == (p1 + b)[..|p1|];
    assert p2 == (p2 + b)[..|p2|];
  }

  predicate NonEmpty(prefixes: seq<string>) {
    forall k :: 0 <= k < |prefixes| ==> |prefixes[k]| > 0
  }

  predicate NonEmptyDistinct(prefixes: seq<string>) {
    Distinct(prefixes) && NonEmpty(prefixes)
  }

  /** The unit names `prefix + base` for every prefix. */
  function NameSet(prefixes: seq<string>, base: string): set<string>
  {
    if |prefixes| == 0 then {} else {prefixes[0] + base} + NameSet(prefixes[1..], base)
  }

  lemma {:induction false} NameSetMembers(prefixes: seq<string>, base: string, x: string)
    ensures x in NameSet(prefixes, base) <==> exists k :: 0 <= k < |prefixes| && x == prefixes[k] + base
  {
    if |prefixes| > 0 {
      NameSetMembers(prefixes[1..], base, x);
      if exists k :: 0 <= k < |prefixes| && x == prefixes[k] + base {
        var k :| 0 <= k < |prefixes| && x == prefixes[k] + base;
        if k > 0 {
          assert x == prefixes[1..][k - 1] + base;
        }
      }
      if exists k :: 0 <= k < |prefixes[1..]| && x == prefixes[1..][k] + base {
        var k :| 0 <= k < |prefixes[1..]| && x == prefixes[1..][k] + base;
        assert x == prefixes[k + 1] + base;
      }
    }
  }

  /** A prefix outside the list gives a name outside its name set. */
  lemma NotInNameSet(prefixes: seq<string>, base: string, p: string)
    requires forall k :: 0 <= k < |prefixes| ==> prefixes[k] != p
    ensures p + base !in NameSet(prefixes, base)
  {
    NameSetMembers(prefixes, base, p + base);
    if p + base in NameSet(prefixes, base) {
      var k :| 0 <= k < |prefixes| && p + base == prefixes[k] + base;
      SuffixInjective(p, prefixes[k], base);
    }
  }

  /** Adding a unit with a positive factor of the base (factor 1) keeps the
      family positive. */
  lemma AddKeepsPositive(f: Family, name: string, factor: real)
    requires Valid(f) && f.units[f.base] == 1.0 && name != f.base
    ensures Positive(f) && factor > 0.0 ==> Positive(Add(f, name, factor, None).value)
  {
    if Positive(f) && factor > 0.0 {
      AddKeepsWellFormed(f, name, factor, None);
    }
  }

  /** The names of a list of (prefix, factor) entries. */
  function Prefixes(entries: seq<(string, real)>): (p: seq<string>)
    ensures |p| == |entries| && forall k :: 0 <= k < |p| ==> p[k] == entries[k].0
  {
    seq(|entries|, k requires 0 <= k < |entries| => entries[k].0)
  }

  /** The entries of the prefix loop: the first prefix gets `factor`, and
      the factor is multiplied by `ratio` before each next one. */
  function Geometric(prefixes: seq<string>, factor: real, ratio: real): (e: seq<(string, real)>)
    ensures |e| == |prefixes|
    ensures forall k :: 0 <= k < |e| ==> e[k].0 == prefixes[k]
    ensures |e| > 0 ==> e[0].1 == factor
    ensures forall k :: 0 < k < |e| ==> e[k].1 == e[k - 1].1 * ratio
    decreases |prefixes|
  {
    if |prefixes| == 0 then []
    else
      var rest := Geometric(prefixes[1..], factor * ratio, ratio);
      var e := [(prefixes[0], factor)] + rest;
      assert forall k :: 0 < k < |e| ==> e[k] == rest[k - 1];
      e
  }

  /** The loop started at a power of its ratio: the k-th prefix gets
      `a^(j+k)`. */
  lemma {:induction false} GeometricFrom(prefixes: seq<string>, a: real, j: nat, k: nat)
    requires k < |prefixes|
    ensures Geometric(prefixes, Pow(a, j), a)[k].1 == Pow(a, j + k)
    decreases k
  {
    if k > 0 {
      GeometricShift(prefixes, a, j, k);
      GeometricFrom(prefixes[1..], a, j + 1, k - 1);
      assert j + 1 + (k - 1) == j + k;
    }
  }

  lemma GeometricShift(prefixes: seq<string>, a: real, j: nat, k: nat)
    requires 0 < k < |prefixes|
    ensures Geometric(prefixes, Pow(a, j), a)[k] == Geometric(prefixes[1..], Pow(a, j + 1), a)[k - 1]
  {
    PowNext(a, j);
    GeometricStep(prefixes, Pow(a, j), a, Pow(a, j + 1), k);
  }

  /** The k-th entry of the loop is the (k-1)-th of the loop that starts
      one prefix later with the next factor. */
  lemma GeometricStep(prefixes: seq<string>, factor: real, ratio: real, next: real, k: nat)
    requires 0 < k < |prefixes| && next == factor * ratio
    ensures Geometric(prefixes, factor, ratio)[k] == Geometric(prefixes[1..], next, ratio)[k - 1]
  {
  }

  lemma PowNext(b: real, n: nat)
    ensures Pow(b, n) * b == Pow(b, n + 1)
  {
  }

  /** The loop in closed form when it starts at its ratio: the k-th prefix
      gets `a^(k+1)`. */
  lemma GeometricPow(prefixes: seq<string>, a: real, k: nat)
    requires k < |prefixes|
    ensures Geometric(prefixes, a, a)[k].1 == Pow(a, k + 1)
  {
    assert Pow(a, 1) == a;
    GeometricFrom(prefixes, a, 1, k);
  }

  lemma GeometricPrefixes(prefixes: seq<string>, factor: real, ratio: real)
    ensures Prefixes(Geometric(prefixes, factor, ratio)) == prefixes
  {
  }

  /** With a positive ratio every factor is positive. */
  lemma GeometricPositive(prefixes: seq<string>, a: real)
    requires a > 0.0
    ensures forall k :: 0 <= k < |prefixes| ==> Geometric(prefixes, a, a)[k].1 > 0.0
  {
    forall k | 0 <= k < |prefixes|
      ensures Geometric(prefixes, a, a)[k].1 > 0.0
    {
      GeometricPow(prefixes, a, k);
      PowPositive(a, k + 1);
    }
  }

  /** Adding `prefix + base` for every entry, with the entry's factor
      relative to the base: exactly the prefixed names are added, and the
      base keeps factor 1. */
  function AddEntries(f: Family, entries: seq<(string, real)>): (r: Family)
    requires Valid(f) && f.units[f.base] == 1.0 && NonEmpty(Prefixes(entries))
    ensures Valid(r) && r.name == f.name && r.base == f.base && r.units[r.base] == 1.0
    ensures r.units.Keys == f.units.Keys + NameSet(Prefixes(entries), f.base)
    ensures Positive(f) && (forall k :: 0 <= k < |entries| ==> entries[k].1 > 0.0) ==> Positive(r)
    decreases |entries|
  {
    if |entries| == 0 then f
    else
      var name := entries[0].0 + f.base;
      assert |name| > |f.base| by {
        assert Prefixes(entries)[0] == entries[0].0;
      }
      AddKeepsPositive(f, name, entries[0].1);
      var g := Add(f, name, entries[0].1, None).value;
      assert Prefixes(entries) == [entries[0].0] + Prefixes(entries[1..]);
      AddEntries(g, entries[1..])
  }

  /** Each prefixed unit gets its entry's factor (a multiple of the base),
      and every other unit keeps its factor. */
  lemma AddEntriesFactors(f: Family, entries: seq<(string, real)>)
    requires Valid(f) && f.units[f.base] == 1.0 && NonEmptyDistinct(Prefixes(entries))
    ensures var r := AddEntries(f, entries);
            && (forall k :: 0 <= k < |entries| ==>
                  entries[k].0 + f.base in r.units && r.units[entries[k].0 + f.base] == entries[k].1)
            && (forall u :: u in f.units && u !in NameSet(Prefixes(entries), f.base) ==> r.units[u] == f.units[u])
  {
    forall k | 0 <= k < |entries| {
      EntryFactor(f, entries, k);
    }
    forall u | u in f.units && u !in NameSet(Prefixes(entries), f.base) {
      EntryKeeps(f, entries, u);
    }
  }

  /** The k-th entry's unit gets the entry's factor: it is added at step k
      and no later entry names it again. */
  lemma {:induction false} EntryFactor(f: Family, entries: seq<(string, real)>, k: nat)
    requires Valid(f) && f.units[f.base] == 1.0 && NonEmptyDistinct(Prefixes(entries)) && k < |entries|
    ensures entries[k].0 + f.base in AddEntries(f, entries).units
    ensures AddEntries(f, entries).units[entries[k].0 + f.base] == entries[k].1
    decreases k
  {
    if k == 0 {
      FirstEntryFactor(f, entries);
    } else {
      var g := NextEntry(f, entries);
      EntriesTail(entries);
      EntryFactor(g, entries[1..], k - 1);
      TailAt(entries, k);
    }
  }

  lemma TailAt<T>(s: seq<T>, k: nat)
    requires 0 < k < |s|
    ensures s[1..][k - 1] == s[k]
  {
  }

  /** The first entry's unit is added first and never named again. */
  lemma FirstEntryFactor(f: Family, entries: seq<(string, real)>)
    requires Valid(f) && f.units[f.base] == 1.0 && NonEmptyDistinct(Prefixes(entries)) && |entries| > 0
    ensures entries[0].0 + f.base in AddEntries(f, entries).units
    ensures AddEntries(f, entries).units[entries[0].0 + f.base] == entries[0].1
  {
    var g := FirstEntry(f, entries);
    PrefixesTail(entries);
    DistinctTail(Prefixes(entries));
    NotInNameSet(Prefixes(entries[1..]), f.base, entries[0].0);
    EntryKeeps(g, entries[1..], entries[0].0 + f.base);
  }

  /** A unit that no entry names keeps its factor. */
  lemma {:induction false} EntryKeeps(f: Family, entries: seq<(string, real)>, u: string)
    requires Valid(f) && f.units[f.base] == 1.0 && NonEmpty(Prefixes(entries))
    requires u in f.units && u !in NameSet(Prefixes(entries), f.base)
    ensures u in AddEntries(f, entries).units
    ensures AddEntries(f, entries).units[u] == f.units[u]
    decreases |entries|
  {
    if |entries| > 0 {
      var g := FirstEntry(f, entries);
      EntryKeeps(g, entries[1..], u);
    }
  }

  lemma PrefixesTail(entries: seq<(string, real)>)
    requires |entries| > 0
    ensures Prefixes(entries[1..]) == Prefixes(entries)[1..]
  {
  }

  lemma EntriesTail(entries: seq<(string, real)>)
    requires |entries| > 0 && NonEmptyDistinct(Prefixes(entries))
    ensures NonEmptyDistinct(Prefixes(entries[1..]))
  {
    PrefixesTail(entries);
    DistinctTail(Prefixes(entries));
  }

  /** The tail of a list of distinct nonempty prefixes is one too, and
      does not hold the head. */
  lemma DistinctTail(p: seq<string>)
    requires |p| > 0 && NonEmptyDistinct(p)
    ensures NonEmptyDistinct(p[1..])
    ensures forall k :: 0 <= k < |p[1..]| ==> p[1..][k] != p[0]
  {
    forall k | 0 <= k < |p[1..]|
      ensures p[1..][k] != p[0]
    {
      assert p[1..][k] == p[k + 1];
    }
  }

  /** The family after the first entry, from which `AddEntries` goes on
      with the rest. */
  lemma NextEntry(f: Family, entries: seq<(string, real)>) returns (g: Family)
    requires Valid(f) && f.units[f.base] == 1.0 && NonEmpty(Prefixes(entries)) && |entries| > 0
    ensures Valid(g) && g.base == f.base && g.units[g.base] == 1.0
    ensures NonEmpty(Prefixes(entries[1..]))
    ensures AddEntries(f, entries) == AddEntries(g, entries[1..])
  {
    g := FirstEntry(f, entries);
  }

  /** The first step of `AddEntries`: the family after adding the first
      entry, from which the rest of the entries continue. */
  lemma FirstEntry(f: Family, entries: seq<(string, real)>) returns (g: Family)
    requires Valid(f) && f.units[f.base] == 1.0 && NonEmpty(Prefixes(entries)) && |entries| > 0
    ensures Valid(g) && g.base == f.base && g.units[g.base] == 1.0
    ensures NonEmpty(Prefixes(entries[1..]))
    ensures AddEntries(f, entries) == AddEntries(g, entries[1..])
    ensures g.units.Keys == f.units.Keys + {entries[0].0 + f.base}
    ensures g.units[entries[0].0 + f.base] == entries[0].1
    ensures forall u :: u in f.units && u != entries[0].0 + f.base ==> g.units[u] == f.units[u]
    ensures NameSet(Prefixes(entries), f.base) == {entries[0].0 + f.base} + NameSet(Prefixes(entries[1..]), f.base)
  {
    var name := entries[0].0 + f.base;
    assert Prefixes(entries) == [entries[0].0] + Prefixes(entries[1..]);
    assert |name| > |f.base| by {
      assert Prefixes(entries)[0] == entries[0].0;
    }
    g := Add(f, name, entries[0].1, None).value;
  }

  lemma PrefixesNonEmpty()
    ensures NonEmpty(Large) && NonEmpty(Small) && NonEmpty(Prefixes(Extra))
    ensures forall k :: 0 <= k < |Extra| ==> Extra[k].1 > 0.0
  {
  }

  /** The large and small prefixes are nonempty, pairwise distinct, and
      no prefix is both. */
  lemma LargeSmallTables()
    ensures NonEmptyDistinct(Large) && NonEmptyDistinct(Small) && Disjoint(Large, Small)
  {
  }

  /** The extended prefixes are nonempty, distinct, and differ from every
      large and small one. */
  lemma ExtraTable()
    ensures NonEmptyDistinct(Prefixes(Extra))
    ensures forall k, j :: 0 <= k < |Extra| && 0 <= j < |Large| ==> Extra[k].0 != Large[j]
    ensures forall k, j :: 0 <= k < |Extra| && 0 <= j < |Small| ==> Extra[k].0 != Small[j]
  {
  }

  /** The large and small prefix tables have no name in common. */
  predicate Disjoint(large: seq<string>, small: seq<string>) {
    forall i, j :: 0 <= i < |large| && 0 <= j < |small| ==> large[i] != small[j]
  }

  /** The two prefix loops of `SIFamily` for any pair of tables: the k-th
      large prefix gets 1000^(k+1), the k-th small one 1000^-(k+1). */
  function Prefixed(f0: Family, large: seq<string>, small: seq<string>): (f: Family)
    requires Valid(f0) && f0.units[f0.base] == 1.0 && NonEmpty(large) && NonEmpty(small)
    ensures Valid(f) && f.name == f0.name && f.base == f0.base && f.units[f.base] == 1.0
    ensures f.units.Keys == f0.units.Keys + NameSet(large, f0.base) + NameSet(small, f0.base)
    ensures Positive(f0) ==> Positive(f)
  {
    var ls := Geometric(large, 1000.0, 1000.0);
    var ss := Geometric(small, 0.001, 0.001);
    GeometricPositive(large, 1000.0);
    GeometricPositive(small, 0.001);
    GeometricPrefixes(large, 1000.0, 1000.0);
    GeometricPrefixes(small, 0.001, 0.001);
    AddEntries(AddEntries(f0, ls), ss)
  }

  /** The base with its 16 large and small prefixes. */
  function SIPrefixed(base: string, name: Option<string>): (f: Family)
    ensures WellFormed(f) && f.base == base
    ensures f.name == (if name.Some? then name.value else base)
    ensures f.units.Keys == {base} + NameSet(Large, base) + NameSet(Small, base)
  {
    PrefixesNonEmpty();
    Prefixed(Init(base, name), Large, Small)
  }

  /** The base with all 20 prefixes. */
  function SIExtended(base: string, name: Option<string>): (f: Family)
    ensures WellFormed(f) && f.base == base
    ensures f.name == (if name.Some? then name.value else base)
    ensures f.units.Keys == SIPrefixed(base, name).units.Keys + NameSet(Prefixes(Extra), base)
  {
    PrefixesNonEmpty();
    AddEntries(SIPrefixed(base, name), Extra)
  }

  /** `SIFamily(base, name, extended)`: a well-formed family over the base
      unit and its 16 (or, extended, 20) prefixed names. */
  function SIFamily(base: string, name: Option<string>, extended: bool): (f: Family)
    ensures WellFormed(f) && f.base == base
    ensures f.name == (if name.Some? then name.value else base)
    ensures f.units.Keys == {base} + NameSet(Large, base) + NameSet(Small, base)
                            + (if extended then NameSet(Prefixes(Extra), base) else {})
  {
    if extended then SIExtended(base, name) else SIPrefixed(base, name)
  }

  /** The `k`-th prefix of `prefixes` with `base` names a unit of `f`
      worth `ratio` to the power `k + 1`. */
  ghost predicate PowersOf(f: Family, prefixes: seq<string>, base: string, ratio: real) {
    forall k :: 0 <= k < |prefixes| ==>
      prefixes[k] + base in f.units && f.units[prefixes[k] + base] == Pow(ratio, k + 1)
  }

  /** Each prefix of `entries` with `base` names a unit of `f` worth the
      factor listed beside it. */
  ghost predicate HasEntries(f: Family, entries: seq<(string, real)>, base: string) {
    forall k :: 0 <= k < |entries| ==> entries[k].0 + base in f.units && f.units[entries[k].0 + base] == entries[k].1
  }

  /** Every prefixed unit of an SI family has the factor its prefix
      denotes: kilo is 1000^1, mega 1000^2, …, milli 1000^-1, and so on. */
  lemma SIPrefixedFactors(base: string, name: Option<string>)
    ensures PowersOf(SIPrefixed(base, name), Large, base, 1000.0)
    ensures PowersOf(SIPrefixed(base, name), Small, base, 0.001)
  {
    forall k | 0 <= k < |Large| {
      LargeFactor(base, name, k);
    }
    forall k | 0 <= k < |Small| {
      SmallFactor(base, name, k);
    }
  }

  lemma LargeFactor(base: string, name: Option<string>, k: nat)
    requires k < |Large|
    ensures Large[k] + base in SIPrefixed(base, name).units
    ensures SIPrefixed(base, name).units[Large[k] + base] == Pow(1000.0, k + 1)
  {
    LargeSmallTables();
    PrefixedLarge(Init(base, name), Large, Small, k);
  }

  lemma SmallFactor(base: string, name: Option<string>, k: nat)
    requires k < |Small|
    ensures Small[k] + base in SIPrefixed(base, name).units
    ensures SIPrefixed(base, name).units[Small[k] + base] == Pow(0.001, k + 1)
  {
    LargeSmallTables();
    PrefixedSmall(Init(base, name), Large, Small, k);
  }

  /** The k-th large prefix gets 1000^(k+1): the small loop does not touch
      it, since no small prefix equals it. */
  lemma PrefixedLarge(f0: Family, large: seq<string>, small: seq<string>, k: nat)
    requires Valid(f0) && f0.units[f0.base] == 1.0
    requires NonEmptyDistinct(large) && NonEmptyDistinct(small) && Disjoint(large, small) && k < |large|
    ensures large[k] + f0.base in Prefixed(f0, large, small).units
    ensures Prefixed(f0, large, small).units[large[k] + f0.base] == Pow(1000.0, k + 1)
  {
    var u := large[k] + f0.base;
    var f1 := FirstLoop(f0, large, small);
    assert u in f1.units && f1.units[u] == Pow(1000.0, k + 1) by {
      FirstLoopAt(f0, large, small, k);
    }
    NotInNameSet(small, f0.base, large[k]);
    SecondLoopKeeps(f0, large, small, u);
  }

  /** The k-th small prefix gets 1000^-(k+1). */
  lemma PrefixedSmall(f0: Family, large: seq<string>, small: seq<string>, k: nat)
    requires Valid(f0) && f0.units[f0.base] == 1.0
    requires NonEmptyDistinct(large) && NonEmptyDistinct(small) && k < |small|
    ensures small[k] + f0.base in Prefixed(f0, large, small).units
    ensures Prefixed(f0, large, small).units[small[k] + f0.base] == Pow(0.001, k + 1)
  {
    var f1 := FirstLoop(f0, large, small);
    LoopAt(f1, small, 0.001, k);
  }

  /** The family after the loop over the large prefixes. */
  function FirstLoop(f0: Family, large: seq<string>, small: seq<string>): (f1: Family)
    requires Valid(f0) && f0.units[f0.base] == 1.0 && NonEmpty(large) && NonEmpty(small)
    ensures Valid(f1) && f1.base == f0.base && f1.units[f1.base] == 1.0
    ensures Prefixed(f0, large, small) == AddEntries(f1, Geometric(small, 0.001, 0.001))
  {
    GeometricPrefixes(large, 1000.0, 1000.0);
    GeometricPrefixes(small, 0.001, 0.001);
    AddEntries(f0, Geometric(large, 1000.0, 1000.0))
  }

  lemma FirstLoopAt(f0: Family, large: seq<string>, small: seq<string>, k: nat)
    requires Valid(f0) && f0.units[f0.base] == 1.0
    requires NonEmptyDistinct(large) && NonEmpty(small) && k < |large|
    ensures large[k] + f0.base in FirstLoop(f0, large, small).units
    ensures FirstLoop(f0, large, small).units[large[k] + f0.base] == Pow(1000.0, k + 1)
  {
    LoopAt(f0, large, 1000.0, k);
  }

  /** One prefix loop with ratio `a` starting at `a`: the k-th prefix gets
      `a^(k+1)`. */
  lemma LoopAt(f0: Family, prefixes: seq<string>, a: real, k: nat)
    requires Valid(f0) && f0.units[f0.base] == 1.0
    requires NonEmptyDistinct(prefixes) && k < |prefixes|
    ensures prefixes[k] + f0.base in AddEntries(f0, Geometric(prefixes, a, a)).units
    ensures AddEntries(f0, Geometric(prefixes, a, a)).units[prefixes[k] + f0.base] == Pow(a, k + 1)
  {
    var es := Geometric(prefixes, a, a);
    GeometricPrefixes(prefixes, a, a);
    EntryFactor(f0, es, k);
    GeometricPow(prefixes, a, k);
  }

  lemma SecondLoopKeeps(f0: Family, large: seq<string>, small: seq<string>, u: string)
    requires Valid(f0) && f0.units[f0.base] == 1.0
    requires NonEmpty(large) && NonEmptyDistinct(small)
    requires u in FirstLoop(f0, large, small).units && u !in NameSet(small, f0.base)
    ensures u in Prefixed(f0, large, small).units
    ensures Prefixed(f0, large, small).units[u] == FirstLoop(f0, large, small).units[u]
  {
    var ss := Geometric(small, 0.001, 0.001);
    GeometricPrefixes(small, 0.001, 0.001);
    EntryKeeps(FirstLoop(f0, large, small), ss, u);
  }

  /** Adding the extended prefixes leaves every other unit alone. */
  lemma ExtendedKeeps(base: string, name: Option<string>, u: string)
    requires u in SIPrefixed(base, name).units && u !in NameSet(Prefixes(Extra), base)
    ensures u in SIExtended(base, name).units
    ensures SIExtended(base, name).units[u] == SIPrefixed(base, name).units[u]
  {
    ExtraTable();
    AddEntriesFactors(SIPrefixed(base, name), Extra);
  }

  /** The extended prefixes get 100, 10, 0.1 and 0.01. */
  lemma ExtraFactors(base: string, name: Option<string>)
    ensures HasEntries(SIExtended(base, name), Extra, base)
  {
    ExtraTable();
    AddEntriesFactors(SIPrefixed(base, name), Extra);
  }

  /** The extended family keeps the factors of the 16 large and small
      prefixes. */
  lemma SIExtendedFactors(base: string, name: Option<string>)
    ensures PowersOf(SIExtended(base, name), Large, base, 1000.0)
    ensures PowersOf(SIExtended(base, name), Small, base, 0.001)
  {
    forall k | 0 <= k < |Large| {
      ExtendedLarge(base, name, k);
    }
    forall k | 0 <= k < |Small| {
      ExtendedSmall(base, name, k);
    }
  }

  lemma ExtendedLarge(base: string, name: Option<string>, k: nat)
    requires k < |Large|
    ensures Large[k] + base in SIExtended(base, name).units
    ensures SIExtended(base, name).units[Large[k] + base] == Pow(1000.0, k + 1)
  {
    LargeFactor(base, name, k);
    ExtraAvoids(base, Large[k]);
    ExtendedKeeps(base, name, Large[k] + base);
  }

  lemma ExtendedSmall(base: string, name: Option<string>, k: nat)
    requires k < |Small|
    ensures Small[k] + base in SIExtended(base, name).units
    ensures SIExtended(base, name).units[Small[k] + base] == Pow(0.001, k + 1)
  {
    SmallFactor(base, name, k);
    ExtraAvoids(base, Small[k]);
    ExtendedKeeps(base, name, Small[k] + base);
  }

  /** No large or small prefixed name is an extended one. */
  lemma ExtraAvoids(base: string, p: string)
    requires p in Large || p in Small
    ensures p + base !in NameSet(Prefixes(Extra), base)
  {
    ExtraTable();
    NotInNameSet(Prefixes(Extra), base, p);
  }

  /** Every prefixed unit of an SI family, extended or not, has the factor
      its prefix denotes. */
  lemma SIFamilyFactors(base: string, name: Option<string>, extended: bool)
    ensures PowersOf(SIFamily(base, name, extended), Large, base, 1000.0)
    ensures PowersOf(SIFamily(base, name, extended), Small, base, 0.001)
    ensures extended ==> HasEntries(SIFamily(base, name, extended), Extra, base)
  {
    if extended {
      SIExtendedFactors(base, name);
      ExtraFactors(base, name);
    } else {
      SIPrefixedFactors(base, name);
    }
  }

  /** A unit of an SI family is its base or carries one of the 16 (20)
      prefixes. */
  lemma SIUnits(base: string, name: Option<string>, extended: bool, v: string)
    requires v in SIFamily(base, name, extended).units
    ensures || v == base
            || (exists k :: 0 <= k < |Large| && v == Large[k] + base)
            || (exists k :: 0 <= k < |Small| && v == Small[k] + base)
            || (extended && exists k :: 0 <= k < |Extra| && v == Extra[k].0 + base)
  {
    UnitsCases(SIFamily(base, name, extended).units.Keys, base, Large, Small, Extra, extended, v);
  }

  /** The case split of `SIUnits`, over any prefix tables. */
  lemma UnitsCases(keys: set<string>, base: string, large: seq<string>, small: seq<string>,
                   extra: seq<(string, real)>, extended: bool, v: string)
    requires keys == {base} + NameSet(large, base) + NameSet(small, base)
                     + (if extended then NameSet(Prefixes(extra), base) else {})
    requires v in keys
    ensures || v == base
            || (exists k :: 0 <= k < |large| && v == large[k] + base)
            || (exists k :: 0 <= k < |small| && v == small[k] + base)
            || (extended && exists k :: 0 <= k < |extra| && v == extra[k].0 + base)
  {
    if v in NameSet(large, base) {
      NameSetMembers(large, base, v);
    } else if v in NameSet(small, base) {
      NameSetMembers(small, base, v);
    } else if v != base {
      assert extended && v in NameSet(Prefixes(extra), base);
      NameSetMembers(Prefixes(extra), base, v);
      var k :| 0 <= k < |Prefixes(extra)| && v == Prefixes(extra)[k] + base;
      assert v == extra[k].0 + base;
    }
  }

  /** In a positive family where `km` is 1000 and `mm` is 0.001 of the
      base and no other unit lies between 0.001 and 0.365, 10^8 mm are
      100 km and 0.000365 km are best written as 365 mm. */
  lemma MilliKilo(f: Family, km: string, mm: string)
    requires Positive(f) && km in f.units && mm in f.units
    requires f.units[km] == 1000.0 && f.units[mm] == 0.001
    requires forall v :: v in f.units && v != mm ==> f.units[v] < 0.001 || 0.365 < f.units[v]
    ensures Convert(f, 100000000.0, mm, km) == Success((100.0, km))
    ensures Autoconvert(f, 0.000365, km) == Success((365.0, mm))
  {
    var c := Convert(f, 100000000.0, mm, km);
    assert c.value.0 * 1000.0 == 100000.0;
    var q := InBase(f, 0.000365, km);
    assert q == 0.365;
    AutoconvertChooses(f, 0.000365, km, mm);
    MilliQuotient(q, f.units[mm]);
  }

  lemma MilliQuotient(q: real, c: real)
    requires q == 0.365 && c == 0.001
    ensures q / c == 365.0
  {
  }

  /** In the metre-like family of any base, the milli unit is the only one
      between 0.001 and 0.365 of the base. */
  lemma MilliBracket(base: string)
    ensures var f := SIPrefixed(base, None);
            forall v :: v in f.units && v != "m" + base ==> f.units[v] < 0.001 || 0.365 < f.units[v]
  {
    var f := SIPrefixed(base, None);
    forall v | v in f.units && v != "m" + base
      ensures f.units[v] < 0.001 || 0.365 < f.units[v]
    {
      OutsideBracket(base, v);
    }
  }

  lemma OutsideBracket(base: string, v: string)
    requires v in SIPrefixed(base, None).units && v != "m" + base
    ensures SIPrefixed(base, None).units[v] < 0.001 || 0.365 < SIPrefixed(base, None).units[v]
  {
    SIUnits(base, None, false, v);
    if v != base {
      if k :| 0 <= k < |Large| && v == Large[k] + base {
        LargeAbove(base, k);
      } else {
        var k :| 0 <= k < |Small| && v == Small[k] + base;
        assert Small[0] == "m";
        SmallBelow(base, k);
      }
    }
  }

  /** Every large prefix is at least 1000 times the base. */
  lemma LargeAbove(base: string, k: nat)
    requires k < |Large|
    ensures Large[k] + base in SIPrefixed(base, None).units
    ensures SIPrefixed(base, None).units[Large[k] + base] > 0.365
  {
    LargeFactor(base, None, k);
    PowMonotone(1000.0, 0, k + 1);
  }

  /** Every small prefix after milli is below 1/1000 of the base. */
  lemma SmallBelow(base: string, k: nat)
    requires 0 < k < |Small|
    ensures Small[k] + base in SIPrefixed(base, None).units
    ensures SIPrefixed(base, None).units[Small[k] + base] < 0.001
  {
    SmallFactor(base, None, k);
    PowBelowMilli(k + 1);
  }

  lemma PowBelowMilli(n: nat)
    requires n > 1
    ensures Pow(0.001, n) < 0.001
  {
    PowMonotone(0.001, 1, n);
    assert Pow(0.001, 1) == 0.001;
  }

  /** The documented examples, for any base unit (the source shows the
      metre): 10^8 milli-units are 100 kilo-units, and 0.000365 kilo-units
      are best written as 365 milli-units. */
  lemma PrefixExamples(base: string)
    ensures Convert(SIFamily(base, None, false), 100000000.0, "m" + base, "k" + base) == Success((100.0, "k" + base))
    ensures Autoconvert(SIFamily(base, None, false), 0.000365, "k" + base) == Success((365.0, "m" + base))
  {
    var f := SIPrefixed(base, None);
    SIPrefixedFactors(base, None);
    assert Large[0] + base == "k" + base && Small[0] + base == "m" + base;
    MilliBracket(base);
    MilliKilo(f, "k" + base, "m" + base);
  }
}
