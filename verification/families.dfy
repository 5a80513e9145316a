/** A family of units derived from one base unit (firkin's `Family`):
    creation, adding a unit, converting inside the family, and choosing the
    unit that presents an amount at human scale (`autoconvert`). */
module Families {
  import opened Results

  /** The exceptions the engine raises, kept distinguishable. */
  datatype Error =
    | UnknownUnit(unit: string)       // KeyError on a unit name
    | UnknownFamily(family: string)   // KeyError on a family name
    | UnknownGroup(group: string)     // KeyError on a group tag
    | DivisionByZero                  // division by a zero factor

  /** `units[u]` is the factor that turns an amount of `u` into an amount
      of the base unit. `names` lists the units in the order they were
      first added, which is the order the unit dictionary is iterated in. */
  datatype Family = Family(name: string, base: string, units: map<string, real>, names: seq<string>)

  predicate Distinct(s: seq<string>) {
    forall i, j :: 0 <= i < j < |s| ==> s[i] != s[j]
  }

  predicate AllIn(m: map<string, real>, s: seq<string>) {
    forall k :: 0 <= k < |s| ==> s[k] in m
  }

  /** The shape every family built by `Init` and `Add` has. */
  ghost predicate Valid(f: Family) {
    && f.base in f.units
    && Distinct(f.names)
    && (forall u :: u in f.units <==> u in f.names)
  }

  /** A valid family whose factors are all strictly positive. */
  ghost predicate Positive(f: Family) {
    Valid(f) && forall u :: u in f.units ==> f.units[u] > 0.0
  }

  /** A positive family whose base unit still has factor 1. */
  ghost predicate WellFormed(f: Family) {
    Positive(f) && f.units[f.base] == 1.0
  }

  /** `Family(base, name)`: the base unit alone, with factor 1; the family
      is named after its base unless a name is given. */
  function Init(base: string, name: Option<string>): (f: Family)
    ensures WellFormed(f)
    ensures f.units.Keys == {base} && f.base == base
    ensures f.name == (if name.Some? then name.value else base)
  {
    Family(if name.Some? then name.value else base, base, map[base := 1.0], [base])
  }

  /** `Family.add(name, factor, other)`: the new unit is `factor` times
      `other`, which defaults to the base unit. */
  function Add(f: Family, name: string, factor: real, other: Option<string>): (r: Result<Family, Error>)
    requires Valid(f)
    ensures var o := if other.Some? then other.value else f.base;
            && (r.Failure? <==> o !in f.units)
            && (r.Failure? ==> r.error == UnknownUnit(o))
            && (r.Success? ==>
                  && Valid(r.value)
                  && r.value.name == f.name && r.value.base == f.base
                  && r.value.units.Keys == f.units.Keys + {name}
                  && r.value.units[name] == f.units[o] * factor
                  && (forall u :: u in f.units && u != name ==> r.value.units[u] == f.units[u]))
  {
    var o := if other.Some? then other.value else f.base;
    if o !in f.units then Failure(UnknownUnit(o))
    else
      var names := if name in f.units then f.names else f.names + [name];
      Success(f.(units := f.units[name := f.units[o] * factor], names := names))
  }

  /** Adding a unit other than the base with a positive factor keeps a
      family well formed. */
  lemma AddKeepsWellFormed(f: Family, name: string, factor: real, other: Option<string>)
    requires WellFormed(f) && factor > 0.0 && name != f.base
    requires other.None? || other.value in f.units
    ensures Add(f, name, factor, other).Success?
    ensures WellFormed(Add(f, name, factor, other).value)
  {
    var o := if other.Some? then other.value else f.base;
    var g := Add(f, name, factor, other).value;
    forall u | u in g.units
      ensures g.units[u] > 0.0
    {
      if u == name {
        AddFactorPositive(f, name, factor, o);
      } else {
        assert u in f.units;
      }
    }
  }

  /** The factor of the added unit is positive when both the factor of
      `other` and the given factor are. */
  lemma AddFactorPositive(f: Family, name: string, factor: real, o: string)
    requires Positive(f) && o in f.units && factor > 0.0
    ensures Add(f, name, factor, Some(o)).value.units[name] > 0.0
    ensures Add(f, name, factor, None).value.units[name] > 0.0
  {
    MulPositive(f.units[o], factor);
  }

  lemma MulPositive(x: real, y: real)
    requires x > 0.0 && y > 0.0
    ensures x * y > 0.0
  {
  }

  /** `amount` of `unit`, expressed in the family's base unit. */
  function InBase(f: Family, amount: real, unit: string): real
    requires unit in f.units
  {
    amount * f.units[unit]
  }

  /** `Family.convert(amount, unit, dest)`: the same quantity expressed in
      `dest`. */
  function Convert(f: Family, amount: real, unit: string, dest: string): (r: Result<(real, string), Error>)
    ensures r.Failure? <==> unit !in f.units || dest !in f.units || f.units[dest] == 0.0
    ensures r.Failure? ==> r.error == (if unit !in f.units then UnknownUnit(unit)
                                       else if dest !in f.units then UnknownUnit(dest)
                                       else DivisionByZero)
    ensures r.Success? ==> r.value.1 == dest && r.value.0 * f.units[dest] == amount * f.units[unit]
  {
    if unit !in f.units then Failure(UnknownUnit(unit))
    else if dest !in f.units then Failure(UnknownUnit(dest))
    else if f.units[dest] == 0.0 then Failure(DivisionByZero)
    else Success((amount * f.units[unit] / f.units[dest], dest))
  }

  /** Converting to the unit one started from changes nothing. */
  lemma ConvertIdentity(f: Family, amount: real, unit: string)
    requires unit in f.units && f.units[unit] != 0.0
    ensures Convert(f, amount, unit, unit) == Success((amount, unit))
  {
    var c := f.units[unit];
    assert amount * c / c == amount;
  }

  /** Converting there and back returns the starting amount. */
  lemma ConvertRoundTrip(f: Family, amount: real, a: string, b: string)
    requires a in f.units && b in f.units && f.units[a] != 0.0 && f.units[b] != 0.0
    ensures Convert(f, amount, a, b).Success?
    ensures Convert(f, Convert(f, amount, a, b).value.0, b, a) == Success((amount, a))
  {
    var x := Convert(f, amount, a, b).value.0;
    var y := Convert(f, x, b, a).value.0;
    assert y * f.units[a] == amount * f.units[a];
    MulCancel(y, amount, f.units[a]);
  }

  /** Converting a to b and then b to c is converting a to c. */
  lemma ConvertCompose(f: Family, amount: real, a: string, b: string, c: string)
    requires a in f.units && b in f.units && c in f.units
    requires f.units[b] != 0.0 && f.units[c] != 0.0
    ensures Convert(f, Convert(f, amount, a, b).value.0, b, c) == Convert(f, amount, a, c)
  {
    var x := Convert(f, amount, a, b).value.0;
    var y := Convert(f, x, b, c).value.0;
    var z := Convert(f, amount, a, c).value.0;
    assert y * f.units[c] == z * f.units[c];
    MulCancel(y, z, f.units[c]);
  }

  lemma MulCancel(x: real, y: real, c: real)
    requires c != 0.0 && x * c == y * c
    ensures x == y
  {
    assert (x - y) * c == 0.0;
  }

  // ---------------------------------------------------------------------
  // Sorting units by factor (Python's stable `sorted` with a factor key)

  predicate SortedBy(m: map<string, real>, s: seq<string>)
    requires AllIn(m, s)
  {
    forall i, j :: 0 <= i < j < |s| ==> m[s[i]] <= m[s[j]]
  }

  /** Inserts `x` before the first element with a strictly larger factor,
      so that equal factors keep their order. */
  function Insert(m: map<string, real>, x: string, s: seq<string>): (r: seq<string>)
    requires x in m && AllIn(m, s)
    ensures AllIn(m, r) && |r| == |s| + 1
    ensures multiset(r) == multiset(s) + multiset{x}
    ensures r[0] == x || (|s| > 0 && r[0] == s[0])
  {
    if |s| == 0 then [x]
    else if m[x] < m[s[0]] then [x] + s
    else
      assert s == [s[0]] + s[1..];
      [s[0]] + Insert(m, x, s[1..])
  }

  lemma {:induction false} InsertSorted(m: map<string, real>, x: string, s: seq<string>)
    requires x in m && AllIn(m, s) && SortedBy(m, s)
    ensures SortedBy(m, Insert(m, x, s))
  {
    if |s| > 0 && m[x] >= m[s[0]] {
      var t := Insert(m, x, s[1..]);
      InsertSorted(m, x, s[1..]);
      var r := [s[0]] + t;
      forall i, j | 0 <= i < j < |r|
        ensures m[r[i]] <= m[r[j]]
      {
        if i == 0 {
          assert m[s[0]] <= m[t[0]];
          if j > 1 {
            assert m[t[0]] <= m[t[j - 1]];
          }
        } else {
          assert r[i] == t[i - 1] && r[j] == t[j - 1];
        }
      }
    }
  }

  lemma {:induction false} InsertDistinct(m: map<string, real>, x: string, s: seq<string>)
    requires x in m && AllIn(m, s)
    ensures Distinct(s) && x !in s ==> Distinct(Insert(m, x, s))
  {
    if Distinct(s) && x !in s && |s| > 0 && m[x] >= m[s[0]] {
      var t := Insert(m, x, s[1..]);
      InsertDistinct(m, x, s[1..]);
      assert s[0] !in multiset(t);
      var r := [s[0]] + t;
      forall i, j | 0 <= i < j < |r|
        ensures r[i] != r[j]
      {
        if i == 0 {
          assert t[j - 1] in t;
        } else {
          assert r[i] == t[i - 1] && r[j] == t[j - 1];
        }
      }
    }
  }

  function Sort(m: map<string, real>, s: seq<string>): (r: seq<string>)
    requires AllIn(m, s)
    ensures AllIn(m, r) && |r| == |s|
    ensures multiset(r) == multiset(s)
    ensures SortedBy(m, r)
    ensures Distinct(s) ==> Distinct(r)
  {
    if |s| == 0 then []
    else
      var init := s[..|s| - 1];
      var x := s[|s| - 1];
      assert s == init + [x];
      var t := Sort(m, init);
      InsertSorted(m, x, t);
      assert Distinct(s) ==> x !in init && x !in multiset(t);
      InsertDistinct(m, x, t);
      Insert(m, x, t)
  }

  /** The family's units ordered by ascending factor. */
  function SortByFactor(f: Family): (r: seq<string>)
    requires Valid(f)
    ensures AllIn(f.units, r) && SortedBy(f.units, r) && Distinct(r)
    ensures multiset(r) == multiset(f.names)
    ensures forall u :: u in f.units <==> u in r
  {
    var r := Sort(f.units, f.names);
    assert forall u :: u in r <==> u in multiset(f.names);
    r
  }

  // ---------------------------------------------------------------------
  // autoconvert

  /** One turn of the loop of `Family.autoconvert` over the unit order
      `s`, starting at position `i`: convert to `s[i]`, and stop there when
      the amount is smaller than the ratio to the next unit's factor; on
      the last position, convert and stop. */
  function AutoStep(f: Family, s: seq<string>, i: nat, amount: real, unit: string): (r: Result<(real, string), Error>)
    requires AllIn(f.units, s) && i < |s|
    ensures r.Failure? ==> r.error == (if unit !in f.units then UnknownUnit(unit) else DivisionByZero)
    ensures unit in f.units && (forall j :: i <= j < |s| ==> f.units[s[j]] != 0.0) ==> r.Success?
    ensures r.Success? ==> exists j :: i <= j < |s| && r.value.1 == s[j]
    ensures r.Success? ==> unit in f.units && r.value.1 in f.units
                           && InBase(f, r.value.0, r.value.1) == InBase(f, amount, unit)
    decreases |s| - i
  {
    var (a, u) :- Convert(f, amount, unit, s[i]);
    if i == |s| - 1 then Success((a, u))
    else if a < f.units[s[i + 1]] / f.units[s[i]] then Success((a, u))
    else AutoStep(f, s, i + 1, a, u)
  }

  /** `autoconvert` over a given ascending unit order `s`. */
  function AutoconvertIn(f: Family, s: seq<string>, amount: real, unit: string): (r: Result<(real, string), Error>)
    requires AllIn(f.units, s) && |s| > 0
    ensures unit !in f.units ==> r == Failure(UnknownUnit(unit))
    ensures unit in f.units && (forall j :: 0 <= j < |s| ==> f.units[s[j]] != 0.0) ==> r.Success?
    ensures r.Success? ==> unit in f.units && r.value.1 in s
                           && InBase(f, r.value.0, r.value.1) == InBase(f, amount, unit)
  {
    AutoStep(f, s, 0, amount, unit)
  }

  /** `Family.autoconvert(amount, unit)`: an unknown unit raises; in a
      family with positive factors the answer is the same quantity in one
      of the family's units. */
  function Autoconvert(f: Family, amount: real, unit: string): (r: Result<(real, string), Error>)
    requires Valid(f)
    ensures unit !in f.units ==> r == Failure(UnknownUnit(unit))
    ensures r.Success? ==> unit in f.units && r.value.1 in f.units
                           && InBase(f, r.value.0, r.value.1) == InBase(f, amount, unit)
    ensures Positive(f) && unit in f.units ==> r.Success?
  {
    var s := SortByFactor(f);
    assert f.base in s;
    AutoconvertOver(f, s, amount, unit);
    AutoconvertIn(f, s, amount, unit)
  }

  /** Over an order holding exactly the family's units, the loop answers
      in a unit of the family and, when every factor is positive, cannot
      fail on a known unit. */
  lemma AutoconvertOver(f: Family, s: seq<string>, amount: real, unit: string)
    requires AllIn(f.units, s) && |s| > 0
    requires forall u :: u in f.units <==> u in s
    ensures var r := AutoconvertIn(f, s, amount, unit);
            && (unit !in f.units ==> r == Failure(UnknownUnit(unit)))
            && (r.Success? ==> unit in f.units && r.value.1 in f.units
                               && InBase(f, r.value.0, r.value.1) == InBase(f, amount, unit))
            && (Positive(f) && unit in f.units ==> r.Success?)
  {
    if Positive(f) {
      assert forall j :: 0 <= j < |s| ==> f.units[s[j]] != 0.0;
    }
  }

  /** Where `autoconvert` stops when the amount is `q` in base units: the
      first position `k` whose successor's factor exceeds `q`, or the last
      position. Independent of the conversions the loop performs. */
  ghost function FitIndex(m: map<string, real>, s: seq<string>, q: real, i: nat): (k: nat)
    requires AllIn(m, s) && i < |s|
    ensures i <= k < |s|
    ensures forall j :: i < j <= k ==> m[s[j]] <= q
    ensures k < |s| - 1 ==> q < m[s[k + 1]]
    decreases |s| - i
  {
    if i == |s| - 1 || q < m[s[i + 1]] then i else FitIndex(m, s, q, i + 1)
  }

  lemma DivMul(x: real, c: real)
    requires c != 0.0
    ensures x / c * c == x
  {
  }

  lemma DivAtLeastOne(q: real, c: real)
    requires 0.0 < c <= q
    ensures q / c >= 1.0
  {
  }

  lemma DivLess(x: real, y: real, c: real)
    requires c > 0.0
    ensures x / c < y / c <==> x < y
  {
    if x < y {
      assert (y - x) / c > 0.0;
    } else {
      assert (x - y) / c >= 0.0;
    }
  }

  /** The loop of `autoconvert` returns the quantity `q`, which is
      `amount` of `unit` in base units, expressed in the unit at any
      position `k` that satisfies the stopping rule; the quantity never
      changes on the way. */
  lemma {:induction false} AutoStepStopsAt(f: Family, s: seq<string>, i: nat, amount: real, unit: string, q: real, k: nat)
    requires Positive(f) && AllIn(f.units, s) && unit in f.units
    requires q == InBase(f, amount, unit)
    requires i <= k < |s|
    requires forall j :: i < j <= k ==> f.units[s[j]] <= q
    requires k < |s| - 1 ==> q < f.units[s[k + 1]]
    ensures AutoStep(f, s, i, amount, unit) == Success((q / f.units[s[k]], s[k]))
    decreases |s| - i
  {
    var ci := f.units[s[i]];
    assert ci > 0.0;
    var a := q / ci;
    var c := Convert(f, amount, unit, s[i]);
    assert c.Success? && c.value.0 == amount * f.units[unit] / ci;
    assert c == Success((a, s[i]));
    if i < |s| - 1 {
      var cn := f.units[s[i + 1]];
      DivLess(q, cn, ci);
      if i < k {
        InBaseOfShare(f, q, s[i]);
        AutoStepStopsAt(f, s, i + 1, a, s[i], q, k);
      }
    }
  }

  /** `autoconvert` over any order of the family's units answers with the
      unit the stopping rule names, showing the same quantity. */
  lemma AutoconvertInPicks(f: Family, s: seq<string>, amount: real, unit: string)
    requires Positive(f) && AllIn(f.units, s) && |s| > 0 && unit in f.units
    ensures var q := InBase(f, amount, unit);
            var k := FitIndex(f.units, s, q, 0);
            AutoconvertIn(f, s, amount, unit) == Success((q / f.units[s[k]], s[k]))
  {
    var q := InBase(f, amount, unit);
    var k := FitIndex(f.units, s, q, 0);
    AutoStepStopsAt(f, s, 0, amount, unit, q, k);
  }

  /** Expressing a base quantity in a unit and reading it back in base
      units gives the quantity back. */
  lemma InBaseOfShare(f: Family, q: real, u: string)
    requires u in f.units && f.units[u] != 0.0
    ensures InBase(f, q / f.units[u], u) == q
  {
    DivMul(q, f.units[u]);
  }

  /** With units in ascending factor order, a zero or negative amount is
      always shown in the first (smallest) unit. */
  lemma AutoconvertNonPositive(f: Family, s: seq<string>, amount: real, unit: string)
    requires Positive(f) && AllIn(f.units, s) && |s| > 0 && unit in f.units
    requires amount <= 0.0
    ensures AutoconvertIn(f, s, amount, unit).Success?
    ensures AutoconvertIn(f, s, amount, unit).value.1 == s[0]
  {
    var q := InBase(f, amount, unit);
    NonPositiveInBase(amount, f.units[unit]);
    AutoconvertInPicks(f, s, amount, unit);
    if |s| > 1 {
      assert f.units[s[1]] > 0.0;
    }
  }

  lemma NonPositiveInBase(amount: real, c: real)
    requires amount <= 0.0 && c > 0.0
    ensures amount * c <= 0.0
  {
  }

  /** The human-scale promise of `Family.autoconvert`, stated without the
      loop: the chosen unit shows the amount as at least 1 unless it is a
      smallest unit, and every unit with a larger factor would show it as
      less than 1. */
  lemma AutoconvertScaled(f: Family, amount: real, unit: string)
    requires Positive(f) && unit in f.units
    ensures var r := Autoconvert(f, amount, unit);
            && r.Success? && r.value.1 in f.units
            && InBase(f, r.value.0, r.value.1) == InBase(f, amount, unit)
            && (r.value.0 >= 1.0 || forall v :: v in f.units ==> f.units[r.value.1] <= f.units[v])
            && (forall v :: v in f.units ==> f.units[v] <= f.units[r.value.1] || InBase(f, amount, unit) < f.units[v])
  {
    var s := SortByFactor(f);
    var q := InBase(f, amount, unit);
    var k := FitIndex(f.units, s, q, 0);
    AutoconvertInPicks(f, s, amount, unit);
    InBaseOfShare(f, q, s[k]);
    FitIndexBrackets(f.units, s, q);
    if k > 0 {
      DivAtLeastOne(q, f.units[s[k]]);
    }
  }

  /** In ascending order, the stopping position of `autoconvert` is the
      last unit whose factor does not exceed `q` (or the first unit when
      every factor exceeds it). */
  lemma FitIndexBrackets(m: map<string, real>, s: seq<string>, q: real)
    requires AllIn(m, s) && SortedBy(m, s) && |s| > 0
    ensures var k := FitIndex(m, s, q, 0);
            && (k == 0 || m[s[k]] <= q)
            && (k == 0 ==> forall v :: v in s ==> m[s[k]] <= m[v])
            && (forall v :: v in s ==> m[v] <= m[s[k]] || q < m[v])
  {
    var k := FitIndex(m, s, q, 0);
    forall v | v in s
      ensures m[v] <= m[s[k]] || q < m[v]
    {
      var j :| 0 <= j < |s| && s[j] == v;
      if j > k {
        assert m[s[k + 1]] <= m[s[j]];
      }
    }
    if k == 0 {
      forall v | v in s
        ensures m[s[k]] <= m[v]
      {
        var j :| 0 <= j < |s| && s[j] == v;
      }
    }
  }

  /** A sufficient condition to know `autoconvert`'s answer without running
      its loop: `u` shows the amount as at least 1 (or is strictly the
      smallest unit), and every other unit either has a strictly smaller
      factor or would show the amount as less than 1. */
  lemma AutoconvertChooses(f: Family, amount: real, unit: string, u: string)
    requires Positive(f) && unit in f.units && u in f.units
    requires var q := InBase(f, amount, unit);
             && (f.units[u] <= q || forall v :: v in f.units && v != u ==> f.units[u] < f.units[v])
             && (forall v :: v in f.units && v != u ==> f.units[v] < f.units[u] || q < f.units[v])
    ensures Autoconvert(f, amount, unit) == Success((InBase(f, amount, unit) / f.units[u], u))
  {
    var s := SortByFactor(f);
    var q := InBase(f, amount, unit);
    var k := BracketIndex(f.units, s, q, u);
    AutoStepStopsAt(f, s, 0, amount, unit, q, k);
  }

  /** The position of `u` in an ascending order of distinct units, when
      `u` brackets `q` as `AutoconvertChooses` requires, satisfies the
      stopping rule. */
  lemma BracketIndex(m: map<string, real>, s: seq<string>, q: real, u: string) returns (k: nat)
    requires AllIn(m, s) && SortedBy(m, s) && Distinct(s) && u in s
    requires m[u] <= q || forall v :: v in s && v != u ==> m[u] < m[v]
    requires forall v :: v in s && v != u ==> m[v] < m[u] || q < m[v]
    ensures k < |s| && s[k] == u
    ensures forall j :: 0 < j <= k ==> m[s[j]] <= q
    ensures k < |s| - 1 ==> q < m[s[k + 1]]
  {
    k :| 0 <= k < |s| && s[k] == u;
    if k > 0 {
      // s[0] is another unit sorted no later than u, so u is not strictly
      // the smallest and must show the amount as at least 1
      assert s[0] in s && s[0] != u && m[s[0]] <= m[s[k]];
      assert m[u] <= q;
    }
    forall j | 0 < j <= k
      ensures m[s[j]] <= q
    {
      assert m[s[j]] <= m[s[k]];
    }
    if k < |s| - 1 {
      assert s[k + 1] in s && s[k + 1] != u && m[u] <= m[s[k + 1]];
    }
  }
}
