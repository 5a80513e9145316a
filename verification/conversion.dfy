/** The conversion half of firkin's `UnitManager`: an amount of one unit
    in another unit (`convert_to_unit`), in the best-fitting unit of a
    family (`convert_to_family`), and in the best-fitting unit among the
    families of a group (`convert_to_group`). */
module Conversion {
  import opened Results
  import opened Families
  import opened Registry
  import opened Paths

  // ---------------------------------------------------------------------
  // Registries whose conversions cannot fail

  /** Every unit still points at the family registered under that
      family's name; this fails only when a family name is registered
      again with fewer units. */
  ghost predicate Current(m: Manager) {
    forall u :: u in m.units ==> m.units[u].name in m.families && m.families[m.units[u].name] == m.units[u]
  }

  /** Every registered family has positive factors and a base of factor 1,
      as `Family` and `SIFamily` build them. */
  ghost predicate Scaled(m: Manager) {
    forall n :: n in m.families ==> WellFormed(m.families[n])
  }

  /** A registry whose conversions follow the declared factors. */
  ghost predicate Sound(m: Manager) {
    Inv(m) && Current(m) && Scaled(m)
  }

  /** Some walk joins the two families. */
  ghost predicate Connected(m: Manager, a: string, b: string) {
    exists q :: Chain(m, a, b, q)
  }

  lemma EmptySound()
    ensures Sound(Empty)
  {
    EmptyInv();
  }

  /** Registering a new family, or a family again with at least the units
      it had, keeps the registry sound, whenever the family is well
      formed. */
  lemma AddKeepsSound(m: Manager, fam: Family, other: Option<string>, factor: real, offset: real, groups: seq<string>)
    requires Sound(m) && WellFormed(fam)
    requires fam.name in m.families ==> m.families[fam.name].units.Keys <= fam.units.Keys
    ensures var r := Registry.Add(m, fam, other, factor, offset, groups);
            r.Success? ==> Sound(r.value)
  {
    var r := Registry.Add(m, fam, other, factor, offset, groups);
    if r.Success? {
      AddKeepsInv(m, fam, other, factor, offset, groups);
      CurrentAfter(m, r.value, fam);
    }
  }

  /** Indexing a well-formed family under its own name, with at least the
      units a family of that name had, keeps every unit current and every
      family scaled. */
  lemma CurrentAfter(m: Manager, n: Manager, fam: Family)
    requires Sound(m) && WellFormed(fam)
    requires fam.name in m.families ==> m.families[fam.name].units.Keys <= fam.units.Keys
    requires n.families == m.families[fam.name := fam] && n.units == Index(m.units, fam)
    ensures Current(n) && Scaled(n)
  {
    forall u | u in n.units
      ensures n.units[u].name in n.families && n.families[n.units[u].name] == n.units[u]
    {
      if u !in fam.units {
        assert n.units[u] == m.units[u];
        assert m.units[u].name != fam.name;
      }
    }
  }

  // ---------------------------------------------------------------------
  // Following a path

  /** The product of the factors along a path. */
  function Gain(m: Manager, path: seq<nat>): real
    requires OnEdges(m, path)
    decreases |path|
  {
    if |path| == 0 then 1.0 else m.edges[path[0]].factor * Gain(m, path[1..])
  }

  /** Where a path takes the amount 0: each offset, scaled by the factors
      of the edges after it. */
  function Shift(m: Manager, path: seq<nat>): real
    requires OnEdges(m, path)
    decreases |path|
  {
    if |path| == 0 then 0.0 else m.edges[path[0]].offset * Gain(m, path[1..]) + Shift(m, path[1..])
  }

  /** The loop `amount = amount * p.factor + p.offset` over the edges of a
      path, in order. Whatever the path, the result is an affine function
      of the amount whose scale is the product of the factors. */
  function ApplyPath(m: Manager, path: seq<nat>, x: real): (r: real)
    requires OnEdges(m, path)
    ensures r == x * Gain(m, path) + Shift(m, path)
    decreases |path|
  {
    if |path| == 0 then x
    else
      var e := m.edges[path[0]];
      var r := ApplyPath(m, path[1..], Follow(e, x));
      AffineStep(x, e.factor, e.offset, Gain(m, path[1..]), Shift(m, path[1..]));
      r
  }

  /** One affine step before an affine map is an affine map. */
  lemma AffineStep(x: real, f: real, o: real, g: real, h: real)
    ensures (x * f + o) * g + h == x * (f * g) + (o * g + h)
  {
  }

  /** Following `a + b` is following `a` and then `b`. */
  lemma {:induction false} ApplyPathAppend(m: Manager, a: seq<nat>, b: seq<nat>, x: real)
    requires OnEdges(m, a) && OnEdges(m, b)
    ensures OnEdges(m, a + b)
    ensures ApplyPath(m, a + b, x) == ApplyPath(m, b, ApplyPath(m, a, x))
    decreases |a|
  {
    assert forall k :: 0 <= k < |a + b| ==> (a + b)[k] == if k < |a| then a[k] else b[k - |a|];
    if |a| == 0 {
      assert a + b == b;
    } else {
      assert (a + b)[1..] == a[1..] + b;
      ApplyPathAppend(m, a[1..], b, Follow(m.edges[a[0]], x));
    }
  }

  /** Following `path` brings `x` back to itself. */
  ghost predicate RoundTrip(m: Manager, path: seq<nat>, x: real) {
    OnEdges(m, path) && ApplyPath(m, path, x) == x
  }

  /** A registered pair of edges undoes itself: following the edge `add`
      created and then the reverse edge it created gives the amount back,
      whatever the offset. */
  lemma AddThereAndBack(m: Manager, fam: Family, other: string, factor: real, offset: real,
                        groups: seq<string>, x: real)
    requires Inv(m)
    requires Registry.Add(m, fam, Some(other), factor, offset, groups).Success?
    ensures var r := Registry.Add(m, fam, Some(other), factor, offset, groups).value;
            var i := |m.edges|;
            RoundTrip(r, [i, i + 1], x) && RoundTrip(r, [i + 1, i], x)
  {
    var r := Registry.Add(m, fam, Some(other), factor, offset, groups).value;
    var i := |m.edges|;
    AddLinksBothWays(m, fam, other, factor, offset, groups);
    ApplyTwo(r, i, i + 1, x);
    ApplyTwo(r, i + 1, i, x);
    FollowReverse(r.edges[i], x);
  }

  /** A path of two edges follows the first and then the second. */
  lemma ApplyTwo(m: Manager, a: nat, b: nat, x: real)
    requires a < |m.edges| && b < |m.edges|
    ensures OnEdges(m, [a, b])
    ensures ApplyPath(m, [a, b], x) == Follow(m.edges[b], Follow(m.edges[a], x))
  {
    assert [a, b][1..] == [b] && [b][1..] == [];
    assert ApplyPath(m, [b], Follow(m.edges[a], x)) == Follow(m.edges[b], Follow(m.edges[a], x));
  }

  // ---------------------------------------------------------------------
  // convert_to_unit

  /** `UnitManager.convert_to_unit(amount, unit, dest)`: the amount is
      taken to the base of `unit`'s family, walked along the shortest path
      to `dest`'s family, and converted there. `None` when no path joins
      the two families. */
  function ConvertToUnit(m: Manager, amount: real, unit: string, dest: string): (r: Result<Option<(real, string)>, Error>)
    requires Inv(m)
    ensures unit !in m.units ==> r == Failure(UnknownUnit(unit))
    ensures unit in m.units && dest !in m.units ==> r == Failure(UnknownUnit(dest))
    ensures r.Success? && r.value.Some? ==> r.value.value.1 == dest
  {
    if unit !in m.units then Failure(UnknownUnit(unit))
    else if dest !in m.units then Failure(UnknownUnit(dest))
    else
      var sfam, dfam := m.units[unit], m.units[dest];
      var inBase :- Convert(sfam, amount, unit, sfam.base);
      var path := ShortestPath(m, sfam.name, dfam.name);
      if path.None? then Success(None)
      else if |path.value| == 0 then
        var c :- Convert(sfam, inBase.0, inBase.1, dest);
        Success(Some(c))
      else
        var c :- Convert(dfam, ApplyPath(m, path.value, inBase.0), dfam.base, dest);
        Success(Some(c))
  }

  /** In a sound registry a known unit's amount in its base unit is its
      amount times its factor. */
  lemma ToBase(f: Family, amount: real, unit: string)
    requires WellFormed(f) && unit in f.units
    ensures Convert(f, amount, unit, f.base) == Success((InBase(f, amount, unit), f.base))
  {
  }

  /** An amount of the base unit converted to `dest`, times the factor of
      `dest`, is the amount. */
  lemma FromBase(f: Family, y: real, dest: string)
    requires WellFormed(f) && dest in f.units
    ensures Convert(f, y, f.base, dest).Success?
    ensures InBase(f, Convert(f, y, f.base, dest).value.0, dest) == y
  {
    var c := Convert(f, y, f.base, dest);
    assert c.value.0 * f.units[dest] == y * f.units[f.base];
  }

  /** In a sound registry `convert_to_unit` between known units never
      raises; it answers None exactly when no walk joins the two families,
      and otherwise its answer times the factor of `dest` is the amount in
      the base of `unit`'s family carried along the shortest path. */
  lemma ConvertToUnitAnswers(m: Manager, amount: real, unit: string, dest: string)
    requires Sound(m) && unit in m.units && dest in m.units
    ensures var r := ConvertToUnit(m, amount, unit, dest);
            var sfam, dfam := m.units[unit], m.units[dest];
            && r.Success?
            && (r.value.None? <==> !Connected(m, sfam.name, dfam.name))
            && (r.value.Some? ==>
                  var path := ShortestPath(m, sfam.name, dfam.name).value;
                  && OnEdges(m, path)
                  && InBase(dfam, r.value.value.0, dest) == ApplyPath(m, path, InBase(sfam, amount, unit)))
  {
    var sfam, dfam := m.units[unit], m.units[dest];
    var r := ConvertToUnit(m, amount, unit, dest);
    ToBase(sfam, amount, unit);
    var q := InBase(sfam, amount, unit);
    ShortestPathNone(m, sfam.name, dfam.name);
    assert sfam.name in m.items && dfam.name in m.items;
    var path := ShortestPath(m, sfam.name, dfam.name);
    if path.None? {
      assert r == Success(None);
      if Connected(m, sfam.name, dfam.name) {
        var q' :| Chain(m, sfam.name, dfam.name, q');
        ShortestPathMinimal(m, sfam.name, dfam.name, q');
        assert false;
      }
    } else {
      assert Connected(m, sfam.name, dfam.name);
      if |path.value| == 0 {
        assert sfam == dfam;
        var c := Convert(sfam, q, sfam.base, dest);
        FromBase(sfam, q, dest);
        assert r == Success(Some(c.value));
        assert ApplyPath(m, path.value, q) == q;
        assert InBase(dfam, r.value.value.0, dest) == ApplyPath(m, path.value, q);
      } else {
        var y := ApplyPath(m, path.value, q);
        var c := Convert(dfam, y, dfam.base, dest);
        FromBase(dfam, y, dest);
        assert r == Success(Some(c.value));
        assert InBase(dfam, r.value.value.0, dest) == y;
      }
    }
  }

  /** Between two units of one family `convert_to_unit` is the family's
      own `convert`; in particular a unit converts to itself unchanged. */
  lemma ConvertToUnitSameFamily(m: Manager, amount: real, unit: string, dest: string)
    requires Sound(m) && unit in m.units && dest in m.units && m.units[unit] == m.units[dest]
    ensures Convert(m.units[unit], amount, unit, dest).Success?
    ensures ConvertToUnit(m, amount, unit, dest) == Success(Some(Convert(m.units[unit], amount, unit, dest).value))
    ensures ConvertToUnit(m, amount, unit, unit) == Success(Some((amount, unit)))
  {
    var f := m.units[unit];
    assert f.name in m.items;
    ConvertCompose(f, amount, unit, f.base, dest);
    ConvertCompose(f, amount, unit, f.base, unit);
    ConvertIdentity(f, amount, unit);
  }

  // ---------------------------------------------------------------------
  // convert_to_family

  /** `UnitManager.convert_to_family(amount, unit, family)` for a family
      object: like `convert_to_unit`, but the amount is shown in the unit
      of the target family that `autoconvert` picks. */
  function ConvertToFamilyOf(m: Manager, amount: real, unit: string, dfam: Family): (r: Result<Option<(real, string)>, Error>)
    requires Inv(m) && Valid(dfam)
    ensures unit !in m.units ==> r == Failure(UnknownUnit(unit))
  {
    if unit !in m.units then Failure(UnknownUnit(unit))
    else
      var sfam := m.units[unit];
      var inBase :- Convert(sfam, amount, unit, sfam.base);
      var path := ShortestPath(m, sfam.name, dfam.name);
      if path.None? then Success(None)
      else if |path.value| == 0 then
        var c :- Autoconvert(sfam, inBase.0, inBase.1);
        Success(Some(c))
      else
        var c :- Autoconvert(dfam, ApplyPath(m, path.value, inBase.0), dfam.base);
        Success(Some(c))
  }

  /** `convert_to_family` with the family given by name: the unit is
      looked up first, then the family. */
  function ConvertToFamily(m: Manager, amount: real, unit: string, family: string): (r: Result<Option<(real, string)>, Error>)
    requires Inv(m)
    ensures unit !in m.units ==> r == Failure(UnknownUnit(unit))
    ensures unit in m.units && family !in m.families ==> r == Failure(UnknownFamily(family))
    ensures family in m.families ==> r == ConvertToFamilyOf(m, amount, unit, m.families[family])
  {
    if unit !in m.units then Failure(UnknownUnit(unit))
    else if family !in m.families then Failure(UnknownFamily(family))
    else ConvertToFamilyOf(m, amount, unit, m.families[family])
  }

  /** `autoconvert` depends only on the quantity, not on the unit it is
      given in. */
  lemma AutoconvertByQuantity(f: Family, a1: real, u1: string, a2: real, u2: string)
    requires Positive(f) && u1 in f.units && u2 in f.units
    requires InBase(f, a1, u1) == InBase(f, a2, u2)
    ensures Autoconvert(f, a1, u1) == Autoconvert(f, a2, u2)
  {
    var s := SortByFactor(f);
    assert f.base in s;
    AutoconvertInPicks(f, s, a1, u1);
    AutoconvertInPicks(f, s, a2, u2);
  }

  /** A base amount's quantity is the amount. */
  lemma InBaseOfBase(f: Family, y: real)
    requires WellFormed(f)
    ensures InBase(f, y, f.base) == y
  {
  }

  /** In a sound registry, once a path is found, `convert_to_family` is
      `autoconvert` in the target family of the amount carried along it
      (an empty path stays in the one family), and `autoconvert` does not
      raise there. */
  lemma ConvertToFamilyOfCases(m: Manager, amount: real, unit: string, dfam: Family)
    requires Sound(m) && unit in m.units && dfam.name in m.families && m.families[dfam.name] == dfam
    ensures var r := ConvertToFamilyOf(m, amount, unit, dfam);
            var sfam := m.units[unit];
            var path := ShortestPath(m, sfam.name, dfam.name);
            && (path.None? ==> r == Success(None))
            && (path.Some? ==>
                  var y := ApplyPath(m, path.value, InBase(sfam, amount, unit));
                  && OnEdges(m, path.value)
                  && Autoconvert(dfam, y, dfam.base).Success?
                  && r == Success(Some(Autoconvert(dfam, y, dfam.base).value)))
  {
    var sfam := m.units[unit];
    ToBase(sfam, amount, unit);
    var q0 := InBase(sfam, amount, unit);
    assert sfam.name in m.items && dfam.name in m.items;
    var path := ShortestPath(m, sfam.name, dfam.name);
    if path.Some? {
      var y := ApplyPath(m, path.value, q0);
      AutoconvertScaled(dfam, y, dfam.base);
      var c := Autoconvert(dfam, y, dfam.base);
      if |path.value| == 0 {
        assert sfam == dfam && y == q0;
        assert ConvertToFamilyOf(m, amount, unit, dfam) == Success(Some(c.value));
      } else {
        assert ConvertToFamilyOf(m, amount, unit, dfam) == Success(Some(c.value));
      }
    }
  }

  /** In a sound registry `convert_to_family` from a known unit to a
      registered family never raises; it answers None exactly when no walk
      joins the two families, and otherwise answers with a unit of the
      target family holding the amount carried along the shortest path,
      scaled as `autoconvert` scales it. */
  lemma ConvertToFamilyAnswers(m: Manager, amount: real, unit: string, family: string)
    requires Sound(m) && unit in m.units && family in m.families
    ensures var r := ConvertToFamily(m, amount, unit, family);
            var sfam, dfam := m.units[unit], m.families[family];
            && r.Success?
            && (r.value.None? <==> !Connected(m, sfam.name, family))
            && (r.value.Some? ==>
                  var path := ShortestPath(m, sfam.name, family).value;
                  var q := ApplyPath(m, path, InBase(sfam, amount, unit));
                  && OnEdges(m, path)
                  && r.value.value.1 in dfam.units
                  && InBase(dfam, r.value.value.0, r.value.value.1) == q
                  && (r.value.value.0 >= 1.0 || forall v :: v in dfam.units ==> dfam.units[r.value.value.1] <= dfam.units[v])
                  && (forall v :: v in dfam.units ==> dfam.units[v] <= dfam.units[r.value.value.1] || q < dfam.units[v]))
  {
    var sfam, dfam := m.units[unit], m.families[family];
    assert dfam.name == family;
    ConvertToFamilyOfCases(m, amount, unit, dfam);
    assert sfam.name in m.items && family in m.items;
    ShortestPathNone(m, sfam.name, family);
    var path := ShortestPath(m, sfam.name, family);
    if path.None? {
      if Connected(m, sfam.name, family) {
        var q' :| Chain(m, sfam.name, family, q');
        ShortestPathMinimal(m, sfam.name, family, q');
        assert false;
      }
    } else {
      assert Connected(m, sfam.name, family);
      var y := ApplyPath(m, path.value, InBase(sfam, amount, unit));
      InBaseOfBase(dfam, y);
      AutoconvertScaled(dfam, y, dfam.base);
    }
  }

  /** Within one family `convert_to_family` is the family's own
      `autoconvert`. */
  lemma ConvertToFamilySameFamily(m: Manager, amount: real, unit: string)
    requires Sound(m) && unit in m.units
    ensures var f := m.units[unit];
            && Autoconvert(f, amount, unit).Success?
            && ConvertToFamilyOf(m, amount, unit, f) == Success(Some(Autoconvert(f, amount, unit).value))
  {
    var f := m.units[unit];
    assert f.name in m.items;
    ConvertToFamilyOfCases(m, amount, unit, f);
    InBaseOfBase(f, InBase(f, amount, unit));
    AutoconvertByQuantity(f, InBase(f, amount, unit), f.base, amount, unit);
    AutoconvertScaled(f, amount, unit);
  }

  // ---------------------------------------------------------------------
  // convert_to_group

  function Abs(x: real): real {
    if x < 0.0 then -x else x
  }

  /** The test in `convert_to_group` under which candidate amount `a`
      displaces the best amount so far: an amount of at least 1 wins when
      it is closer to 1, an amount below 1 wins when it is farther from 1.
      For non-negative amounts this means: on the same side of 1 the
      smaller amount wins, and across 1 the candidate wins exactly when the
      two add up to less than 2. */
  predicate Replaces(best: real, a: real)
    ensures 1.0 <= a && 1.0 <= best ==> (Replaces(best, a) <==> a < best)
    ensures 0.0 <= a < 1.0 && 0.0 <= best < 1.0 ==> (Replaces(best, a) <==> a < best)
    ensures 0.0 <= a && 0.0 <= best && (a < 1.0 <= best || best < 1.0 <= a) ==>
              (Replaces(best, a) <==> a + best < 2.0)
  {
    || (Abs(a) >= 1.0 && Abs(1.0 - best) > Abs(1.0 - a))
    || (Abs(a) < 1.0 && Abs(1.0 - best) < Abs(1.0 - a))
  }

  /** Candidate `c` is taken over the best answer so far: when there is
      none yet, or when it displaces it. */
  predicate Taken(best: Option<(real, string)>, c: (real, string)) {
    best.None? || Replaces(best.value.0, c.0)
  }

  /** One step of the loop: the first answer is always taken, a later one
      exactly when it displaces the current one. */
  function Pick(best: Option<(real, string)>, c: (real, string)): (r: Option<(real, string)>)
    ensures r.Some?
    ensures best.None? ==> r == Some(c)
    ensures best.Some? && Replaces(best.value.0, c.0) ==> r == Some(c)
    ensures best.Some? && !Replaces(best.value.0, c.0) ==> r == best
  {
    if Taken(best, c) then Some(c) else best
  }

  /** What the loop asks the `k`-th registered family: nothing when it is
      not tagged with `group`, otherwise `convert_to_family` by the
      family's name. */
  function Asked(m: Manager, amount: real, unit: string, group: string, k: nat): (r: Result<Option<(real, string)>, Error>)
    requires Inv(m) && k < |m.order| && group in m.groups
    ensures m.families[m.order[k]] !in m.groups[group] ==> r == Success(None)
    ensures m.families[m.order[k]] in m.groups[group] ==> r == ConvertToFamily(m, amount, unit, m.order[k])
    ensures m.families[m.order[k]] in m.groups[group] && unit !in m.units ==> r == Failure(UnknownUnit(unit))
  {
    var fam := m.families[m.order[k]];
    if fam in m.groups[group] then ConvertToFamilyOf(m, amount, unit, fam) else Success(None)
  }

  /** What the loop asks every registered family, in registration
      order. */
  function Answers(m: Manager, amount: real, unit: string, group: string): (r: seq<Result<Option<(real, string)>, Error>>)
    requires Inv(m) && group in m.groups
  {
    seq(|m.order|, k requires 0 <= k < |m.order| => Asked(m, amount, unit, group, k))
  }

  /** The loop over the answers: it raises exactly when some answer is an
      error, and then it raises the first one; otherwise it holds every
      answer at its place. */
  function Collect<T, E>(rs: seq<Result<T, E>>): (r: Result<seq<T>, E>)
    ensures r.Success? <==> forall k :: 0 <= k < |rs| ==> rs[k].Success?
    ensures r.Success? ==> |r.value| == |rs| && forall k :: 0 <= k < |rs| ==> rs[k] == Success(r.value[k])
    ensures r.Failure? ==> exists k :: 0 <= k < |rs| && rs[k] == Failure(r.error)
                                       && forall j :: 0 <= j < k ==> rs[j].Success?
    decreases |rs|
  {
    if |rs| == 0 then Success([])
    else
      var rest := rs[1..];
      assert forall k :: 0 < k < |rs| ==> rs[k] == rest[k - 1];
      var c :- rs[0];
      var tail :- Collect(rest);
      assert forall k :: 0 < k < |rs| ==> ([c] + tail)[k] == tail[k - 1];
      Success([c] + tail)
  }

  /** The selection over the collected answers, in order, starting from the
      best answer so far: it never invents an answer and never drops one
      it has. */
  function Choose(offers: seq<Option<(real, string)>>, best: Option<(real, string)>): (r: Option<(real, string)>)
    ensures r == best || r in offers
    ensures best.Some? ==> r.Some?
    decreases |offers|
  {
    if |offers| == 0 then best
    else
      var r := Choose(offers[1..], if offers[0].None? then best else Pick(best, offers[0].value));
      assert r in offers[1..] ==> r in offers;
      r
  }

  /** `UnitManager.convert_to_group(amount, unit, group)`: the answer of
      `convert_to_family` for the group's families that fits best. An
      unknown group raises as soon as there is a family to test against
      it. */
  function ConvertToGroup(m: Manager, amount: real, unit: string, group: string): (r: Result<Option<(real, string)>, Error>)
    requires Inv(m)
    ensures |m.order| > 0 && group !in m.groups ==> r == Failure(UnknownGroup(group))
    ensures |m.order| == 0 ==> r == Success(None)
  {
    if group !in m.groups then
      if |m.order| == 0 then Success(None) else Failure(UnknownGroup(group))
    else
      var offers :- Collect(Answers(m, amount, unit, group));
      Success(Choose(offers, None))
  }

  /** No answer from position `i` on displaces `c`. */
  predicate Kept(offers: seq<Option<(real, string)>>, c: (real, string), i: nat) {
    forall k :: i <= k < |offers| && offers[k].Some? ==> !Replaces(c.0, offers[k].value.0)
  }

  /** The selection returns nothing exactly when there was nothing before
      and no answer was collected. Otherwise it keeps the answer it started
      with, which no answer displaces, or it returns an answer that was
      taken over the best of the answers before it and that no later
      answer displaces. */
  lemma ChoosePicks(offers: seq<Option<(real, string)>>, best: Option<(real, string)>)
    ensures var r := Choose(offers, best);
            && (r.None? <==> best.None? && forall k :: 0 <= k < |offers| ==> offers[k].None?)
            && (r.Some? ==>
                  || (r == best && Kept(offers, best.value, 0))
                  || exists k :: 0 <= k < |offers| && offers[k] == r
                                 && Taken(Choose(offers[..k], best), r.value) && Kept(offers, r.value, k + 1))
  {
    ChooseNone(offers, best);
    ChooseWitness(offers, best);
  }

  lemma {:induction false} ChooseNone(offers: seq<Option<(real, string)>>, best: Option<(real, string)>)
    ensures Choose(offers, best).None? <==> best.None? && forall k :: 0 <= k < |offers| ==> offers[k].None?
    decreases |offers|
  {
    if |offers| > 0 {
      var best' := if offers[0].None? then best else Pick(best, offers[0].value);
      ChooseNone(offers[1..], best');
      assert forall k :: 0 < k < |offers| ==> offers[k] == offers[1..][k - 1];
    }
  }

  /** Where the selection's answer comes from. */
  ghost predicate Witnessed(offers: seq<Option<(real, string)>>, best: Option<(real, string)>, r: Option<(real, string)>)
    requires r.Some?
  {
    || (r == best && Kept(offers, best.value, 0))
    || exists k :: 0 <= k < |offers| && offers[k] == r
                   && Taken(Choose(offers[..k], best), r.value) && Kept(offers, r.value, k + 1)
  }

  lemma {:induction false} ChooseWitness(offers: seq<Option<(real, string)>>, best: Option<(real, string)>)
    ensures Choose(offers, best).Some? ==> Witnessed(offers, best, Choose(offers, best))
    decreases |offers|
  {
    if |offers| > 0 {
      var o := offers[0];
      var best' := if o.None? then best else Pick(best, o.value);
      var rest := offers[1..];
      ChooseWitness(rest, best');
      var r := Choose(rest, best');
      assert Choose(offers, best) == r;
      if r.Some? {
        if r == best' && Kept(rest, best'.value, 0) {
          if o.Some? && Taken(best, o.value) {
            TakenFirst(offers, best, r);
          } else {
            KeptFirst(offers, best);
          }
        } else {
          LaterWitness(offers, best, r);
        }
      }
    }
  }

  /** A witness in the tail, one position later, is a witness in the
      whole sequence. */
  lemma LaterWitness(offers: seq<Option<(real, string)>>, best: Option<(real, string)>, r: Option<(real, string)>)
    requires |offers| > 0 && r.Some?
    requires var best' := if offers[0].None? then best else Pick(best, offers[0].value);
             exists k :: 0 <= k < |offers[1..]| && offers[1..][k] == r
                         && Taken(Choose(offers[1..][..k], best'), r.value) && Kept(offers[1..], r.value, k + 1)
    ensures Witnessed(offers, best, r)
  {
    var best' := if offers[0].None? then best else Pick(best, offers[0].value);
    var rest := offers[1..];
    var k :| 0 <= k < |rest| && rest[k] == r && Taken(Choose(rest[..k], best'), r.value)
             && Kept(rest, r.value, k + 1);
    ChooseUnfolds(offers, best, k + 1);
    KeptShift(offers, r.value, k + 1);
    assert offers[k + 1] == r;
  }

  /** The first answer, taken and never displaced, is the witness. */
  lemma TakenFirst(offers: seq<Option<(real, string)>>, best: Option<(real, string)>, r: Option<(real, string)>)
    requires |offers| > 0 && offers[0].Some? && Taken(best, offers[0].value)
    requires r == offers[0] && Kept(offers[1..], r.value, 0)
    ensures Witnessed(offers, best, r)
  {
    assert offers[..0] == [];
    KeptShift(offers, r.value, 0);
  }

  /** An answer the first one does not displace, and no later one either,
      is kept throughout. */
  lemma KeptFirst(offers: seq<Option<(real, string)>>, best: Option<(real, string)>)
    requires |offers| > 0 && best.Some?
    requires offers[0].None? || !Taken(best, offers[0].value)
    requires Kept(offers[1..], best.value, 0)
    ensures Kept(offers, best.value, 0)
  {
    KeptShift(offers, best.value, 0);
  }

  /** Being kept from position `i` of the tail is being kept from `i + 1`. */
  lemma KeptShift(offers: seq<Option<(real, string)>>, c: (real, string), i: nat)
    requires |offers| > 0
    ensures Kept(offers[1..], c, i) <==> Kept(offers, c, i + 1)
  {
    assert forall k :: 0 < k < |offers| ==> offers[k] == offers[1..][k - 1];
  }

  /** The selection over a non-empty prefix handles its first answer and
      then the rest of the prefix. */
  lemma ChooseUnfolds(offers: seq<Option<(real, string)>>, best: Option<(real, string)>, n: nat)
    requires 0 < n <= |offers|
    ensures Choose(offers[..n], best)
            == Choose(offers[1..][..n - 1], if offers[0].None? then best else Pick(best, offers[0].value))
  {
    assert offers[..n][1..] == offers[1..][..n - 1];
  }

  /** In a sound registry asking a family about a known unit never raises,
      and a tagged family answers None exactly when it cannot be reached. */
  lemma AskedAnswers(m: Manager, amount: real, unit: string, group: string, k: nat)
    requires Sound(m) && unit in m.units && k < |m.order| && group in m.groups
    ensures var a := Asked(m, amount, unit, group, k);
            var fam := m.families[m.order[k]];
            && a.Success?
            && (fam in m.groups[group] ==> a == ConvertToFamily(m, amount, unit, m.order[k]))
            && (a.value.None? <==> (fam in m.groups[group] ==> !Connected(m, m.units[unit].name, m.order[k])))
  {
    var fam := m.families[m.order[k]];
    if fam in m.groups[group] {
      ConvertToFamilyAnswers(m, amount, unit, m.order[k]);
    }
  }

  /** In a sound registry the loop of `convert_to_group` from a known
      unit collects every family's answer. */
  lemma GroupCollects(m: Manager, amount: real, unit: string, group: string)
    requires Sound(m) && unit in m.units && group in m.groups
    ensures Collect(Answers(m, amount, unit, group)).Success?
    ensures var offers := Collect(Answers(m, amount, unit, group)).value;
            && ConvertToGroup(m, amount, unit, group) == Success(Choose(offers, None))
            && |offers| == |m.order|
            && forall k :: 0 <= k < |m.order| ==> Asked(m, amount, unit, group, k) == Success(offers[k])
  {
    var rs := Answers(m, amount, unit, group);
    forall k | 0 <= k < |m.order|
      ensures rs[k].Success?
    {
      AskedSucceeds(m, amount, unit, group, k);
    }
  }

  /** In a sound registry no family raises on a known unit. */
  lemma AskedSucceeds(m: Manager, amount: real, unit: string, group: string, k: nat)
    requires Sound(m) && unit in m.units && group in m.groups && k < |m.order|
    ensures Asked(m, amount, unit, group, k).Success?
  {
    var fam := m.families[m.order[k]];
    assert fam.name == m.order[k];
    ConvertToFamilyOfCases(m, amount, unit, fam);
  }

  /** In a sound registry `convert_to_group` from a known unit to a known
      group never raises, and it answers None exactly when none of the
      group's families is reachable from the unit's family. */
  lemma ConvertToGroupNone(m: Manager, amount: real, unit: string, group: string)
    requires Sound(m) && unit in m.units && group in m.groups
    ensures var r := ConvertToGroup(m, amount, unit, group);
            && r.Success?
            && (r.value.None? <==>
                  forall k :: 0 <= k < |m.order| && m.families[m.order[k]] in m.groups[group] ==>
                    !Connected(m, m.units[unit].name, m.order[k]))
  {
    GroupCollects(m, amount, unit, group);
    var offers := Collect(Answers(m, amount, unit, group)).value;
    ChooseNone(offers, None);
    OffersNone(m, amount, unit, group, offers);
  }

  /** A family offers nothing exactly when it is untagged or cannot be
      reached. */
  lemma OffersNone(m: Manager, amount: real, unit: string, group: string, offers: seq<Option<(real, string)>>)
    requires Sound(m) && unit in m.units && group in m.groups && |offers| == |m.order|
    requires forall k :: 0 <= k < |m.order| ==> Asked(m, amount, unit, group, k) == Success(offers[k])
    ensures forall k :: 0 <= k < |m.order| ==>
              (offers[k].None? <==>
                (m.families[m.order[k]] in m.groups[group] ==> !Connected(m, m.units[unit].name, m.order[k])))
  {
    forall k | 0 <= k < |m.order|
      ensures offers[k].None? <==>
                (m.families[m.order[k]] in m.groups[group] ==> !Connected(m, m.units[unit].name, m.order[k]))
    {
      AskedAnswers(m, amount, unit, group, k);
    }
  }

  /** The answers the loop of `convert_to_group` collects, family by
      family in registration order; an answer that raises stands as None. */
  function Offered(m: Manager, amount: real, unit: string, group: string): (r: seq<Option<(real, string)>>)
    requires Inv(m) && group in m.groups
    ensures |r| == |m.order|
    ensures forall k :: 0 <= k < |m.order| && Asked(m, amount, unit, group, k).Success? ==>
              r[k] == Asked(m, amount, unit, group, k).value
  {
    seq(|m.order|, k requires 0 <= k < |m.order| =>
      var a := Asked(m, amount, unit, group, k);
      if a.Success? then a.value else None)
  }

  /** An answer of `convert_to_group` is what `convert_to_family` gives for
      one of the group's families; that answer displaced the best answer
      of the families registered before it, and no family registered after
      it would have displaced it. */
  lemma ConvertToGroupPicks(m: Manager, amount: real, unit: string, group: string)
    requires Sound(m) && unit in m.units && group in m.groups
    ensures var r := ConvertToGroup(m, amount, unit, group);
            r.Success? && r.value.Some? ==>
              exists k :: 0 <= k < |m.order|
                          && m.families[m.order[k]] in m.groups[group]
                          && ConvertToFamily(m, amount, unit, m.order[k]) == Success(r.value)
                          && Taken(Choose(Offered(m, amount, unit, group)[..k], None), r.value.value)
                          && forall j :: k < j < |m.order| ==>
                               var a := Asked(m, amount, unit, group, j);
                               a.Success? && a.value.Some? ==> !Replaces(r.value.value.0, a.value.value.0)
  {
    GroupCollects(m, amount, unit, group);
    var offers := Collect(Answers(m, amount, unit, group)).value;
    OfferedCollected(m, amount, unit, group, offers);
    ChooseWitness(offers, None);
    var r := Choose(offers, None);
    if r.Some? {
      var k :| 0 <= k < |offers| && offers[k] == r && Taken(Choose(offers[..k], None), r.value)
               && Kept(offers, r.value, k + 1);
      AskedAnswers(m, amount, unit, group, k);
      assert m.families[m.order[k]] in m.groups[group];
      assert forall j :: k < j < |m.order| ==>
               var a := Asked(m, amount, unit, group, j);
               a.Success? && a.value.Some? ==> !Replaces(r.value.0, a.value.value.0);
    }
  }

  /** When every family's answer is collected, the collected answers are
      the offered ones. */
  lemma OfferedCollected(m: Manager, amount: real, unit: string, group: string, offers: seq<Option<(real, string)>>)
    requires Inv(m) && group in m.groups && |offers| == |m.order|
    requires forall k :: 0 <= k < |m.order| ==> Asked(m, amount, unit, group, k) == Success(offers[k])
    ensures Offered(m, amount, unit, group) == offers
  {
  }

  /** The answer depends on registration order: 0.5 displaces 1.2 and 1.2
      displaces 0.5, so whichever family comes last wins. */
  lemma GroupOrderMatters(u: string, v: string)
    ensures Replaces(1.2, 0.5) && Replaces(0.5, 1.2)
    ensures Choose([Some((0.5, u)), Some((1.2, v))], None) == Some((1.2, v))
    ensures Choose([Some((1.2, v)), Some((0.5, u))], None) == Some((0.5, u))
  {
    assert Replaces(1.2, 0.5) && Replaces(0.5, 1.2);
    var a: Option<(real, string)>, b: Option<(real, string)> := Some((0.5, u)), Some((1.2, v));
    assert [a, b][1..] == [b] && |[b][1..]| == 0;
    assert Choose([b], a) == b;
    assert Choose([a, b], None) == Choose([b], a);
    assert [b, a][1..] == [a] && |[a][1..]| == 0;
    assert Choose([a], b) == a;
    assert Choose([b, a], None) == Choose([a], b);
  }
}
