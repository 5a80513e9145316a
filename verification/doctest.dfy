/** The worked example in the documentation of `UnitManager`: a liter
    family with metric prefixes, the imperial gallon family joined to it,
    and Celsius and Fahrenheit joined by an affine edge. */
module ManagerExamples {
  import opened Results
  import opened Families
  import opened SIPrefixes
  import opened Registry
  import opened Paths
  import opened Conversion

  /** `Family(name='f', base='gallon')` with barrel, kilderkin and firkin
      added, as the example builds it. */
  function BuildGallons(): Result<Family, Error> {
    var f := Init("gallon", Some("f"));
    match Families.Add(f, "barrel", 36.0, Some("gallon"))
    case Failure(e) => Failure(e)
    case Success(f1) =>
      match Families.Add(f1, "kilderkin", 0.5, Some("barrel"))
      case Failure(e) => Failure(e)
      case Success(f2) => Families.Add(f2, "firkin", 0.5, Some("kilderkin"))
  }

  const Gallons: Family :=
    Family("f", "gallon", map["gallon" := 1.0, "barrel" := 36.0, "kilderkin" := 18.0, "firkin" := 9.0],
           ["gallon", "barrel", "kilderkin", "firkin"])

  /** The gallon family after its first and second `add`. */
  const Gallons1: Family := Family("f", "gallon", map["gallon" := 1.0, "barrel" := 36.0], ["gallon", "barrel"])
  const Gallons2: Family :=
    Family("f", "gallon", map["gallon" := 1.0, "barrel" := 36.0, "kilderkin" := 18.0], ["gallon", "barrel", "kilderkin"])

  /** Factors compose along `other`: a kilderkin is half a barrel of 36
      gallons, a firkin half a kilderkin. */
  lemma GallonsBuilt()
    ensures BuildGallons() == Success(Gallons)
    ensures WellFormed(Gallons)
  {
    BarrelAdded();
    KilderkinAdded();
    FirkinAdded();
    GallonsShape();
  }

  lemma BarrelAdded()
    ensures Families.Add(Init("gallon", Some("f")), "barrel", 36.0, Some("gallon")) == Success(Gallons1)
  {
    GallonsStep(Init("gallon", Some("f")), Gallons1, "barrel", 36.0, "gallon");
  }

  lemma KilderkinAdded()
    ensures Families.Add(Gallons1, "kilderkin", 0.5, Some("barrel")) == Success(Gallons2)
  {
    GallonsStep(Gallons1, Gallons2, "kilderkin", 0.5, "barrel");
  }

  lemma FirkinAdded()
    ensures Families.Add(Gallons2, "firkin", 0.5, Some("kilderkin")) == Success(Gallons)
  {
    GallonsStep(Gallons2, Gallons, "firkin", 0.5, "kilderkin");
  }

  /** One `add` of the gallon family, checked field by field. */
  lemma GallonsStep(f: Family, g: Family, name: string, factor: real, other: string)
    requires Valid(f) && other in f.units && name !in f.units
    requires g.name == f.name && g.base == f.base && g.names == f.names + [name]
    requires g.units == f.units[name := f.units[other] * factor]
    ensures Families.Add(f, name, factor, Some(other)) == Success(g)
  {
    var r := Families.Add(f, name, factor, Some(other));
    assert r.value.units.Keys == g.units.Keys;
    assert forall u :: u in g.units ==> r.value.units[u] == g.units[u];
    assert r.value.names == g.names;
  }

  const Celsius: Family := Init("°C", None)
  const Fahrenheit: Family := Init("°F", None)

  /** What the example needs of `SIFamily(base='l', name='liter')`: the
      milliliter is 0.001 liter, and no unit lies strictly between 1 and
      1000 liters other than the liter itself. */
  ghost predicate LiterLike(l: Family) {
    && WellFormed(l) && l.name == "liter" && l.base == "l"
    && "ml" in l.units && l.units["ml"] == 0.001
    && (forall v :: v in l.units && v != "l" ==> l.units[v] < 1.0 || 1000.0 <= l.units[v])
  }

  /** The metric liter family has that shape. */
  lemma SILiter(base: string, name: Option<string>)
    requires base == "l" && name == Some("liter")
    ensures LiterLike(SIFamily(base, name, false))
  {
    assert "m" + base == "ml";
    SIMilli(base, name);
    SIGaps(base, name);
  }

  /** Only the base lies between 1 and 1000 times the base. */
  lemma SIGaps(base: string, name: Option<string>)
    ensures var l := SIFamily(base, name, false);
            forall v :: v in l.units && v != base ==> l.units[v] < 1.0 || 1000.0 <= l.units[v]
  {
    var l := SIFamily(base, name, false);
    forall v | v in l.units && v != base
      ensures l.units[v] < 1.0 || 1000.0 <= l.units[v]
    {
      SIGap(base, name, v);
    }
  }

  /** The milli unit is a thousandth of the base. */
  lemma SIMilli(base: string, name: Option<string>)
    ensures "m" + base in SIFamily(base, name, false).units
    ensures SIFamily(base, name, false).units["m" + base] == 0.001
  {
    SIFamilyFactors(base, name, false);
    assert Small[0] + base == "m" + base;
  }

  /** No prefixed unit lies strictly between the base and its kilo. */
  lemma SIGap(base: string, name: Option<string>, v: string)
    requires v in SIFamily(base, name, false).units && v != base
    ensures SIFamily(base, name, false).units[v] < 1.0 || 1000.0 <= SIFamily(base, name, false).units[v]
  {
    SIFamilyFactors(base, name, false);
    SIUnits(base, name, false, v);
    if k :| 0 <= k < |Large| && v == Large[k] + base {
      if k > 0 {
        PowMonotone(1000.0, 1, k + 1);
      }
    } else {
      var k :| 0 <= k < |Small| && v == Small[k] + base;
      PowMonotone(0.001, 0, k + 1);
    }
  }

  /** The edge `um.add(f, other='liter', factor=4.54609)`: a gallon is
      4.54609 liters. */
  const GallonEdge: Item := Item("f", "liter", 4.54609, 0.0, {})
  /** The edge `um.add(Family(base='°F'), other='°C', offset=-32/1.8,
      factor=5/9)`. */
  const FahrenheitEdge: Item := Item("°F", "°C", 5.0 / 9.0, -32.0 / 1.8, {})

  /** The four registrations of the example, in order. */
  function BuildDoctest(l: Family): Result<Manager, Error> {
    var m1 :- Registry.Add(Empty, l, None, 1.0, 0.0, []);
    var m2 :- Registry.Add(m1, Gallons, Some("liter"), 4.54609, 0.0, []);
    var m3 :- Registry.Add(m2, Celsius, None, 1.0, 0.0, []);
    Registry.Add(m3, Fahrenheit, Some("°C"), 5.0 / 9.0, -32.0 / 1.8, [])
  }

  /** The registry the example ends with. */
  function Doctest(l: Family): Manager {
    Manager(
      Index(Index(Index(Index(map[], l), Gallons), Celsius), Fahrenheit),
      map["liter" := l, "f" := Gallons, "°C" := Celsius, "°F" := Fahrenheit],
      map["liter" := [1], "f" := [0], "°C" := [3], "°F" := [2]],
      [GallonEdge, Reverse(GallonEdge), FahrenheitEdge, Reverse(FahrenheitEdge)],
      map[],
      ["liter", "f", "°C", "°F"])
  }

  function M1(l: Family): Manager {
    Manager(Index(map[], l), map["liter" := l], map["liter" := []], [], map[], ["liter"])
  }

  function M2(l: Family): Manager {
    Manager(Index(M1(l).units, Gallons), map["liter" := l, "f" := Gallons],
            map["liter" := [1], "f" := [0]], [GallonEdge, Reverse(GallonEdge)], map[], ["liter", "f"])
  }

  function M3(l: Family): Manager {
    Manager(Index(M2(l).units, Celsius), map["liter" := l, "f" := Gallons, "°C" := Celsius],
            map["liter" := [1], "f" := [0], "°C" := []], M2(l).edges, map[], ["liter", "f", "°C"])
  }

  lemma NoTags(tags: seq<string>)
    requires tags == []
    ensures (set g | g in tags) == {}
  {
  }

  lemma Step1(l: Family)
    requires l.name == "liter"
    ensures Registry.Add(Empty, l, None, 1.0, 0.0, []) == Success(M1(l))
  {
    var r := Registry.Add(Empty, l, None, 1.0, 0.0, []);
    assert r.Success?;
    assert r.value.families == M1(l).families;
    assert r.value.items == M1(l).items;
    assert r.value.edges == M1(l).edges;
    assert r.value.groups == M1(l).groups;
    assert r.value.order == M1(l).order;
  }

  /** Once linking is known to succeed, `add` returns the registry built
      from the linked edges. */
  lemma AddLinked(m: Manager, fam: Family, other: Option<string>, factor: real, offset: real,
                  edges: seq<Item>, items: map<string, seq<nat>>)
    requires other.Some? ==> other.value in m.families[fam.name := fam]
    requires Link(m.edges, Listed(m.items, fam.name), fam,
                  if other.Some? then Some(m.families[fam.name := fam][other.value]) else None,
                  factor, offset, {}) == Success((edges, items))
    ensures Registry.Add(m, fam, other, factor, offset, [])
            == Success(Manager(Index(m.units, fam), m.families[fam.name := fam], items, edges, m.groups,
                               if fam.name in m.families then m.order else m.order + [fam.name]))
  {
    NoTags([]);
  }

  lemma Step2(l: Family)
    requires l.name == "liter"
    ensures Registry.Add(M1(l), Gallons, Some("liter"), 4.54609, 0.0, []) == Success(M2(l))
  {
    var linked := Link(M1(l).edges, M1(l).items["f" := []], Gallons, Some(l), 4.54609, 0.0, {});
    assert linked.Success?;
    assert linked.value.0 == M2(l).edges;
    assert linked.value.1.Keys == M2(l).items.Keys;
    assert linked.value.1["liter"] == [1] && linked.value.1["f"] == [0];
    assert linked.value.1 == M2(l).items;
    assert Listed(M1(l).items, "f") == M1(l).items["f" := []];
    AddLinked(M1(l), Gallons, Some("liter"), 4.54609, 0.0, M2(l).edges, M2(l).items);
    assert M1(l).order + ["f"] == M2(l).order;
  }

  lemma Step3(l: Family)
    requires l.name == "liter"
    ensures Registry.Add(M2(l), Celsius, None, 1.0, 0.0, []) == Success(M3(l))
  {
    var r := Registry.Add(M2(l), Celsius, None, 1.0, 0.0, []);
    assert r.Success?;
    assert r.value.families == M3(l).families;
    assert r.value.items == M3(l).items;
    assert r.value.order == M3(l).order;
  }

  lemma Step4(l: Family)
    requires l.name == "liter"
    ensures Registry.Add(M3(l), Fahrenheit, Some("°C"), 5.0 / 9.0, -32.0 / 1.8, []) == Success(Doctest(l))
  {
    FahrenheitLinked(l);
    assert Listed(M3(l).items, "°F") == M3(l).items["°F" := []];
    assert Fahrenheit.name == "°F";
    assert M3(l).families["°F" := Fahrenheit]["°C"] == Celsius;
    assert "°F" !in M3(l).families;
    assert M3(l).groups == map[];
    AddLinked(M3(l), Fahrenheit, Some("°C"), 5.0 / 9.0, -32.0 / 1.8, Doctest(l).edges, Doctest(l).items);
    assert M3(l).order + ["°F"] == Doctest(l).order;
  }

  /** Linking two distinct nodes appends the edge and its reverse and
      lists each last under its own node. */
  lemma LinkBoth(edges: seq<Item>, items: map<string, seq<nat>>, fam: Family, o: Family,
                 factor: real, offset: real, tags: set<string>)
    requires fam.name in items && o.name in items && o.name != fam.name && factor != 0.0
    ensures var forward := Item(fam.name, o.name, factor, offset, tags);
            var i := |edges|;
            Link(edges, items, fam, Some(o), factor, offset, tags)
            == Success((edges + [forward, Reverse(forward)],
                        items[fam.name := items[fam.name] + [i]][o.name := items[o.name] + [i + 1]]))
  {
  }

  /** Linking Fahrenheit to Celsius adds the affine edge and its reverse. */
  lemma FahrenheitLinked(l: Family)
    ensures Link(M3(l).edges, M3(l).items["°F" := []], Fahrenheit, Some(Celsius), 5.0 / 9.0, -32.0 / 1.8, {})
            == Success((Doctest(l).edges, Doctest(l).items))
  {
    assert Fahrenheit.name == "°F" && Celsius.name == "°C";
    var items := M3(l).items["°F" := []];
    assert items["°F"] == [] && items["°C"] == [] && |M3(l).edges| == 2;
    LinkBoth(M3(l).edges, items, Fahrenheit, Celsius, 5.0 / 9.0, -32.0 / 1.8, {});
    var forward := Item(Fahrenheit.name, Celsius.name, 5.0 / 9.0, -32.0 / 1.8, {});
    assert forward == FahrenheitEdge;
    var items' := items[Fahrenheit.name := items[Fahrenheit.name] + [2]][Celsius.name := items[Celsius.name] + [3]];
    assert items'.Keys == Doctest(l).items.Keys;
    assert items'["°F"] == [2] && items'["°C"] == [3];
    assert items' == Doctest(l).items;
    assert M3(l).edges + [forward, Reverse(forward)] == Doctest(l).edges;
  }

  /** Each registration adds its family and, for the linked ones, an edge
      and its reverse. */
  lemma DoctestBuilt(l: Family)
    requires LiterLike(l)
    ensures BuildDoctest(l) == Success(Doctest(l))
  {
    Step1(l);
    Step2(l);
    Step3(l);
    Step4(l);
  }

  /** The example's registry is sound: every step keeps it so. */
  lemma DoctestSound(l: Family)
    requires LiterLike(l)
    ensures Sound(Doctest(l))
  {
    SoundAfter3(l);
    Step4(l);
    AddKeepsSound(M3(l), Fahrenheit, Some("°C"), 5.0 / 9.0, -32.0 / 1.8, []);
  }

  lemma SoundAfter1(l: Family)
    requires LiterLike(l)
    ensures Sound(M1(l))
  {
    EmptySound();
    Step1(l);
    AddKeepsSound(Empty, l, None, 1.0, 0.0, []);
  }

  lemma SoundAfter2(l: Family)
    requires LiterLike(l)
    ensures Sound(M2(l))
  {
    SoundAfter1(l);
    GallonsBuilt();
    Step2(l);
    AddKeepsSound(M1(l), Gallons, Some("liter"), 4.54609, 0.0, []);
  }

  lemma SoundAfter3(l: Family)
    requires LiterLike(l)
    ensures Sound(M3(l))
  {
    SoundAfter2(l);
    Step3(l);
    AddKeepsSound(M2(l), Celsius, None, 1.0, 0.0, []);
  }

  /** Less than a firkin is shown in gallons. */
  lemma GallonsBelowFirkin(x: real)
    requires 0.0 <= x < 9.0
    ensures Autoconvert(Gallons, x, "gallon") == Success((x, "gallon"))
  {
    GallonsShape();
    Fits(Gallons, x, "gallon");
  }

  /** A barrel is shown as one barrel. */
  lemma OneBarrel()
    ensures Autoconvert(Gallons, 1.0, "barrel") == Success((1.0, "barrel"))
  {
    GallonsShape();
    Fits(Gallons, 1.0, "barrel");
  }

  /** The gallon family is positive; a firkin is the smallest unit above
      the gallon and nothing is larger than the barrel. */
  lemma GallonsShape()
    ensures Positive(Gallons) && Gallons.units["gallon"] == 1.0 && Gallons.units["barrel"] == 36.0
    ensures forall v :: v in Gallons.units && v != "gallon" ==> 9.0 <= Gallons.units[v]
    ensures forall v :: v in Gallons.units && v != "barrel" ==> Gallons.units[v] < 36.0
  {
    forall v | v in Gallons.units
      ensures 0.0 < Gallons.units[v] && (v != "gallon" ==> 9.0 <= Gallons.units[v])
      ensures v != "barrel" ==> Gallons.units[v] < 36.0
    {
      GallonNames(v);
    }
  }

  /** The examples of `Family`: a firkin is 9 gallons, and 3 kilderkins
      (54 gallons) are shown as 1.5 barrels, the largest unit, since no
      unit above the barrel stops the scan earlier. */
  lemma FamilyExamples()
    ensures Convert(Gallons, 1.0, "firkin", "gallon") == Success((9.0, "gallon"))
    ensures Autoconvert(Gallons, 3.0, "kilderkin") == Success((1.5, "barrel"))
  {
    FirkinGallons();
    GallonsShape();
    KilderkinsInBase();
    LargestUnit(Gallons, 3.0, "kilderkin", "barrel");
    BarrelQuotient(InBase(Gallons, 3.0, "kilderkin"), Gallons.units["barrel"]);
  }

  lemma FirkinGallons()
    ensures Convert(Gallons, 1.0, "firkin", "gallon") == Success((9.0, "gallon"))
  {
    assert Gallons.units["firkin"] == 9.0 && Gallons.units["gallon"] == 1.0;
  }

  lemma KilderkinsInBase()
    ensures "kilderkin" in Gallons.units && InBase(Gallons, 3.0, "kilderkin") == 54.0
  {
    assert Gallons.units["kilderkin"] == 18.0;
  }

  lemma BarrelQuotient(q: real, c: real)
    requires q == 54.0 && c == 36.0
    ensures q / c == 1.5
  {
  }

  /** An amount at least as large as the unit with the largest factor is
      shown in that unit. */
  lemma LargestUnit(f: Family, amount: real, unit: string, u: string)
    requires Positive(f) && unit in f.units && u in f.units
    requires f.units[u] <= InBase(f, amount, unit)
    requires forall v :: v in f.units && v != u ==> f.units[v] < f.units[u]
    ensures Autoconvert(f, amount, unit) == Success((InBase(f, amount, unit) / f.units[u], u))
  {
    AutoconvertChooses(f, amount, unit, u);
  }

  /** An amount of `u` at least as large as `u` and smaller than every
      larger unit is shown in `u` unchanged. */
  lemma Fits(f: Family, x: real, u: string)
    requires Positive(f) && u in f.units
    requires f.units[u] <= InBase(f, x, u) || forall v :: v in f.units && v != u ==> f.units[u] < f.units[v]
    requires forall v :: v in f.units && v != u ==> f.units[v] < f.units[u] || InBase(f, x, u) < f.units[v]
    ensures Autoconvert(f, x, u) == Success((x, u))
  {
    AutoconvertChooses(f, x, u, u);
    BaseAndBack(f, x, u);
  }

  /** Taking an amount to the base and dividing by its unit's factor gives
      it back. */
  lemma BaseAndBack(f: Family, x: real, u: string)
    requires u in f.units && f.units[u] > 0.0
    ensures InBase(f, x, u) / f.units[u] == x
  {
    var c := f.units[u];
    assert InBase(f, x, u) == x * c;
  }

  /** Both temperature edges stay among the temperature families. */
  lemma TemperaturesClosed(l: Family)
    ensures Closed(Doctest(l), {"°C", "°F"})
  {
    var e := Doctest(l).edges;
    assert e[0].family == "f" && e[1].family == "liter";
    assert e[2].other == "°C" && e[3].other == "°F";
  }

  lemma DoctestWired(l: Family)
    requires LiterLike(l)
    ensures Wired(Doctest(l))
  {
    DoctestSound(l);
  }

  /** Every family of the example has a single outgoing edge, so each
      edge is the shortest path to the family it leads to. */
  lemma DoctestPaths(l: Family)
    requires LiterLike(l)
    ensures Wired(Doctest(l))
    ensures ShortestPath(Doctest(l), "f", "liter") == Some([0])
    ensures ShortestPath(Doctest(l), "liter", "f") == Some([1])
    ensures ShortestPath(Doctest(l), "°F", "°C") == Some([2])
    ensures ShortestPath(Doctest(l), "°C", "°F") == Some([3])
  {
    DoctestWired(l);
    DoctestHop(l, "f", "liter", 0);
    DoctestHop(l, "liter", "f", 1);
    DoctestHop(l, "°F", "°C", 2);
    DoctestHop(l, "°C", "°F", 3);
  }

  lemma DoctestHop(l: Family, a: string, b: string, e: nat)
    requires LiterLike(l)
    requires || (a == "f" && b == "liter" && e == 0) || (a == "liter" && b == "f" && e == 1)
             || (a == "°F" && b == "°C" && e == 2) || (a == "°C" && b == "°F" && e == 3)
    ensures Wired(Doctest(l))
    ensures ShortestPath(Doctest(l), a, b) == Some([e])
  {
    var d := Doctest(l);
    DoctestWired(l);
    DoctestEdges(l);
    HopIn(d, a, b, e);
  }

  /** The hops of any wired registry with the example's edges and
      adjacency. */
  lemma HopIn(d: Manager, a: string, b: string, e: nat)
    requires Wired(d) && |d.edges| == 4
    requires && d.edges[0].other == "liter" && d.edges[1].other == "f"
             && d.edges[2].other == "°C" && d.edges[3].other == "°F"
    requires d.items == map["liter" := [1], "f" := [0], "°C" := [3], "°F" := [2]]
    requires || (a == "f" && b == "liter" && e == 0) || (a == "liter" && b == "f" && e == 1)
             || (a == "°F" && b == "°C" && e == 2) || (a == "°C" && b == "°F" && e == 3)
    ensures ShortestPath(d, a, b) == Some([e])
  {
    OnlyEdge(d, a, b, e);
  }

  /** Where each edge of the example leads, and which edge leaves each
      family. */
  lemma DoctestEdges(l: Family)
    ensures var d := Doctest(l);
            && |d.edges| == 4
            && d.edges[0].other == "liter" && d.edges[1].other == "f"
            && d.edges[2].other == "°C" && d.edges[3].other == "°F"
            && d.items == map["liter" := [1], "f" := [0], "°C" := [3], "°F" := [2]]
  {
  }

  /** Which family each unit of the example resolves to. */
  lemma DoctestUnits(l: Family)
    requires LiterLike(l)
    ensures var d := Doctest(l);
            && "ml" in d.units && d.units["ml"] == l && "l" in d.units && d.units["l"] == l
            && (forall u :: u in Gallons.units ==> u in d.units && d.units[u] == Gallons)
            && "°C" in d.units && d.units["°C"] == Celsius
            && "°F" in d.units && d.units["°F"] == Fahrenheit
  {
    var u2 := Index(Index(map[], l), Gallons);
    var d := Doctest(l);
    GallonUnits(l, u2);
    IndexTemperatures(u2);
    assert d.units == Index(Index(u2, Celsius), Fahrenheit);
    forall u | u in Gallons.units
      ensures u in d.units && d.units[u] == Gallons
    {
      assert u in u2 && u2[u] == Gallons;
      assert u != "°C" && u != "°F" by { GallonNames(u); }
    }
  }

  lemma GallonNames(u: string)
    requires u in Gallons.units
    ensures u in {"gallon", "barrel", "kilderkin", "firkin"}
  {
  }

  lemma GallonUnits(l: Family, u2: map<string, Family>)
    requires "ml" in l.units && "l" in l.units && u2 == Index(Index(map[], l), Gallons)
    ensures "ml" in u2 && u2["ml"] == l && "l" in u2 && u2["l"] == l
    ensures forall u :: u in Gallons.units ==> u in u2 && u2[u] == Gallons
  {
    assert "ml" !in Gallons.units && "l" !in Gallons.units;
  }

  /** The temperature families, indexed last, take their own units and
      leave every other unit alone. */
  lemma IndexTemperatures(u2: map<string, Family>)
    ensures var u4 := Index(Index(u2, Celsius), Fahrenheit);
            && "°C" in u4 && u4["°C"] == Celsius && "°F" in u4 && u4["°F"] == Fahrenheit
            && forall u :: u in u2 && u != "°C" && u != "°F" ==> u in u4 && u4[u] == u2[u]
  {
    assert Celsius.units.Keys == {"°C"} && Fahrenheit.units.Keys == {"°F"};
  }

  lemma DoctestFamilies(l: Family)
    requires l.name == "liter"
    ensures var d := Doctest(l);
            && "liter" in d.families && d.families["liter"] == l && l.name == "liter"
            && "f" in d.families && d.families["f"] == Gallons
  {
  }

  /** `um.convert_to_unit(1e4, 'ml', 'l')` gives 10 liters. */
  lemma MilliliterToLiter(l: Family)
    requires LiterLike(l)
    ensures Inv(Doctest(l))
    ensures ConvertToUnit(Doctest(l), 10000.0, "ml", "l") == Success(Some((10.0, "l")))
  {
    DoctestSound(l);
    DoctestUnits(l);
    ConvertToUnitSameFamily(Doctest(l), 10000.0, "ml", "l");
  }

  /** `um.convert_to_unit(1, 'firkin', 'gallon')` gives 9 gallons. */
  lemma FirkinToGallon(l: Family)
    requires LiterLike(l)
    ensures Inv(Doctest(l))
    ensures ConvertToUnit(Doctest(l), 1.0, "firkin", "gallon") == Success(Some((9.0, "gallon")))
  {
    DoctestSound(l);
    DoctestUnits(l);
    ConvertToUnitSameFamily(Doctest(l), 1.0, "firkin", "gallon");
  }

  /** `um.convert_to_family(1, 'firkin', 'liter')` crosses the gallon edge
      and shows 40.91481 in liters, the unit `autoconvert` picks. */
  lemma FirkinInLiters(l: Family)
    requires LiterLike(l)
    ensures Inv(Doctest(l))
    ensures ConvertToFamily(Doctest(l), 1.0, "firkin", "liter") == Success(Some((40.91481, "l")))
  {
    var d := Doctest(l);
    DoctestFamilies(l);
    assert Sound(d) && d.units["firkin"] == Gallons by {
      DoctestSound(l);
      DoctestUnits(l);
    }
    DoctestPaths(l);
    assert Follow(d.edges[0], InBase(Gallons, 1.0, "firkin")) == 40.91481;
    assert Autoconvert(l, 40.91481, "l") == Success((40.91481, "l")) by {
      Fits(l, 40.91481, "l");
    }
    AlongOneEdge(d, 1.0, "firkin", l, 0, (40.91481, "l"));
  }

  /** `um.convert_to_family(1, 'l', 'f')` crosses the edge backwards: a
      liter is 1/4.54609 gallon. */
  lemma LiterInGallons(l: Family)
    requires LiterLike(l)
    ensures Inv(Doctest(l))
    ensures ConvertToFamily(Doctest(l), 1.0, "l", "f") == Success(Some((1.0 / 4.54609, "gallon")))
  {
    LiterToGallonEdge(l);
    AlongOneEdge(Doctest(l), 1.0, "l", Gallons, 1, (1.0 / 4.54609, "gallon"));
  }

  /** A liter reaches the gallon family over edge 1, and the amount it
      carries there is shown in gallons. */
  lemma LiterToGallonEdge(l: Family)
    requires LiterLike(l)
    ensures var d := Doctest(l);
            && Sound(d) && "l" in d.units && d.units["l"] == l
            && Gallons.name in d.families && d.families[Gallons.name] == Gallons
            && ShortestPath(d, l.name, Gallons.name) == Some([1])
            && Autoconvert(Gallons, Follow(d.edges[1], InBase(l, 1.0, "l")), Gallons.base)
               == Success((1.0 / 4.54609, "gallon"))
  {
    var d := Doctest(l);
    DoctestFamilies(l);
    assert Sound(d) && d.units["l"] == l by {
      DoctestSound(l);
      DoctestUnits(l);
    }
    DoctestPaths(l);
    BackOverGallonEdge(l);
    GallonsBelowFirkin(1.0 / 4.54609);
  }

  /** Carried back over the gallon edge, a liter is 1/4.54609 gallon. */
  lemma BackOverGallonEdge(l: Family)
    requires LiterLike(l)
    ensures Follow(Doctest(l).edges[1], InBase(l, 1.0, "l")) == 1.0 / 4.54609
  {
    assert InBase(l, 1.0, "l") == 1.0;
    assert Doctest(l).edges[1] == Reverse(GallonEdge);
  }

  /** `convert_to_family` along a one-edge shortest path is `autoconvert`
      in the target family of the amount the edge carries over. */
  lemma AlongOneEdge(m: Manager, amount: real, unit: string, dfam: Family, e: nat, c: (real, string))
    requires Sound(m) && unit in m.units && dfam.name in m.families && m.families[dfam.name] == dfam
    requires ShortestPath(m, m.units[unit].name, dfam.name) == Some([e])
    requires Autoconvert(dfam, Follow(m.edges[e], InBase(m.units[unit], amount, unit)), dfam.base) == Success(c)
    ensures ConvertToFamily(m, amount, unit, dfam.name) == Success(Some(c))
  {
    ConvertToFamilyOfCases(m, amount, unit, dfam);
  }

  /** `um.convert_to_family(1, 'barrel', 'f')` stays in the family and
      keeps the barrel. */
  lemma BarrelInGallons(l: Family)
    requires LiterLike(l)
    ensures Inv(Doctest(l))
    ensures ConvertToFamily(Doctest(l), 1.0, "barrel", "f") == Success(Some((1.0, "barrel")))
  {
    DoctestSound(l);
    DoctestUnits(l);
    ConvertToFamilySameFamily(Doctest(l), 1.0, "barrel");
    OneBarrel();
  }

  /** `um.convert_to_unit(32, '°F', '°C')`: freezing point. With exact
      arithmetic the answer is 0. */
  lemma FreezingPoint(l: Family)
    requires LiterLike(l)
    ensures Inv(Doctest(l))
    ensures ConvertToUnit(Doctest(l), 32.0, "°F", "°C") == Success(Some((0.0, "°C")))
  {
    var d := Doctest(l);
    DoctestSound(l);
    DoctestUnits(l);
    DoctestPaths(l);
    ConvertToUnitAnswers(d, 32.0, "°F", "°C");
    assert Chain(d, "°F", "°C", [2]);
    assert ApplyPath(d, [2], 32.0) == 0.0;
  }

  /** `um.convert_to_unit(100, '°C', '°F')`: boiling point, along the
      reverse of the Fahrenheit edge. */
  lemma BoilingPoint(l: Family)
    requires LiterLike(l)
    ensures Inv(Doctest(l))
    ensures ConvertToUnit(Doctest(l), 100.0, "°C", "°F") == Success(Some((212.0, "°F")))
  {
    var d := Doctest(l);
    DoctestSound(l);
    DoctestUnits(l);
    DoctestPaths(l);
    ConvertToUnitAnswers(d, 100.0, "°C", "°F");
    assert Chain(d, "°C", "°F", [3]);
    assert ApplyPath(d, [3], 100.0) == 212.0;
  }

  /** `um.convert_to_unit(1, '°C', 'ml')`: no edge leaves the temperature
      families, so there is no answer. */
  lemma NoPathToVolume(l: Family)
    requires LiterLike(l)
    ensures Inv(Doctest(l))
    ensures ConvertToUnit(Doctest(l), 1.0, "°C", "ml") == Success(None)
  {
    var d := Doctest(l);
    DoctestSound(l);
    DoctestUnits(l);
    ConvertToUnitAnswers(d, 1.0, "°C", "ml");
    var S := {"°C", "°F"};
    TemperaturesClosed(l);
    if q :| Chain(d, "°C", "liter", q) {
      ChainStaysIn(d, S, "°C", "liter", q);
      assert false;
    }
  }
}
