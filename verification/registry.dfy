/** firkin's `Item` and the registration half of `UnitManager`: families
    joined by affine edges between their base units. */
module Registry {
  import opened Results
  import opened Families

  /** `Item`: a directed edge out of family `family`. Following it turns a
      quantity in the base unit of `family` into the base unit of `other`
      as `x * factor + offset`. */
  datatype Item = Item(family: string, other: string, factor: real, offset: real, groups: set<string>)

  /** One step of the path walk in `convert_to_unit`/`convert_to_family`. */
  function Follow(e: Item, x: real): real {
    x * e.factor + e.offset
  }

  /** The edge `add` registers in the opposite direction: factor `1/f`,
      offset `-o/f`. */
  function Reverse(e: Item): (r: Item)
    requires e.factor != 0.0
    ensures r.family == e.other && r.other == e.family && r.groups == e.groups
  {
    Item(e.other, e.family, 1.0 / e.factor, -e.offset / e.factor, e.groups)
  }

  /** Following an edge and then its reverse gives back the original
      amount, and so does the other order. */
  lemma FollowReverse(e: Item, x: real)
    requires e.factor != 0.0
    ensures Follow(Reverse(e), Follow(e, x)) == x
    ensures Follow(e, Follow(Reverse(e), x)) == x
  {
    var f, o := e.factor, e.offset;
    var y := x * f + o;
    calc {
      Follow(Reverse(e), y);
      y * (1.0 / f) + -o / f;
      { DivDistributes(x * f, o, f); }
      x * f / f;
      { MulDiv(x, f); }
      x;
    }
    var z := x * (1.0 / f) + -o / f;
    calc {
      Follow(e, z);
      z * f + o;
      { ScaleBack(x, o, f); }
      x;
    }
  }

  lemma DivDistributes(a: real, o: real, f: real)
    requires f != 0.0
    ensures (a + o) * (1.0 / f) + -o / f == a / f
  {
  }

  lemma MulDiv(x: real, f: real)
    requires f != 0.0
    ensures x * f / f == x
  {
  }

  lemma ScaleBack(x: real, o: real, f: real)
    requires f != 0.0
    ensures (x * (1.0 / f) + -o / f) * f + o == x
  {
    assert x * (1.0 / f) * f == x;
    assert (-o / f) * f == -o;
  }

  /** `UnitManager`. `units` maps a unit name to the family object that
      registered it last, `families` a family name to its family, `items`
      a family name to the indices of its outgoing edges in `edges`, and
      `groups` a group tag to the families tagged with it. `order` is the
      order in which family names were first registered. */
  datatype Manager = Manager(
    units: map<string, Family>,
    families: map<string, Family>,
    items: map<string, seq<nat>>,
    edges: seq<Item>,
    groups: map<string, seq<Family>>,
    order: seq<string>)

  /** `UnitManager()`: nothing registered. */
  const Empty: Manager := Manager(map[], map[], map[], [], map[], [])

  /** Every unit of `fam` now belongs to `fam`; other units keep their
      family. */
  function Index(units: map<string, Family>, fam: Family): (r: map<string, Family>)
    ensures r.Keys == units.Keys + fam.units.Keys
    ensures forall u :: u in fam.units ==> r[u] == fam
    ensures forall u :: u in units && u !in fam.units ==> r[u] == units[u]
  {
    map u | u in units.Keys + fam.units.Keys :: if u in fam.units then fam else units[u]
  }

  /** `n` copies of `fam`. */
  function Copies(fam: Family, n: nat): (r: seq<Family>)
    ensures |r| == n && forall k :: 0 <= k < n ==> r[k] == fam
  {
    seq(n, _ => fam)
  }

  /** Appends `fam` to the member list of every tag, in order, creating
      missing tags: a tag's list gains one copy of `fam` per occurrence of
      the tag and nothing else. */
  function Tag(groups: map<string, seq<Family>>, tags: seq<string>, fam: Family): (r: map<string, seq<Family>>)
    ensures r.Keys == groups.Keys + (set t | t in tags)
    ensures forall c :: c in r ==> r[c] == (if c in groups then groups[c] else []) + Copies(fam, multiset(tags)[c])
    ensures forall c :: c in groups && c !in tags ==> r[c] == groups[c]
    ensures forall c :: c in tags ==> fam in r[c]
    ensures forall c, g :: c in r && g in r[c] ==> g == fam || (c in groups && g in groups[c])
    decreases |tags|
  {
    if |tags| == 0 then
      TagNone(groups, tags, fam);
      TagOnly(groups, tags, fam, groups);
      groups
    else
      var c := tags[0];
      var g1 := groups[c := (if c in groups then groups[c] else []) + [fam]];
      var r := Tag(g1, tags[1..], fam);
      TagKeys(groups, tags, fam, r);
      TagStep(groups, tags, fam, r);
      TagOnly(groups, tags, fam, r);
      r
  }

  /** What the exact member lists imply: untagged lists are kept, tagged
      ones hold `fam`, and nothing but `fam` joins any list. */
  lemma TagOnly(groups: map<string, seq<Family>>, tags: seq<string>, fam: Family, r: map<string, seq<Family>>)
    requires r.Keys == groups.Keys + (set t | t in tags)
    requires forall c :: c in r ==> r[c] == (if c in groups then groups[c] else []) + Copies(fam, multiset(tags)[c])
    ensures forall c :: c in groups && c !in tags ==> r[c] == groups[c]
    ensures forall c :: c in tags ==> fam in r[c]
    ensures forall c, g :: c in r && g in r[c] ==> g == fam || (c in groups && g in groups[c])
  {
    forall c | c in tags
      ensures fam in r[c]
    {
      var before := if c in groups then groups[c] else [];
      assert r[c][|before|] == fam;
    }
    forall c, g | c in r && g in r[c]
      ensures g == fam || (c in groups && g in groups[c])
    {
      var before := if c in groups then groups[c] else [];
      var k :| 0 <= k < |r[c]| && r[c][k] == g;
      if k < |before| {
        assert g == before[k];
      }
    }
  }

  /** With no tags, every list is kept. */
  lemma TagNone(groups: map<string, seq<Family>>, tags: seq<string>, fam: Family)
    requires |tags| == 0
    ensures groups.Keys == groups.Keys + (set t | t in tags)
    ensures forall c :: c in groups ==> groups[c] == (if c in groups then groups[c] else []) + Copies(fam, multiset(tags)[c])
  {
    forall c | c in groups
      ensures groups[c] == groups[c] + Copies(fam, multiset(tags)[c])
    {
      assert Copies(fam, multiset(tags)[c]) == [];
    }
  }

  /** The first tag is a key after it is handled, and so is every later
      one. */
  lemma TagKeys(groups: map<string, seq<Family>>, tags: seq<string>, fam: Family, r: map<string, seq<Family>>)
    requires |tags| > 0
    requires r.Keys == groups.Keys + {tags[0]} + (set t | t in tags[1..])
    ensures r.Keys == groups.Keys + (set t | t in tags)
  {
    assert tags == [tags[0]] + tags[1..];
    assert (set t | t in tags) == {tags[0]} + (set t | t in tags[1..]);
  }

  /** One tag handled first: its list gained `fam` once, and the rest of
      the tags account for every other copy. */
  lemma TagStep(groups: map<string, seq<Family>>, tags: seq<string>, fam: Family, r: map<string, seq<Family>>)
    requires |tags| > 0
    requires var g1 := groups[tags[0] := (if tags[0] in groups then groups[tags[0]] else []) + [fam]];
             forall c :: c in r ==> r[c] == (if c in g1 then g1[c] else []) + Copies(fam, multiset(tags[1..])[c])
    ensures forall c :: c in r ==> r[c] == (if c in groups then groups[c] else []) + Copies(fam, multiset(tags)[c])
  {
    assert tags == [tags[0]] + tags[1..];
    assert multiset(tags) == multiset{tags[0]} + multiset(tags[1..]);
    forall c | c in r
      ensures r[c] == (if c in groups then groups[c] else []) + Copies(fam, multiset(tags)[c])
    {
      if c == tags[0] {
        var n := multiset(tags[1..])[c];
        assert [fam] + Copies(fam, n) == Copies(fam, n + 1);
      }
    }
  }

  /** The adjacency lists before `add` links a family: the family's own
      list, empty when it is new. */
  function Listed(items: map<string, seq<nat>>, name: string): (r: map<string, seq<nat>>)
    ensures r.Keys == items.Keys + {name}
    ensures forall n :: n in items ==> r[n] == items[n]
    ensures name !in items ==> r[name] == []
  {
    if name in items then items else items[name := []]
  }

  /** `edges'` and `items'` are `edges` and `items` after linking node
      `from` to node `to` by `forward`: `forward` is appended as edge `i`
      and listed last under `from`; when `to` is already a node its
      reverse is appended as edge `i + 1` and listed last under `to`; no
      other list changes and no node is added. */
  ghost predicate Appended(edges: seq<Item>, items: map<string, seq<nat>>, from: string, to: string, forward: Item,
                           edges': seq<Item>, items': map<string, seq<nat>>)
    requires from in items
  {
    var i := |edges|;
    var back := to in items;
    && |edges'| == i + (if back then 2 else 1)
    && edges'[..i] == edges && edges'[i] == forward
    && (back ==> forward.factor != 0.0 && edges'[i + 1] == Reverse(forward))
    && items'.Keys == items.Keys
    && items'[from] == items[from] + [i] + (if to == from then [i + 1] else [])
    && (back && to != from ==> items'[to] == items[to] + [i + 1])
    && (forall n :: n in items && n != from && n != to ==> items'[n] == items[n])
  }

  /** The edge part of `add`: the forward edge under `fam`'s name and,
      when `other` is already a node, the reverse edge under its name.
      The reverse edge divides by `factor`. */
  function Link(edges: seq<Item>, items: map<string, seq<nat>>, fam: Family, other: Option<Family>,
                factor: real, offset: real, tags: set<string>): (r: Result<(seq<Item>, map<string, seq<nat>>), Error>)
    requires fam.name in items
    ensures other.None? ==> r == Success((edges, items))
    ensures other.Some? ==> (r.Failure? <==> other.value.name in items && factor == 0.0)
    ensures r.Failure? ==> r.error == DivisionByZero
    ensures other.Some? && r.Success? ==>
              Appended(edges, items, fam.name, other.value.name,
                       Item(fam.name, other.value.name, factor, offset, tags), r.value.0, r.value.1)
  {
    if other.None? then Success((edges, items))
    else
      var o := other.value;
      var forward := Item(fam.name, o.name, factor, offset, tags);
      var i := |edges|;
      var items1 := items[fam.name := items[fam.name] + [i]];
      if o.name !in items1 then
        assert (edges + [forward])[..i] == edges;
        Success((edges + [forward], items1))
      else if factor == 0.0 then Failure(DivisionByZero)
      else
        assert (edges + [forward, Reverse(forward)])[..i] == edges;
        Success((edges + [forward, Reverse(forward)], items1[o.name := items1[o.name] + [i + 1]]))
  }

  /** `UnitManager.add(family, other, factor, offset, groups)`. The family
      is registered under its name before `other` is looked up, so a
      family may name itself. */
  function Add(m: Manager, fam: Family, other: Option<string>, factor: real, offset: real,
               groups: seq<string>): (r: Result<Manager, Error>)
    ensures other.Some? && other.value !in m.families && other.value != fam.name ==>
              r == Failure(UnknownFamily(other.value))
    ensures r.Failure? ==> r.error == DivisionByZero || (other.Some? && r.error == UnknownFamily(other.value))
    ensures r.Failure? && r.error == DivisionByZero ==> other.Some? && factor == 0.0
    ensures other.None? || factor != 0.0 ==>
              (r.Success? <==> other.None? || other.value in m.families || other.value == fam.name)
    ensures r.Success? ==>
              && r.value.families == m.families[fam.name := fam]
              && r.value.units == Index(m.units, fam)
              && r.value.groups == Tag(m.groups, groups, fam)
              && r.value.order == (if fam.name in m.families then m.order else m.order + [fam.name])
              && |m.edges| <= |r.value.edges| && r.value.edges[..|m.edges|] == m.edges
    ensures r.Success? && other.None? ==> r.value.edges == m.edges && r.value.items == Listed(m.items, fam.name)
    ensures r.Success? && other.Some? && other.value in m.families[fam.name := fam] ==>
              var o := m.families[fam.name := fam][other.value];
              Appended(m.edges, Listed(m.items, fam.name), fam.name, o.name,
                       Item(fam.name, o.name, factor, offset, set g | g in groups), r.value.edges, r.value.items)
  {
    var families := m.families[fam.name := fam];
    if other.Some? && other.value !in families then Failure(UnknownFamily(other.value))
    else
      var items := Listed(m.items, fam.name);
      var o := if other.Some? then Some(families[other.value]) else None;
      var linked :- Link(m.edges, items, fam, o, factor, offset, set g | g in groups);
      Success(Manager(Index(m.units, fam), families, linked.1, linked.0, Tag(m.groups, groups, fam),
                      if fam.name in m.families then m.order else m.order + [fam.name]))
  }

  /** Family names are the graph's nodes; each is registered under its own
      name and is a valid family. */
  ghost predicate Nodes(m: Manager) {
    && m.families.Keys == m.items.Keys
    && (forall n :: n in m.families ==> m.families[n].name == n && Valid(m.families[n]))
    && Distinct(m.order)
    && (forall n :: n in m.order <==> n in m.families)
  }

  /** Every listed edge exists and leaves the family it is listed under;
      every edge ends at a node. */
  ghost predicate WiredEdges(edges: seq<Item>, items: map<string, seq<nat>>) {
    && (forall n, k :: n in items && 0 <= k < |items[n]| ==>
          items[n][k] < |edges| && edges[items[n][k]].family == n)
    && (forall i :: 0 <= i < |edges| ==> edges[i].other in items)
  }

  ghost predicate Wired(m: Manager) {
    WiredEdges(m.edges, m.items)
  }

  /** Every unit belongs to a valid, registered family that contains it. */
  ghost predicate Indexed(m: Manager) {
    forall u :: u in m.units ==>
      u in m.units[u].units && Valid(m.units[u]) && m.units[u].name in m.families
  }

  ghost predicate Inv(m: Manager) {
    Nodes(m) && Wired(m) && Indexed(m)
  }

  lemma EmptyInv()
    ensures Inv(Empty)
  {
  }

  /** Linking keeps every listed edge pointing at an existing edge that
      leaves its node, and adds no node. */
  lemma LinkKeepsWired(edges: seq<Item>, items: map<string, seq<nat>>, fam: Family, other: Option<Family>,
                       factor: real, offset: real, tags: set<string>)
    requires fam.name in items && WiredEdges(edges, items)
    requires other.Some? ==> other.value.name in items
    ensures var r := Link(edges, items, fam, other, factor, offset, tags);
            r.Success? ==> WiredEdges(r.value.0, r.value.1) && r.value.1.Keys == items.Keys
  {
    if other.Some? {
      var o := other.value;
      var forward := Item(fam.name, o.name, factor, offset, tags);
      var i := |edges|;
      var items1 := items[fam.name := items[fam.name] + [i]];
      var edges1 := edges + [forward];
      assert WiredEdges(edges1, items1) by {
        forall n, k | n in items1 && 0 <= k < |items1[n]|
          ensures items1[n][k] < |edges1| && edges1[items1[n][k]].family == n
        {
          if n == fam.name && k == |items[n]| {
            assert items1[n][k] == i;
          } else {
            assert items1[n][k] == items[n][k];
          }
        }
      }
      if factor != 0.0 {
        var edges2 := edges1 + [Reverse(forward)];
        var items2 := items1[o.name := items1[o.name] + [i + 1]];
        forall n, k | n in items2 && 0 <= k < |items2[n]|
          ensures items2[n][k] < |edges2| && edges2[items2[n][k]].family == n
        {
          if n == o.name && k == |items1[n]| {
            assert items2[n][k] == i + 1;
          } else {
            assert items2[n][k] == items1[n][k];
          }
        }
      }
    }
  }

  /** `add` keeps the registry's invariant, for any valid family. */
  lemma AddKeepsInv(m: Manager, fam: Family, other: Option<string>, factor: real, offset: real, groups: seq<string>)
    requires Inv(m) && Valid(fam)
    ensures var r := Add(m, fam, other, factor, offset, groups);
            r.Success? ==> Inv(r.value)
  {
    var r := Add(m, fam, other, factor, offset, groups);
    if r.Success? {
      AddKeepsWired(m, fam, other, factor, offset, groups);
      AddKeepsNodes(m, fam, other, factor, offset, groups);
      AddKeepsIndexed(m, fam, other, factor, offset, groups);
    }
  }

  lemma AddKeepsWired(m: Manager, fam: Family, other: Option<string>, factor: real, offset: real, groups: seq<string>)
    requires Nodes(m) && Wired(m)
    requires Add(m, fam, other, factor, offset, groups).Success?
    ensures Wired(Add(m, fam, other, factor, offset, groups).value)
    ensures Add(m, fam, other, factor, offset, groups).value.items.Keys == m.items.Keys + {fam.name}
  {
    var families := m.families[fam.name := fam];
    var items := Listed(m.items, fam.name);
    var o := if other.Some? then Some(families[other.value]) else None;
    AddIsLink(m, fam, other, factor, offset, groups);
    NewNodeWired(m.edges, m.items, fam.name);
    LinkKeepsWired(m.edges, items, fam, o, factor, offset, set g | g in groups);
  }

  /** A node added with no edges keeps the edges wired. */
  lemma NewNodeWired(edges: seq<Item>, items: map<string, seq<nat>>, name: string)
    requires WiredEdges(edges, items)
    ensures var items' := if name in items then items else items[name := []];
            WiredEdges(edges, items') && items'.Keys == items.Keys + {name}
  {
    var items' := if name in items then items else items[name := []];
    forall n, k | n in items' && 0 <= k < |items'[n]|
      ensures items'[n][k] < |edges| && edges[items'[n][k]].family == n
    {
      assert n in items;
    }
  }

  /** A successful `add` holds the edges and adjacency lists that linking
      the family produced. */
  lemma AddIsLink(m: Manager, fam: Family, other: Option<string>, factor: real, offset: real, groups: seq<string>)
    requires Add(m, fam, other, factor, offset, groups).Success?
    ensures other.Some? ==> other.value in m.families[fam.name := fam]
    ensures var families := m.families[fam.name := fam];
            var items := Listed(m.items, fam.name);
            var o := if other.Some? then Some(families[other.value]) else None;
            var l := Link(m.edges, items, fam, o, factor, offset, set g | g in groups);
            && l.Success?
            && Add(m, fam, other, factor, offset, groups).value.edges == l.value.0
            && Add(m, fam, other, factor, offset, groups).value.items == l.value.1
  {
  }

  lemma AddKeepsNodes(m: Manager, fam: Family, other: Option<string>, factor: real, offset: real, groups: seq<string>)
    requires Nodes(m) && Wired(m) && Valid(fam)
    requires Add(m, fam, other, factor, offset, groups).Success?
    ensures Nodes(Add(m, fam, other, factor, offset, groups).value)
  {
    AddKeepsWired(m, fam, other, factor, offset, groups);
    NodesAfter(m, Add(m, fam, other, factor, offset, groups).value, fam);
  }

  /** A registry whose families, nodes and order grew by one valid family
      under its own name keeps its nodes consistent. */
  lemma NodesAfter(m: Manager, r: Manager, fam: Family)
    requires Nodes(m) && Valid(fam)
    requires r.families == m.families[fam.name := fam] && r.items.Keys == m.items.Keys + {fam.name}
    requires r.order == (if fam.name in m.families then m.order else m.order + [fam.name])
    ensures Nodes(r)
  {
    assert r.families.Keys == m.families.Keys + {fam.name};
    NamedUpdate(m.families, fam);
    if fam.name !in m.families {
      assert fam.name !in m.order;
      AppendDistinct(m.order, fam.name);
    }
  }

  /** Registering a valid family under its own name keeps every family
      registered under its own name. */
  lemma NamedUpdate(families: map<string, Family>, fam: Family)
    requires forall n :: n in families ==> families[n].name == n && Valid(families[n])
    requires Valid(fam)
    ensures var r := families[fam.name := fam];
            forall n :: n in r ==> r[n].name == n && Valid(r[n])
  {
  }

  lemma AppendDistinct(s: seq<string>, x: string)
    requires Distinct(s) && x !in s
    ensures Distinct(s + [x])
  {
  }

  lemma AddKeepsIndexed(m: Manager, fam: Family, other: Option<string>, factor: real, offset: real, groups: seq<string>)
    requires Indexed(m) && Valid(fam)
    requires Add(m, fam, other, factor, offset, groups).Success?
    ensures Indexed(Add(m, fam, other, factor, offset, groups).value)
  {
    var r := Add(m, fam, other, factor, offset, groups).value;
    forall u | u in r.units
      ensures u in r.units[u].units && Valid(r.units[u]) && r.units[u].name in r.families
    {
      if u !in fam.units {
        assert r.units[u] == m.units[u];
      }
    }
  }

  /** With the invariant, `add` with a known `other` always registers
      both directions: the forward edge, listed last under the family, and
      its reverse, listed last under `other`; every other list is kept. */
  lemma AddLinksBothWays(m: Manager, fam: Family, other: string, factor: real, offset: real, groups: seq<string>)
    requires Inv(m)
    requires Add(m, fam, Some(other), factor, offset, groups).Success?
    ensures var r := Add(m, fam, Some(other), factor, offset, groups).value;
            var i := |m.edges|;
            var before := Listed(m.items, fam.name);
            && factor != 0.0
            && |r.edges| == i + 2
            && r.edges[i] == Item(fam.name, other, factor, offset, set g | g in groups)
            && r.edges[i + 1] == Reverse(r.edges[i])
            && r.items[fam.name] == before[fam.name] + [i] + (if other == fam.name then [i + 1] else [])
            && (other != fam.name ==> r.items[other] == m.items[other] + [i + 1])
            && (forall n :: n in m.items && n != fam.name && n != other ==> r.items[n] == m.items[n])
  {
    var families := m.families[fam.name := fam];
    assert families[other].name == other;
    assert other in Listed(m.items, fam.name);
  }
}
