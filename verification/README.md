# firkin unit-conversion engine, in Dafny

This project models the unit-conversion engine of the CE toolbox: the
`firkin` library (`Family`, `SIFamily`, `Item`, `UnitManager`) and the flat
per-category tables of `convertunits.py` (`UnitList` and the seven
`…Units` classes).

- A **family** (`Families.Family`) is a set of units derived from one base
  unit. Each unit has a factor that turns an amount of it into an amount of
  the base. `add` derives a unit from another one, `convert` moves an
  amount between two units of the family, and `autoconvert` scans the units
  in ascending factor order to pick the one that shows the amount at human
  scale.
- An **SI family** (`SIPrefixes.SIFamily`) is a family filled by two
  prefix loops: kilo…yotta, each 1000 times the previous one, and
  milli…yocto, each a thousandth of the previous one. The extended form
  adds hecto, deca, deci and centi.
- A **unit manager** (`Registry.Manager`) registers families as nodes of a
  graph. It joins them with affine edges (`Item`: `x * factor + offset`
  between the two base units), and each edge comes with its inverse. It
  indexes every unit by its family and tags families with group names.
- **Paths** (`Paths.ShortestPath`) is the depth-first search that never
  reuses an edge and keeps the shortest complete path.
- **Conversions** (`Conversion`):
  - `convert_to_unit` takes an amount to its family's base, carries it
    along the shortest path and converts it into the destination unit;
  - `convert_to_family` does the same but ends with `autoconvert` in the
    target family;
  - `convert_to_group` asks every tagged family and keeps the best answer
    under the source's asymmetric closeness-to-1 test.
- **Unit tables** (`UnitTables`) are the simple `UnitList` of
  `convertunits.py`: abbreviation → (name, factor), and
  `value * from / to`.
- **Examples** (`ManagerExamples`) are the worked examples of the library's
  documentation, built step by step from the operations above.

Numbers are exact `real`s. Within the modelled operations, every
exception the source raises is a `Failure` of a `Result`: KeyError on a
unit, family or group name, and division by zero. The exceptions are the
cases listed under "## Left out" (for example the KeyError of
`shortest_path` when the start is a unit name, and the partial state of a
failing `add`). Python's `None` answers are `Option.None`.

Two behaviours of the source worth noting:
- `convert_to_group` looks the group up inside its loop over the
  families (externlib/firkin.py:603-604). So an unknown group raises
  KeyError whenever at least one family is registered, and an empty
  registry answers None.
- `autoconvert` scans the units in ascending factor order and stops at
  the last unit whose factor does not exceed the quantity
  (externlib/firkin.py:226-232). This is the largest unit that shows the
  amount as at least 1, or the smallest unit when none does.

## Model

| member | source | states |
|---|---|---|
| Families.Init | externlib/firkin.py:157-172 | A new family holds only its base unit, at factor 1. It is named after the base unless a name is given. |
| Families.Add | externlib/firkin.py:175-192 | Raises KeyError exactly when the reference unit (the base by default) is unknown. Otherwise the new unit is worth `factor` times the reference unit. Exactly that name is added, and every other unit keeps its factor. |
| Families.AddKeepsWellFormed | externlib/firkin.py:175-192 | Deriving a non-base unit from a known unit with a positive factor succeeds. All factors stay positive and the base stays at 1. |
| Families.Convert | externlib/firkin.py:195-209 | Raises for an unknown source unit first, then for an unknown destination, then for a zero destination factor. Otherwise the answer is in `dest` and holds the same quantity of base units. |
| Families.ConvertIdentity | externlib/firkin.py:195-209 | Converting a unit to itself returns the amount unchanged. |
| Families.ConvertRoundTrip | externlib/firkin.py:195-209 | Converting a→b and then b→a returns the starting amount and unit. |
| Families.ConvertCompose | externlib/firkin.py:195-209 | Converting a→b and then b→c equals converting a→c directly. |
| Families.Sort | externlib/firkin.py:226 | The result is a permutation of the input, in ascending factor order, and distinct names stay distinct. |
| Families.SortByFactor | externlib/firkin.py:226 | Every unit of the family appears exactly once, in ascending factor order. |
| Families.AutoconvertInPicks | externlib/firkin.py:225-233 | For any order of the units, the scan ends at the first position whose successor's factor exceeds the quantity (or at the last position). It answers in that unit, holding the quantity divided by that unit's factor. |
| Families.AutoStep | externlib/firkin.py:227-232 | A turn of the scan raises only KeyError on an unknown starting unit, or division by zero. On a known unit with no zero factor ahead it succeeds. Its answer is in one of the units still ahead and holds the same quantity of base units. |
| Families.AutoconvertIn | externlib/firkin.py:225-233 | Over any order of the family's units, an unknown unit raises KeyError on it. With no zero factor a known unit never raises. The answer is in one of the listed units and holds the same quantity. |
| Families.Autoconvert | externlib/firkin.py:212-233 | An unknown unit raises KeyError on it. Any answer is in a unit of the family and holds the same quantity. With positive factors a known unit never raises. |
| Families.AutoconvertNonPositive | externlib/firkin.py:225-233 | A zero or negative amount is always shown in the first unit of the ascending order. |
| Families.AutoconvertScaled | externlib/firkin.py:212-233 | The answer keeps the quantity. It shows at least 1 unless its unit has the smallest factor. Every unit with a larger factor would show less than 1. |
| Families.FitIndexBrackets | externlib/firkin.py:226-230 | In ascending order the scan stops at the last unit whose factor does not exceed the quantity, or at the first unit if every factor exceeds it. |
| Families.AutoconvertChooses | externlib/firkin.py:212-233 | Suppose a unit shows the amount as at least 1 (or is strictly the smallest), and every other unit is smaller or would show less than 1. Then `autoconvert` answers with that unit. |
| SIPrefixes.Geometric | externlib/firkin.py:309-316 | The loop names each prefix once, in order. The first gets the starting factor, and each next one the previous factor times the ratio. |
| SIPrefixes.GeometricPow | externlib/firkin.py:309-316 | A prefix loop that starts at ratio `a` and multiplies by `a` each step gives the k-th prefix the factor a^(k+1). |
| SIPrefixes.AddEntries | externlib/firkin.py:309-321 | Adding one prefixed unit per entry keeps the family valid, with the base at factor 1. It adds exactly the prefixed names and keeps positive factors positive. |
| SIPrefixes.AddEntriesFactors | externlib/firkin.py:309-321 | With distinct prefixes, each prefixed unit ends with its entry's factor. Every unit no entry names keeps its factor. |
| SIPrefixes.SIFamily | externlib/firkin.py:307-321 | The family is well formed. Its units are the base plus the 16 prefixed names, or 20 when extended. It is named after the base unless a name is given. |
| SIPrefixes.SIFamilyFactors | externlib/firkin.py:270-321 | The k-th large prefix (kilo, mega, …) is worth 1000^(k+1) and the k-th small prefix (milli, micro, …) 1000^-(k+1). When extended, hecto, deca, deci and centi are worth 100, 10, 0.1 and 0.01. |
| SIPrefixes.SIUnits | externlib/firkin.py:297-321 | Every unit of an SI family is its base or the base with one of its prefixes. |
| SIPrefixes.MilliKilo | externlib/firkin.py:299-303 | In any positive family where the milli unit alone lies between 0.001 and 0.365 of the base, 10^8 milli-units are 100 kilo-units. In such a family, 0.000365 kilo-units are shown as 365 milli-units. |
| SIPrefixes.PrefixExamples | externlib/firkin.py:299-303 | The documented SI examples hold in the SI family of any base unit. |
| Registry.Reverse | externlib/firkin.py:451-457 | The inverse edge runs from `other` back to the family and carries the same group tags. |
| Registry.FollowReverse | externlib/firkin.py:443-457 | Following an edge and then its inverse, in either order, returns the amount: factor 1/f with offset -o/f undoes `x*f + o`. |
| Registry.Index | externlib/firkin.py:459-460 | After registration every unit of the family resolves to it, and every other unit keeps its family. |
| Registry.Tag | externlib/firkin.py:462-475 | Each tag's member list gains one copy of the family per occurrence of the tag, after its earlier members; missing tags are created. Untagged groups are unchanged, and nothing but the family joins any list. |
| Registry.Link | externlib/firkin.py:443-457 | Without `other` nothing changes. Otherwise the forward edge is appended and listed last under the family. When `other` is already a node, the inverse follows it and is listed last under `other`, and only then does a zero factor raise. No other list changes and no node is added. |
| Registry.Add | externlib/firkin.py:413-475 | Raises KeyError when `other` names no registered family. The family itself counts, since it is registered first. The only other error is division by zero for a zero factor. Otherwise it updates families, units, groups and registration order. Without `other` the edges are kept and a new family gets an empty list. With `other`, the edges and lists change exactly as linking describes. |
| Registry.AddKeepsInv | externlib/firkin.py:413-475 | Registration keeps the registry's invariant. Nodes are exactly the families, each under its own name. Listed edges exist, leave their node and end at a node. Every unit resolves to a registered family that contains it. |
| Registry.AddLinksBothWays | externlib/firkin.py:443-457 | With `other` known, the factor is nonzero and exactly two edges are added. The forward edge is listed last under the family and its inverse last under `other` (both under the family when it names itself). Every other list is kept. |
| Paths.Search | externlib/firkin.py:495-509 | When start equals end it returns the path so far. Any result extends that path by a walk from start to end that uses no edge twice and avoids the edges already on the path. |
| Paths.Explore | externlib/firkin.py:501-509 | The loop over outgoing edges returns either the best path so far or a new valid extension, never longer than that best. |
| Paths.ShortestPath | externlib/firkin.py:478-509 | The answer is a walk from start to end over existing edges with no edge repeated. Two equal known families give the empty path. An unknown family gives None. |
| Paths.ShortestPathMinimal | externlib/firkin.py:478-509 | No walk between the two families is shorter than the path found. |
| Paths.ShortestPathNone | externlib/firkin.py:478-509 | The search answers None exactly when the two families are not both registered and connected. |
| Paths.Shortcut | externlib/firkin.py:502-504 | Every walk can be shortened to one that uses no edge twice, so skipping edges already on the path loses no connection. |
| Paths.OnlyEdge | externlib/firkin.py:499-509 | When the only edge out of the start leads to the end, that edge alone is the shortest path. |
| Conversion.AddKeepsSound | externlib/firkin.py:413-475 | Registering a well-formed family keeps the registry sound, provided it is new or is re-registered with at least its former units. |
| Conversion.ApplyPath | externlib/firkin.py:578-579 | Carrying an amount along any path is an affine map: the amount times the product of the path's factors, plus a shift fixed by the path. |
| Conversion.ApplyPathAppend | externlib/firkin.py:578-579 | Carrying an amount along two paths joined together equals carrying it along the first and then the second. |
| Conversion.AddThereAndBack | externlib/firkin.py:443-457 | Carrying an amount over a registered edge and then its inverse, in either order, returns the amount, whatever the offset. |
| Conversion.ConvertToUnit | externlib/firkin.py:550-580 | Raises KeyError on the source unit first, then on the destination. Every answer is in the destination unit. |
| Conversion.ConvertToUnitAnswers | externlib/firkin.py:550-580 | In a sound registry it never raises between known units, and answers None exactly when no walk joins the two families. Otherwise the answer, taken back to its family's base, is the source amount carried along the shortest path. |
| Conversion.ConvertToUnitSameFamily | externlib/firkin.py:570-576 | Within one family `convert_to_unit` is the family's own `convert`, so a unit converts to itself unchanged. |
| Conversion.ConvertToFamilyOf | externlib/firkin.py:531-547 | An unknown source unit raises KeyError. |
| Conversion.ConvertToFamily | externlib/firkin.py:512-547 | Raises KeyError on the unit first, then on the family name. Otherwise it is the conversion to the registered family object. |
| Conversion.ConvertToFamilyOfCases | externlib/firkin.py:537-547 | In a sound registry it answers None when no path exists. Otherwise it answers what `autoconvert` gives in the target family for the amount carried along the path, and that call does not raise. |
| Conversion.ConvertToFamilyAnswers | externlib/firkin.py:512-547 | In a sound registry it never raises, and answers None exactly when the families are not connected. Otherwise it answers in a unit of the target family that holds the carried quantity, at the scale `autoconvert` promises. |
| Conversion.ConvertToFamilySameFamily | externlib/firkin.py:542-543 | Within one family `convert_to_family` is the family's own `autoconvert`. |
| Conversion.Replaces | externlib/firkin.py:607-610 | For non-negative amounts on the same side of 1, the smaller one displaces the other. Across 1, the candidate displaces the best exactly when the two add up to less than 2. |
| Conversion.Pick | externlib/firkin.py:606-611 | The first answer is always taken. A later one is taken exactly when it displaces the current best; otherwise the best is kept. |
| Conversion.Asked | externlib/firkin.py:603-605 | An untagged family offers nothing. A tagged family is asked through `convert_to_family` by its name, so an unknown unit raises KeyError. |
| Conversion.Collect | externlib/firkin.py:603-605 | The loop raises exactly when some answer raises, and then raises the first such error. Otherwise it holds every answer at its place. |
| Conversion.Choose | externlib/firkin.py:602-612 | The selection never invents an answer: it returns the best it started with or one of the offered answers. Once it holds an answer it never drops to None. |
| Conversion.ChoosePicks | externlib/firkin.py:602-612 | The selection is None exactly when nothing was held or offered. Otherwise either the starting best is kept, since no answer displaces it, or the result is an offered answer that was taken over the best of the answers before it and that no later answer displaces. |
| Conversion.ConvertToGroup | externlib/firkin.py:584-612 | Raises KeyError on an unknown group as soon as one family is registered. With no families it answers None. |
| Conversion.GroupCollects | externlib/firkin.py:603-605 | In a sound registry no family raises on a known unit, and the answer is the selection over every family's answer in registration order. |
| Conversion.ConvertToGroupNone | externlib/firkin.py:584-612 | In a sound registry it never raises for a known unit and group. It answers None exactly when no family of the group is reachable from the unit's family. |
| Conversion.ConvertToGroupPicks | externlib/firkin.py:602-612 | The answer is what `convert_to_family` gives for some family of the group. That answer displaced the best answer of the families registered before it, and no family registered after it would have displaced it. |
| Conversion.GroupOrderMatters | externlib/firkin.py:607-610 | 0.5 displaces 1.2 and 1.2 displaces 0.5, so the answer depends on which family is visited last. |
| UnitTables.NewList | convertunits.py:27-31 | A new list knows only its base abbreviation, at factor 1. |
| UnitTables.AddUnit | convertunits.py:33-34 | Registers or replaces one abbreviation with its name and factor. Every other abbreviation is unchanged. |
| UnitTables.AddUnitDefault | convertunits.py:33-34 | Without a factor the unit is worth one base unit. |
| UnitTables.GetFactor | convertunits.py:36-37 | Raises KeyError exactly for an unregistered abbreviation. Otherwise it returns the registered factor. |
| UnitTables.ConvertToUnit | convertunits.py:39-41 | Raises KeyError on the source first, then on the target, then division by zero for a zero target factor. Otherwise the answer times the target factor is the value times the source factor. |
| UnitTables.ConvertSelf | convertunits.py:39-41 | Converting to the same abbreviation returns the value unchanged. |
| UnitTables.ConvertRoundTrip | convertunits.py:39-41 | Converting there and back returns the value. |
| UnitTables.ConvertCompose | convertunits.py:39-41 | Converting a→b and then b→c equals converting a→c. |
| UnitTables.ConvertScales | convertunits.py:39-41 | Conversion is linear in the value. |
| UnitTables.LengthList | convertunits.py:59-66 | Lengths: m, cm, mm and µm, at 1, 0.01, 0.001 and 0.000001 metre. |
| UnitTables.PressureList | convertunits.py:82-89 | Pressures: pa, bar, mbar and psi, at 1, 100000, 100 and 6894.8 pascal. |
| UnitTables.TimeList | convertunits.py:105-111 | Times: s, min and h, at 1, 60 and 3600 seconds. |
| UnitTables.MilliList | convertunits.py:127-132 | A base and its milli-unit at 0.001. This is the shape of the concentration, molar concentration and molar weight tables. |
| UnitTables.VoltList | convertunits.py:190-196 | Voltages: V, mV and KV, at 1, 0.001 and 1000 volt. |
| UnitTables.Table | convertunits.py:59-196 | In every category the base is worth 1 and every factor is positive. |
| UnitTables.ConvertUnit | convertunits.py:190-210 | Within a category a conversion raises KeyError exactly when an abbreviation is unknown, on the source first. Otherwise it gives the same quantity of base units in the target. Every category's `convert_unit` has this shape; the Volt one is cited. |
| UnitTables.CaseSensitive | convertunits.py:194-196 | Abbreviations are case-sensitive: `kV` is unknown and raises KeyError in either position. |
| UnitTables.LengthExpectations | test_convertunits.py:26-38 | 10 m is 10 m, 10 cm is 0.1 m, and 10 mm is 1 cm. |
| UnitTables.PressureExpectations | test_convertunits.py:40-52 | 10 pa is 10 pa, 0.1 bar is 10000 pa, and 10 mbar is 0.01 bar. |
| UnitTables.BarToPsi | test_convertunits.py:54-56 | 0.1 bar in psi agrees with 1.45036839357 to eleven decimal places. |
| UnitTables.TimeExpectations | test_convertunits.py:58-70 | 10 s is 10 s, 1.5 min is 90 s, and 2 h is 120 min. |
| UnitTables.ConcentrationExpectations | test_convertunits.py:72-80 | 10 g/L is 10 g/L, and 10 mg/L is 0.01 g/L. |
| UnitTables.MolConcentrationExpectations | test_convertunits.py:82-90 | 10 mol/L is 10 mol/L, and 10 mmol/L is 0.01 mol/L. |
| UnitTables.MolWeightExpectations | test_convertunits.py:92-100 | 10 g/mol is 10 g/mol, and 10 mg/mol is 0.01 g/mol. |
| UnitTables.VoltExpectations | test_convertunits.py:102-114 | 10 V is 10 V, 10 mV is 0.01 V, and 100 mV is 0.0001 KV. |
| ManagerExamples.GallonsBuilt | externlib/firkin.py:378-381 | The three `add` calls succeed and compose along `other`: a barrel is 36, a kilderkin 18 and a firkin 9 gallons. The family is well formed. |
| ManagerExamples.FamilyExamples | externlib/firkin.py:148-155 | A firkin is 9 gallons. 3 kilderkins are shown as 1.5 barrels. |
| ManagerExamples.SILiter | externlib/firkin.py:376 | The SI liter family has the milliliter at 0.001, and no unit but the liter lies in [1, 1000) liters. |
| ManagerExamples.DoctestBuilt | externlib/firkin.py:375-385 | The four registrations of the example succeed. They give the gallon→liter edge (factor 4.54609), the °F→°C edge (5/9, offset -32/1.8) and both inverses. |
| ManagerExamples.DoctestSound | externlib/firkin.py:375-385 | The example's registry is sound. |
| ManagerExamples.DoctestPaths | externlib/firkin.py:375-385 | Each family of the example reaches its partner by a single-edge shortest path. |
| ManagerExamples.MilliliterToLiter | externlib/firkin.py:386-387 | 10^4 ml is 10 l. |
| ManagerExamples.FirkinToGallon | externlib/firkin.py:388-389 | 1 firkin is 9 gallons. |
| ManagerExamples.FirkinInLiters | externlib/firkin.py:390-391 | 1 firkin in the liter family is 40.91481 l. |
| ManagerExamples.LiterInGallons | externlib/firkin.py:392-393 | 1 l in the gallon family is 1/4.54609 gallon. |
| ManagerExamples.BarrelInGallons | externlib/firkin.py:394-395 | 1 barrel in its own family stays 1 barrel. |
| ManagerExamples.FreezingPoint | externlib/firkin.py:396-397 | 32 °F is 0 °C. |
| ManagerExamples.BoilingPoint | externlib/firkin.py:398-399 | 100 °C is 212 °F. |
| ManagerExamples.NoPathToVolume | externlib/firkin.py:400-401 | No path joins °C and ml, so the answer is None. |

## Left out

- Decimal arithmetic: `to_decimal`, the string round trip of floats, the
  Decimal context precision, and the final `float(...)` of
  `convertunits.py` are replaced by exact real arithmetic. Rounding is
  therefore not modelled.
- UnitTables.ConvertUnit: divides exactly, where Python 2 floor-divides
  two ints. The only int factors are each base's 1, the default 1 of
  `add_unit` and the Volt table's KV at 1000. So with an int value, V to
  KV differs: `VoltUnits.convert_unit(10, 'V', 'KV')` is 0 in the source
  and 0.01 in the model. The application's int calls
  (capillarymanager.py:162 and :173) only meet float factors, and the
  tests' int values only meet exact quotients or float factors.
- Registry.Reverse: the inverse factor `1/factor` and offset
  `-offset/factor` are exact divisions. In Python 2 an int factor and
  offset floor-divide, so `factor=2` gives an inverse factor of 0 there.
- `Item.__repr__` is left out: it only formats text.
- The normalisation of `groups` from a string, an iterable or a single
  object into a set is left out. Groups are given as a list of tag names.
- `Family.__contains__`, `__getitem__` and `__setitem__` are plain map
  membership, lookup and update.
- `UnitManager.add` with `other` given as an unregistered `Family` object
  is left out. `other` is always the name of a registered family (or of
  the family itself).
- The partial state a failing `UnitManager.add` leaves behind is not
  modelled (for example, the family is already stored when the KeyError
  is raised). The model discards the whole registration.
- Paths.ShortestPath: answers None whenever the start or the end is not
  a registered family. The source does so only when the start is not a
  unit name either. When it is one, as in `shortest_path('ml',
  'liter')`, the source swaps the start for that unit's family object
  and then raises KeyError looking it up (externlib/firkin.py:490-492
  and 502).
- `convert_to_family` with an unregistered `Family` object as target is
  left out. The target is a registered family, by name or by the object
  registered under that name.
- Dictionary iteration order (Python 2) is not modelled. A family's units
  keep their insertion order, which only breaks ties between equal
  factors in `autoconvert`. The families in `convert_to_group` are
  visited in registration order.
- Group membership in `convert_to_group` compares families by value, not
  by object identity.
- `BaseUnits.convert_unit` (it only raises NotImplementedError) and the
  `__main__` block are left out.
- Families.Convert: `0/0` raises InvalidOperation in Decimal, but the
  model reports it as DivisionByZero like any other zero factor.
- Conversion.ConvertToFamilyOf: its own contract states only the
  unknown-unit error. Its answers are stated by
  Conversion.ConvertToFamilyOfCases, for registered target families.
- Conversion.ConvertToUnit: its own contract states the error order and
  the answer's unit. The answer's value is stated by
  Conversion.ConvertToUnitAnswers, for sound registries only.
- Conversion.ConvertToUnitAnswers: stated for sound registries only. A
  registry is sound when its factors are positive, each base is 1, and no
  family was re-registered with fewer units.
- Conversion.ConvertToFamilyAnswers: stated for sound registries only.
- Conversion.ConvertToGroupNone: stated for sound registries only.
- Conversion.ConvertToGroupPicks: stated for sound registries only.
- ManagerExamples.FreezingPoint: with exact arithmetic the answer is 0.
  The documented -8E-12 is a Decimal rounding artefact.
- ManagerExamples.LiterInGallons: states the exact 1/4.54609, not the
  printed 0.219969248299.
- ManagerExamples.DoctestBuilt: the example's liter family is any family
  with the shape ManagerExamples.SILiter proves for the SI liter family.
  The same holds for every other example lemma over the manager.
