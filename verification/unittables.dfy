/** The flat unit tables of `convertunits.py`: each category of measurement
    keeps one `UnitList` mapping unit abbreviations to a full name and the
    factor that turns the unit into the category's base unit. */
module UnitTables {
  import opened Results
  import Families

  /** The exceptions `UnitList.convert_to_unit` raises. */
  datatype TableError =
    | UnknownAbbreviation(abbr: string)  // KeyError on an abbreviation
    | ZeroFactor                         // ZeroDivisionError on a factor 0

  /** `UnitList`: `units[a]` is the full name of abbreviation `a` and its
      factor to the base unit. */
  datatype UnitList = UnitList(baseAbbr: string, baseName: string, units: map<string, (string, real)>)

  /** `UnitList(baseUnitAbbr, baseUnitName)`: the base unit alone, with
      factor 1. */
  function NewList(abbr: string, name: string): (l: UnitList)
    ensures l.baseAbbr == abbr && l.baseName == name
    ensures l.units.Keys == {abbr}
    ensures GetFactor(l, abbr) == Success(1.0)
  {
    UnitList(abbr, name, map[abbr := (name, 1.0)])
  }

  /** `add_unit(unitAbbr, unitName, unitFactor)`: registers or replaces one
      abbreviation; the others keep their name and factor. */
  function AddUnit(l: UnitList, abbr: string, name: string, factor: real): (r: UnitList)
    ensures r.baseAbbr == l.baseAbbr && r.baseName == l.baseName
    ensures r.units.Keys == l.units.Keys + {abbr}
    ensures GetFactor(r, abbr) == Success(factor) && r.units[abbr].0 == name
    ensures forall a :: a in l.units && a != abbr ==> r.units[a] == l.units[a]
  {
    l.(units := l.units[abbr := (name, factor)])
  }

  /** `add_unit` with the default factor 1. */
  function AddUnitDefault(l: UnitList, abbr: string, name: string): (r: UnitList)
    ensures GetFactor(r, abbr) == Success(1.0)
    ensures r.units.Keys == l.units.Keys + {abbr}
  {
    AddUnit(l, abbr, name, 1.0)
  }

  /** `get_factor(unitAbbr)`: the factor of a registered abbreviation. */
  function GetFactor(l: UnitList, abbr: string): (r: Result<real, TableError>)
    ensures r.Failure? <==> abbr !in l.units
    ensures r.Failure? ==> r.error == UnknownAbbreviation(abbr)
    ensures r.Success? ==> (l.units[abbr].1 == r.value)
  {
    if abbr in l.units then Success(l.units[abbr].1) else Failure(UnknownAbbreviation(abbr))
  }

  /** `value` of `abbr`, in the base unit of the table. */
  function Worth(l: UnitList, value: real, abbr: string): real
    requires abbr in l.units
  {
    value * l.units[abbr].1
  }

  /** `convert_to_unit(value, from_unit, to_unit)`: the value times the
      factor of `from_unit`, divided by the factor of `to_unit`. The
      factor of `from_unit` is looked up first. */
  function ConvertToUnit(l: UnitList, value: real, from: string, to: string): (r: Result<real, TableError>)
    ensures r.Failure? <==> from !in l.units || to !in l.units || l.units[to].1 == 0.0
    ensures r.Failure? ==> r.error == (if from !in l.units then UnknownAbbreviation(from)
                                       else if to !in l.units then UnknownAbbreviation(to)
                                       else ZeroFactor)
    ensures r.Success? ==> r.value * l.units[to].1 == value * l.units[from].1
  {
    var f :- GetFactor(l, from);
    var t :- GetFactor(l, to);
    if t == 0.0 then Failure(ZeroFactor) else Success(value * f / t)
  }

  /** Converting to the unit one started from changes nothing. */
  lemma ConvertSelf(l: UnitList, value: real, a: string)
    requires a in l.units && l.units[a].1 != 0.0
    ensures ConvertToUnit(l, value, a, a) == Success(value)
  {
    var r := ConvertToUnit(l, value, a, a);
    Families.MulCancel(r.value, value, l.units[a].1);
  }

  /** Converting there and back returns the starting value. */
  lemma ConvertRoundTrip(l: UnitList, value: real, a: string, b: string)
    requires a in l.units && b in l.units && l.units[a].1 != 0.0 && l.units[b].1 != 0.0
    ensures ConvertToUnit(l, value, a, b).Success?
    ensures ConvertToUnit(l, ConvertToUnit(l, value, a, b).value, b, a) == Success(value)
  {
    var x := ConvertToUnit(l, value, a, b).value;
    var y := ConvertToUnit(l, x, b, a).value;
    assert y * l.units[a].1 == value * l.units[a].1;
    Families.MulCancel(y, value, l.units[a].1);
  }

  /** Converting a to b and then b to c is converting a to c. */
  lemma ConvertCompose(l: UnitList, value: real, a: string, b: string, c: string)
    requires a in l.units && b in l.units && c in l.units
    requires l.units[b].1 != 0.0 && l.units[c].1 != 0.0
    ensures ConvertToUnit(l, ConvertToUnit(l, value, a, b).value, b, c) == ConvertToUnit(l, value, a, c)
  {
    var x := ConvertToUnit(l, value, a, b).value;
    var y := ConvertToUnit(l, x, b, c).value;
    var z := ConvertToUnit(l, value, a, c).value;
    assert y * l.units[c].1 == z * l.units[c].1;
    Families.MulCancel(y, z, l.units[c].1);
  }

  /** Conversion is linear in the value. */
  lemma ConvertScales(l: UnitList, value: real, k: real, a: string, b: string)
    requires a in l.units && b in l.units && l.units[b].1 != 0.0
    ensures ConvertToUnit(l, k * value, a, b).Success?
    ensures ConvertToUnit(l, k * value, a, b).value == k * ConvertToUnit(l, value, a, b).value
  {
    var fa, fb := l.units[a].1, l.units[b].1;
    var x := ConvertToUnit(l, value, a, b).value;
    var y := ConvertToUnit(l, k * value, a, b).value;
    assert x * fb == value * fa;
    assert y * fb == (k * value) * fa;
    assert (k * x) * fb == k * (x * fb);
    assert (k * value) * fa == k * (value * fa);
    Families.MulCancel(y, k * x, fb);
  }

  // ---------------------------------------------------------------------
  // The seven categories

  datatype Category = Length | Pressure | Time | Concentration | MolConcentration | MolWeight | Volt

  /** `LengthUnits.unitList`: the metric lengths down to the micrometre. */
  function LengthList(): (l: UnitList)
    ensures l.baseAbbr == "m" && l.units.Keys == {"m", "cm", "mm", "µm"}
    ensures l.units["m"].1 == 1.0 && l.units["cm"].1 == 0.01
    ensures l.units["mm"].1 == 0.001 && l.units["µm"].1 == 0.000001
  {
    AddUnit(AddUnit(AddUnit(NewList("m", "metter"),
      "cm", "centimetter", 0.01), "mm", "millimetter", 0.001), "µm", "micrometter", 0.000001)
  }

  /** `PressureUnits.unitList`. */
  function PressureList(): (l: UnitList)
    ensures l.baseAbbr == "pa" && l.units.Keys == {"pa", "bar", "mbar", "psi"}
    ensures l.units["pa"].1 == 1.0 && l.units["bar"].1 == 100000.0
    ensures l.units["mbar"].1 == 100.0 && l.units["psi"].1 == 6894.8
  {
    AddUnit(AddUnit(AddUnit(NewList("pa", "pascal"),
      "bar", "bar", 100000.0), "mbar", "millibar", 100.0), "psi", "psi", 6894.8)
  }

  /** `TimeUnits.unitList`. */
  function TimeList(): (l: UnitList)
    ensures l.baseAbbr == "s" && l.units.Keys == {"s", "min", "h"}
    ensures l.units["s"].1 == 1.0 && l.units["min"].1 == 60.0 && l.units["h"].1 == 3600.0
  {
    AddUnit(AddUnit(NewList("s", "seconde"), "min", "minute", 60.0), "h", "hour", 3600.0)
  }

  /** The three tables with one milli-unit beside the base unit:
      `ConcentrationUnits`, `MolConcentrationUnits`, `MolWeightUnits`. */
  function MilliList(base: string, baseName: string, milli: string, milliName: string): (l: UnitList)
    requires base != milli
    ensures l.baseAbbr == base && l.units.Keys == {base, milli}
    ensures l.units[base].1 == 1.0 && l.units[milli].1 == 0.001
  {
    AddUnit(NewList(base, baseName), milli, milliName, 0.001)
  }

  /** `VoltUnits.unitList`. */
  function VoltList(): (l: UnitList)
    ensures l.baseAbbr == "V" && l.units.Keys == {"V", "mV", "KV"}
    ensures l.units["V"].1 == 1.0 && l.units["mV"].1 == 0.001 && l.units["KV"].1 == 1000.0
  {
    AddUnit(AddUnit(NewList("V", "Volt"), "mV", "millivolt", 0.001), "KV", "kilovolt", 1000.0)
  }

  /** The class-level `unitList` of each category. */
  function Table(c: Category): (r: UnitList)
    ensures Positive(r)
  {
    match c
    case Length => LengthPositive(); LengthList()
    case Pressure => PressurePositive(); PressureList()
    case Time => TimePositive(); TimeList()
    case Concentration =>
      MilliPositive("g/L", "gramm per litter", "mg/L", "milligram per litter");
      MilliList("g/L", "gramm per litter", "mg/L", "milligram per litter")
    case MolConcentration =>
      MilliPositive("mol/L", "mol per litter", "mmol/L", "millimol per litter");
      MilliList("mol/L", "mol per litter", "mmol/L", "millimol per litter")
    case MolWeight =>
      MilliPositive("g/mol", "gramm per mol", "mg/mol", "milligram per mol");
      MilliList("g/mol", "gramm per mol", "mg/mol", "milligram per mol")
    case Volt => VoltPositive(); VoltList()
  }

  /** `<Category>Units.convert_unit(value, from_unit, to_unit)`: it raises
      exactly when an abbreviation is unknown to the category, and
      otherwise gives the same quantity in `to`. */
  function ConvertUnit(c: Category, value: real, from: string, to: string): (r: Result<real, TableError>)
    ensures r.Success? <==> from in Table(c).units && to in Table(c).units
    ensures r.Failure? ==> r.error == (if from !in Table(c).units then UnknownAbbreviation(from)
                                       else UnknownAbbreviation(to))
    ensures r.Success? ==> Worth(Table(c), r.value, to) == Worth(Table(c), value, from)
  {
    var l := Table(c);
    ConvertInPositive(l, value, from, to);
    ConvertToUnit(l, value, from, to)
  }

  /** In a table whose factors are positive, a conversion raises exactly
      on an unknown abbreviation. */
  lemma ConvertInPositive(l: UnitList, value: real, from: string, to: string)
    requires Positive(l)
    ensures var r := ConvertToUnit(l, value, from, to);
            && (r.Success? <==> from in l.units && to in l.units)
            && (r.Failure? ==> r.error == (if from !in l.units then UnknownAbbreviation(from)
                                           else UnknownAbbreviation(to)))
  {
  }

  /** Base unit with factor 1 and every factor positive. */
  predicate Positive(l: UnitList) {
    && l.baseAbbr in l.units && l.units[l.baseAbbr].1 == 1.0
    && forall a :: a in l.units ==> l.units[a].1 > 0.0
  }

  /** Adding a unit other than the base with a positive factor keeps a
      table positive. */
  lemma AddUnitPositive(l: UnitList, abbr: string, name: string, factor: real)
    requires Positive(l) && abbr != l.baseAbbr && factor > 0.0
    ensures Positive(AddUnit(l, abbr, name, factor))
  {
  }

  lemma LengthPositive()
    ensures Positive(LengthList())
  {
    var l1 := AddUnit(NewList("m", "metter"), "cm", "centimetter", 0.01);
    var l2 := AddUnit(l1, "mm", "millimetter", 0.001);
    AddUnitPositive(NewList("m", "metter"), "cm", "centimetter", 0.01);
    AddUnitPositive(l1, "mm", "millimetter", 0.001);
    AddUnitPositive(l2, "µm", "micrometter", 0.000001);
  }

  lemma PressurePositive()
    ensures Positive(PressureList())
  {
    var l1 := AddUnit(NewList("pa", "pascal"), "bar", "bar", 100000.0);
    var l2 := AddUnit(l1, "mbar", "millibar", 100.0);
    AddUnitPositive(NewList("pa", "pascal"), "bar", "bar", 100000.0);
    AddUnitPositive(l1, "mbar", "millibar", 100.0);
    AddUnitPositive(l2, "psi", "psi", 6894.8);
  }

  lemma TimePositive()
    ensures Positive(TimeList())
  {
    var l1 := AddUnit(NewList("s", "seconde"), "min", "minute", 60.0);
    AddUnitPositive(NewList("s", "seconde"), "min", "minute", 60.0);
    AddUnitPositive(l1, "h", "hour", 3600.0);
  }

  lemma VoltPositive()
    ensures Positive(VoltList())
  {
    var l1 := AddUnit(NewList("V", "Volt"), "mV", "millivolt", 0.001);
    AddUnitPositive(NewList("V", "Volt"), "mV", "millivolt", 0.001);
    AddUnitPositive(l1, "KV", "kilovolt", 1000.0);
  }

  lemma MilliPositive(base: string, baseName: string, milli: string, milliName: string)
    requires base != milli
    ensures Positive(MilliList(base, baseName, milli, milliName))
  {
  }

  /** The expectations of the length tests. */
  lemma LengthExpectations()
    ensures ConvertUnit(Length, 10.0, "m", "m") == Success(10.0)
    ensures ConvertUnit(Length, 10.0, "cm", "m") == Success(0.1)
    ensures ConvertUnit(Length, 10.0, "mm", "cm") == Success(1.0)
  {
  }

  /** The exact expectations of the pressure tests. */
  lemma PressureExpectations()
    ensures ConvertUnit(Pressure, 10.0, "pa", "pa") == Success(10.0)
    ensures ConvertUnit(Pressure, 0.1, "bar", "pa") == Success(10000.0)
    ensures ConvertUnit(Pressure, 10.0, "mbar", "bar") == Success(0.01)
  {
  }

  /** The one approximate expectation: 0.1 bar in psi agrees with
      1.45036839357 to eleven decimal places. */
  lemma BarToPsi()
    ensures ConvertUnit(Pressure, 0.1, "bar", "psi").Success?
    ensures var x := ConvertUnit(Pressure, 0.1, "bar", "psi").value;
            -0.000000000005 < x - 1.45036839357 < 0.000000000005
  {
    var x := ConvertUnit(Pressure, 0.1, "bar", "psi").value;
    assert x * 6894.8 == 10000.0;
  }

  /** The expectations of the time tests. */
  lemma TimeExpectations()
    ensures ConvertUnit(Time, 10.0, "s", "s") == Success(10.0)
    ensures ConvertUnit(Time, 1.5, "min", "s") == Success(90.0)
    ensures ConvertUnit(Time, 2.0, "h", "min") == Success(120.0)
  {
  }

  /** The expectations of the concentration tests. */
  lemma ConcentrationExpectations()
    ensures ConvertUnit(Concentration, 10.0, "g/L", "g/L") == Success(10.0)
    ensures ConvertUnit(Concentration, 10.0, "mg/L", "g/L") == Success(0.01)
  {
    MilliConversions("g/L", "gramm per litter", "mg/L", "milligram per litter");
  }

  /** The expectations of the molar concentration tests. */
  lemma MolConcentrationExpectations()
    ensures ConvertUnit(MolConcentration, 10.0, "mol/L", "mol/L") == Success(10.0)
    ensures ConvertUnit(MolConcentration, 10.0, "mmol/L", "mol/L") == Success(0.01)
  {
    MilliConversions("mol/L", "mol per litter", "mmol/L", "millimol per litter");
  }

  /** The expectations of the molar weight tests. */
  lemma MolWeightExpectations()
    ensures ConvertUnit(MolWeight, 10.0, "g/mol", "g/mol") == Success(10.0)
    ensures ConvertUnit(MolWeight, 10.0, "mg/mol", "g/mol") == Success(0.01)
  {
    MilliConversions("g/mol", "gramm per mol", "mg/mol", "milligram per mol");
  }

  /** In a table of a base and its milli-unit, 10 base units stay 10 and
      10 milli-units are 0.01 base units. */
  lemma MilliConversions(base: string, baseName: string, milli: string, milliName: string)
    requires base != milli
    ensures ConvertToUnit(MilliList(base, baseName, milli, milliName), 10.0, base, base) == Success(10.0)
    ensures ConvertToUnit(MilliList(base, baseName, milli, milliName), 10.0, milli, base) == Success(0.01)
  {
    var l := MilliList(base, baseName, milli, milliName);
    ConvertSelf(l, 10.0, base);
  }

  /** The expectations of the volt tests. */
  lemma VoltExpectations()
    ensures ConvertUnit(Volt, 10.0, "V", "V") == Success(10.0)
    ensures ConvertUnit(Volt, 10.0, "mV", "V") == Success(0.01)
    ensures ConvertUnit(Volt, 100.0, "mV", "KV") == Success(0.0001)
  {
  }

  /** Abbreviations are case-sensitive: the kilovolt is `KV`, and `kV` is
      unknown. */
  lemma CaseSensitive()
    ensures ConvertUnit(Volt, 1.0, "kV", "V") == Failure(UnknownAbbreviation("kV"))
    ensures ConvertUnit(Volt, 1.0, "V", "kV") == Failure(UnknownAbbreviation("kV"))
  {
  }
}
