/** Facts about the shipped catalog (src/data/mock-data.ts), and the filter worked through
    on it for a few entries. */
module CatalogFacts {
  import opened Wrappers
  import opened Text
  import opened Numbers
  import opened ObjectTypes
  import opened MockData
  import opened Matching

  // ---------------------------------------------------------------------------------------
  // The shape of the catalog

  /** Every catalog object has characteristics, and within each object their identifiers
      are pairwise distinct. */
  lemma CharacteristicIdsDistinct()
    ensures forall i | 0 <= i < |SystemObjects| ::
              SystemObjects[i].characteristics.Some? && DistinctIds(SystemObjects[i].characteristics.value)
  {
  }

  /** Every catalog object belongs to one of the listed object types. */
  lemma ObjectTypesKnown()
    ensures forall i | 0 <= i < |SystemObjects| ::
              SystemObjects[i].objectType in {ObjectTypeList[0].id, ObjectTypeList[1].id, ObjectTypeList[2].id}
  {
  }

  /** The "complexPrep" type has parameter definitions but neither catalog objects nor
      sub-object templates: its parameter step always shows an empty list. */
  lemma ComplexPrepHasParameters()
    ensures ParametersOf("complexPrep") != []
  {
  }

  lemma ComplexPrepHasNoObjects()
    ensures OfType(SystemObjects, "complexPrep") == []
  {
    CatalogLayout();
    OfTypeAbsent(SystemObjects, "complexPrep");
  }

  /** A type no object of the catalog has lists nothing. */
  lemma OfTypeAbsent(catalog: seq<SystemObject>, objectType: string)
    requires forall i | 0 <= i < |catalog| :: catalog[i].objectType != objectType
    ensures OfType(catalog, objectType) == []
  {
    var r := OfType(catalog, objectType);
    if r != [] {
      assert false;
    }
  }

  lemma ComplexPrepHasNoTemplates()
    ensures SubObjectsOf("complexPrep") == []
  {
  }

  /** Every sub-object template starts unselected with a quantity of at least one. */
  lemma TemplatesStartUnselected()
    ensures forall t | t in SubObjectTypes ::
              forall i | 0 <= i < |SubObjectTypes[t]| ::
                !SubObjectTypes[t][i].selected && SubObjectTypes[t][i].count >= 1
  {
  }

  // ---------------------------------------------------------------------------------------
  // Numerals

  /** The digits of m / 10^scale, written with exactly `scale` fraction digits as the
      catalog writes its ranges ("1.0", "0.75"), form a numeral that reads back as that
      value. */
  lemma ReadsPrinted(m: nat, scale: nat)
    ensures Numeral(FormatUnsigned(m, scale))
    ensures ParseFloat(FormatUnsigned(m, scale)) == Some(m as real / Pow10(scale) as real)
  {
    FixedNumeral(m, scale);
    FixedValue(m, scale);
  }

  lemma FixedNumeral(m: nat, scale: nat)
    ensures Numeral(FormatUnsigned(m, scale))
  {
    FormatUnsignedEndsInDigit(m, scale);
  }

  lemma FixedValue(m: nat, scale: nat)
    ensures ParseFloat(FormatUnsigned(m, scale)) == Some(m as real / Pow10(scale) as real)
  {
    TrimStartNoop(FormatUnsigned(m, scale));
    ParseFormatUnsigned(m, scale);
  }

  /** An entry of "0.8" reads as 0.8. */
  lemma Entered0p8(values: map<string, string>, id: string)
    requires id in values && values[id] == "0.8"
    ensures Entered(values, id, 0.8)
  {
    assert FormatUnsigned(8, 1) == "0.8";
    ReadsPrinted(8, 1);
    Scaled(8, 1, 10);
  }

  /** An entry of "2.75" reads as 2.75. */
  lemma Entered2p75(values: map<string, string>, id: string)
    requires id in values && values[id] == "2.75"
    ensures Entered(values, id, 2.75)
  {
    assert FormatUnsigned(275, 2) == "2.75";
    ReadsPrinted(275, 2);
    Scaled(275, 2, 100);
  }

  /** An entry of "3.5" reads as 3.5. */
  lemma Entered3p5(values: map<string, string>, id: string)
    requires id in values && values[id] == "3.5"
    ensures Entered(values, id, 3.5)
  {
    assert FormatUnsigned(35, 1) == "3.5";
    ReadsPrinted(35, 1);
    Scaled(35, 1, 10);
  }

  lemma Reads10()
    ensures ParseFloat("10") == Some(10.0)
  {
    TrimStartNoop("10");
    assert DigitRun("10") == 2 && "10"[..2] == "10";
    assert "10"[..1] == "1" && DigitsValue("10") == 10;
  }

  lemma Reads55()
    ensures ParseFloat("55") == Some(55.0)
  {
    TrimStartNoop("55");
    assert DigitRun("55") == 2 && "55"[..2] == "55";
    assert "55"[..1] == "5" && DigitsValue("55") == 55;
  }

  /** Characteristic j of the object is the first carrying `id`, and its value is v. */
  predicate ValueAt(obj: SystemObject, id: string, j: nat, v: Value)
  {
    obj.characteristics.Some? && j < |obj.characteristics.value| &&
    obj.characteristics.value[j].id == id &&
    (forall i | 0 <= i < j :: obj.characteristics.value[i].id != id) &&
    obj.characteristics.value[j].value == v
  }

  /** Characteristic j of the object is the first carrying `id`, and it is a range written
      "lo - hi", each end printed with a fixed number of fraction digits, whose ends are
      worth low and high. */
  predicate RangeAt(obj: SystemObject, id: string, j: int, lo: int, loScale: int, hi: int, hiScale: int,
                    low: real, high: real)
  {
    0 <= j && 0 <= lo && 0 <= loScale && 0 <= hi && 0 <= hiScale &&
    ValueAt(obj, id, j, Text(FormatUnsigned(lo, loScale) + " - " + FormatUnsigned(hi, hiScale))) &&
    low == lo as real / Pow10(loScale) as real && high == hi as real / Pow10(hiScale) as real
  }

  /** The entry typed for `id` is not empty and reads as the number t. */
  predicate Entered(values: map<string, string>, id: string, t: real)
  {
    UserValue(values, id) != "" && ParseFloat(UserValue(values, id)) == Some(t)
  }

  lemma Scaled(m: nat, scale: nat, p: nat)
    requires Pow10(scale) == p
    ensures m as real / Pow10(scale) as real == m as real / p as real
  {
  }

  lemma SpacedDash()
    ensures " - " == " " + "-" + " " && Blank(" ")
  {
    assert IsWhitespace(' ');
  }

  /** Characteristic j of an object is the first carrying p's identifier and is a range
      written "lo - hi" with lo and hi printed to a fixed number of fraction digits: an
      entry that parses to t matches it exactly when t lies between their values, low and
      high. */
  lemma RangeEntry(obj: SystemObject, p: Parameter, values: map<string, string>, t: real,
                   j: int, lo: int, loScale: int, hi: int, hiScale: int, low: real, high: real)
    requires RangeAt(obj, p.id, j, lo, loScale, hi, hiScale, low, high)
    requires Entered(values, p.id, t)
    ensures Criterion(obj, p, values) <==> low <= t <= high
  {
    FindFirst(obj.characteristics.value, p.id, j);
    PrintedRange(obj, p, values, lo, loScale, hi, hiScale);
  }

  /** The characteristic `find` returns for p is a range printed from two numbers with a
      fixed number of fraction digits: an entry matches it exactly when it parses to a
      number between the two. */
  lemma PrintedRange(obj: SystemObject, p: Parameter, values: map<string, string>,
                     lo: nat, loScale: nat, hi: nat, hiScale: nat)
    requires FindCharacteristic(obj, p.id).Some?
    requires FindCharacteristic(obj, p.id).value.value == Text(FormatUnsigned(lo, loScale) + " - " + FormatUnsigned(hi, hiScale))
    requires UserValue(values, p.id) != ""
    ensures Criterion(obj, p, values) <==>
              ParseFloat(UserValue(values, p.id)).Some? &&
              lo as real / Pow10(loScale) as real <= ParseFloat(UserValue(values, p.id)).value <= hi as real / Pow10(hiScale) as real
  {
    ReadsPrinted(lo, loScale);
    ReadsPrinted(hi, hiScale);
    SpacedDash();
    RangeCharacteristic(obj, p, values, FormatUnsigned(lo, loScale), " - ", FormatUnsigned(hi, hiScale), " ", " ");
  }

  /** Characteristic j of an object is the first carrying p's identifier and is the
      number d, worth v: an entry that reads as t matches it exactly when t is within 10%
      of v. */
  lemma NumberEntry(obj: SystemObject, p: Parameter, values: map<string, string>, t: real,
                    j: int, units: int, scale: int, v: real)
    requires NumberAt(obj, p.id, j, units, scale, v)
    requires Entered(values, p.id, t)
    ensures Criterion(obj, p, values) <==> WithinTolerance(v, t)
  {
    FindFirst(obj.characteristics.value, p.id, j);
    NumericCharacteristic(obj, p, values, Decimal(units, scale));
  }

  /** Characteristic j of the object is the first carrying `id`, and it is the number
      units / 10^scale, worth v, which is not negative. */
  predicate NumberAt(obj: SystemObject, id: string, j: int, units: int, scale: int, v: real)
  {
    0 <= j && 0 <= scale && ValueAt(obj, id, j, Num(Decimal(units, scale))) &&
    v == units as real / Pow10(scale) as real && v >= 0.0
  }

  // ---------------------------------------------------------------------------------------
  // The compressor stations

  /** Catalog object 0 lists its gas volume (1.5), inlet pressure range and outlet
      pressure range first, in that order. */
  lemma Station0()
    ensures ValueAt(SystemObjects[0], "gas-volume", 0, Num(Decimal(15, 1)))
    ensures ValueAt(SystemObjects[0], "input-pressure", 1, Text("0.5 - 0.9"))
    ensures ValueAt(SystemObjects[0], "output-pressure", 2, Text("2.5 - 2.8"))
  {
  }

  /** Catalog object 1 lists its gas volume (2.5), inlet pressure range and outlet
      pressure range first, in that order. */
  lemma Station1()
    ensures ValueAt(SystemObjects[1], "gas-volume", 0, Num(Decimal(25, 1)))
    ensures ValueAt(SystemObjects[1], "input-pressure", 1, Text("0.7 - 1.0"))
    ensures ValueAt(SystemObjects[1], "output-pressure", 2, Text("2.8 - 3.0"))
  {
  }

  /** Catalog object 2 lists its gas volume (3.0), inlet pressure range and outlet
      pressure range first, in that order. */
  lemma Station2()
    ensures ValueAt(SystemObjects[2], "gas-volume", 0, Num(Decimal(30, 1)))
    ensures ValueAt(SystemObjects[2], "input-pressure", 1, Text("0.6 - 0.95"))
    ensures ValueAt(SystemObjects[2], "output-pressure", 2, Text("2.7 - 2.9"))
  {
  }

  /** Catalog object 3 lists its gas volume (2.2), inlet pressure range and outlet
      pressure range first, in that order. */
  lemma Station3()
    ensures ValueAt(SystemObjects[3], "gas-volume", 0, Num(Decimal(22, 1)))
    ensures ValueAt(SystemObjects[3], "input-pressure", 1, Text("0.6 - 0.85"))
    ensures ValueAt(SystemObjects[3], "output-pressure", 2, Text("2.6 - 2.85"))
  {
  }

  /** Catalog object 4 lists its gas volume (3.5), inlet pressure range and outlet
      pressure range first, in that order. */
  lemma Station4()
    ensures ValueAt(SystemObjects[4], "gas-volume", 0, Num(Decimal(35, 1)))
    ensures ValueAt(SystemObjects[4], "input-pressure", 1, Text("0.75 - 1.1"))
    ensures ValueAt(SystemObjects[4], "output-pressure", 2, Text("3.0 - 3.2"))
  {
  }

  lemma InletText0()
    ensures "0.5 - 0.9" == FormatUnsigned(5, 1) + " - " + FormatUnsigned(9, 1)
    ensures 0.5 == 5 as real / Pow10(1) as real && 0.9 == 9 as real / Pow10(1) as real
  {
    assert FormatUnsigned(5, 1) == "0.5" && FormatUnsigned(9, 1) == "0.9";
    Scaled(5, 1, 10);
    Scaled(9, 1, 10);
  }

  lemma InletAt0()
    ensures RangeAt(SystemObjects[0], "input-pressure", 1, 5, 1, 9, 1, 0.5, 0.9)
  {
    Station0();
    InletText0();
  }

  /** The inlet pressure range of catalog object 0 is [0.5, 0.9]. */
  lemma InletRange0(obj: SystemObject, p: Parameter, values: map<string, string>, t: real)
    requires obj == SystemObjects[0] && p.id == "input-pressure" && Entered(values, p.id, t)
    ensures Criterion(obj, p, values) <==> 0.5 <= t <= 0.9
  {
    InletAt0();
    RangeEntry(obj, p, values, t, 1, 5, 1, 9, 1, 0.5, 0.9);
  }

  lemma InletText1()
    ensures "0.7 - 1.0" == FormatUnsigned(7, 1) + " - " + FormatUnsigned(10, 1)
    ensures 0.7 == 7 as real / Pow10(1) as real && 1.0 == 10 as real / Pow10(1) as real
  {
    assert FormatUnsigned(7, 1) == "0.7" && FormatUnsigned(10, 1) == "1.0";
    Scaled(7, 1, 10);
    Scaled(10, 1, 10);
  }

  lemma InletAt1()
    ensures RangeAt(SystemObjects[1], "input-pressure", 1, 7, 1, 10, 1, 0.7, 1.0)
  {
    Station1();
    InletText1();
  }

  /** The inlet pressure range of catalog object 1 is [0.7, 1.0]. */
  lemma InletRange1(obj: SystemObject, p: Parameter, values: map<string, string>, t: real)
    requires obj == SystemObjects[1] && p.id == "input-pressure" && Entered(values, p.id, t)
    ensures Criterion(obj, p, values) <==> 0.7 <= t <= 1.0
  {
    InletAt1();
    RangeEntry(obj, p, values, t, 1, 7, 1, 10, 1, 0.7, 1.0);
  }

  lemma InletText2()
    ensures "0.6 - 0.95" == FormatUnsigned(6, 1) + " - " + FormatUnsigned(95, 2)
    ensures 0.6 == 6 as real / Pow10(1) as real && 0.95 == 95 as real / Pow10(2) as real
  {
    assert FormatUnsigned(6, 1) == "0.6" && FormatUnsigned(95, 2) == "0.95";
    Scaled(6, 1, 10);
    Scaled(95, 2, 100);
  }

  lemma InletAt2()
    ensures RangeAt(SystemObjects[2], "input-pressure", 1, 6, 1, 95, 2, 0.6, 0.95)
  {
    Station2();
    InletText2();
  }

  /** The inlet pressure range of catalog object 2 is [0.6, 0.95]. */
  lemma InletRange2(obj: SystemObject, p: Parameter, values: map<string, string>, t: real)
    requires obj == SystemObjects[2] && p.id == "input-pressure" && Entered(values, p.id, t)
    ensures Criterion(obj, p, values) <==> 0.6 <= t <= 0.95
  {
    InletAt2();
    RangeEntry(obj, p, values, t, 1, 6, 1, 95, 2, 0.6, 0.95);
  }

  lemma InletText3()
    ensures "0.6 - 0.85" == FormatUnsigned(6, 1) + " - " + FormatUnsigned(85, 2)
    ensures 0.6 == 6 as real / Pow10(1) as real && 0.85 == 85 as real / Pow10(2) as real
  {
    assert FormatUnsigned(6, 1) == "0.6" && FormatUnsigned(85, 2) == "0.85";
    Scaled(6, 1, 10);
    Scaled(85, 2, 100);
  }

  lemma InletAt3()
    ensures RangeAt(SystemObjects[3], "input-pressure", 1, 6, 1, 85, 2, 0.6, 0.85)
  {
    Station3();
    InletText3();
  }

  /** The inlet pressure range of catalog object 3 is [0.6, 0.85]. */
  lemma InletRange3(obj: SystemObject, p: Parameter, values: map<string, string>, t: real)
    requires obj == SystemObjects[3] && p.id == "input-pressure" && Entered(values, p.id, t)
    ensures Criterion(obj, p, values) <==> 0.6 <= t <= 0.85
  {
    InletAt3();
    RangeEntry(obj, p, values, t, 1, 6, 1, 85, 2, 0.6, 0.85);
  }

  lemma InletText4()
    ensures "0.75 - 1.1" == FormatUnsigned(75, 2) + " - " + FormatUnsigned(11, 1)
    ensures 0.75 == 75 as real / Pow10(2) as real && 1.1 == 11 as real / Pow10(1) as real
  {
    assert FormatUnsigned(75, 2) == "0.75" && FormatUnsigned(11, 1) == "1.1";
    Scaled(75, 2, 100);
    Scaled(11, 1, 10);
  }

  lemma InletAt4()
    ensures RangeAt(SystemObjects[4], "input-pressure", 1, 75, 2, 11, 1, 0.75, 1.1)
  {
    Station4();
    InletText4();
  }

  /** The inlet pressure range of catalog object 4 is [0.75, 1.1]. */
  lemma InletRange4(obj: SystemObject, p: Parameter, values: map<string, string>, t: real)
    requires obj == SystemObjects[4] && p.id == "input-pressure" && Entered(values, p.id, t)
    ensures Criterion(obj, p, values) <==> 0.75 <= t <= 1.1
  {
    InletAt4();
    RangeEntry(obj, p, values, t, 1, 75, 2, 11, 1, 0.75, 1.1);
  }

  lemma OutletText0()
    ensures "2.5 - 2.8" == FormatUnsigned(25, 1) + " - " + FormatUnsigned(28, 1)
    ensures 2.5 == 25 as real / Pow10(1) as real && 2.8 == 28 as real / Pow10(1) as real
  {
    assert FormatUnsigned(25, 1) == "2.5" && FormatUnsigned(28, 1) == "2.8";
    Scaled(25, 1, 10);
    Scaled(28, 1, 10);
  }

  lemma OutletAt0()
    ensures RangeAt(SystemObjects[0], "output-pressure", 2, 25, 1, 28, 1, 2.5, 2.8)
  {
    Station0();
    OutletText0();
  }

  /** The outlet pressure range of catalog object 0 is [2.5, 2.8]. */
  lemma OutletRange0(obj: SystemObject, p: Parameter, values: map<string, string>, t: real)
    requires obj == SystemObjects[0] && p.id == "output-pressure" && Entered(values, p.id, t)
    ensures Criterion(obj, p, values) <==> 2.5 <= t <= 2.8
  {
    OutletAt0();
    RangeEntry(obj, p, values, t, 2, 25, 1, 28, 1, 2.5, 2.8);
  }

  lemma OutletText1()
    ensures "2.8 - 3.0" == FormatUnsigned(28, 1) + " - " + FormatUnsigned(30, 1)
    ensures 2.8 == 28 as real / Pow10(1) as real && 3.0 == 30 as real / Pow10(1) as real
  {
    assert FormatUnsigned(28, 1) == "2.8" && FormatUnsigned(30, 1) == "3.0";
    Scaled(28, 1, 10);
    Scaled(30, 1, 10);
  }

  lemma OutletAt1()
    ensures RangeAt(SystemObjects[1], "output-pressure", 2, 28, 1, 30, 1, 2.8, 3.0)
  {
    Station1();
    OutletText1();
  }

  /** The outlet pressure range of catalog object 1 is [2.8, 3.0]. */
  lemma OutletRange1(obj: SystemObject, p: Parameter, values: map<string, string>, t: real)
    requires obj == SystemObjects[1] && p.id == "output-pressure" && Entered(values, p.id, t)
    ensures Criterion(obj, p, values) <==> 2.8 <= t <= 3.0
  {
    OutletAt1();
    RangeEntry(obj, p, values, t, 2, 28, 1, 30, 1, 2.8, 3.0);
  }

  lemma OutletText2()
    ensures "2.7 - 2.9" == FormatUnsigned(27, 1) + " - " + FormatUnsigned(29, 1)
    ensures 2.7 == 27 as real / Pow10(1) as real && 2.9 == 29 as real / Pow10(1) as real
  {
    assert FormatUnsigned(27, 1) == "2.7" && FormatUnsigned(29, 1) == "2.9";
    Scaled(27, 1, 10);
    Scaled(29, 1, 10);
  }

  lemma OutletAt2()
    ensures RangeAt(SystemObjects[2], "output-pressure", 2, 27, 1, 29, 1, 2.7, 2.9)
  {
    Station2();
    OutletText2();
  }

  /** The outlet pressure range of catalog object 2 is [2.7, 2.9]. */
  lemma OutletRange2(obj: SystemObject, p: Parameter, values: map<string, string>, t: real)
    requires obj == SystemObjects[2] && p.id == "output-pressure" && Entered(values, p.id, t)
    ensures Criterion(obj, p, values) <==> 2.7 <= t <= 2.9
  {
    OutletAt2();
    RangeEntry(obj, p, values, t, 2, 27, 1, 29, 1, 2.7, 2.9);
  }

  lemma OutletText3()
    ensures "2.6 - 2.85" == FormatUnsigned(26, 1) + " - " + FormatUnsigned(285, 2)
    ensures 2.6 == 26 as real / Pow10(1) as real && 2.85 == 285 as real / Pow10(2) as real
  {
    assert FormatUnsigned(26, 1) == "2.6" && FormatUnsigned(285, 2) == "2.85";
    Scaled(26, 1, 10);
    Scaled(285, 2, 100);
  }

  lemma OutletAt3()
    ensures RangeAt(SystemObjects[3], "output-pressure", 2, 26, 1, 285, 2, 2.6, 2.85)
  {
    Station3();
    OutletText3();
  }

  /** The outlet pressure range of catalog object 3 is [2.6, 2.85]. */
  lemma OutletRange3(obj: SystemObject, p: Parameter, values: map<string, string>, t: real)
    requires obj == SystemObjects[3] && p.id == "output-pressure" && Entered(values, p.id, t)
    ensures Criterion(obj, p, values) <==> 2.6 <= t <= 2.85
  {
    OutletAt3();
    RangeEntry(obj, p, values, t, 2, 26, 1, 285, 2, 2.6, 2.85);
  }

  lemma OutletText4()
    ensures "3.0 - 3.2" == FormatUnsigned(30, 1) + " - " + FormatUnsigned(32, 1)
    ensures 3.0 == 30 as real / Pow10(1) as real && 3.2 == 32 as real / Pow10(1) as real
  {
    assert FormatUnsigned(30, 1) == "3.0" && FormatUnsigned(32, 1) == "3.2";
    Scaled(30, 1, 10);
    Scaled(32, 1, 10);
  }

  lemma OutletAt4()
    ensures RangeAt(SystemObjects[4], "output-pressure", 2, 30, 1, 32, 1, 3.0, 3.2)
  {
    Station4();
    OutletText4();
  }

  /** The outlet pressure range of catalog object 4 is [3.0, 3.2]. */
  lemma OutletRange4(obj: SystemObject, p: Parameter, values: map<string, string>, t: real)
    requires obj == SystemObjects[4] && p.id == "output-pressure" && Entered(values, p.id, t)
    ensures Criterion(obj, p, values) <==> 3.0 <= t <= 3.2
  {
    OutletAt4();
    RangeEntry(obj, p, values, t, 2, 30, 1, 32, 1, 3.0, 3.2);
  }

  // ---------------------------------------------------------------------------------------
  // Numeric characteristics

  lemma GasAt0()
    ensures NumberAt(SystemObjects[0], "gas-volume", 0, 15, 1, 1.5)
  {
    Station0();
    Scaled(15, 1, 10);
  }

  /** The gas volume of catalog object 0 is 1.5: entries within 10% of it match. */
  lemma GasVolume0(obj: SystemObject, p: Parameter, values: map<string, string>, t: real)
    requires obj == SystemObjects[0] && p.id == "gas-volume" && Entered(values, p.id, t)
    ensures Criterion(obj, p, values) <==> WithinTolerance(1.5, t)
  {
    GasAt0();
    NumberEntry(obj, p, values, t, 0, 15, 1, 1.5);
  }

  lemma GasAt1()
    ensures NumberAt(SystemObjects[1], "gas-volume", 0, 25, 1, 2.5)
  {
    Station1();
    Scaled(25, 1, 10);
  }

  /** The gas volume of catalog object 1 is 2.5: entries within 10% of it match. */
  lemma GasVolume1(obj: SystemObject, p: Parameter, values: map<string, string>, t: real)
    requires obj == SystemObjects[1] && p.id == "gas-volume" && Entered(values, p.id, t)
    ensures Criterion(obj, p, values) <==> WithinTolerance(2.5, t)
  {
    GasAt1();
    NumberEntry(obj, p, values, t, 0, 25, 1, 2.5);
  }

  lemma GasAt2()
    ensures NumberAt(SystemObjects[2], "gas-volume", 0, 30, 1, 3.0)
  {
    Station2();
    Scaled(30, 1, 10);
  }

  /** The gas volume of catalog object 2 is 3.0: entries within 10% of it match. */
  lemma GasVolume2(obj: SystemObject, p: Parameter, values: map<string, string>, t: real)
    requires obj == SystemObjects[2] && p.id == "gas-volume" && Entered(values, p.id, t)
    ensures Criterion(obj, p, values) <==> WithinTolerance(3.0, t)
  {
    GasAt2();
    NumberEntry(obj, p, values, t, 0, 30, 1, 3.0);
  }

  lemma GasAt3()
    ensures NumberAt(SystemObjects[3], "gas-volume", 0, 22, 1, 2.2)
  {
    Station3();
    Scaled(22, 1, 10);
  }

  /** The gas volume of catalog object 3 is 2.2: entries within 10% of it match. */
  lemma GasVolume3(obj: SystemObject, p: Parameter, values: map<string, string>, t: real)
    requires obj == SystemObjects[3] && p.id == "gas-volume" && Entered(values, p.id, t)
    ensures Criterion(obj, p, values) <==> WithinTolerance(2.2, t)
  {
    GasAt3();
    NumberEntry(obj, p, values, t, 0, 22, 1, 2.2);
  }

  lemma GasAt4()
    ensures NumberAt(SystemObjects[4], "gas-volume", 0, 35, 1, 3.5)
  {
    Station4();
    Scaled(35, 1, 10);
  }

  /** The gas volume of catalog object 4 is 3.5: entries within 10% of it match. */
  lemma GasVolume4(obj: SystemObject, p: Parameter, values: map<string, string>, t: real)
    requires obj == SystemObjects[4] && p.id == "gas-volume" && Entered(values, p.id, t)
    ensures Criterion(obj, p, values) <==> WithinTolerance(3.5, t)
  {
    GasAt4();
    NumberEntry(obj, p, values, t, 0, 35, 1, 3.5);
  }

  /** Catalog object 5 lists its water content (50%) second, after its oil volume. */
  lemma Unit5()
    ensures NumberAt(SystemObjects[5], "water-content", 1, 50, 0, 50.0)
  {
    assert ValueAt(SystemObjects[5], "water-content", 1, Num(Decimal(50, 0)));
    Scaled(50, 0, 1);
  }

  /** The water content of catalog object 5 is 50%: entries within 10% of it match. */
  lemma WaterContent5(obj: SystemObject, p: Parameter, values: map<string, string>, t: real)
    requires obj == SystemObjects[5] && p.id == "water-content" && Entered(values, p.id, t)
    ensures Criterion(obj, p, values) <==> WithinTolerance(50.0, t)
  {
    Unit5();
    NumberEntry(obj, p, values, t, 1, 50, 0, 50.0);
  }

  /** Catalog object 6 lists its water content (55%) second, after its oil volume. */
  lemma Unit6()
    ensures NumberAt(SystemObjects[6], "water-content", 1, 55, 0, 55.0)
  {
    assert ValueAt(SystemObjects[6], "water-content", 1, Num(Decimal(55, 0)));
    Scaled(55, 0, 1);
  }

  /** The water content of catalog object 6 is 55%: entries within 10% of it match. */
  lemma WaterContent6(obj: SystemObject, p: Parameter, values: map<string, string>, t: real)
    requires obj == SystemObjects[6] && p.id == "water-content" && Entered(values, p.id, t)
    ensures Criterion(obj, p, values) <==> WithinTolerance(55.0, t)
  {
    Unit6();
    NumberEntry(obj, p, values, t, 1, 55, 0, 55.0);
  }

  // ---------------------------------------------------------------------------------------
  // The filter worked through on the catalog

  /** The first five catalog objects are the compressor stations, the next two the oil
      treatment units, the last two the pumping stations. */
  lemma CatalogLayout()
    ensures |SystemObjects| == 9
    ensures forall i | 0 <= i < 5 :: SystemObjects[i].objectType == "compressor"
    ensures forall i | 5 <= i < 7 :: SystemObjects[i].objectType == "oilPrep"
    ensures forall i | 7 <= i < 9 :: SystemObjects[i].objectType == "pumpStation"
  {
  }

  /** The object is of the type and meets every criterion: the filter keeps it. */
  predicate Kept(o: SystemObject, objectType: string, params: seq<Parameter>, values: map<string, string>)
  {
    o.objectType == objectType && MatchesAll(o, params, values)
  }

  /** An entry holding the text of a number reads as that number. */
  lemma EnteredText(values: map<string, string>, id: string, text: string, t: real)
    requires id in values && values[id] == text && text != "" && ParseFloat(text) == Some(t)
    ensures Entered(values, id, t)
  {
  }

  lemma Entered10(values: map<string, string>, id: string)
    requires id in values && values[id] == "10"
    ensures Entered(values, id, 10.0)
  {
    Reads10();
    EnteredText(values, id, "10", 10.0);
  }

  lemma Entered55(values: map<string, string>, id: string)
    requires id in values && values[id] == "55"
    ensures Entered(values, id, 55.0)
  {
    Reads55();
    EnteredText(values, id, "55", 55.0);
  }

  /** With one parameter, meeting every criterion is meeting its criterion. */
  lemma MatchesOne(o: SystemObject, p: Parameter, values: map<string, string>)
    ensures MatchesAll(o, [p], values) <==> Criterion(o, p, values)
  {
    assert [p][1..] == [];
  }

  /** With two parameters, meeting every criterion is meeting both. */
  lemma MatchesTwo(o: SystemObject, p: Parameter, q: Parameter, values: map<string, string>)
    ensures MatchesAll(o, [p, q], values) <==> Criterion(o, p, values) && Criterion(o, q, values)
  {
    assert [p, q][1..] == [q];
    MatchesOne(o, q, values);
  }

  /** When the objects the filter keeps are exactly those at positions lo to hi - 1, the
      result is that slice of the catalog. */
  lemma FilterObjectsKeepsSlice(catalog: seq<SystemObject>, lo: nat, hi: nat, objectType: string,
                                params: seq<Parameter>, values: map<string, string>)
    requires lo <= hi <= |catalog|
    requires forall i | 0 <= i < |catalog| :: Kept(catalog[i], objectType, params, values) <==> lo <= i < hi
    ensures FilterObjects(catalog, objectType, params, values) == catalog[lo..hi]
  {
    var a, b, c := catalog[..lo], catalog[lo..hi], catalog[hi..];
    assert catalog == a + (b + c);
    FilterObjectsAppend(a, b + c, objectType, params, values);
    FilterObjectsAppend(b, c, objectType, params, values);
    OutsideKeepsNone(catalog, 0, lo, lo, hi, objectType, params, values);
    assert catalog[0..lo] == a;
    InsideKeepsAll(catalog, lo, hi, objectType, params, values);
    OutsideKeepsNone(catalog, hi, |catalog|, lo, hi, objectType, params, values);
    assert catalog[hi..|catalog|] == c;
  }

  lemma InsideKeepsAll(catalog: seq<SystemObject>, lo: nat, hi: nat, objectType: string,
                       params: seq<Parameter>, values: map<string, string>)
    requires lo <= hi <= |catalog|
    requires forall i | 0 <= i < |catalog| :: Kept(catalog[i], objectType, params, values) <==> lo <= i < hi
    ensures FilterObjects(catalog[lo..hi], objectType, params, values) == catalog[lo..hi]
  {
    var b := catalog[lo..hi];
    forall i | 0 <= i < |b|
      ensures b[i].objectType == objectType && MatchesAll(b[i], params, values)
    {
      assert b[i] == catalog[lo + i] && Kept(catalog[lo + i], objectType, params, values);
    }
    FilterObjectsKeepsAll(b, objectType, params, values);
  }

  lemma OutsideKeepsNone(catalog: seq<SystemObject>, from: nat, to: nat, lo: nat, hi: nat, objectType: string,
                         params: seq<Parameter>, values: map<string, string>)
    requires from <= to <= |catalog| && (to <= lo || hi <= from)
    requires forall i | 0 <= i < |catalog| :: Kept(catalog[i], objectType, params, values) <==> lo <= i < hi
    ensures FilterObjects(catalog[from..to], objectType, params, values) == []
  {
    var a := catalog[from..to];
    forall i | 0 <= i < |a|
      ensures !(a[i].objectType == objectType && MatchesAll(a[i], params, values))
    {
      assert a[i] == catalog[from + i] && !Kept(catalog[from + i], objectType, params, values);
    }
    FilterObjectsKeepsNone(a, objectType, params, values);
  }

  /** An inlet pressure of 0.8 lies in every compressor station's range: all five stay
      listed, so none is chosen automatically. */
  lemma InletPressureKeepsAllStations(p: Parameter, values: map<string, string>)
    requires p.id == "input-pressure" && p.id in values && values[p.id] == "0.8"
    ensures FilterObjects(SystemObjects, "compressor", [p], values) == SystemObjects[..5]
  {
    Entered0p8(values, p.id);
    InletKeeps(p, values);
    CatalogLayout();
    FilterObjectsKeepsSlice(SystemObjects, 0, 5, "compressor", [p], values);
  }

  lemma InletKeeps(p: Parameter, values: map<string, string>)
    requires p.id == "input-pressure" && Entered(values, p.id, 0.8)
    ensures forall i | 0 <= i < |SystemObjects| :: Kept(SystemObjects[i], "compressor", [p], values) <==> 0 <= i < 5
  {
    CatalogLayout();
    forall i | 0 <= i < |SystemObjects|
      ensures Kept(SystemObjects[i], "compressor", [p], values) <==> 0 <= i < 5
    {
      MatchesOne(SystemObjects[i], p, values);
      if i == 0 { InletRange0(SystemObjects[0], p, values, 0.8); }
      else if i == 1 { InletRange1(SystemObjects[1], p, values, 0.8); }
      else if i == 2 { InletRange2(SystemObjects[2], p, values, 0.8); }
      else if i == 3 { InletRange3(SystemObjects[3], p, values, 0.8); }
      else if i == 4 { InletRange4(SystemObjects[4], p, values, 0.8); }
    }
  }

  lemma SliceOfOne(catalog: seq<SystemObject>, k: nat)
    requires k < |catalog|
    ensures catalog[k..k + 1] == [catalog[k]]
  {
  }

  lemma SliceOfTwo(catalog: seq<SystemObject>, k: nat)
    requires k + 1 < |catalog|
    ensures catalog[k..k + 2] == [catalog[k], catalog[k + 1]]
  {
  }

  /** Adding an outlet pressure of 2.75 to the inlet pressure of 0.8 leaves three stations
      (ДКС-1, ДКС-3 УКПГ and ДКС-4), in catalog order. */
  lemma OutletPressureLeavesThree(pIn: Parameter, pOut: Parameter, values: map<string, string>)
    requires pIn.id == "input-pressure" && pIn.id in values && values[pIn.id] == "0.8"
    requires pOut.id == "output-pressure" && pOut.id in values && values[pOut.id] == "2.75"
    ensures FilterObjects(SystemObjects, "compressor", [pIn, pOut], values) ==
              [SystemObjects[0], SystemObjects[2], SystemObjects[3]]
  {
    Entered0p8(values, pIn.id);
    Entered2p75(values, pOut.id);
    PressuresLeaveThree(pIn, pOut, values);
  }

  lemma PressuresLeaveThree(pIn: Parameter, pOut: Parameter, values: map<string, string>)
    requires pIn.id == "input-pressure" && Entered(values, pIn.id, 0.8)
    requires pOut.id == "output-pressure" && Entered(values, pOut.id, 2.75)
    ensures FilterObjects(SystemObjects, "compressor", [pIn, pOut], values) ==
              [SystemObjects[0], SystemObjects[2], SystemObjects[3]]
  {
    PressuresKeep(pIn, pOut, values);
    CatalogLayout();
    FirstThenPair(SystemObjects, 2, 4, "compressor", [pIn, pOut], values);
  }

  /** Of the catalog, the filter keeps the first object and the two at positions lo and
      lo + 1, and no other. */
  lemma FirstThenPair(catalog: seq<SystemObject>, lo: nat, hi: nat, objectType: string,
                      params: seq<Parameter>, values: map<string, string>)
    requires 1 <= lo && hi == lo + 2 && hi <= |catalog|
    requires forall i | 0 <= i < |catalog| :: Kept(catalog[i], objectType, params, values) <==> i == 0 || lo <= i < hi
    ensures FilterObjects(catalog, objectType, params, values) == [catalog[0], catalog[lo], catalog[lo + 1]]
  {
    RestKeepsPair(catalog, lo, hi, objectType, params, values);
    assert Kept(catalog[0], objectType, params, values);
    FilterObjectsCons(catalog, objectType, params, values);
  }

  lemma RestKeepsPair(catalog: seq<SystemObject>, lo: nat, hi: nat, objectType: string,
                      params: seq<Parameter>, values: map<string, string>)
    requires 1 <= lo && hi == lo + 2 && hi <= |catalog|
    requires forall i | 0 <= i < |catalog| :: Kept(catalog[i], objectType, params, values) <==> i == 0 || lo <= i < hi
    ensures FilterObjects(catalog[1..], objectType, params, values) == [catalog[lo], catalog[lo + 1]]
  {
    var c := catalog[1..];
    RestKept(catalog, lo, hi, objectType, params, values);
    FilterObjectsKeepsSlice(c, lo - 1, hi - 1, objectType, params, values);
    TailPair(catalog, lo);
  }

  lemma TailPair(s: seq<SystemObject>, lo: nat)
    requires 1 <= lo && lo + 2 <= |s|
    ensures s[1..][lo - 1..lo + 1] == [s[lo], s[lo + 1]]
  {
  }

  lemma RestKept(catalog: seq<SystemObject>, lo: nat, hi: nat, objectType: string,
                 params: seq<Parameter>, values: map<string, string>)
    requires 1 <= lo <= hi <= |catalog|
    requires forall i | 0 <= i < |catalog| :: Kept(catalog[i], objectType, params, values) <==> i == 0 || lo <= i < hi
    ensures forall i | 0 <= i < |catalog[1..]| :: Kept(catalog[1..][i], objectType, params, values) <==> lo - 1 <= i < hi - 1
  {
    var c := catalog[1..];
    forall i | 0 <= i < |c|
      ensures Kept(c[i], objectType, params, values) <==> lo - 1 <= i < hi - 1
    {
      assert c[i] == catalog[i + 1];
    }
  }

  lemma PressuresKeep(pIn: Parameter, pOut: Parameter, values: map<string, string>)
    requires pIn.id == "input-pressure" && Entered(values, pIn.id, 0.8)
    requires pOut.id == "output-pressure" && Entered(values, pOut.id, 2.75)
    ensures forall i | 0 <= i < |SystemObjects| ::
              Kept(SystemObjects[i], "compressor", [pIn, pOut], values) <==> i == 0 || 2 <= i < 4
  {
    CatalogLayout();
    forall i | 0 <= i < |SystemObjects|
      ensures Kept(SystemObjects[i], "compressor", [pIn, pOut], values) <==> i == 0 || 2 <= i < 4
    {
      MatchesTwo(SystemObjects[i], pIn, pOut, values);
      if i == 0 { Pressures0(pIn, pOut, values); }
      else if i == 1 { OutletRange1(SystemObjects[1], pOut, values, 2.75); }
      else if i == 2 { Pressures2(pIn, pOut, values); }
      else if i == 3 { Pressures3(pIn, pOut, values); }
      else if i == 4 { OutletRange4(SystemObjects[4], pOut, values, 2.75); }
    }
  }

  lemma Pressures0(pIn: Parameter, pOut: Parameter, values: map<string, string>)
    requires pIn.id == "input-pressure" && Entered(values, pIn.id, 0.8)
    requires pOut.id == "output-pressure" && Entered(values, pOut.id, 2.75)
    ensures Criterion(SystemObjects[0], pIn, values) && Criterion(SystemObjects[0], pOut, values)
  {
    InletRange0(SystemObjects[0], pIn, values, 0.8);
    OutletRange0(SystemObjects[0], pOut, values, 2.75);
  }

  lemma Pressures2(pIn: Parameter, pOut: Parameter, values: map<string, string>)
    requires pIn.id == "input-pressure" && Entered(values, pIn.id, 0.8)
    requires pOut.id == "output-pressure" && Entered(values, pOut.id, 2.75)
    ensures Criterion(SystemObjects[2], pIn, values) && Criterion(SystemObjects[2], pOut, values)
  {
    InletRange2(SystemObjects[2], pIn, values, 0.8);
    OutletRange2(SystemObjects[2], pOut, values, 2.75);
  }

  lemma Pressures3(pIn: Parameter, pOut: Parameter, values: map<string, string>)
    requires pIn.id == "input-pressure" && Entered(values, pIn.id, 0.8)
    requires pOut.id == "output-pressure" && Entered(values, pOut.id, 2.75)
    ensures Criterion(SystemObjects[3], pIn, values) && Criterion(SystemObjects[3], pOut, values)
  {
    InletRange3(SystemObjects[3], pIn, values, 0.8);
    OutletRange3(SystemObjects[3], pOut, values, 2.75);
  }

  /** A gas volume of 3.5 is within 10% of ДКС-5's 3.5 only: it is the one station
      left, which the parameter step then chooses by itself. */
  lemma GasVolumeSingleStation(p: Parameter, values: map<string, string>)
    requires p.id == "gas-volume" && p.id in values && values[p.id] == "3.5"
    ensures FilterObjects(SystemObjects, "compressor", [p], values) == [SystemObjects[4]]
  {
    Entered3p5(values, p.id);
    GasVolumeKeepsOne(p, values);
    CatalogLayout();
    FilterObjectsKeepsSlice(SystemObjects, 4, 5, "compressor", [p], values);
    SliceOfOne(SystemObjects, 4);
  }

  lemma GasVolumeKeepsOne(p: Parameter, values: map<string, string>)
    requires p.id == "gas-volume" && Entered(values, p.id, 3.5)
    ensures forall i | 0 <= i < |SystemObjects| :: Kept(SystemObjects[i], "compressor", [p], values) <==> 4 <= i < 5
  {
    CatalogLayout();
    forall i | 0 <= i < |SystemObjects|
      ensures Kept(SystemObjects[i], "compressor", [p], values) <==> 4 <= i < 5
    {
      MatchesOne(SystemObjects[i], p, values);
      if i == 0 { GasVolume0(SystemObjects[0], p, values, 3.5); }
      else if i == 1 { GasVolume1(SystemObjects[1], p, values, 3.5); }
      else if i == 2 { GasVolume2(SystemObjects[2], p, values, 3.5); }
      else if i == 3 { GasVolume3(SystemObjects[3], p, values, 3.5); }
      else if i == 4 { GasVolume4(SystemObjects[4], p, values, 3.5); }
    }
  }

  /** A gas volume of 10 is far from every station's: nothing is left, which is the
      "no match" state of the parameter step. */
  lemma GasVolumeNoStation(p: Parameter, values: map<string, string>)
    requires p.id == "gas-volume" && p.id in values && values[p.id] == "10"
    ensures FilterObjects(SystemObjects, "compressor", [p], values) == []
  {
    Entered10(values, p.id);
    GasVolumeKeepsNone(p, values);
    FilterObjectsKeepsNone(SystemObjects, "compressor", [p], values);
  }

  lemma GasVolumeKeepsNone(p: Parameter, values: map<string, string>)
    requires p.id == "gas-volume" && Entered(values, p.id, 10.0)
    ensures forall i | 0 <= i < |SystemObjects| ::
              !(SystemObjects[i].objectType == "compressor" && MatchesAll(SystemObjects[i], [p], values))
  {
    CatalogLayout();
    forall i | 0 <= i < |SystemObjects|
      ensures !(SystemObjects[i].objectType == "compressor" && MatchesAll(SystemObjects[i], [p], values))
    {
      MatchesOne(SystemObjects[i], p, values);
      if i == 0 { GasVolume0(SystemObjects[0], p, values, 10.0); }
      else if i == 1 { GasVolume1(SystemObjects[1], p, values, 10.0); }
      else if i == 2 { GasVolume2(SystemObjects[2], p, values, 10.0); }
      else if i == 3 { GasVolume3(SystemObjects[3], p, values, 10.0); }
      else if i == 4 { GasVolume4(SystemObjects[4], p, values, 10.0); }
    }
  }

  /** A water content of 55 matches both oil treatment units: 55% exactly, and 50% at the
      very edge of its 10% band. */
  lemma WaterContentBothUnits(p: Parameter, values: map<string, string>)
    requires p.id == "water-content" && p.id in values && values[p.id] == "55"
    ensures FilterObjects(SystemObjects, "oilPrep", [p], values) == [SystemObjects[5], SystemObjects[6]]
  {
    Entered55(values, p.id);
    WaterContentLeavesBoth(p, values);
  }

  lemma WaterContentLeavesBoth(p: Parameter, values: map<string, string>)
    requires p.id == "water-content" && Entered(values, p.id, 55.0)
    ensures FilterObjects(SystemObjects, "oilPrep", [p], values) == [SystemObjects[5], SystemObjects[6]]
  {
    WaterContentKeepsBoth(p, values);
    CatalogLayout();
    FilterObjectsKeepsSlice(SystemObjects, 5, 7, "oilPrep", [p], values);
    SliceOfTwo(SystemObjects, 5);
  }

  lemma WaterContentKeepsBoth(p: Parameter, values: map<string, string>)
    requires p.id == "water-content" && Entered(values, p.id, 55.0)
    ensures forall i | 0 <= i < |SystemObjects| :: Kept(SystemObjects[i], "oilPrep", [p], values) <==> 5 <= i < 7
  {
    CatalogLayout();
    forall i | 0 <= i < |SystemObjects|
      ensures Kept(SystemObjects[i], "oilPrep", [p], values) <==> 5 <= i < 7
    {
      MatchesOne(SystemObjects[i], p, values);
      if i == 5 { WaterContent5(SystemObjects[5], p, values, 55.0); }
      else if i == 6 { WaterContent6(SystemObjects[6], p, values, 55.0); }
    }
  }
}
