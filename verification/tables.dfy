/** The static tables of the converter and the two bounds-checked label
    lookups of the window class. */
module Tables {
  import opened Optional
  import opened Categories

  /** `UNIT_LABELS` of the window class: the display unit of each category
      in the three unit systems (SI "m,kg,s,K", "mm,N,s,K", CGS "cm,g,s,K"). */
  const UnitLabels: map<string, seq<string>> := map[
    "Force" := ["N", "N", "dyn"],
    "Pressure" := ["Pa", "N/mm²", "dyn/cm²"],
    "Density" := ["kg/m³", "kg/mm³", "g/cm³"],
    "Thermal Conductivity" := ["W/(m·K)", "N·mm/(s·K)", "g·cm/(s³·K)"],
    "Specific heat" := ["J/(kg·K)", "mm²/(s²·K)", "cm²/(s²·K)"],
    "Young’s Modulus" := ["Pa", "N/mm²", "dyn/cm²"],
    "Film Coefficient" := ["W/(m²·K)", "N/(m·m·s·K)", "g/(s³·K)"],
    "Dynamic Viscosity" := ["Pa·s", "N·s/mm²", "Poise"],
    "Elastic" := ["Pa", "N/mm²", "dyn/cm²"],
    "Expansion" := ["1/K", "1/K", "1/K"],
    "Stefan Boltzmann" := ["W/(m²·K⁴)", "N/(mm·s·K⁴)", "erg/(cm²·s·K⁴)"]
  ]

  /** The module-level copy of `UNIT_LABELS` next to the conversion chain. */
  const UnitLabelsMain: map<string, seq<string>> := map[
    "Force" := ["N", "N", "dyn"],
    "Pressure" := ["Pa", "N/mm²", "dyn/cm²"],
    "Density" := ["kg/m³", "kg/mm³", "g/cm³"],
    "Thermal Conductivity" := ["W/(m·K)", "N·mm/(s·K)", "g·cm/(s³·K)"],
    "Specific heat" := ["J/(kg·K)", "mm²/(s²·K)", "cm²/(s²·K)"],
    "Young’s Modulus" := ["Pa", "N/mm²", "dyn/cm²"],
    "Film Coefficient" := ["W/(m²·K)", "N/(m·m·s·K)", "g/(s³·K)"],
    "Dynamic Viscosity" := ["Pa·s", "N·s/mm²", "Poise"],
    "Elastic" := ["Pa", "N/mm²", "dyn/cm²"],
    "Expansion" := ["1/K", "1/K", "1/K"],
    "Stefan Boltzmann" := ["W/(m²·K⁴)", "N/(mm·s·K⁴)", "erg/(cm²·s·K⁴)"]
  ]

  /** `CATEGORY_UNITS` of the window class: the names of the three unit
      systems offered for each category. */
  const CategoryUnits: map<string, seq<string>> := map[
    "Force" := ["m,kg,s,K", "mm,N,s,K", "cm,g,s,K"],
    "Pressure" := ["m,kg,s,K", "mm,N,s,K", "cm,g,s,K"],
    "Density" := ["m,kg,s,K", "mm,N,s,K", "cm,g,s,K"],
    "Thermal Conductivity" := ["m,kg,s,K", "mm,N,s,K", "cm,g,s,K"],
    "Specific heat" := ["m,kg,s,K", "mm,N,s,K", "cm,g,s,K"],
    "Young’s Modulus" := ["m,kg,s,K", "mm,N,s,K", "cm,g,s,K"],
    "Film Coefficient" := ["m,kg,s,K", "mm,N,s,K", "cm,g,s,K"],
    "Dynamic Viscosity" := ["m,kg,s,K", "mm,N,s,K", "cm,g,s,K"],
    "Elastic" := ["m,kg,s,K", "mm,N,s,K", "cm,g,s,K"],
    "Expansion" := ["1/K", "1/K", "1/K"],
    "Stefan Boltzmann" := ["m,kg,s,K", "mm,N,s,K", "cm,g,s,K"]
  ]

  /** The module-level copy of `CATEGORY_UNITS`, which the result loop of the
      conversion handler iterates over. */
  const CategoryUnitsMain: map<string, seq<string>> := map[
    "Force" := ["m,kg,s,K", "mm,N,s,K", "cm,g,s,K"],
    "Pressure" := ["m,kg,s,K", "mm,N,s,K", "cm,g,s,K"],
    "Density" := ["m,kg,s,K", "mm,N,s,K", "cm,g,s,K"],
    "Thermal Conductivity" := ["m,kg,s,K", "mm,N,s,K", "cm,g,s,K"],
    "Specific heat" := ["m,kg,s,K", "mm,N,s,K", "cm,g,s,K"],
    "Young’s Modulus" := ["m,kg,s,K", "mm,N,s,K", "cm,g,s,K"],
    "Film Coefficient" := ["m,kg,s,K", "mm,N,s,K", "cm,g,s,K"],
    "Dynamic Viscosity" := ["m,kg,s,K", "mm,N,s,K", "cm,g,s,K"],
    "Elastic" := ["m,kg,s,K", "mm,N,s,K", "cm,g,s,K"],
    "Expansion" := ["m,kg,s,K", "mm,N,s,K", "cm,g,s,K"],
    "Stefan Boltzmann" := ["m,kg,s,K", "mm,N,s,K", "cm,g,s,K"]
  ]

  /** Every table is keyed by exactly the category names ... */
  lemma KeysAreCategoryNames()
    ensures forall k :: k in UnitLabels <==> Parse(k).Some?
  {
    forall k | Parse(k).Some? ensures k in UnitLabels {
      match Parse(k).value
      case _ =>
    }
    forall k | k in UnitLabels ensures Parse(k).Some? {
      KeyParses(k);
    }
  }

  lemma KeyParses(k: string)
    requires k in UnitLabels
    ensures Parse(k).Some?
  {
    KeyIsListed(k);
    if k == "Force" { ParseName(Force); }
    else if k == "Pressure" { ParseName(Pressure); }
    else if k == "Density" { ParseName(Density); }
    else if k == "Thermal Conductivity" { ParseName(ThermalConductivity); }
    else if k == "Specific heat" { ParseName(SpecificHeat); }
    else if k == "Young’s Modulus" { ParseName(YoungsModulus); }
    else if k == "Film Coefficient" { ParseName(FilmCoefficient); }
    else if k == "Dynamic Viscosity" { ParseName(DynamicViscosity); }
    else if k == "Elastic" { ParseName(Elastic); }
    else if k == "Expansion" { ParseName(Expansion); }
    else { ParseName(StefanBoltzmann); }
  }

  lemma KeyIsListed(k: string)
    requires k in UnitLabels
    ensures || k == "Force" || k == "Pressure" || k == "Density" || k == "Thermal Conductivity"
            || k == "Specific heat" || k == "Young’s Modulus" || k == "Film Coefficient"
            || k == "Dynamic Viscosity" || k == "Elastic" || k == "Expansion" || k == "Stefan Boltzmann"
  {
  }

  lemma SameKeys()
    ensures UnitLabels.Keys == UnitLabelsMain.Keys == CategoryUnits.Keys == CategoryUnitsMain.Keys
  {
  }

  /** ... and every entry holds one string per unit system. */
  lemma ThreePerEntry()
    ensures forall k :: k in UnitLabels ==> |UnitLabels[k]| == 3
    ensures forall k :: k in CategoryUnits ==> |CategoryUnits[k]| == 3
    ensures forall k :: k in CategoryUnitsMain ==> |CategoryUnitsMain[k]| == 3
  {
  }

  /** The two copies of `UNIT_LABELS` are identical; the two copies of
      `CATEGORY_UNITS` agree on every key but "Expansion", where the window
      class lists the unit "1/K" three times instead of the system names. */
  lemma CopiesCompared()
    ensures UnitLabelsMain == UnitLabels
    ensures forall k :: k in CategoryUnits && k != "Expansion" ==> CategoryUnits[k] == CategoryUnitsMain[k]
    ensures CategoryUnits["Expansion"] != CategoryUnitsMain["Expansion"]
  {
  }

  /** `get_output_unit`: the label of unit system `row` for a category, "?"
      for an unknown category (whose default list is three "?") and for a
      row outside the list. Every real label differs from "?", so the
      sentinel appears exactly on the fallback paths. */
  function OutputUnit(property: string, row: int): (r: string)
    ensures property in UnitLabels && 0 <= row < 3 ==> r == UnitLabels[property][row]
    ensures r == "?" <==> !(property in UnitLabels && 0 <= row < 3)
  {
    var units := if property in UnitLabels then UnitLabels[property] else ["?", "?", "?"];
    if 0 <= row < |units| then units[row] else "?"
  }

  /** `get_default_unit`: the first label of a known category, "Unit" for an
      unknown one. */
  function DefaultUnit(property: string): (r: string)
    ensures property in UnitLabels ==> r == UnitLabels[property][0]
    ensures r == "Unit" <==> property !in UnitLabels
  {
    (if property in UnitLabels then UnitLabels[property] else ["Unit"])[0]
  }

  /** The default (input) unit of a known category is the label of its first
      unit system; the two lookups differ only in the sentinel they fall back
      on for an unknown category. */
  lemma DefaultIsFirstOutputUnit(property: string)
    ensures property in UnitLabels ==> DefaultUnit(property) == OutputUnit(property, 0)
    ensures property !in UnitLabels ==> DefaultUnit(property) == "Unit" && OutputUnit(property, 0) == "?"
  {
  }
}
