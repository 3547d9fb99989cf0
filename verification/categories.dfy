/** The physical quantities ("categories") the converter knows, and the
    dictionary keys under which the source's tables and conversion chain
    name them. */
module Categories {
  import opened Optional

  datatype Category =
    | Force
    | Pressure
    | Density
    | ThermalConductivity
    | SpecificHeat
    | YoungsModulus
    | FilmCoefficient
    | DynamicViscosity
    | Elastic
    | Expansion
    | StefanBoltzmann

  /** The key of a category; "Young’s Modulus" is written with the
      typographic apostrophe U+2019, exactly as in the source. */
  function Name(c: Category): string {
    match c
    case Force => "Force"
    case Pressure => "Pressure"
    case Density => "Density"
    case ThermalConductivity => "Thermal Conductivity"
    case SpecificHeat => "Specific heat"
    case YoungsModulus => "Young’s Modulus"
    case FilmCoefficient => "Film Coefficient"
    case DynamicViscosity => "Dynamic Viscosity"
    case Elastic => "Elastic"
    case Expansion => "Expansion"
    case StefanBoltzmann => "Stefan Boltzmann"
  }

  /** The categories in the order the source's dictionaries list them. */
  const AllCategories: seq<Category> := [
    Force, Pressure, Density, ThermalConductivity, SpecificHeat, YoungsModulus,
    FilmCoefficient, DynamicViscosity, Elastic, Expansion, StefanBoltzmann
  ]

  /** First category of `cs` carrying key `s`. */
  function Find(s: string, cs: seq<Category>): (r: Option<Category>)
    ensures r.Some? ==> r.value in cs && Name(r.value) == s
    ensures r.None? ==> forall c :: c in cs ==> Name(c) != s
  {
    if cs == [] then None
    else if Name(cs[0]) == s then Some(cs[0])
    else Find(s, cs[1..])
  }

  /** The category a key denotes, if any: the test `category == "..."`
      that opens each block of the conversion chain. */
  function Parse(s: string): (r: Option<Category>)
    ensures r.Some? ==> Name(r.value) == s
    ensures r.None? <==> forall c :: Name(c) != s
  {
    Find(s, AllCategories)
  }

  /** Keys identify categories: parsing a category's key gives it back, and
      no two categories share a key. */
  lemma ParseName(c: Category)
    ensures Parse(Name(c)) == Some(c)
  {
    var r := Parse(Name(c));
    assert r.Some?;
    NameInjective(r.value, c);
  }

  lemma NameInjective(a: Category, b: Category)
    requires Name(a) == Name(b)
    ensures a == b
  {
  }
}
