/** `placeholder_convert`: the per-category chain of directed conversions
    between the three unit systems (0 = "m,kg,s,K", 1 = "mm,N,s,K",
    2 = "cm,g,s,K"). Quantities are real numbers, not binary floats. */
module Conversion {
  import opened Optional
  import opened Categories

  /** A valid unit-system index. */
  predicate IsSystem(i: int) {
    0 <= i < 3
  }

  /** One category block of the chain, as written: six explicit directed
      pairs, each a multiplication or division by a power of ten, and
      `else: return qty` for every other pair. */
  function Directed(c: Category, src: int, dst: int, qty: real): real {
    match c
    case Force =>
      if src == 0 && dst == 1 then qty
      else if src == 0 && dst == 2 then qty * 100000.0
      else if src == 1 && dst == 0 then qty
      else if src == 1 && dst == 2 then qty * 100000.0
      else if src == 2 && dst == 0 then qty / 100000.0
      else if src == 2 && dst == 1 then qty / 100000.0
      else qty
    case Pressure =>
      if src == 0 && dst == 1 then qty / 1000000.0
      else if src == 0 && dst == 2 then qty * 10.0
      else if src == 1 && dst == 0 then qty * 1000000.0
      else if src == 1 && dst == 2 then qty * 10000000.0
      else if src == 2 && dst == 0 then qty / 10.0
      else if src == 2 && dst == 1 then qty / 10000000.0
      else qty
    case Density =>
      if src == 0 && dst == 1 then qty / 1000000000.0
      else if src == 0 && dst == 2 then qty / 1000.0
      else if src == 1 && dst == 0 then qty * 1000000000.0
      else if src == 1 && dst == 2 then qty * 1000000.0
      else if src == 2 && dst == 0 then qty * 1000.0
      else if src == 2 && dst == 1 then qty / 1000000.0
      else qty
    case ThermalConductivity =>
      if src == 0 && dst == 1 then qty * 1000.0
      else if src == 0 && dst == 2 then qty * 100000.0
      else if src == 1 && dst == 0 then qty / 1000.0
      else if src == 1 && dst == 2 then qty * 100.0
      else if src == 2 && dst == 0 then qty / 100000.0
      else if src == 2 && dst == 1 then qty / 100.0
      else qty
    case SpecificHeat =>
      if src == 0 && dst == 1 then qty * 1000000.0
      else if src == 0 && dst == 2 then qty * 10000.0
      else if src == 1 && dst == 0 then qty / 1000000.0
      else if src == 1 && dst == 2 then qty / 100.0
      else if src == 2 && dst == 0 then qty / 10000.0
      else if src == 2 && dst == 1 then qty * 100.0
      else qty
    case YoungsModulus =>
      if src == 0 && dst == 1 then qty / 1000000.0
      else if src == 0 && dst == 2 then qty * 10.0
      else if src == 1 && dst == 0 then qty * 1000000.0
      else if src == 1 && dst == 2 then qty * 10000000.0
      else if src == 2 && dst == 0 then qty / 10.0
      else if src == 2 && dst == 1 then qty / 10000000.0
      else qty
    case FilmCoefficient =>
      if src == 0 && dst == 1 then qty
      else if src == 0 && dst == 2 then qty * 1000.0
      else if src == 1 && dst == 0 then qty
      else if src == 1 && dst == 2 then qty * 1000.0
      else if src == 2 && dst == 0 then qty / 1000.0
      else if src == 2 && dst == 1 then qty / 1000.0
      else qty
    case DynamicViscosity =>
      if src == 0 && dst == 1 then qty / 1000000.0
      else if src == 0 && dst == 2 then qty * 10.0
      else if src == 1 && dst == 0 then qty * 1000000.0
      else if src == 1 && dst == 2 then qty * 10000000.0
      else if src == 2 && dst == 0 then qty / 10.0
      else if src == 2 && dst == 1 then qty / 10000000.0
      else qty
    case Elastic =>
      if src == 0 && dst == 1 then qty / 1000000.0
      else if src == 0 && dst == 2 then qty * 10.0
      else if src == 1 && dst == 0 then qty * 1000000.0
      else if src == 1 && dst == 2 then qty * 10000000.0
      else if src == 2 && dst == 0 then qty / 10.0
      else if src == 2 && dst == 1 then qty / 10000000.0
      else qty
    case Expansion =>
      if src == 0 && dst == 1 then qty
      else if src == 0 && dst == 2 then qty
      else if src == 1 && dst == 0 then qty
      else if src == 1 && dst == 2 then qty
      else if src == 2 && dst == 0 then qty
      else if src == 2 && dst == 1 then qty
      else qty
    case StefanBoltzmann =>
      if src == 0 && dst == 1 then qty / 1000.0
      else if src == 0 && dst == 2 then qty * 1000.0
      else if src == 1 && dst == 0 then qty * 1000.0
      else if src == 1 && dst == 2 then qty * 1000000.0
      else if src == 2 && dst == 0 then qty / 1000.0
      else if src == 2 && dst == 1 then qty / 1000000.0
      else qty
  }

  /** The reference definition the chain is checked against: the number of
      system-`k` units in one system-0 unit of the category (so system 0
      itself has scale 1). A conversion from `src` to `dst` multiplies by
      `Scale(c, dst) / Scale(c, src)`. */
  function Scale(c: Category, k: int): (s: real)
    requires IsSystem(k)
    ensures s > 0.0
    ensures k == 0 ==> s == 1.0
  {
    var v: seq<real> :=
      match c
      case Force => [1.0, 1.0, 100000.0]
      case Pressure => [1.0, 0.000001, 10.0]
      case Density => [1.0, 0.000000001, 0.001]
      case ThermalConductivity => [1.0, 1000.0, 100000.0]
      case SpecificHeat => [1.0, 1000000.0, 10000.0]
      case YoungsModulus => [1.0, 0.000001, 10.0]
      case FilmCoefficient => [1.0, 1.0, 1000.0]
      case DynamicViscosity => [1.0, 0.000001, 10.0]
      case Elastic => [1.0, 0.000001, 10.0]
      case Expansion => [1.0, 1.0, 1.0]
      case StefanBoltzmann => [1.0, 0.001, 1000.0];
    v[k]
  }

  /** The factor of the directed conversion `src -> dst`. */
  function Factor(c: Category, src: int, dst: int): (f: real)
    requires IsSystem(src) && IsSystem(dst)
    ensures f > 0.0
    ensures src == dst ==> f == 1.0
  {
    Scale(c, dst) / Scale(c, src)
  }

  /** Every directed pair of every block multiplies by the factor the scale
      vector predicts; pairs outside the 3 x 3 grid leave the quantity as is. */
  lemma DirectedIsRescaling(c: Category, src: int, dst: int, qty: real)
    ensures IsSystem(src) && IsSystem(dst) ==> Directed(c, src, dst, qty) == qty * Factor(c, src, dst)
    ensures !(IsSystem(src) && IsSystem(dst)) ==> Directed(c, src, dst, qty) == qty
  {
  }

  /** `placeholder_convert(category, src_idx, dst_idx, qty)`: an unknown
      category, a pair on the diagonal and a pair outside the grid all fall
      through to `return qty`. */
  function Convert(category: string, src: int, dst: int, qty: real): (r: real)
    ensures src == dst ==> r == qty
    ensures Parse(category).None? ==> r == qty
    ensures !(IsSystem(src) && IsSystem(dst)) ==> r == qty
  {
    match Parse(category)
    case None => qty
    case Some(c) => DirectedFallsThrough(c, src, dst, qty); Directed(c, src, dst, qty)
  }

  /** Each block ends in `return qty`, reached on the diagonal and outside
      the grid. */
  lemma DirectedFallsThrough(c: Category, src: int, dst: int, qty: real)
    ensures src == dst || !(IsSystem(src) && IsSystem(dst)) ==> Directed(c, src, dst, qty) == qty
  {
  }

  /** Against the reference definition: for every category and two valid
      systems the chain multiplies by `Scale(c, dst) / Scale(c, src)`. */
  lemma ConvertIsRescaling(c: Category, src: int, dst: int, qty: real)
    requires IsSystem(src) && IsSystem(dst)
    ensures Convert(Name(c), src, dst, qty) == qty * Factor(c, src, dst)
  {
    ParseName(c);
    ConvertDispatches(Name(c), src, dst, qty);
    DirectedIsRescaling(c, src, dst, qty);
  }

  /** A known category name selects its own block of the chain. */
  lemma ConvertDispatches(category: string, src: int, dst: int, qty: real)
    requires Parse(category).Some?
    ensures Convert(category, src, dst, qty) == Directed(Parse(category).value, src, dst, qty)
  {
  }

  /** All factors are positive, so a conversion keeps the sign of the
      quantity, and in particular maps zero, and only zero, to zero. */
  lemma ConvertKeepsSign(category: string, src: int, dst: int, qty: real)
    ensures var r := Convert(category, src, dst, qty);
      (r > 0.0 <==> qty > 0.0) && (r < 0.0 <==> qty < 0.0) && (r == 0.0 <==> qty == 0.0)
  {
    match Parse(category)
    case None =>
    case Some(c) =>
      ConvertDispatches(category, src, dst, qty);
      DirectedKeepsSign(c, src, dst, qty);
  }

  lemma DirectedKeepsSign(c: Category, src: int, dst: int, qty: real)
    ensures var r := Directed(c, src, dst, qty);
      (r > 0.0 <==> qty > 0.0) && (r < 0.0 <==> qty < 0.0) && (r == 0.0 <==> qty == 0.0)
  {
    DirectedIsRescaling(c, src, dst, qty);
    if IsSystem(src) && IsSystem(dst) {
      PositiveScalingKeepsSign(qty, Factor(c, src, dst));
    }
  }

  lemma PositiveScalingKeepsSign(q: real, f: real)
    requires f > 0.0
    ensures (q * f > 0.0 <==> q > 0.0) && (q * f < 0.0 <==> q < 0.0)
  {
    if q > 0.0 {
      assert q * f > 0.0;
    } else if q < 0.0 {
      assert (-q) * f > 0.0;
    }
  }

  /** Converting i -> j and then j -> k equals converting i -> k directly,
      for every category and every path of valid systems (for example
      Pressure 1 -> 0 -> 2 is x 1e6 then x 10, which is 1 -> 2, x 1e7). */
  lemma ConvertTransitive(c: Category, i: int, j: int, k: int, qty: real)
    requires IsSystem(i) && IsSystem(j) && IsSystem(k)
    ensures Convert(Name(c), j, k, Convert(Name(c), i, j, qty)) == Convert(Name(c), i, k, qty)
  {
    var x := Convert(Name(c), i, j, qty);
    ParseName(c);
    ConvertDispatches(Name(c), i, j, qty);
    ConvertDispatches(Name(c), j, k, x);
    ConvertDispatches(Name(c), i, k, qty);
    DirectedTransitive(c, i, j, k, qty);
  }

  /** Transitivity of the chain itself, checked block by block. */
  lemma DirectedTransitive(c: Category, i: int, j: int, k: int, qty: real)
    requires IsSystem(i) && IsSystem(j) && IsSystem(k)
    ensures Directed(c, j, k, Directed(c, i, j, qty)) == Directed(c, i, k, qty)
  {
    match c
    case Force =>
    case Pressure =>
    case Density =>
    case ThermalConductivity =>
    case SpecificHeat =>
    case YoungsModulus =>
    case FilmCoefficient =>
    case DynamicViscosity =>
    case Elastic =>
    case Expansion =>
    case StefanBoltzmann =>
  }

  /** The i -> j and j -> i conversions are reciprocal: there and back gives
      the quantity again, for every category name (known or not) and every
      pair of indices. */
  lemma ConvertRoundTrip(category: string, i: int, j: int, qty: real)
    ensures Convert(category, j, i, Convert(category, i, j, qty)) == qty
  {
    match Parse(category)
    case None =>
    case Some(c) =>
      if IsSystem(i) && IsSystem(j) {
        assert category == Name(c);
        ConvertTransitive(c, i, j, i, qty);
      }
  }

  /** Inverse-factor symmetry: converting `v` from i to j divides it by the
      value one unit of system j has in system i. */
  lemma ConvertByInverseFactor(category: string, i: int, j: int, v: real)
    ensures Convert(category, j, i, 1.0) != 0.0
    ensures Convert(category, i, j, v) == v / Convert(category, j, i, 1.0)
  {
    match Parse(category)
    case None =>
    case Some(c) =>
      assert category == Name(c);
      if IsSystem(i) && IsSystem(j) {
        InverseFactor(c, i, j, v);
      }
  }

  lemma InverseFactor(c: Category, i: int, j: int, v: real)
    requires IsSystem(i) && IsSystem(j)
    ensures Convert(Name(c), j, i, 1.0) != 0.0
    ensures Convert(Name(c), i, j, v) == v / Convert(Name(c), j, i, 1.0)
  {
    ParseName(c);
    ConvertDispatches(Name(c), i, j, v);
    ConvertDispatches(Name(c), j, i, 1.0);
    DirectedInverse(c, i, j, v);
  }

  /** The inverse-factor symmetry of the chain itself, block by block. */
  lemma DirectedInverse(c: Category, i: int, j: int, v: real)
    requires IsSystem(i) && IsSystem(j)
    ensures Directed(c, j, i, 1.0) != 0.0
    ensures Directed(c, i, j, v) == v / Directed(c, j, i, 1.0)
  {
    match c
    case Force =>
    case Pressure =>
    case Density =>
    case ThermalConductivity =>
    case SpecificHeat =>
    case YoungsModulus =>
    case FilmCoefficient =>
    case DynamicViscosity =>
    case Elastic =>
    case Expansion =>
    case StefanBoltzmann =>
  }

  /** "Expansion" (1/K in every system) is the identity for all pairs. */
  lemma ExpansionIsIdentity(i: int, j: int, qty: real)
    ensures Convert("Expansion", i, j, qty) == qty
  {
    ParseName(Expansion);
  }

  /** Two concrete rows of the table: 1e6 Pa is 1 N/mm², 1 N is 1e5 dyn. */
  lemma ConvertAnchors()
    ensures Convert("Pressure", 0, 1, 1000000.0) == 1.0
    ensures Convert("Force", 0, 2, 1.0) == 100000.0
  {
    ParseName(Pressure);
    ParseName(Force);
  }
}
