/** The visibility filter: whether a catalog card is shown, given the four
    facet lists (elements, weapons, gender, rarity). An empty facet list
    puts no constraint on its facet. The lists are read-only inputs here. */
module Filters {
  import opened Catalog

  /** The four facet lists as held by the store. */
  datatype FilterCriteria = FilterCriteria(
    elements: seq<Element>,
    weapons: seq<Weapon>,
    gender: seq<Gender>,
    rarity: seq<int>)

  /** `filter.some(v => values.includes(v))`: the two lists overlap. */
  function SomeIncluded<T(==)>(filter: seq<T>, values: seq<T>): (b: bool)
    ensures b <==> exists v :: v in filter && v in values
  {
    if filter == [] then false
    else filter[0] in values || SomeIncluded(filter[1..], values)
  }

  /** `isSameElement`: the element list is empty or shares a value with the
      character's elements. */
  predicate IsSameElement(f: FilterCriteria, c: Character)
    ensures IsSameElement(f, c) <==>
      |f.elements| == 0 || exists e :: e in f.elements && e in c.elements
  {
    |f.elements| == 0 || SomeIncluded(f.elements, c.elements)
  }

  /** `isSameWeapon`: the test is `character.weapon.includes(w)`, so the
      character's weapon collection contains some filter value. */
  predicate IsSameWeapon(f: FilterCriteria, c: Character)
    ensures IsSameWeapon(f, c) <==>
      |f.weapons| == 0 || exists w :: w in f.weapons && w in c.weapon
  {
    |f.weapons| == 0 || SomeIncluded(f.weapons, c.weapon)
  }

  /** `isSameGender`: the gender list is empty or shares a value with the
      character's genders. */
  predicate IsSameGender(f: FilterCriteria, c: Character)
    ensures IsSameGender(f, c) <==>
      |f.gender| == 0 || exists g :: g in f.gender && g in c.gender
  {
    |f.gender| == 0 || SomeIncluded(f.gender, c.gender)
  }

  /** `isSameRarity`: the rarity list is empty or holds the character's
      stars, which is the overlap test of the other facets applied to the
      one-value list of its stars. */
  predicate IsSameRarity(f: FilterCriteria, c: Character)
    ensures IsSameRarity(f, c) <==> |f.rarity| == 0 || SomeIncluded(f.rarity, [c.stars])
  {
    |f.rarity| == 0 || c.stars in f.rarity
  }

  /** `isShown`: every facet matches; with no filter set, everything is
      shown. */
  predicate IsShown(f: FilterCriteria, c: Character)
    ensures NoFilters(f) ==> IsShown(f, c)
  {
    IsSameElement(f, c) && IsSameWeapon(f, c) && IsSameGender(f, c) && IsSameRarity(f, c)
  }

  predicate NoFilters(f: FilterCriteria) {
    f.elements == [] && f.weapons == [] && f.gender == [] && f.rarity == []
  }

  /** With every facet list empty, every catalog card is shown. */
  lemma NoFiltersShowsAll(f: FilterCriteria, catalog: seq<Character>)
    requires NoFilters(f)
    ensures forall c :: c in catalog ==> IsShown(f, c)
  {
  }

  /** A card is shown exactly when every non-empty facet matches: its
      elements, weapons and genders each share a value with their list, and
      the rarity list holds its stars. */
  lemma IsShownIff(f: FilterCriteria, c: Character)
    ensures IsShown(f, c) <==>
      (|f.elements| == 0 || exists e :: e in f.elements && e in c.elements) &&
      (|f.weapons| == 0 || exists w :: w in f.weapons && w in c.weapon) &&
      (|f.gender| == 0 || exists g :: g in f.gender && g in c.gender) &&
      (|f.rarity| == 0 || c.stars in f.rarity)
  {
  }

  /** Two lists hold the same values. */
  predicate SameValues<T(==)>(a: seq<T>, b: seq<T>) {
    (forall x :: x in a ==> x in b) && (forall x :: x in b ==> x in a)
  }

  /** Visibility depends only on which values each facet list holds, not on
      their order or repetition; so toggling a facet value on and off again
      leaves every card's visibility as it was. */
  lemma SameValuesSameVisibility(f: FilterCriteria, g: FilterCriteria, c: Character)
    requires SameValues(f.elements, g.elements) && SameValues(f.weapons, g.weapons)
    requires SameValues(f.gender, g.gender) && SameValues(f.rarity, g.rarity)
    ensures IsShown(f, c) == IsShown(g, c)
  {
    EmptinessAgrees(f.elements, g.elements);
    EmptinessAgrees(f.weapons, g.weapons);
    EmptinessAgrees(f.gender, g.gender);
    EmptinessAgrees(f.rarity, g.rarity);
  }

  lemma EmptinessAgrees<T>(a: seq<T>, b: seq<T>)
    requires SameValues(a, b)
    ensures |a| == 0 <==> |b| == 0
  {
    if |a| > 0 { assert a[0] in b; }
    if |b| > 0 { assert b[0] in a; }
  }
}
