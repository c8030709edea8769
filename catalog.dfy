/** The character catalog: a fixed, ordered sequence of records, each with a
    unique id. The data itself is not part of this model; every operation
    takes the catalog as a parameter. */
module Catalog {
  import opened Seqs

  type Id = string
  type Element = string
  type Gender = string
  type Weapon = string

  /** One catalog character, with the attributes the filters look at. */
  datatype Character = Character(
    id: Id,
    shortName: string,
    elements: seq<Element>,
    gender: seq<Gender>,
    weapon: seq<Weapon>,
    stars: int)

  /** No two catalog entries share an id. */
  predicate UniqueIds(catalog: seq<Character>) {
    forall i, j :: 0 <= i < j < |catalog| ==> catalog[i].id != catalog[j].id
  }

  /** `characters.map(c => c.id)`: the ids in catalog order. */
  function Ids(catalog: seq<Character>): (ids: seq<Id>)
    ensures |ids| == |catalog|
    ensures forall i :: 0 <= i < |catalog| ==> ids[i] == catalog[i].id
  {
    if catalog == [] then [] else [catalog[0].id] + Ids(catalog[1..])
  }

  /** Unique ids are exactly a duplicate-free id list. */
  lemma UniqueIdsNoDups(catalog: seq<Character>)
    ensures UniqueIds(catalog) <==> NoDups(Ids(catalog))
  {
    var ids := Ids(catalog);
    if NoDups(ids) {
      forall i, j | 0 <= i < j < |catalog|
        ensures catalog[i].id != catalog[j].id
      {
        assert ids[i] != ids[j];
      }
    }
  }

  /** `characters.find(c => c.id === id)`: the first entry with that id, or
      nothing (`undefined`) when no entry has it. */
  function Find(catalog: seq<Character>, id: Id): (r: Option<Character>)
    ensures r.None? <==> id !in Ids(catalog)
    ensures r.Some? ==> r.value in catalog && r.value.id == id
  {
    if catalog == [] then None
    else if catalog[0].id == id then Some(catalog[0])
    else Find(catalog[1..], id)
  }

  /** With unique ids, looking up the id of entry `k` finds entry `k`. */
  lemma {:induction false} FindEntry(catalog: seq<Character>, k: nat)
    requires UniqueIds(catalog)
    requires k < |catalog|
    ensures Find(catalog, catalog[k].id) == Some(catalog[k])
  {
    if k > 0 {
      assert catalog[0].id != catalog[k].id;
      FindEntry(catalog[1..], k - 1);
    }
  }
}
