/** The selection store's pure logic: the selection is an ordered list of
    ids. A card click toggles one id; the bulk button selects or deselects
    the whole catalog, deciding by comparing lengths. */
module Selection {
  import opened Seqs
  import opened Catalog

  /** The card click: remove `id` (every occurrence) when present, append it
      when absent. */
  function Toggle(selected: seq<Id>, id: Id): (r: seq<Id>)
    ensures id in r <==> id !in selected
    ensures forall x :: x != id ==> (x in r <==> x in selected)
  {
    if id in selected then Without(selected, id) else selected + [id]
  }

  /** An absent id is appended at the end. */
  lemma ToggleAppends(selected: seq<Id>, id: Id)
    requires id !in selected
    ensures Toggle(selected, id) == selected + [id]
  {
  }

  /** A present id is removed and the other ids keep their relative order:
      toggling commutes with splitting the list anywhere. */
  lemma ToggleRemovesKeepingOrder(a: seq<Id>, b: seq<Id>, id: Id)
    requires id in a + b
    ensures Toggle(a + b, id) == Without(a, id) + Without(b, id)
  {
    WithoutConcat(a, b, id);
  }

  /** In a duplicate-free selection, toggling the id at position `k` deletes
      exactly that position. */
  lemma ToggleRemovesPosition(selected: seq<Id>, k: nat)
    requires NoDups(selected)
    requires k < |selected|
    ensures Toggle(selected, selected[k]) == selected[..k] + selected[k + 1..]
  {
    WithoutUnique(selected, k);
  }

  /** A duplicate-free selection stays duplicate-free. */
  lemma ToggleKeepsNoDups(selected: seq<Id>, id: Id)
    requires NoDups(selected)
    ensures NoDups(Toggle(selected, id))
  {
    if id in selected {
      WithoutKeepsNoDups(selected, id);
    }
  }

  /** Toggling twice leaves the same ids selected. */
  lemma ToggleTwiceSameIds(selected: seq<Id>, id: Id)
    ensures forall x :: x in Toggle(Toggle(selected, id), id) <==> x in selected
  {
  }

  /** Toggling an absent id twice restores the list exactly. */
  lemma ToggleTwiceAbsent(selected: seq<Id>, id: Id)
    requires id !in selected
    ensures Toggle(Toggle(selected, id), id) == selected
  {
    WithoutConcat(selected, [id], id);
    WithoutAbsent(selected, id);
    assert Without([id], id) == [];
  }

  /** Toggling a present id twice in a duplicate-free list moves it to the
      end: the result is a rearrangement of the list. */
  lemma ToggleTwicePresent(selected: seq<Id>, k: nat)
    requires NoDups(selected)
    requires k < |selected|
    ensures Toggle(Toggle(selected, selected[k]), selected[k]) ==
      selected[..k] + selected[k + 1..] + [selected[k]]
    ensures multiset(Toggle(Toggle(selected, selected[k]), selected[k])) == multiset(selected)
  {
    var id := selected[k];
    WithoutUnique(selected, k);
    var once := selected[..k] + selected[k + 1..];
    assert id !in once by {
      WithoutKeepsNoDups(selected, id);
    }
    assert selected == selected[..k] + [id] + selected[k + 1..];
  }

  /** `selectedCharacters.length === characters.length`: for a well-formed
      selection over a catalog with unique ids, exactly when every catalog id
      is selected. */
  predicate AreAllSelected(selected: seq<Id>, catalog: seq<Character>)
    ensures UniqueIds(catalog) && WellFormed(selected, catalog) ==>
      (AreAllSelected(selected, catalog) <==> forall x :: x in Ids(catalog) ==> x in selected)
  {
    AllSelectedIffEveryId(selected, catalog);
    |selected| == |catalog|
  }

  /** The select/deselect-all button: empty the selection when all are
      selected, otherwise select every catalog id in catalog order. After it,
      everything is selected exactly when it was not before (or the catalog
      is empty). */
  function SelectAllOrNone(selected: seq<Id>, catalog: seq<Character>): (r: seq<Id>)
    ensures AreAllSelected(selected, catalog) ==> r == []
    ensures !AreAllSelected(selected, catalog) ==>
      |r| == |catalog| && forall i :: 0 <= i < |catalog| ==> r[i] == catalog[i].id
    ensures AreAllSelected(r, catalog) <==> |catalog| == 0 || !AreAllSelected(selected, catalog)
  {
    if AreAllSelected(selected, catalog) then [] else Ids(catalog)
  }

  /** A selection of catalog ids without duplicates. */
  predicate WellFormed(selected: seq<Id>, catalog: seq<Character>) {
    NoDups(selected) && forall x :: x in selected ==> x in Ids(catalog)
  }

  /** For a well-formed selection over a catalog with unique ids, the length
      test means what it is used for: every catalog id is selected. */
  lemma {:induction false} AllSelectedIffEveryId(selected: seq<Id>, catalog: seq<Character>)
    ensures UniqueIds(catalog) && WellFormed(selected, catalog) ==>
      (|selected| == |catalog| <==> forall x :: x in Ids(catalog) ==> x in selected)
  {
    if UniqueIds(catalog) && WellFormed(selected, catalog) {
      if |selected| == |catalog| {
        FullLengthHoldsEveryId(selected, catalog);
      }
      if forall x :: x in Ids(catalog) ==> x in selected {
        EveryIdMeansFullLength(selected, catalog);
      }
    }
  }

  /** A full-length well-formed selection holds every catalog id. */
  lemma {:induction false} FullLengthHoldsEveryId(selected: seq<Id>, catalog: seq<Character>)
    requires UniqueIds(catalog)
    requires WellFormed(selected, catalog)
    requires |selected| == |catalog|
    ensures forall x :: x in Ids(catalog) ==> x in selected
  {
    var s, c := Elements(selected), Elements(Ids(catalog));
    UniqueIdsNoDups(catalog);
    NoDupsCard(selected);
    NoDupsCard(Ids(catalog));
    SubsetSameSize(s, c);
    forall x | x in Ids(catalog)
      ensures x in selected
    {
      assert x in c;
    }
  }

  /** A duplicate-free selection holding every catalog id is full-length. */
  lemma {:induction false} EveryIdMeansFullLength(selected: seq<Id>, catalog: seq<Character>)
    requires UniqueIds(catalog)
    requires WellFormed(selected, catalog)
    requires forall x :: x in Ids(catalog) ==> x in selected
    ensures |selected| == |catalog|
  {
    var s, c := Elements(selected), Elements(Ids(catalog));
    UniqueIdsNoDups(catalog);
    NoDupsCard(selected);
    NoDupsCard(Ids(catalog));
    forall x | x in c
      ensures x in s
    {
      assert x in Ids(catalog);
    }
    forall x | x in s
      ensures x in c
    {
      assert x in selected;
    }
    assert s == c;
  }

  /** A subset as large as its superset is the whole superset. */
  lemma SubsetSameSize<T>(a: set<T>, b: set<T>)
    requires a <= b
    requires |a| == |b|
    ensures a == b
  {
    if a != b {
      assert exists x :: x in b && x !in a;
      var x :| x in b && x !in a;
      assert a <= b - {x};
      SubsetSize(a, b - {x});
      assert false;
    }
  }

  lemma SubsetSize<T>(a: set<T>, b: set<T>)
    requires a <= b
    ensures |a| <= |b|
  {
    assert b == a + (b - a);
  }

  /** The bulk button keeps a selection well-formed. */
  lemma SelectAllOrNoneWellFormed(selected: seq<Id>, catalog: seq<Character>)
    requires UniqueIds(catalog)
    ensures WellFormed(SelectAllOrNone(selected, catalog), catalog)
  {
    UniqueIdsNoDups(catalog);
  }

  /** Toggling a catalog id keeps a selection well-formed. */
  lemma ToggleWellFormed(selected: seq<Id>, catalog: seq<Character>, k: nat)
    requires WellFormed(selected, catalog)
    requires k < |catalog|
    ensures WellFormed(Toggle(selected, catalog[k].id), catalog)
  {
    ToggleKeepsNoDups(selected, catalog[k].id);
  }
}
