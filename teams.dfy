/** Team generation and layout. Generation keeps the first
    `teamsCount * teamSize` ids of a shuffled copy of the selection; the
    board then shows team `t` as the slots `t * teamSize + i` for
    `0 <= i < teamSize`, a slot past the end of the list being empty. */
module Teams {
  import opened Seqs
  import opened Catalog

  /** `rnd.slice(0, teamsCount * teamSize)`, where `rnd` is what the shuffle
      returned for the selection. */
  function Generate(rnd: seq<Id>, teamsCount: int, teamSize: int): (teams: seq<Id>)
    ensures |teams| <= |rnd| && teams == rnd[..|teams|]
  {
    SliceTo(rnd, teamsCount * teamSize)
  }

  /** Given any rearrangement of the selection, the generated list has length
      `min(|selection|, teamsCount * teamSize)` (for a non-negative product),
      holds only selected ids, and is duplicate-free when the selection is. */
  lemma GenerateSpec(selected: seq<Id>, rnd: seq<Id>, teamsCount: int, teamSize: int)
    requires multiset(rnd) == multiset(selected)
    ensures teamsCount * teamSize >= 0 ==>
      |Generate(rnd, teamsCount, teamSize)| == Min(|selected|, teamsCount * teamSize)
    ensures forall x :: x in Generate(rnd, teamsCount, teamSize) ==> x in selected
    ensures NoDups(selected) ==> NoDups(Generate(rnd, teamsCount, teamSize))
  {
    var teams := Generate(rnd, teamsCount, teamSize);
    assert |rnd| == |multiset(rnd)| == |selected|;
    forall x | x in teams
      ensures x in selected
    {
      assert x in rnd;
      assert x in multiset(rnd);
    }
    if NoDups(selected) {
      PermutationKeepsNoDups(selected, rnd);
      PrefixKeepsNoDups(rnd, |teams|);
    }
  }

  /** `teams()[i + teamIndex * teamSize]`: empty (`undefined`) past the end. */
  function Slot(teams: seq<Id>, teamIndex: int, i: int, teamSize: int): (slot: Option<Id>)
    ensures slot.Some? ==> slot.value in teams
    ensures 0 <= i && 0 <= teamIndex && 0 <= teamSize ==>
      (slot.Some? <==> teamIndex * teamSize + i < |teams|)
  {
    var k := i + teamIndex * teamSize;
    if 0 <= k < |teams| then Some(teams[k]) else None
  }

  /** `Array.from({ length: teamSize }, (_, i) => teams()[i + teamIndex * teamSize])` */
  function Team(teams: seq<Id>, teamIndex: nat, teamSize: nat): (team: seq<Option<Id>>)
    ensures |team| == teamSize
    ensures forall i :: 0 <= i < teamSize && team[i].Some? ==> team[i].value in teams
    ensures forall i, j :: 0 <= i < j < teamSize && team[j].Some? ==> team[i].Some?
  {
    seq(teamSize, i => Slot(teams, teamIndex, i, teamSize))
  }

  /** The part of the list that team `t` covers, clipped to the list. */
  function Chunk(teams: seq<Id>, t: nat, teamSize: nat): seq<Id>
  {
    teams[Min(t * teamSize, |teams|)..Min(t * teamSize + teamSize, |teams|)]
  }

  function Present(s: seq<Id>): seq<Option<Id>> { seq(|s|, i requires 0 <= i < |s| => Some(s[i])) }

  function Absent(n: nat): seq<Option<Id>> { seq(n, _ => None) }

  /** Team `t` shows its chunk of the list, in order, followed by empty
      slots up to `teamSize`. */
  lemma TeamIsChunk(teams: seq<Id>, t: nat, teamSize: nat)
    ensures |Chunk(teams, t, teamSize)| <= teamSize
    ensures Team(teams, t, teamSize) ==
      Present(Chunk(teams, t, teamSize)) + Absent(teamSize - |Chunk(teams, t, teamSize)|)
  {
    var base := t * teamSize;
    var chunk := Chunk(teams, t, teamSize);
    var team := Team(teams, t, teamSize);
    var rhs := Present(chunk) + Absent(teamSize - |chunk|);
    forall i | 0 <= i < teamSize
      ensures team[i] == rhs[i]
    {
      assert team[i] == Slot(teams, t, i, teamSize);
      assert i + t * teamSize == base + i;
    }
  }

  /** Slots of different teams, or different slots of one team, read
      different positions of the list: the teams never overlap. */
  lemma SlotsDisjoint(t1: nat, i1: nat, t2: nat, i2: nat, teamSize: nat)
    requires i1 < teamSize && i2 < teamSize
    requires t1 != t2 || i1 != i2
    ensures i1 + t1 * teamSize != i2 + t2 * teamSize
  {
    if t1 < t2 {
      MulMonotone(t1 + 1, t2, teamSize);
    } else if t2 < t1 {
      MulMonotone(t2 + 1, t1, teamSize);
    }
  }

  lemma MulMonotone(a: nat, b: nat, c: nat)
    requires a <= b
    ensures a * c <= b * c
  {
  }

  /** The first `k` teams' chunks laid end to end. */
  function Concat(teams: seq<Id>, k: nat, teamSize: nat): seq<Id>
  {
    if k == 0 then [] else Concat(teams, k - 1, teamSize) + Chunk(teams, k - 1, teamSize)
  }

  /** The first `k` teams together hold exactly the first `k * teamSize`
      entries of the list (all of it if shorter), in order: the teams are
      contiguous, consecutive chunks. */
  lemma {:induction false} ConcatIsPrefix(teams: seq<Id>, k: nat, teamSize: nat)
    ensures Concat(teams, k, teamSize) == teams[..Min(k * teamSize, |teams|)]
  {
    if k > 0 {
      ConcatIsPrefix(teams, k - 1, teamSize);
      var lo := Min((k - 1) * teamSize, |teams|);
      assert (k - 1) * teamSize + teamSize == k * teamSize;
      assert teams[..Min(k * teamSize, |teams|)] == teams[..lo] + Chunk(teams, k - 1, teamSize);
    }
  }

  /** A freshly generated list fits in the board, so the `teamsCount` teams
      together show every generated id exactly once, in order. */
  lemma BoardShowsAll(teams: seq<Id>, teamsCount: nat, teamSize: nat)
    requires |teams| <= teamsCount * teamSize
    ensures Concat(teams, teamsCount, teamSize) == teams
  {
    ConcatIsPrefix(teams, teamsCount, teamSize);
  }

  /** What a card shows: its display index and the character it holds. */
  datatype CardView = CardView(index: int, character: Option<Character>)

  /** `idToCard(offset)(id, index)`: the character is looked up by id (an
      empty slot finds nothing); the offset only shifts the display index. */
  function ToCard(catalog: seq<Character>, offset: int, id: Option<Id>, index: int): (card: CardView)
    ensures card.index == index + offset
    ensures card.character.Some? <==> id.Some? && id.value in Ids(catalog)
    ensures card.character.Some? ==>
      card.character.value in catalog && card.character.value.id == id.value
  {
    CardView(index + offset, if id.Some? then Find(catalog, id.value) else None)
  }

  /** Team `t` as rendered, with the `(t % 2) * teamSize` display offset. */
  function RenderTeam(catalog: seq<Character>, teams: seq<Id>, t: nat, teamSize: nat): (cards: seq<CardView>)
    ensures |cards| == teamSize
    ensures forall i :: 0 <= i < teamSize && cards[i].character.Some? ==>
      cards[i].character.value in catalog && cards[i].character.value.id in teams
  {
    seq(teamSize, i requires 0 <= i < teamSize =>
      ToCard(catalog, (t % 2) * teamSize, Team(teams, t, teamSize)[i], i))
  }

  /** The display offset never changes which character a card of team `t`
      holds: card `i` shows the character of slot `t * teamSize + i`,
      rendering with no offset at all gives the same characters, and only
      the index differs (by `teamSize` on odd teams). */
  lemma OffsetOnlyMovesIndex(catalog: seq<Character>, teams: seq<Id>, t: nat, teamSize: nat, i: nat)
    requires i < teamSize
    ensures RenderTeam(catalog, teams, t, teamSize)[i].character ==
      ToCard(catalog, 0, Slot(teams, t, i, teamSize), i).character
    ensures RenderTeam(catalog, teams, t, teamSize)[i].character ==
      (if t * teamSize + i < |teams| then Find(catalog, teams[t * teamSize + i]) else None)
    ensures RenderTeam(catalog, teams, t, teamSize)[i].index ==
      if t % 2 == 0 then i else i + teamSize
  {
    var offset := (t % 2) * teamSize;
    var slot := Slot(teams, t, i, teamSize);
    assert Team(teams, t, teamSize)[i] == slot;
    assert RenderTeam(catalog, teams, t, teamSize)[i] == ToCard(catalog, offset, slot, i);
    assert i + t * teamSize == t * teamSize + i;
    assert offset == if t % 2 == 0 then 0 else teamSize;
  }
}
