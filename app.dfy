/** The application state behind the page: the selection list, the team
    count and the generated teams, each replaced as a whole by the handlers.
    The catalog and the three team constants are fixed at construction. */
module App {
  import opened Seqs
  import opened Catalog
  import Selection
  import TeamCount
  import Teams
  import Export

  class AppState {
    const catalog: seq<Character>
    const teamSize: int
    const minTeams: int
    const maxTeams: int

    /** `selectedCharacters.selectedCharacters` */
    var selected: seq<Id>
    /** `teamsCount.teamsCount` */
    var teamsCount: int
    /** the `teams` signal */
    var teams: seq<Id>

    /** The state every handler keeps: the constants are sane, the count is
        within its bounds, and both the selection and the generated list are
        duplicate-free lists of catalog ids. */
    ghost predicate Valid()
      reads this
    {
      teamSize > 0 && UniqueIds(catalog) &&
      TeamCount.InBounds(teamsCount, minTeams, maxTeams) &&
      Selection.WellFormed(selected, catalog) &&
      Selection.WellFormed(teams, catalog)
    }

    constructor (catalog: seq<Character>, teamSize: int, minTeams: int, maxTeams: int,
                 initialCount: int, initialSelection: seq<Id>)
      requires teamSize > 0 && UniqueIds(catalog)
      requires TeamCount.InBounds(initialCount, minTeams, maxTeams)
      requires Selection.WellFormed(initialSelection, catalog)
      ensures Valid()
      ensures this.catalog == catalog && this.teamSize == teamSize
      ensures this.minTeams == minTeams && this.maxTeams == maxTeams
      ensures teamsCount == initialCount && selected == initialSelection && teams == []
    {
      this.catalog := catalog;
      this.teamSize := teamSize;
      this.minTeams := minTeams;
      this.maxTeams := maxTeams;
      teamsCount := initialCount;
      selected := initialSelection;
      teams := [];
    }

    /** `areAllCharatersSelected()`: a length test, which in a valid state
        holds exactly when every catalog id is selected. */
    function AreAllCharactersSelected(): (r: bool)
      reads this
      ensures Valid() ==> (r <==> forall x :: x in Ids(catalog) ==> x in selected)
    {
      Selection.AreAllSelected(selected, catalog)
    }

    /** Clicking the card of catalog entry `k`: its id is removed from the
        selection when present and appended when absent. */
    method ToggleCard(k: nat)
      requires Valid()
      requires k < |catalog|
      modifies this`selected
      ensures Valid()
      ensures selected == Selection.Toggle(old(selected), catalog[k].id)
      ensures catalog[k].id in old(selected) ==> catalog[k].id !in selected
      ensures catalog[k].id !in old(selected) ==> selected == old(selected) + [catalog[k].id]
    {
      Selection.ToggleWellFormed(selected, catalog, k);
      selected := Selection.Toggle(selected, catalog[k].id);
    }

    /** The select/deselect-all button. */
    method ToggleAll()
      requires Valid()
      modifies this`selected
      ensures Valid()
      ensures selected == Selection.SelectAllOrNone(old(selected), catalog)
      ensures old(AreAllCharactersSelected()) ==> selected == []
      ensures !old(AreAllCharactersSelected()) ==> selected == Ids(catalog)
      ensures !old(AreAllCharactersSelected()) ==> AreAllCharactersSelected()
      ensures old(AreAllCharactersSelected()) && |catalog| > 0 ==> !AreAllCharactersSelected()
    {
      Selection.SelectAllOrNoneWellFormed(selected, catalog);
      selected := Selection.SelectAllOrNone(selected, catalog);
    }

    /** `generateTeams`, with `rnd` standing for what `shuffle` returned: some
        rearrangement of the selection. The previous teams are replaced by
        the first `teamsCount * teamSize` ids of `rnd`. */
    method GenerateTeams(rnd: seq<Id>)
      requires Valid()
      requires multiset(rnd) == multiset(selected)
      modifies this`teams
      ensures Valid()
      ensures teams == Teams.Generate(rnd, teamsCount, teamSize)
      ensures teamsCount >= 0 ==> |teams| == Min(|selected|, teamsCount * teamSize)
      ensures forall x :: x in teams ==> x in selected
      ensures teamsCount >= 0 ==> Teams.Concat(teams, teamsCount, teamSize) == teams
    {
      Teams.GenerateSpec(selected, rnd, teamsCount, teamSize);
      if teamsCount >= 0 {
        Teams.BoardShowsAll(Teams.Generate(rnd, teamsCount, teamSize), teamsCount, teamSize);
      }
      teams := Teams.Generate(rnd, teamsCount, teamSize);
    }

    method IncreaseTeamSize()
      requires Valid()
      modifies this`teamsCount
      ensures Valid()
      ensures teamsCount == TeamCount.Increase(old(teamsCount), maxTeams)
    {
      teamsCount := TeamCount.Increase(teamsCount, maxTeams);
    }

    method DecreaseTeamSize()
      requires Valid()
      modifies this`teamsCount
      ensures Valid()
      ensures teamsCount == TeamCount.Decrease(old(teamsCount), minTeams)
    {
      teamsCount := TeamCount.Decrease(teamsCount, minTeams);
    }

    /** Whether "Add Team" is offered: exactly when adding would change the
        count. */
    function CanAddTeam(): (r: bool)
      reads this
      ensures r <==> TeamCount.Increase(teamsCount, maxTeams) > teamsCount
    {
      TeamCount.CanAdd(teamsCount, maxTeams)
    }

    /** Whether "Remove Team" is offered: exactly when removing would change
        the count. */
    function CanRemoveTeam(): (r: bool)
      reads this
      ensures r <==> TeamCount.Decrease(teamsCount, minTeams) < teamsCount
    {
      TeamCount.CanRemove(teamsCount, minTeams)
    }

    /** The clipboard text for the current teams: empty when there are
        none, otherwise the names with one ", " per gap. */
    function TeamNames(): (text: string)
      reads this
      ensures teams == [] ==> text == ""
      ensures |teams| > 0 ==>
        |text| == Export.TotalLength(Export.Names(catalog, teams)) + 2 * (|teams| - 1)
    {
      Export.TeamNames(catalog, teams)
    }
  }
}
