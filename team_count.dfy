/** The number of teams: moved by a step of 2 and clamped to
    `[minTeams, maxTeams]`. The two bounds are configuration constants. */
module TeamCount {

  /** `Math.min(teamsCount + 2, maxTeams)`: two more teams, capped. */
  function Increase(count: int, maxTeams: int): (r: int)
    ensures r <= maxTeams
    ensures r <= count + 2
    ensures r == count + 2 || r == maxTeams
  {
    if count + 2 <= maxTeams then count + 2 else maxTeams
  }

  /** `Math.max(teamsCount - 2, minTeams)`: two fewer teams, floored. */
  function Decrease(count: int, minTeams: int): (r: int)
    ensures r >= minTeams
    ensures r >= count - 2
    ensures r == count - 2 || r == minTeams
  {
    if count - 2 >= minTeams then count - 2 else minTeams
  }

  predicate InBounds(count: int, minTeams: int, maxTeams: int) {
    minTeams <= count <= maxTeams
  }

  /** The "Add Team" button is offered when `teamsCount < maxTeams`: exactly
      when pressing it would raise the count. */
  predicate CanAdd(count: int, maxTeams: int)
    ensures CanAdd(count, maxTeams) <==> Increase(count, maxTeams) > count
  {
    count < maxTeams
  }

  /** The "Remove Team" button is offered when `teamsCount > minTeams`:
      exactly when pressing it would lower the count. */
  predicate CanRemove(count: int, minTeams: int)
    ensures CanRemove(count, minTeams) <==> Decrease(count, minTeams) < count
  {
    count > minTeams
  }

  /** Both steps keep a count that starts within the bounds within them. */
  lemma StepsStayInBounds(count: int, minTeams: int, maxTeams: int)
    requires InBounds(count, minTeams, maxTeams)
    ensures InBounds(Increase(count, maxTeams), minTeams, maxTeams)
    ensures InBounds(Decrease(count, minTeams), minTeams, maxTeams)
  {
  }

  /** At its bound each step has no further effect. */
  lemma IdempotentAtBounds(minTeams: int, maxTeams: int)
    ensures Increase(maxTeams, maxTeams) == maxTeams
    ensures Decrease(minTeams, minTeams) == minTeams
  {
  }

  /** Adding then removing restores the count when no bound is hit, and so
      does removing then adding. */
  lemma StepsUndoEachOther(count: int, minTeams: int, maxTeams: int)
    requires minTeams <= count
    requires count <= maxTeams
    ensures count + 2 <= maxTeams ==> Decrease(Increase(count, maxTeams), minTeams) == count
    ensures count - 2 >= minTeams ==> Increase(Decrease(count, minTeams), maxTeams) == count
  {
  }

  /** Within the bounds, a button is offered exactly when pressing it would
      change the count, that is strictly inside the bounds. */
  lemma ButtonsOfferedIffEffective(count: int, minTeams: int, maxTeams: int)
    requires InBounds(count, minTeams, maxTeams)
    ensures CanAdd(count, maxTeams) <==> Increase(count, maxTeams) != count
    ensures CanRemove(count, minTeams) <==> Decrease(count, minTeams) != count
  {
  }
}
