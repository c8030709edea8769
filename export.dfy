/** The text handed to the clipboard: the short names of the generated ids,
    in order, joined by ", ". An id with no catalog entry maps to nothing
    (`undefined`), which `join` renders as an empty segment. */
module Export {
  import opened Seqs
  import opened Catalog

  const Separator: string := ", "

  /** `Array.prototype.join(sep)` on strings: the text starts with the first
      part. */
  function Join(parts: seq<string>, sep: string): (s: string)
    ensures |parts| > 0 ==> parts[0] <= s
  {
    if |parts| == 0 then ""
    else if |parts| == 1 then parts[0]
    else Join(parts[..|parts| - 1], sep) + sep + parts[|parts| - 1]
  }

  /** The sum of the lengths of `parts`. */
  function TotalLength(parts: seq<string>): nat
  {
    if |parts| == 0 then 0 else TotalLength(parts[..|parts| - 1]) + |parts[|parts| - 1]|
  }

  /** A joined string holds every part and one separator between each two
      neighbours, and nothing else. */
  lemma {:induction false} JoinLength(parts: seq<string>, sep: string)
    ensures |parts| > 0 ==> |Join(parts, sep)| == TotalLength(parts) + (|parts| - 1) * |sep|
  {
    if |parts| > 1 {
      var init, last := parts[..|parts| - 1], parts[|parts| - 1];
      JoinLength(init, sep);
      assert Join(parts, sep) == Join(init, sep) + sep + last;
      assert TotalLength(parts) == TotalLength(init) + |last|;
      GapsStep(|init|, |sep|);
    }
  }

  lemma GapsStep(n: nat, k: nat)
    requires n > 0
    ensures n * k == (n - 1) * k + k
  {
  }

  /** Joining two non-empty lists is joining each and putting one separator
      between them. */
  lemma {:induction false} JoinConcat(a: seq<string>, b: seq<string>, sep: string)
    requires |a| > 0 && |b| > 0
    ensures Join(a + b, sep) == Join(a, sep) + sep + Join(b, sep)
    decreases |b|
  {
    if |b| == 1 {
      assert (a + b)[..|a + b| - 1] == a;
    } else {
      var b' := b[..|b| - 1];
      assert (a + b)[..|a + b| - 1] == a + b';
      JoinConcat(a, b', sep);
    }
  }

  /** `characters.find(c => c.id === id)?.shortName`, rendered as `join`
      renders it: the empty string when the id is not in the catalog. */
  function ShortName(catalog: seq<Character>, id: Id): (name: string)
    ensures id !in Ids(catalog) ==> name == ""
    ensures id in Ids(catalog) ==> exists c :: c in catalog && c.id == id && name == c.shortName
  {
    match Find(catalog, id)
    case Some(c) => c.shortName
    case None => ""
  }

  /** `teams().map(id => ...shortName)`: one segment per generated id. */
  function Names(catalog: seq<Character>, teams: seq<Id>): (names: seq<string>)
    ensures |names| == |teams|
    ensures forall i :: 0 <= i < |teams| ==> names[i] == ShortName(catalog, teams[i])
  {
    if teams == [] then [] else [ShortName(catalog, teams[0])] + Names(catalog, teams[1..])
  }

  /** The clipboard text built in `copyTeamNamesToClipboard`: empty for no
      teams; otherwise it starts with the first id's short name and holds the
      names plus one separator per gap. */
  function TeamNames(catalog: seq<Character>, teams: seq<Id>): (text: string)
    ensures teams == [] ==> text == ""
    ensures |teams| > 0 ==> ShortName(catalog, teams[0]) <= text
    ensures |teams| > 0 ==>
      |text| == TotalLength(Names(catalog, teams)) + (|teams| - 1) * |Separator|
  {
    JoinLength(Names(catalog, teams), Separator);
    Join(Names(catalog, teams), Separator)
  }

  /** No generated ids give the empty string. */
  lemma TeamNamesEmpty(catalog: seq<Character>)
    ensures TeamNames(catalog, []) == ""
  {
  }

  /** The names come in the order of the list: adding an id at the end adds
      a separator and that id's short name. */
  lemma TeamNamesAppend(catalog: seq<Character>, teams: seq<Id>, id: Id)
    requires |teams| > 0
    ensures TeamNames(catalog, teams + [id]) == TeamNames(catalog, teams) + Separator + ShortName(catalog, id)
  {
    var names := Names(catalog, teams + [id]);
    assert names[..|names| - 1] == Names(catalog, teams);
  }

  /** The text has `|teams| - 1` separators: its length is the names' total
      length plus two characters per gap. */
  lemma TeamNamesLength(catalog: seq<Character>, teams: seq<Id>)
    requires |teams| > 0
    ensures |TeamNames(catalog, teams)| == TotalLength(Names(catalog, teams)) + 2 * (|teams| - 1)
  {
    JoinLength(Names(catalog, teams), Separator);
  }

  /** An id that is not in the catalog is not skipped: it contributes an
      empty segment, so a list of `n > 0` unknown ids gives `n - 1`
      separators and nothing else. */
  lemma {:induction false} UnknownIdsGiveEmptySegments(catalog: seq<Character>, teams: seq<Id>)
    requires |teams| > 0
    requires forall x :: x in teams ==> x !in Ids(catalog)
    ensures TeamNames(catalog, teams) == Repeat(Separator, |teams| - 1)
  {
    if |teams| > 1 {
      var init := teams[..|teams| - 1];
      UnknownIdsGiveEmptySegments(catalog, init);
      assert teams == init + [teams[|teams| - 1]];
      TeamNamesAppend(catalog, init, teams[|teams| - 1]);
      RepeatSnoc(Separator, |teams| - 2);
    } else {
      assert Names(catalog, teams) == [""];
    }
  }

  /** `n` copies of `s` laid end to end. */
  function Repeat(s: string, n: nat): string
  {
    if n == 0 then "" else s + Repeat(s, n - 1)
  }

  lemma {:induction false} RepeatSnoc(s: string, n: nat)
    ensures Repeat(s, n + 1) == Repeat(s, n) + s
  {
    if n > 0 {
      RepeatSnoc(s, n - 1);
    }
  }

  /** With every generated id in the catalog, segment `i` is the short name
      of the catalog entry for `teams[i]`. */
  lemma KnownIdsGiveShortNames(catalog: seq<Character>, teams: seq<Id>, i: nat)
    requires forall x :: x in teams ==> x in Ids(catalog)
    requires i < |teams|
    ensures Find(catalog, teams[i]).Some?
    ensures Names(catalog, teams)[i] == Find(catalog, teams[i]).value.shortName
  {
  }

  /** The worked example: ids "A" and "B" with short names "Ay" and "Bo"
      give "Ay, Bo"; an unknown id alone gives "". */
  lemma ExampleExport()
    ensures TeamNames(ExampleCatalog(), ["A", "B"]) == "Ay, Bo"
    ensures TeamNames(ExampleCatalog(), ["X"]) == ""
    ensures TeamNames(ExampleCatalog(), ["A", "X"]) == "Ay, "
  {
    var c := ExampleCatalog();
    assert Names(c, ["A", "B"]) == ["Ay", "Bo"];
    assert Names(c, ["X"]) == [""];
    assert Names(c, ["A", "X"]) == ["Ay", ""];
  }

  function ExampleCatalog(): seq<Character>
  {
    [Character("A", "Ay", [], [], [], 4), Character("B", "Bo", [], [], [], 5)]
  }
}
