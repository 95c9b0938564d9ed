/**
 * The game as `main` sets it up: the fixed map, an empty ledger and the
 * filled clue index; and walks through it end to end.
 */
module Game {
  import opened CString
  import opened Wrappers
  import opened ClueLedger
  import opened ClueIndex
  import opened Mansion
  import opened MansionFacts
  import opened Investigation

  /** The start of `main`: the map is built, the ledger is empty and the
      clue index holds the seven pairs. */
  method SetUp() returns (root: Room, ledger: Ledger, index: Index)
    ensures root == MansionMap()
    ensures fresh(ledger) && fresh(ledger.found) && ledger.Valid() && ledger.State() == EmptyNotebook
    ensures fresh(index) && fresh(index.buckets) && index.Valid() && index.Contents() == InitialIndex()
  {
    root := MansionMap();
    ledger := new Ledger();
    index := FillIndex(ClueSuspects);
  }

  /** Exploration as it begins: at the hall, nothing collected. */
  function Start(): Session {
    Session(MansionMap(), EmptyNotebook)
  }

  /** "MARIA SANTOS" */
  const MariaUpper: CStr := [77, 65, 82, 73, 65, 32, 83, 65, 78, 84, 79, 83]

  lemma SearchHallStep()
    ensures Step(Start(), CmdSearch).notebook.recorded == [HallClue]
  {
  }

  /** Searching the hall records "Uma carta rasgada com a letra 'J'", which
      points to João Silva. */
  lemma SearchHall()
    ensures Explore(Start(), [CmdSearch]).session.notebook.recorded == [HallClue]
    ensures SuspectOf(InitialIndex(), HallClue) == Joao
  {
    ExploreCons(Start(), CmdSearch, []);
    SearchHallStep();
    SuspectsOfClues();
  }

  lemma RightSteps()
    ensures Step(Start(), CmdRight).at.name == DiningName
    ensures Step(Step(Start(), CmdRight), CmdRight).at.name == GardenName
    ensures Step(Step(Start(), CmdRight), CmdSearch).notebook.recorded == [DiningClue]
  {
  }

  /** One move right from the hall reaches the dining room, whose clue points
      to Carlos Lima; a second move right reaches the winter garden. */
  lemma RightFromHall()
    ensures Explore(Start(), [CmdRight]).session.at.name == DiningName
    ensures Explore(Start(), [CmdRight, CmdSearch]).session.notebook.recorded == [DiningClue]
    ensures Explore(Start(), [CmdRight, CmdRight]).session.at.name == GardenName
    ensures SuspectOf(InitialIndex(), DiningClue) == Carlos
  {
    var s1 := Step(Start(), CmdRight);
    RightSteps();
    ExploreCons(Start(), CmdRight, []);
    ExploreCons(Start(), CmdRight, [CmdSearch]);
    ExploreCons(s1, CmdSearch, []);
    ExploreCons(Start(), CmdRight, [CmdRight]);
    ExploreCons(s1, CmdRight, []);
    SuspectsOfClues();
  }

  lemma MariaSteps()
    ensures var s2 := Step(Step(Start(), CmdLeft), CmdSearch);
      s2.notebook == Notebook(Node(Leaf, LibraryClue, Leaf), [LibraryClue])
    ensures var s3 := Step(Step(Step(Start(), CmdLeft), CmdSearch), CmdRight);
      s3.at.clue == GuestClue && s3.notebook.recorded == [LibraryClue]
  {
  }

  lemma GuestSortsBeforeLibrary()
    ensures StrCmp(GuestClue, LibraryClue) < 0
  {
    assert GuestClue[3] == 98 && LibraryClue[3] == 108;
    assert forall j :: 0 <= j < 3 ==> GuestClue[j] == LibraryClue[j];
    assert LessAt(GuestClue, LibraryClue, 3);
  }

  lemma MariaLastStep(s3: Session)
    requires s3.at.clue == GuestClue
    requires s3.notebook == Notebook(Node(Leaf, LibraryClue, Leaf), [LibraryClue])
    ensures Step(s3, CmdSearch).notebook.recorded == [LibraryClue, GuestClue]
  {
    GuestSortsBeforeLibrary();
  }

  /** Left to the library, search, right to the guest room, search, leave. */
  const MariaRoute: seq<CChar> := [CmdLeft, CmdSearch, CmdRight, CmdSearch, CmdLeave]

  /** Along that route both of Maria Santos's clues are recorded, in
      discovery order, and all five commands are read. */
  lemma CollectBothMariaClues()
    ensures Explore(Start(), MariaRoute).session.notebook.recorded == [LibraryClue, GuestClue]
    ensures Explore(Start(), MariaRoute).consumed == 5
    ensures Explore(Start(), MariaRoute).leaving
  {
    var s1 := Step(Start(), CmdLeft);
    var s2 := Step(s1, CmdSearch);
    var s3 := Step(s2, CmdRight);
    MariaSteps();
    MariaLastStep(s3);
    ExploreCons(Start(), CmdLeft, [CmdSearch, CmdRight, CmdSearch, CmdLeave]);
    ExploreCons(s1, CmdSearch, [CmdRight, CmdSearch, CmdLeave]);
    ExploreCons(s2, CmdRight, [CmdSearch, CmdLeave]);
    ExploreCons(s3, CmdSearch, [CmdLeave]);
    assert [CmdLeft] + [CmdSearch, CmdRight, CmdSearch, CmdLeave] == MariaRoute;
  }

  /** The tally over two recorded clues. */
  lemma TallyOfTwo(c1: CStr, c2: CStr, t: Table, accused: CStr)
    ensures Tally([c1, c2], t, accused)
         == (if StrCaseCmp(SuspectOf(t, c1), accused) == 0 then 1 else 0)
          + (if StrCaseCmp(SuspectOf(t, c2), accused) == 0 then 1 else 0)
  {
    assert [c1, c2][..1] == [c1];
    assert [c1][..0] == [];
  }

  /** "MARIA SANTOS" is "Maria Santos" up to ASCII case. */
  lemma MariaUpperSameIgnoringCase()
    ensures SameIgnoringCase(Maria, MariaUpper)
  {
  }

  lemma TallyForMaria()
    ensures Tally([LibraryClue, GuestClue], InitialIndex(), Maria) == 2
  {
    SuspectsOfClues();
    TallyOfTwo(LibraryClue, GuestClue, InitialIndex(), Maria);
  }

  lemma TallyForMariaUpper()
    ensures Tally([LibraryClue, GuestClue], InitialIndex(), MariaUpper) == 2
  {
    SuspectsOfClues();
    MariaUpperSameIgnoringCase();
    TallyOfTwo(LibraryClue, GuestClue, InitialIndex(), MariaUpper);
  }

  lemma TallyForCarlos()
    ensures Tally([LibraryClue, GuestClue], InitialIndex(), Carlos) == 0
  {
    SuspectsOfClues();
    TallyOfTwo(LibraryClue, GuestClue, InitialIndex(), Carlos);
  }

  /** With both of Maria Santos's clues, accusing her, in any ASCII case,
      solves the case with a tally of two; accusing Carlos Lima does not. */
  lemma AccuseMariaSolves()
    ensures Judge([LibraryClue, GuestClue], InitialIndex(), Maria) == Solved(2)
    ensures Judge([LibraryClue, GuestClue], InitialIndex(), MariaUpper) == Solved(2)
    ensures Judge([LibraryClue, GuestClue], InitialIndex(), Carlos) == Unsupported(0)
  {
    TallyForMaria();
    TallyForMariaUpper();
    TallyForCarlos();
  }

  /** One clue is never enough: the accusation is unsupported. */
  lemma SingleClueUnsupported()
    ensures Judge([HallClue], InitialIndex(), Joao) == Unsupported(1)
  {
    SuspectsOfClues();
    assert Tally([HallClue], InitialIndex(), Joao) == 1;
  }

  /** An accusation made before any search, right after `main`'s set-up, is
      refused whoever is accused. */
  method NoCluesRefused(accused: CStr) returns (v: Verdict)
    ensures v == Refused
  {
    var root, ledger, index := SetUp();
    v := Accuse(ledger, index, accused);
  }

  lemma StudySteps()
    ensures var s2 := Step(Step(Start(), CmdLeft), CmdLeft);
      s2.at.name == StudyName && s2.at.left.None? && s2.at.right.None? && s2.notebook == EmptyNotebook
  {
  }

  /** The study has no doors: moves from it leave the cursor there, and a
      search then records the study's own clue. */
  lemma StudyIsDeadEnd()
    ensures var r := Explore(Start(), [CmdLeft, CmdLeft, CmdLeft, CmdRight, CmdSearch]).session;
      r.at.name == StudyName && r.notebook.recorded == [StudyClue]
  {
    var s1 := Step(Start(), CmdLeft);
    var s2 := Step(s1, CmdLeft);
    StudySteps();
    assert Step(s2, CmdLeft) == s2;
    assert Step(s2, CmdRight) == s2;
    ExploreCons(Start(), CmdLeft, [CmdLeft, CmdLeft, CmdRight, CmdSearch]);
    ExploreCons(s1, CmdLeft, [CmdLeft, CmdRight, CmdSearch]);
    ExploreCons(s2, CmdLeft, [CmdRight, CmdSearch]);
    ExploreCons(s2, CmdRight, [CmdSearch]);
    ExploreCons(s2, CmdSearch, []);
    assert [CmdLeft] + [CmdLeft, CmdLeft, CmdRight, CmdSearch] == [CmdLeft, CmdLeft, CmdLeft, CmdRight, CmdSearch];
  }

  /** `s` or `S` ends exploration at once, before any later command. */
  lemma LeaveStopsExploration(s: Session, cmds: seq<CChar>)
    ensures Explore(s, [CmdLeave] + cmds) == Outcome(s, 1, true)
    ensures Explore(s, ['S' as int] + cmds) == Outcome(s, 1, true)
  {
  }

  /** The whole game on the imperative model: set up, explore library and
      guest room, leave, accuse Maria Santos. */
  method PlayMariaSantos() returns (v: Verdict)
    ensures v == Solved(2)
  {
    var root, ledger, index := SetUp();
    var at, consumed, leaving := ExploreRooms(root, ledger, MariaRoute);
    CollectBothMariaClues();
    assert ledger.State().recorded == [LibraryClue, GuestClue];
    v := Accuse(ledger, index, Maria);
    AccuseMariaSolves();
  }
}
