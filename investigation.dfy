/**
 * The investigation: the exploration loop of `explorarSalas` (a cursor over
 * the room map driven by one-letter commands, searching a room records its
 * clue in the ledger) and the accusation of `verificarSuspeitoFinal` (count
 * the recorded clues that point to the accused, ignoring case; two or more
 * solve the case).
 */
module Investigation {
  import opened CString
  import opened Wrappers
  import opened ClueLedger
  import opened ClueIndex
  import opened Mansion

  /** The exploration commands, as `tolower` leaves them. */
  const CmdLeft: CChar := 'e' as int
  const CmdRight: CChar := 'd' as int
  const CmdSearch: CChar := 'p' as int
  const CmdList: CChar := 'l' as int
  const CmdLeave: CChar := 's' as int

  /** The cursor `atual` and the ledger. */
  datatype Session = Session(at: Room, notebook: Notebook)

  /** One pass of the `switch` in `explorarSalas`, for every command but `s`. */
  function Step(s: Session, cmd: CChar): Session {
    var c := Lower(cmd);
    if c == CmdLeft then
      if s.at.left.Some? then s.(at := s.at.left.value) else s
    else if c == CmdRight then
      if s.at.right.Some? then s.(at := s.at.right.value) else s
    else if c == CmdSearch then
      if |s.at.clue| > 0 then s.(notebook := Record(s.notebook, s.at.clue)) else s
    else if c == CmdList then
      s  // only prints; what it prints is `ClueLedger.Listing(s.notebook.tree)`
    else
      s  // an unknown command changes nothing
  }

  /** What each command does to the session. */
  lemma StepSpec(s: Session, cmd: CChar)
    ensures Step(s, cmd) == Step(s, Lower(cmd))
    ensures Lower(cmd) == CmdLeft ==>
              Step(s, cmd) == Session(if s.at.left.Some? then s.at.left.value else s.at, s.notebook)
    ensures Lower(cmd) == CmdRight ==>
              Step(s, cmd) == Session(if s.at.right.Some? then s.at.right.value else s.at, s.notebook)
    ensures Lower(cmd) == CmdSearch ==>
              Step(s, cmd) == Session(s.at, if |s.at.clue| > 0 then Record(s.notebook, s.at.clue) else s.notebook)
    ensures Lower(cmd) == CmdList ==> Step(s, cmd) == s
    ensures Lower(cmd) !in {CmdLeft, CmdRight, CmdSearch} ==> Step(s, cmd) == s
  {
  }

  /** Where `explorarSalas` stops: the final session, how many commands it
      read and whether it read `s` (otherwise the input ran out). */
  datatype Outcome = Outcome(session: Session, consumed: nat, leaving: bool)

  /** `explorarSalas` over a command stream: apply the commands in order
      until `s` (either case). */
  function Explore(s: Session, cmds: seq<CChar>): (r: Outcome)
    ensures r.consumed <= |cmds|
    ensures r.leaving ==> r.consumed > 0 && Lower(cmds[r.consumed - 1]) == CmdLeave
    ensures !r.leaving ==> r.consumed == |cmds|
    ensures forall i :: 0 <= i < r.consumed - (if r.leaving then 1 else 0) ==> Lower(cmds[i]) != CmdLeave
    decreases |cmds|
  {
    if cmds == [] then Outcome(s, 0, false)
    else if Lower(cmds[0]) == CmdLeave then Outcome(s, 1, true)
    else
      var r := Explore(Step(s, cmds[0]), cmds[1..]);
      assert forall i :: 1 <= i < |cmds| ==> cmds[i] == cmds[1..][i - 1];
      r.(consumed := r.consumed + 1)
  }

  /** A command other than `s` is applied, then exploration goes on. */
  lemma ExploreCons(s: Session, cmd: CChar, rest: seq<CChar>)
    requires Lower(cmd) != CmdLeave
    ensures Explore(s, [cmd] + rest) == Explore(Step(s, cmd), rest).(consumed := Explore(Step(s, cmd), rest).consumed + 1)
  {
    assert ([cmd] + rest)[1..] == rest;
  }

  /** Exploration goes on across a stretch of input with no `s`: reading
      `a` and then `b` ends where reading `b` from the end of `a` does, and
      `a` is read whole. */
  lemma {:induction false} ExploreAppend(s: Session, a: seq<CChar>, b: seq<CChar>)
    requires forall i :: 0 <= i < |a| ==> Lower(a[i]) != CmdLeave
    ensures var r, ra := Explore(s, a + b), Explore(s, a);
      && !ra.leaving && ra.consumed == |a|
      && r.session == Explore(ra.session, b).session
      && r.consumed == |a| + Explore(ra.session, b).consumed
      && r.leaving == Explore(ra.session, b).leaving
    decreases |a|
  {
    if a != [] {
      assert (a + b)[0] == a[0];
      assert (a + b)[1..] == a[1..] + b;
      ExploreAppend(Step(s, a[0]), a[1..], b);
    } else {
      assert a + b == b;
    }
  }

  /** `recorded` starts with `prefix`. */
  ghost predicate IsPrefix(prefix: seq<CStr>, s: seq<CStr>) {
    |prefix| <= |s| && s[..|prefix|] == prefix
  }

  /** The session facts exploration keeps, relative to the map `root` and
      the ledger `start` it began with: the cursor inside the map, the
      ledger consistent, only grown, and only by clues of the map's rooms. */
  ghost predicate Keeps(root: Room, start: Notebook, s: Session) {
    && Within(root, s.at)
    && Consistent(s.notebook)
    && Elems(start.tree) <= Elems(s.notebook.tree) <= Elems(start.tree) + Clues(root)
    && IsPrefix(start.recorded, s.notebook.recorded)
  }

  lemma StepKeeps(root: Room, start: Notebook, s: Session, cmd: CChar)
    requires Keeps(root, start, s)
    ensures Keeps(root, start, Step(s, cmd))
  {
    var c := Lower(cmd);
    if c == CmdLeft || c == CmdRight {
      ChildWithin(root, s.at);
    } else if c == CmdSearch && |s.at.clue| > 0 {
      var nb, nb' := s.notebook, Record(s.notebook, s.at.clue);
      WithinClue(root, s.at);
      RecordKeepsConsistent(nb, s.at.clue);
      RecordGrows(nb, s.at.clue);
      assert nb'.recorded[..|start.recorded|] == nb.recorded[..|start.recorded|];
    }
  }

  lemma {:induction false} ExploreKeeps(root: Room, start: Notebook, s: Session, cmds: seq<CChar>)
    requires Keeps(root, start, s)
    ensures Keeps(root, start, Explore(s, cmds).session)
    decreases |cmds|
  {
    if cmds != [] && Lower(cmds[0]) != CmdLeave {
      StepKeeps(root, start, s, cmds[0]);
      ExploreKeeps(root, start, Step(s, cmds[0]), cmds[1..]);
    }
  }

  /** Exploration from a room of the map with a consistent ledger keeps the
      cursor inside the map and the ledger consistent; the ledger only grows,
      and only by clues of the map's rooms. */
  lemma ExploreInvariant(root: Room, s: Session, cmds: seq<CChar>)
    requires Within(root, s.at) && Consistent(s.notebook)
    ensures var r := Explore(s, cmds).session;
      && Within(root, r.at)
      && Consistent(r.notebook)
      && Elems(s.notebook.tree) <= Elems(r.notebook.tree) <= Elems(s.notebook.tree) + Clues(root)
      && IsPrefix(s.notebook.recorded, r.notebook.recorded)
  {
    assert s.notebook.recorded[..|s.notebook.recorded|] == s.notebook.recorded;
    ExploreKeeps(root, s.notebook, s, cmds);
  }

  /** `explorarSalas` on the global ledger: the cursor starts at `root`;
      returns where it stopped, how many commands it read and whether it
      read `s`. */
  method ExploreRooms(root: Room, ledger: Ledger, cmds: seq<CChar>)
      returns (at: Room, consumed: nat, leaving: bool)
    requires ledger.Valid()
    modifies ledger`tree, ledger`count, ledger.found
    ensures ledger.Valid()
    ensures Outcome(Session(at, ledger.State()), consumed, leaving)
         == Explore(Session(root, old(ledger.State())), cmds)
  {
    at := root;
    var i := 0;
    while i < |cmds|
      invariant 0 <= i <= |cmds|
      invariant ledger.Valid() && ledger.found == old(ledger.found)
      invariant var r := Explore(Session(at, ledger.State()), cmds[i..]);
        Explore(Session(root, old(ledger.State())), cmds) == r.(consumed := r.consumed + i)
    {
      assert cmds[i..][1..] == cmds[i + 1..];
      var c := Lower(cmds[i]);
      if c == CmdLeave {
        return at, i + 1, true;
      }
      if c == CmdLeft {
        if at.left.Some? {
          at := at.left.value;
        }
      } else if c == CmdRight {
        if at.right.Some? {
          at := at.right.value;
        }
      } else if c == CmdSearch {
        if |at.clue| > 0 {
          ledger.Insert(at.clue);
        }
      }
      i := i + 1;
    }
    return at, i, false;
  }

  /** The number of recorded clues whose suspect equals the accused name,
      ignoring case: `contador`. */
  function Tally(recorded: seq<CStr>, t: Table, accused: CStr): (n: nat)
    ensures n <= |recorded|
  {
    if recorded == [] then 0
    else
      var last := recorded[|recorded| - 1];
      Tally(recorded[..|recorded| - 1], t, accused)
        + (if StrCaseCmp(SuspectOf(t, last), accused) == 0 then 1 else 0)
  }

  /** The suspect `clue` resolves to is the accused, ignoring case. */
  ghost predicate PointsTo(t: Table, clue: CStr, accused: CStr) {
    SameIgnoringCase(SuspectOf(t, clue), accused)
  }

  /** The positions of the recorded clues that point to the accused. */
  ghost function Matching(recorded: seq<CStr>, t: Table, accused: CStr): set<nat> {
    set i: nat | i < |recorded| && PointsTo(t, recorded[i], accused)
  }

  /** The tally counts exactly the recorded clues that point to the accused. */
  lemma {:induction false} TallyCountsMatches(recorded: seq<CStr>, t: Table, accused: CStr)
    ensures Tally(recorded, t, accused) == |Matching(recorded, t, accused)|
  {
    if recorded != [] {
      var n := |recorded| - 1;
      var prefix := recorded[..n];
      TallyCountsMatches(prefix, t, accused);
      var before, after := Matching(prefix, t, accused), Matching(recorded, t, accused);
      var hit := PointsTo(t, recorded[n], accused);
      assert Tally(recorded, t, accused) == |before| + (if hit then 1 else 0);
      MatchingStep(recorded, t, accused);
      if hit {
        assert after == before + {n};
        assert n !in before;
      } else {
        assert after == before;
      }
    }
  }

  lemma MatchingStep(recorded: seq<CStr>, t: Table, accused: CStr)
    requires recorded != []
    ensures var n := |recorded| - 1;
      Matching(recorded, t, accused)
        == Matching(recorded[..n], t, accused) + (if PointsTo(t, recorded[n], accused) then {n} else {})
  {
    var n := |recorded| - 1;
    var before, after := Matching(recorded[..n], t, accused), Matching(recorded, t, accused);
    var extra: set<nat> := if PointsTo(t, recorded[n], accused) then {n} else {};
    forall i: nat | i in after ensures i in before + extra {
      if i < n {
        assert recorded[..n][i] == recorded[i];
      }
    }
    forall i: nat | i in before + extra ensures i in after {
      if i < n {
        assert recorded[..n][i] == recorded[i];
      }
    }
  }

  /** The outcome of an accusation. */
  datatype Verdict =
    | Refused               // no clue recorded yet: no accusation possible
    | Unsupported(tally: nat)  // fewer than two clues point to the accused
    | Solved(tally: nat)       // at least two do

  /** `verificarSuspeitoFinal`'s verdict on the recorded clues. */
  function Judge(recorded: seq<CStr>, t: Table, accused: CStr): (v: Verdict)
    ensures v.Refused? <==> recorded == []
    ensures !v.Refused? ==> v.tally <= |recorded|
  {
    if recorded == [] then Refused
    else
      var n := Tally(recorded, t, accused);
      if n >= 2 then Solved(n) else Unsupported(n)
  }

  /** The case is solved exactly when at least two recorded clues point to
      the accused; the verdict carries their number. */
  lemma JudgeSolvedIff(recorded: seq<CStr>, t: Table, accused: CStr)
    ensures Judge(recorded, t, accused).Solved? <==> |Matching(recorded, t, accused)| >= 2
    ensures !Judge(recorded, t, accused).Refused? ==>
              Judge(recorded, t, accused).tally == |Matching(recorded, t, accused)|
  {
    TallyCountsMatches(recorded, t, accused);
  }

  /** `verificarSuspeitoFinal` on the global ledger and index, with the
      accused name as input. */
  method Accuse(ledger: Ledger, index: Index, accused: CStr) returns (v: Verdict)
    requires ledger.Valid() && index.Valid()
    ensures v == Judge(ledger.State().recorded, index.Contents(), accused)
  {
    if ledger.count == 0 {
      return Refused;
    }
    ghost var recorded := ledger.State().recorded;
    var tally := 0;
    for i := 0 to ledger.count
      invariant tally == Tally(recorded[..i], index.Contents(), accused)
    {
      assert recorded[..i + 1][..i] == recorded[..i];
      var suspect := index.Lookup(ledger.found[i]);
      if StrCaseCmp(suspect, accused) == 0 {
        tally := tally + 1;
      }
    }
    assert recorded[..ledger.count] == recorded;
    if tally >= 2 {
      v := Solved(tally);
    } else {
      v := Unsupported(tally);
    }
  }
}
