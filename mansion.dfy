/**
 * The mansion: the fixed binary tree of rooms that `main` builds with
 * `criarSala`, and the fixed clue-to-suspect pairs it feeds to
 * `inserirNaHash`. All strings are the UTF-8 bytes of the program's literals.
 */
module Mansion {
  import opened CString
  import opened Wrappers
  import opened ClueIndex

  /** A `Sala`: a name, the clue found there (possibly empty) and the two
      optional doors. */
  datatype Room = Room(name: CStr, clue: CStr, left: Option<Room>, right: Option<Room>)

  /** `criarSala`: a room with no doors yet. */
  function CreateRoom(name: CStr, clue: CStr): Room {
    Room(name, clue, None, None)
  }

  /** `r` is `root` or a room below it. */
  predicate Within(root: Room, r: Room)
    decreases root
  {
    || r == root
    || (root.left.Some? && Within(root.left.value, r))
    || (root.right.Some? && Within(root.right.value, r))
  }

  /** The clues of all rooms of a map. */
  function Clues(root: Room): (s: set<CStr>)
    ensures root.clue in s
    decreases root
  {
    {root.clue}
    + (if root.left.Some? then Clues(root.left.value) else {})
    + (if root.right.Some? then Clues(root.right.value) else {})
  }

  /** The clue of every room within a map is one of the map's clues. */
  lemma {:induction false} WithinClue(root: Room, r: Room)
    requires Within(root, r)
    ensures r.clue in Clues(root)
    decreases root
  {
    if r != root {
      if root.left.Some? && Within(root.left.value, r) {
        WithinClue(root.left.value, r);
      } else {
        WithinClue(root.right.value, r);
      }
    }
  }

  /** A door leads to a room within the same map. */
  lemma ChildWithin(root: Room, r: Room)
    requires Within(root, r)
    ensures r.left.Some? ==> Within(root, r.left.value)
    ensures r.right.Some? ==> Within(root, r.right.value)
    decreases root
  {
    if r != root {
      if root.left.Some? && Within(root.left.value, r) {
        ChildWithin(root.left.value, r);
      } else {
        ChildWithin(root.right.value, r);
      }
    }
  }

  /** "Hall Principal" */
  const HallName: CStr := [72, 97, 108, 108, 32, 80, 114, 105, 110, 99, 105, 112, 97, 108]

  /** "Uma carta rasgada com a letra 'J'" */
  const HallClue: CStr := [85, 109, 97, 32, 99, 97, 114, 116, 97, 32, 114, 97, 115, 103, 97, 100, 97, 32, 99, 111, 109, 32, 97, 32, 108, 101, 116, 114, 97, 32, 39, 74, 39]

  /** "Biblioteca" */
  const LibraryName: CStr := [66, 105, 98, 108, 105, 111, 116, 101, 99, 97]

  /** "Um livro sobre venenos com a página 47 marcada" */
  const LibraryClue: CStr := [85, 109, 32, 108, 105, 118, 114, 111, 32, 115, 111, 98, 114, 101, 32, 118, 101, 110, 101, 110, 111, 115, 32, 99, 111, 109, 32, 97, 32, 112, 195, 161, 103, 105, 110, 97, 32, 52, 55, 32, 109, 97, 114, 99, 97, 100, 97]

  /** "Sala de Jantar" */
  const DiningName: CStr := [83, 97, 108, 97, 32, 100, 101, 32, 74, 97, 110, 116, 97, 114]

  /** "Um copo de vinho com resíduos estranhos" */
  const DiningClue: CStr := [85, 109, 32, 99, 111, 112, 111, 32, 100, 101, 32, 118, 105, 110, 104, 111, 32, 99, 111, 109, 32, 114, 101, 115, 195, 173, 100, 117, 111, 115, 32, 101, 115, 116, 114, 97, 110, 104, 111, 115]

  /** "Escritório" */
  const StudyName: CStr := [69, 115, 99, 114, 105, 116, 195, 179, 114, 105, 111]

  /** "Extratos bancários com transferências suspeitas" */
  const StudyClue: CStr := [69, 120, 116, 114, 97, 116, 111, 115, 32, 98, 97, 110, 99, 195, 161, 114, 105, 111, 115, 32, 99, 111, 109, 32, 116, 114, 97, 110, 115, 102, 101, 114, 195, 170, 110, 99, 105, 97, 115, 32, 115, 117, 115, 112, 101, 105, 116, 97, 115]

  /** "Quarto de Hóspedes" */
  const GuestName: CStr := [81, 117, 97, 114, 116, 111, 32, 100, 101, 32, 72, 195, 179, 115, 112, 101, 100, 101, 115]

  /** "Um bilhete com a assinatura 'M'" */
  const GuestClue: CStr := [85, 109, 32, 98, 105, 108, 104, 101, 116, 101, 32, 99, 111, 109, 32, 97, 32, 97, 115, 115, 105, 110, 97, 116, 117, 114, 97, 32, 39, 77, 39]

  /** "Cozinha" */
  const KitchenName: CStr := [67, 111, 122, 105, 110, 104, 97]

  /** "Uma faca manchada encontrada na pia" */
  const KitchenClue: CStr := [85, 109, 97, 32, 102, 97, 99, 97, 32, 109, 97, 110, 99, 104, 97, 100, 97, 32, 101, 110, 99, 111, 110, 116, 114, 97, 100, 97, 32, 110, 97, 32, 112, 105, 97]

  /** "Jardim de Inverno" */
  const GardenName: CStr := [74, 97, 114, 100, 105, 109, 32, 100, 101, 32, 73, 110, 118, 101, 114, 110, 111]

  /** "Pegadas de barro levando à saída" */
  const GardenClue: CStr := [80, 101, 103, 97, 100, 97, 115, 32, 100, 101, 32, 98, 97, 114, 114, 111, 32, 108, 101, 118, 97, 110, 100, 111, 32, 195, 160, 32, 115, 97, 195, 173, 100, 97]

  /** The map `main` builds: the hall, with the library (study and guest
      room below it) on the left and the dining room (kitchen and winter
      garden below it) on the right. */
  function MansionMap(): Room {
    var study := CreateRoom(StudyName, StudyClue);
    var guest := CreateRoom(GuestName, GuestClue);
    var kitchen := CreateRoom(KitchenName, KitchenClue);
    var garden := CreateRoom(GardenName, GardenClue);
    var library := CreateRoom(LibraryName, LibraryClue).(left := Some(study), right := Some(guest));
    var dining := CreateRoom(DiningName, DiningClue).(left := Some(kitchen), right := Some(garden));
    CreateRoom(HallName, HallClue).(left := Some(library), right := Some(dining))
  }

  /** "João Silva" */
  const Joao: CStr := [74, 111, 195, 163, 111, 32, 83, 105, 108, 118, 97]

  /** "Maria Santos" */
  const Maria: CStr := [77, 97, 114, 105, 97, 32, 83, 97, 110, 116, 111, 115]

  /** "Carlos Lima" */
  const Carlos: CStr := [67, 97, 114, 108, 111, 115, 32, 76, 105, 109, 97]

  /** "Ana Costa" */
  const Ana: CStr := [65, 110, 97, 32, 67, 111, 115, 116, 97]

  /** "Pedro Alves" */
  const Pedro: CStr := [80, 101, 100, 114, 111, 32, 65, 108, 118, 101, 115]

  /** The clues hidden in the seven rooms. */
  const MapClues: set<CStr> :=
    {HallClue, LibraryClue, DiningClue, StudyClue, GuestClue, KitchenClue, GardenClue}

  /** The pairs `main` inserts into the clue index, in order. */
  const ClueSuspects: seq<Entry> := [
    Entry(HallClue, Joao),
    Entry(LibraryClue, Maria),
    Entry(DiningClue, Carlos),
    Entry(StudyClue, Ana),
    Entry(GuestClue, Maria),
    Entry(KitchenClue, Pedro),
    Entry(GardenClue, Pedro)
  ]

  /** The clue index once `main` has filled it. */
  function InitialIndex(): Table {
    BuildIndex(ClueSuspects)
  }
}

module MansionFacts {
  import opened CString
  import opened Wrappers
  import opened ClueIndex
  import opened Mansion

  /** The shape of the map: seven rooms, every one with a non-empty clue,
      the four rooms on the bottom level without doors. */
  lemma MansionLayout()
    ensures MansionMap().name == HallName
    ensures MansionMap().left.Some? && MansionMap().left.value.name == LibraryName
    ensures MansionMap().right.Some? && MansionMap().right.value.name == DiningName
    ensures Clues(MansionMap()) == MapClues
    ensures forall c :: c in Clues(MansionMap()) ==> |c| > 0
    ensures forall r :: Within(MansionMap(), r) && r.name == StudyName ==> r.left.None? && r.right.None?
  {
  }

  /** Each of the seven pairs resolves to its own suspect: no later pair
      reuses a clue. */
  lemma IndexResolvesEveryPair(i: nat)
    requires i < |ClueSuspects|
    ensures SuspectOf(InitialIndex(), ClueSuspects[i].clue) == ClueSuspects[i].suspect
  {
    FindLastPut(ClueSuspects, i);
  }

  /** The suspect each clue of the map points to. */
  lemma SuspectsOfClues()
    ensures SuspectOf(InitialIndex(), HallClue) == Joao
    ensures SuspectOf(InitialIndex(), LibraryClue) == Maria
    ensures SuspectOf(InitialIndex(), DiningClue) == Carlos
    ensures SuspectOf(InitialIndex(), StudyClue) == Ana
    ensures SuspectOf(InitialIndex(), GuestClue) == Maria
    ensures SuspectOf(InitialIndex(), KitchenClue) == Pedro
    ensures SuspectOf(InitialIndex(), GardenClue) == Pedro
  {
    IndexResolvesEveryPair(0);
    IndexResolvesEveryPair(1);
    IndexResolvesEveryPair(2);
    IndexResolvesEveryPair(3);
    IndexResolvesEveryPair(4);
    IndexResolvesEveryPair(5);
    IndexResolvesEveryPair(6);
  }

  /** Every clue of the map points to one of the five suspects named in the
      accusation phase, never to "Desconhecido". */
  lemma EveryClueHasSuspect(c: CStr)
    requires c in {HallClue, LibraryClue, DiningClue, StudyClue, GuestClue, KitchenClue, GardenClue}
    ensures SuspectOf(InitialIndex(), c) in {Joao, Maria, Carlos, Ana, Pedro}
  {
    SuspectsOfClues();
    var s := SuspectOf(InitialIndex(), c);
    if c == HallClue || c == LibraryClue || c == DiningClue || c == StudyClue {
      assert s == Joao || s == Maria || s == Carlos || s == Ana;
    } else {
      assert c == GuestClue || c == KitchenClue || c == GardenClue;
      assert s == Maria || s == Pedro;
    }
  }

  /** So does the clue of every room a cursor can stand on. */
  lemma EveryRoomClueHasSuspect(r: Room)
    requires Within(MansionMap(), r)
    ensures SuspectOf(InitialIndex(), r.clue) in {Joao, Maria, Carlos, Ana, Pedro}
  {
    WithinClue(MansionMap(), r);
    MansionLayout();
    EveryClueHasSuspect(r.clue);
  }

  /** Distinct clues that land in one bucket both stay resolvable to their
      own suspects, the later one at the head of the chain. With codes read
      as unsigned bytes, six clues of the map share buckets in pairs: the
      hall and study clues (bucket 3), the dining-room and guest-room clues
      (bucket 1), the kitchen and garden clues (bucket 5); the library clue
      is alone in bucket 0. With a signed `char` the bytes above 127 count
      negatively and the library, dining-room, study and garden clues land in other
      buckets; the bucket numbers depend on that reading. */
  lemma ChainingResolvesCollisions(k1: CStr, k2: CStr, v1: CStr, v2: CStr, t: Table)
    requires k1 != k2 && Hash(k1) == Hash(k2)
    ensures Find(Put(Put(t, k1, v1), k2, v2), k1) == Some(v1)
    ensures Find(Put(Put(t, k1, v1), k2, v2), k2) == Some(v2)
    ensures Put(Put(t, k1, v1), k2, v2)[Hash(k1)][..2] == [Entry(k2, v2), Entry(k1, v1)]
  {
    FindAfterPut(Put(t, k1, v1), k2, v2, k1);
    FindAfterPut(t, k1, v1, k1);
    FindAfterPut(Put(t, k1, v1), k2, v2, k2);
  }
}
