# Detective Quest: a verified model of the game core

Detective Quest is a console game in C (`algoritmos_avancados.c`). The player walks a fixed
binary tree of seven rooms, searches rooms for clues, and collects them in a ledger. Each clue
is resolved to a suspect through a hash table. The player wins by accusing a suspect that at
least two collected clues point to. This project models the game's three data structures and
its scoring rule in Dafny, and proves their properties:

- **Strings** (`cstring.dfy`, module `CString`). C strings are sequences of non-NUL bytes.
  `StrCmp` is `strcmp` (ISO C11 section 7.24.4.2, bytes compared as `unsigned char`). It is
  proved to agree with an independent definition of byte-wise lexicographic order, `Less`, and
  `Less` is proved to be a strict total order. `StrCaseCmp` is `strcasecmp` with ASCII case
  folding.
- **Clue ledger** (`clue_ledger.dfy`, module `ClueLedger`). The fields of class `Ledger` are the
  globals `bstPistas`, `pistasEncontradas` and `pistasColetadas`. The tree is a `Tree` datatype.
  `Ledger.Insert` is `inserirPistaBST`: it runs the source's descent loop, adds a node, and
  records the clue in the 20-slot discovery array if a slot is free. `Notebook` and `Record` are
  the same operation on values, and the invariant `Consistent` holds across any sequence of
  insertions.
- **Clue index** (`clue_index.dfy`, module `ClueIndex`). Class `Index` wraps `tabelaHash`, an
  array of 10 bucket chains. It provides `hash`, `inserirNaHash` (push on the front of a chain)
  and `encontrarSuspeito` (first match in one chain, otherwise "Desconhecido"). The matching
  value-level functions are `Hash`, `Put`, `Find` and `SuspectOf`.
- **Mansion** (`mansion.dfy`, modules `Mansion` and `MansionFacts`). The `Room` datatype and
  `criarSala`, the fixed map and the seven clue/suspect pairs built in `main`, and facts about
  this fixed data.
- **Investigation** (`investigation.dfy`, module `Investigation`). `explorarSalas` is modelled
  two ways: as the function `Explore` over a stream of commands, and as the method
  `ExploreRooms` on the ledger object. `verificarSuspeitoFinal` is modelled as `Judge` and
  `Tally`, and as the method `Accuse`.
- **Game** (`game.dfy`, module `Game`). The setup done by `main`, plus end-to-end scenarios on
  the real map and clue table.

Three facts about the fixed data, each proved on the model:

- All seven rooms created at algoritmos_avancados.c:286-292 hold a non-empty clue
  (`MansionLayout`), so every search of a room records a clue.
- One move right from the hall reaches "Sala de Jantar", and a second reaches "Jardim de
  Inverno" (algoritmos_avancados.c:292; `RightFromHall`).
- The "not found" sentinel of the clue index is "Desconhecido" (algoritmos_avancados.c:120;
  `FindNeverPut`).

The discovery array keeps the source's cap of 20 entries. After 20 clues the array stops
growing but the tree keeps growing. `Consistent` states this exactly: the number of recorded
clues is the smaller of the tree's size and 20. The fixed map has only seven clues, so the cap
is never reached in the game itself.

## Model

| member | source | states |
|---|---|---|
| `CString.StrCmp` | algoritmos_avancados.c:76-83 | the result is 0 exactly for equal strings; it is negative exactly when `a` sorts before `b` in byte-wise lexicographic order, and positive exactly when `b` sorts before `a` |
| `CString.LessIsStrictTotalOrder` | algoritmos_avancados.c:76-83 | the `strcmp` order is irreflexive and asymmetric, and any two distinct strings are comparable |
| `CString.LessTransitive` | algoritmos_avancados.c:76-83 | the `strcmp` order is transitive |
| `CString.StrCaseCmp` | algoritmos_avancados.c:232 | `strcasecmp` is 0 exactly when the strings have the same length and agree byte by byte after ASCII lower-casing |
| `ClueLedger.Contains` | algoritmos_avancados.c:73-84 | on a search tree, the `strcmp`-guided descent finds a node exactly when the clue is in the tree |
| `ClueLedger.TreeInsert` | algoritmos_avancados.c:72-90 | the new tree holds the old clues plus the new one; it is still a search tree; if the clue was present, the tree is unchanged |
| `ClueLedger.InsertIdempotent` | algoritmos_avancados.c:81-82 | inserting the same clue a second time has no effect |
| `ClueLedger.InOrder` | algoritmos_avancados.c:191-197 | the in-order listing holds exactly the tree's clues |
| `ClueLedger.InOrderSorted` | algoritmos_avancados.c:191-197 | the in-order listing of a search tree is strictly increasing under `strcmp`, so it has no duplicates |
| `ClueLedger.Listing` | algoritmos_avancados.c:171-178 | the "no clues yet" message is shown exactly when the tree is empty; otherwise the listing holds exactly the tree's clues |
| `ClueLedger.ListingSorted` | algoritmos_avancados.c:324-329 | a listing that is shown is non-empty and strictly increasing |
| `ClueLedger.EmptyNotebookConsistent` | algoritmos_avancados.c:32-35 | the initial globals (empty tree, counter 0) satisfy the ledger invariant |
| `ClueLedger.RecordKeepsConsistent` | algoritmos_avancados.c:72-95 | every insertion keeps the invariant: a search tree, at most 20 recorded clues, all pairwise distinct and all in the tree, and as many recorded as the tree holds up to 20 |
| `ClueLedger.RecordDuplicate` | algoritmos_avancados.c:81-82 | inserting a clue that is already present changes neither the tree, the array nor the counter |
| `ClueLedger.RecordFresh` | algoritmos_avancados.c:86-95 | a new clue is added to the tree's set; it is appended to the record when fewer than 20 clues are recorded, and otherwise the record is untouched |
| `ClueLedger.RecordGrows` | algoritmos_avancados.c:86-95 | an insertion only adds: the tree gains at most the new clue, and the old record is a prefix of the new one |
| `ClueLedger.RecordIdempotent` | algoritmos_avancados.c:72-95 | recording a clue twice is the same as recording it once |
| `ClueLedger.Ledger.constructor` | algoritmos_avancados.c:32-35 | the ledger starts with an empty tree, a counter of 0 and a fresh array of 20 slots |
| `ClueLedger.Ledger.Insert` | algoritmos_avancados.c:72-96 | `inserirPistaBST` keeps the invariant. A duplicate leaves tree, array and counter unchanged. A new clue is added to the tree's set; with fewer than 20 recorded, it is written at index `pistasColetadas` and the counter goes up by 1; otherwise array and counter are untouched |
| `ClueIndex.CodeSumAppend` | algoritmos_avancados.c:63-68 | the byte sum of a concatenation is the sum of the byte sums of its parts |
| `ClueIndex.Hash` | algoritmos_avancados.c:63-69 | a bucket index always lies in 0..9 |
| `ClueIndex.HashIgnoresOrder` | algoritmos_avancados.c:63-69 | the hash depends only on the sum of the byte values: swapping two parts of a string keeps its bucket |
| `ClueIndex.HashOf` | algoritmos_avancados.c:63-69 | the summing loop returns the sum of the byte values mod 10, which lies in 0..9 |
| `ClueIndex.ChainFind` | algoritmos_avancados.c:112-120 | the chain scan returns nothing exactly when no entry has the clue; otherwise it returns the suspect of the first entry that has it |
| `ClueIndex.PutKeepsPlaced` | algoritmos_avancados.c:99-107 | after an insertion, every entry still sits in the bucket its clue hashes to |
| `ClueIndex.FindAfterPut` | algoritmos_avancados.c:99-121 | last write wins: after inserting `(k, v)`, looking up `k` gives `v`, and every other clue looks up as before |
| `ClueIndex.FindComplete` | algoritmos_avancados.c:110-121 | when every entry sits in its own bucket, a clue stored anywhere is found, even though only one bucket is scanned |
| `ClueIndex.BuildIndexPlaced` | algoritmos_avancados.c:294-301 | a table filled by successive insertions keeps every entry in its own bucket |
| `ClueIndex.FindNeverPut` | algoritmos_avancados.c:110-121 | a clue that was never inserted is not found, and it resolves to "Desconhecido" |
| `ClueIndex.FindLastPut` | algoritmos_avancados.c:99-121 | a clue resolves to the suspect of its most recent insertion |
| `ClueIndex.Index.constructor` | algoritmos_avancados.c:280-283 | the table starts with all 10 buckets empty |
| `ClueIndex.Index.Insert` | algoritmos_avancados.c:99-107 | `inserirNaHash` pushes `(k, v)` on the front of bucket `hash(k)` and leaves every other bucket unchanged |
| `ClueIndex.Index.Lookup` | algoritmos_avancados.c:110-121 | `encontrarSuspeito` returns the suspect of the first matching entry in bucket `hash(k)`, or "Desconhecido" |
| `ClueIndex.FillIndex` | algoritmos_avancados.c:294-301 | the successive calls to `inserirNaHash` build the table for the given list of pairs |
| `MansionFacts.MansionLayout` | algoritmos_avancados.c:286-292 | the map has the hall at its root, with the library on the left and the dining room on the right; its clues are exactly the seven literals, all non-empty; the study has no doors |
| `MansionFacts.IndexResolvesEveryPair` | algoritmos_avancados.c:295-301 | in the filled table, each of the seven clues resolves to its own suspect |
| `MansionFacts.SuspectsOfClues` | algoritmos_avancados.c:295-301 | the suspect of each clue: the hall's clue points to João Silva, the library and guest-room clues to Maria Santos, and so on |
| `MansionFacts.EveryClueHasSuspect` | algoritmos_avancados.c:286-301 | every clue of the map resolves to one of the five suspects the game names, never to "Desconhecido" |
| `MansionFacts.EveryRoomClueHasSuspect` | algoritmos_avancados.c:286-301 | the same holds for the clue of every room the cursor can reach |
| `MansionFacts.ChainingResolvesCollisions` | algoritmos_avancados.c:99-121 | two distinct clues in the same bucket both resolve to their own suspects; the later one comes first in the chain |
| `Investigation.StepSpec` | algoritmos_avancados.c:142-186 | commands are case-insensitive. `e`/`d` move to the left/right child if it exists, otherwise the cursor stays. `p` records the room's clue only when the clue is non-empty. `l` only prints the listing and changes nothing, and neither does any unknown command |
| `Investigation.Explore` | algoritmos_avancados.c:131-187 | exploration stops right after the first `s` or `S` and no earlier; without one, it reads the whole input |
| `Investigation.ExploreAppend` | algoritmos_avancados.c:131-187 | the loop goes on across input with no `s`: a stretch without `s` is read whole, and reading it and then more input ends exactly where reading that input from the stretch's end does |
| `Investigation.ExploreInvariant` | algoritmos_avancados.c:124-188 | exploration keeps the cursor inside the map and the ledger consistent; the ledger only grows, and only by clues of the map's rooms |
| `Investigation.ExploreRooms` | algoritmos_avancados.c:124-188 | the cursor loop and its ledger updates produce exactly the cursor, ledger and stopping point of `Explore` |
| `Investigation.Tally` | algoritmos_avancados.c:229-235 | the tally never exceeds the number of recorded clues |
| `Investigation.TallyCountsMatches` | algoritmos_avancados.c:229-235 | the tally is exactly the number of recorded positions whose suspect equals the accused name, ignoring case |
| `Investigation.Judge` | algoritmos_avancados.c:207-248 | the accusation is refused exactly when nothing is recorded; otherwise the verdict carries a tally of at most `pistasColetadas` |
| `Investigation.JudgeSolvedIff` | algoritmos_avancados.c:241-248 | the case is solved exactly when at least two recorded clues point to the accused, and the verdict carries that number |
| `Investigation.Accuse` | algoritmos_avancados.c:200-249 | the counting loop over the recorded clues, with lookups and `strcasecmp`, returns `Judge`'s verdict on the ledger and the index |
| `Game.SetUp` | algoritmos_avancados.c:279-301 | `main` starts with the fixed map, an empty ledger, and an index holding the seven pairs |
| `Game.SearchHall` | algoritmos_avancados.c:161-169 | searching the hall records "Uma carta rasgada com a letra 'J'", which points to João Silva |
| `Game.RightFromHall` | algoritmos_avancados.c:152-159 | one move right reaches "Sala de Jantar", whose clue points to Carlos Lima; a second move reaches "Jardim de Inverno" |
| `Game.CollectBothMariaClues` | algoritmos_avancados.c:142-182 | left, search, right, search, leave: the library clue and then the guest-room clue are recorded, and all five commands are read |
| `Game.AccuseMariaSolves` | algoritmos_avancados.c:229-243 | with those two clues, accusing Maria Santos (also written in capitals) gives a tally of 2 and solves the case; accusing Carlos Lima gives 0 |
| `Game.SingleClueUnsupported` | algoritmos_avancados.c:241-248 | with one matching clue, the accusation is unsupported with a tally of 1 |
| `Game.NoCluesRefused` | algoritmos_avancados.c:207-210 | right after `main`'s set-up, with no clue recorded, the imperative `Accuse` refuses the accusation whoever is accused |
| `Game.StudyIsDeadEnd` | algoritmos_avancados.c:143-159 | moves from the doorless study leave the cursor there, and a later search records the study's own clue |
| `Game.LeaveStopsExploration` | algoritmos_avancados.c:180-182 | `s` or `S` ends exploration at once and ignores the commands after it |
| `Game.PlayMariaSantos` | algoritmos_avancados.c:319-333 | the imperative set-up, exploration and accusation methods, run together along Maria Santos's route, end with the case solved and a tally of 2 |

## Left out

- Console I/O is not modelled. This covers the `printf` prompts, banners and listings, and the
  menu loop of `main`. Commands and the accused name are inputs instead, and option 2 of the
  menu and command `l` are modelled by `Listing`.
- `scanf(" %c")` skips blanks and reads the next byte, and `getchar()` then discards exactly
  one more byte, so a line `ed` yields only `e` and a line `edp` yields `e` and then `p`. The
  model's command stream is the sequence of bytes the `scanf(" %c")` calls return. When the
  input runs out, the model stops; the C loop would spin forever at end of file.
- `fgets(suspeitoAcusado, 30, stdin)` cuts the accused name to 29 bytes and removes the newline.
  The model takes the name after this step, with no length limit.
- The list of five suspects that the accusation prints is not modelled. It is output only.
- `liberarBST`, `liberarHash` and `liberarSalas` are not modelled. They only free memory before
  exit, and Dafny manages memory itself.
- A NULL return from `malloc` is not modelled. `criarSala` handles it. `inserirPistaBST` and
  `inserirNaHash` never check for it.
- Fixed buffer sizes (`char[30]`, `char[100]`) and `strcpy` overflow are not modelled. Strings
  have no length limit.
- Hash: bytes are taken as non-negative (`unsigned char`). A signed `char` makes UTF-8 bytes
  negative, which would change the sum and could make `%` negative; that is not modelled. An
  `int` overflow of the sum cannot occur for strings of under 100 bytes.
- `strcmp` returns the difference of the first differing bytes. ISO C fixes only its sign, and
  the program uses only the sign.
- `strcasecmp` folds ASCII letters only, as in the "C" locale. Other locales are not modelled.
- `ClueLedger.Ledger.Insert`: the tree is a value, not linked heap nodes. The method keeps the
  source's descent loop, but the new node is attached by rebuilding the path (`TreeInsert`)
  instead of through the `PistaBST **` slot. Aliasing of the nodes is therefore not captured.
- `ClueIndex.Index`: each bucket chain is a sequence of entries, not linked `EntradaHash` nodes.
  A new entry still goes on the front of its chain.
- `Mansion.Room`: the room tree is an immutable value. `main` links rooms by assigning child
  pointers after `criarSala`; the model does the same with datatype updates. The tree never
  changes afterwards.
