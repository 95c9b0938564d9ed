/**
 * The clue ledger: the unbalanced binary search tree of collected clues
 * (`bstPistas`), ordered by `strcmp` and free of duplicates, together with
 * the discovery-order array `pistasEncontradas` and its counter
 * `pistasColetadas`, capped at `MAX_PISTAS`.
 */
module ClueLedger {
  import opened CString
  import opened Wrappers

  /** `MAX_PISTAS`: capacity of the discovery-order array. */
  const MaxClues: nat := 20

  /** A clue tree; `Leaf` is the NULL pointer. */
  datatype Tree = Leaf | Node(left: Tree, clue: CStr, right: Tree)

  /** The set of clues stored in a tree. */
  function Elems(t: Tree): set<CStr> {
    match t
    case Leaf => {}
    case Node(l, c, r) => Elems(l) + {c} + Elems(r)
  }

  /** Search-tree order: every clue in a left subtree sorts before its root,
      every clue in a right subtree after it. */
  ghost predicate IsBst(t: Tree) {
    match t
    case Leaf => true
    case Node(l, c, r) =>
      && IsBst(l) && IsBst(r)
      && (forall x :: x in Elems(l) ==> Less(x, c))
      && (forall x :: x in Elems(r) ==> Less(c, x))
  }

  /** The descent of `inserirPistaBST`: follow `strcmp` down the tree and
      report whether a node holding `s` is met. */
  function Contains(t: Tree, s: CStr): (found: bool)
    ensures IsBst(t) ==> (found <==> s in Elems(t))
  {
    match t
    case Leaf => false
    case Node(l, c, r) =>
      var cmp := StrCmp(s, c);
      if cmp < 0 then Contains(l, s)
      else if cmp > 0 then Contains(r, s)
      else true
  }

  /** The tree `inserirPistaBST` leaves behind: a new leaf where the descent
      falls off the tree, or the same tree when `s` is already present. */
  function TreeInsert(t: Tree, s: CStr): (r: Tree)
    ensures Elems(r) == Elems(t) + {s}
    ensures IsBst(t) ==> IsBst(r)
    ensures IsBst(t) && s in Elems(t) ==> r == t
  {
    match t
    case Leaf => Node(Leaf, s, Leaf)
    case Node(l, c, rt) =>
      var cmp := StrCmp(s, c);
      if cmp < 0 then Node(TreeInsert(l, s), c, rt)
      else if cmp > 0 then Node(l, c, TreeInsert(rt, s))
      else t
  }

  /** Inserting the same clue twice has no further effect. */
  lemma InsertIdempotent(t: Tree, s: CStr)
    requires IsBst(t)
    ensures TreeInsert(TreeInsert(t, s), s) == TreeInsert(t, s)
  {
  }

  /** The clues in the order `listarPistasBST` prints them: left subtree,
      node, right subtree. */
  function InOrder(t: Tree): (r: seq<CStr>)
    ensures forall x :: x in r <==> x in Elems(t)
  {
    match t
    case Leaf => []
    case Node(l, c, rt) => InOrder(l) + [c] + InOrder(rt)
  }

  /** Every clue sorts strictly before every later one. */
  ghost predicate StrictlyIncreasing(s: seq<CStr>) {
    forall i, j :: 0 <= i < j < |s| ==> Less(s[i], s[j])
  }

  /** The in-order listing of a search tree is strictly increasing, so it
      holds no duplicates. */
  lemma {:induction false} InOrderSorted(t: Tree)
    requires IsBst(t)
    ensures StrictlyIncreasing(InOrder(t))
  {
    match t
    case Leaf =>
    case Node(l, c, rt) =>
      InOrderSorted(l);
      InOrderSorted(rt);
      var L, R := InOrder(l), InOrder(rt);
      var s := L + [c] + R;
      forall i, j | 0 <= i < j < |s| ensures Less(s[i], s[j]) {
        if j < |L| {
          assert s[i] == L[i] && s[j] == L[j];
        } else if i < |L| && j == |L| {
          assert s[i] == L[i] && L[i] in Elems(l);
        } else if i < |L| {
          assert s[i] == L[i] && L[i] in Elems(l);
          assert s[j] == R[j - |L| - 1] && R[j - |L| - 1] in Elems(rt);
          LessTransitive(s[i], c, s[j]);
        } else if i == |L| {
          assert s[j] == R[j - |L| - 1] && R[j - |L| - 1] in Elems(rt);
        } else {
          assert s[i] == R[i - |L| - 1] && s[j] == R[j - |L| - 1];
        }
      }
  }

  /** What the menu and the `l` command show: `None` for the "no clues yet"
      message, otherwise the in-order listing. */
  function Listing(t: Tree): (r: Option<seq<CStr>>)
    ensures r.None? <==> Elems(t) == {}
    ensures r.Some? ==> forall x :: x in r.value <==> x in Elems(t)
  {
    if t.Leaf? then None else Some(InOrder(t))
  }

  lemma ListingSorted(t: Tree)
    requires IsBst(t) && Listing(t).Some?
    ensures StrictlyIncreasing(Listing(t).value)
    ensures |Listing(t).value| > 0
  {
    InOrderSorted(t);
  }

  /** The ledger as a value: the clue tree and the discovery-order record
      (the first `pistasColetadas` entries of `pistasEncontradas`). */
  datatype Notebook = Notebook(tree: Tree, recorded: seq<CStr>)

  /** The state every sequence of insertions keeps: a search tree, at most
      `MaxClues` recorded clues, pairwise distinct and all in the tree, and
      as many recorded clues as the tree holds, up to the cap. */
  ghost predicate Consistent(nb: Notebook) {
    && IsBst(nb.tree)
    && |nb.recorded| <= MaxClues
    && (forall i, j :: 0 <= i < j < |nb.recorded| ==> nb.recorded[i] != nb.recorded[j])
    && (forall i :: 0 <= i < |nb.recorded| ==> nb.recorded[i] in Elems(nb.tree))
    && |nb.recorded| == (if |Elems(nb.tree)| < MaxClues then |Elems(nb.tree)| else MaxClues)
  }

  /** The empty ledger the program starts with. */
  const EmptyNotebook := Notebook(Leaf, [])

  lemma EmptyNotebookConsistent()
    ensures Consistent(EmptyNotebook)
  {
  }

  /** `inserirPistaBST` on the ledger value. */
  function Record(nb: Notebook, s: CStr): Notebook {
    if Contains(nb.tree, s) then nb
    else
      Notebook(TreeInsert(nb.tree, s),
               if |nb.recorded| < MaxClues then nb.recorded + [s] else nb.recorded)
  }

  /** Recording keeps the ledger consistent. */
  lemma RecordKeepsConsistent(nb: Notebook, s: CStr)
    requires Consistent(nb)
    ensures Consistent(Record(nb, s))
  {
    if s !in Elems(nb.tree) {
      var t' := TreeInsert(nb.tree, s);
      assert Elems(t') == Elems(nb.tree) + {s};
      assert |Elems(t')| == |Elems(nb.tree)| + 1;
    }
  }

  /** A clue already in the tree changes nothing: tree, record and counter. */
  lemma RecordDuplicate(nb: Notebook, s: CStr)
    requires Consistent(nb) && s in Elems(nb.tree)
    ensures Record(nb, s) == nb
  {
  }

  /** A new clue joins the tree's set, and is appended to the record exactly
      when fewer than `MaxClues` clues are recorded. */
  lemma RecordFresh(nb: Notebook, s: CStr)
    requires Consistent(nb) && s !in Elems(nb.tree)
    ensures Elems(Record(nb, s).tree) == Elems(nb.tree) + {s}
    ensures |nb.recorded| < MaxClues ==> Record(nb, s).recorded == nb.recorded + [s]
    ensures |nb.recorded| >= MaxClues ==> Record(nb, s).recorded == nb.recorded
  {
  }

  /** Recording only adds: the tree gains at most `s` and the old record is
      a prefix of the new one. */
  lemma RecordGrows(nb: Notebook, s: CStr)
    requires Consistent(nb)
    ensures Elems(nb.tree) <= Elems(Record(nb, s).tree) <= Elems(nb.tree) + {s}
    ensures |nb.recorded| <= |Record(nb, s).recorded|
    ensures Record(nb, s).recorded[..|nb.recorded|] == nb.recorded
  {
    assert nb.recorded[..|nb.recorded|] == nb.recorded;
    assert (nb.recorded + [s])[..|nb.recorded|] == nb.recorded;
  }

  /** Recording the same clue twice is the same as recording it once. */
  lemma RecordIdempotent(nb: Notebook, s: CStr)
    requires Consistent(nb)
    ensures Record(Record(nb, s), s) == Record(nb, s)
  {
    RecordKeepsConsistent(nb, s);
  }

  /** The global ledger: `bstPistas`, `pistasEncontradas` and `pistasColetadas`. */
  class Ledger {
    var tree: Tree
    var found: array<CStr>
    var count: nat

    ghost predicate Valid()
      reads this, found
    {
      found.Length == MaxClues && count <= MaxClues && Consistent(State())
    }

    /** The ledger's value: the tree and the first `count` array entries. */
    ghost function State(): Notebook
      reads this, found
    {
      Notebook(tree, found[..if count <= found.Length then count else found.Length])
    }

    /** The program's initial globals: an empty tree and a zero counter. */
    constructor ()
      ensures Valid() && fresh(found)
      ensures tree == Leaf && count == 0 && State() == EmptyNotebook
    {
      tree := Leaf;
      found := new CStr[MaxClues];
      count := 0;
    }

    /** `inserirPistaBST`. */
    method Insert(s: CStr)
      requires Valid()
      modifies this`tree, this`count, found
      ensures Valid()
      ensures State() == Record(old(State()), s)
      ensures old(s in Elems(tree)) ==>
                tree == old(tree) && count == old(count) && found[..] == old(found[..])
      ensures old(s !in Elems(tree)) ==>
                && Elems(tree) == old(Elems(tree)) + {s}
                && (if old(count) < MaxClues
                    then count == old(count) + 1 && found[..] == old(found[..])[old(count) := s]
                    else count == old(count) && found[..] == old(found[..]))
    {
      RecordKeepsConsistent(State(), s);
      var cur := tree;
      while cur.Node?
        invariant IsBst(cur)
        invariant Contains(tree, s) == Contains(cur, s)
        decreases cur
      {
        var cmp := StrCmp(s, cur.clue);
        if cmp < 0 {
          cur := cur.left;
        } else if cmp > 0 {
          cur := cur.right;
        } else {
          return;
        }
      }
      tree := TreeInsert(tree, s);
      if count < MaxClues {
        found[count] := s;
        count := count + 1;
      }
    }
  }
}
