/**
 * The clue index: the chained hash table `tabelaHash` of `TAM_HASH` buckets
 * mapping a clue to the suspect it points to. New entries are pushed on the
 * front of their bucket's chain; lookups return the first match.
 */
module ClueIndex {
  import opened CString
  import opened Wrappers

  /** `TAM_HASH`: the number of buckets. */
  const TableSize: nat := 10

  /** An `EntradaHash` node without its `prox` link. */
  datatype Entry = Entry(clue: CStr, suspect: CStr)

  /** A bucket chain, head first. */
  type Chain = seq<Entry>

  /** The table as a value: one chain per bucket. */
  type Table = t: seq<Chain> | |t| == TableSize witness [[], [], [], [], [], [], [], [], [], []]

  /** The sentinel `encontrarSuspeito` returns when no entry matches: "Desconhecido". */
  const Unknown: CStr := [68, 101, 115, 99, 111, 110, 104, 101, 99, 105, 100, 111]

  /** The sum of the byte values of a string. */
  function CodeSum(s: CStr): nat {
    if s == [] then 0 else CodeSum(s[..|s| - 1]) + s[|s| - 1]
  }

  /** The sum of a concatenation is the sum of the parts. */
  lemma {:induction false} CodeSumAppend(a: CStr, b: CStr)
    ensures CodeSum(a + b) == CodeSum(a) + CodeSum(b)
    decreases |b|
  {
    if b != [] {
      var b' := b[..|b| - 1];
      assert (a + b)[..|a + b| - 1] == a + b';
      CodeSumAppend(a, b');
    } else {
      assert a + b == a;
    }
  }

  /** The bucket of a clue: the sum of its byte values modulo `TableSize`. */
  function Hash(s: CStr): (h: nat)
    ensures h < TableSize
  {
    CodeSum(s) % TableSize
  }

  /** The hash depends on the sum of the codes only, not on their order:
      swapping two parts of a string keeps its bucket. */
  lemma HashIgnoresOrder(a: CStr, b: CStr)
    ensures Hash(a + b) == Hash(b + a)
  {
    CodeSumAppend(a, b);
    CodeSumAppend(b, a);
  }

  /** `hash`: the summing loop over the string. */
  method HashOf(s: CStr) returns (h: int)
    ensures 0 <= h < TableSize
    ensures h == CodeSum(s) % TableSize
  {
    var sum := 0;
    var i := 0;
    while i < |s|
      invariant 0 <= i <= |s|
      invariant sum == CodeSum(s[..i])
    {
      assert s[..i + 1][..i] == s[..i];
      sum := sum + s[i];
      i := i + 1;
    }
    assert s[..i] == s;
    h := sum % TableSize;
  }

  /** The entry at `i` is the first in the chain whose clue is `k`. */
  ghost predicate FirstMatchAt(c: Chain, k: CStr, i: nat) {
    i < |c| && c[i].clue == k && forall j :: 0 <= j < i ==> c[j].clue != k
  }

  /** The scan of one chain: the suspect of the first entry whose clue is `k`. */
  function ChainFind(c: Chain, k: CStr): (r: Option<CStr>)
    ensures r.None? <==> forall i :: 0 <= i < |c| ==> c[i].clue != k
    ensures r.Some? ==> exists i: nat :: FirstMatchAt(c, k, i) && c[i].suspect == r.value
  {
    if c == [] then None
    else if StrCmp(c[0].clue, k) == 0 then
      assert FirstMatchAt(c, k, 0);
      Some(c[0].suspect)
    else
      var r := ChainFind(c[1..], k);
      if r.Some? then
        assert exists i: nat :: FirstMatchAt(c, k, i) && c[i].suspect == r.value by {
          var i: nat :| FirstMatchAt(c[1..], k, i) && c[1..][i].suspect == r.value;
          assert FirstMatchAt(c, k, i + 1);
        }
        r
      else
        assert forall i :: 1 <= i < |c| ==> c[i].clue == c[1..][i - 1].clue;
        r
  }

  /** A lookup in the table value: only bucket `Hash(k)` is scanned. */
  function Find(t: Table, k: CStr): Option<CStr> {
    ChainFind(t[Hash(k)], k)
  }

  /** `encontrarSuspeito` on the table value: the suspect found, or the
      sentinel. */
  function SuspectOf(t: Table, k: CStr): CStr {
    Find(t, k).GetOr(Unknown)
  }

  /** `inserirNaHash` on the table value: push `(k, v)` on bucket `Hash(k)`. */
  function Put(t: Table, k: CStr, v: CStr): Table {
    t[Hash(k) := [Entry(k, v)] + t[Hash(k)]]
  }

  /** The table `main` starts from: every bucket NULL. */
  const EmptyTable: Table := [[], [], [], [], [], [], [], [], [], []]

  /** Every entry sits in the bucket its clue hashes to. */
  ghost predicate Placed(t: Table) {
    forall i, j :: 0 <= i < TableSize && 0 <= j < |t[i]| ==> Hash(t[i][j].clue) == i
  }

  lemma PutKeepsPlaced(t: Table, k: CStr, v: CStr)
    requires Placed(t)
    ensures Placed(Put(t, k, v))
  {
    var t' := Put(t, k, v);
    forall i, j | 0 <= i < TableSize && 0 <= j < |t'[i]| ensures Hash(t'[i][j].clue) == i {
      if i == Hash(k) && j > 0 {
        assert t'[i][j] == t[i][j - 1];
      }
    }
  }

  /** Last write wins: after `Put(t, k, v)` the lookup of `k` gives `v`, and
      the lookup of every other clue is what it was. */
  lemma FindAfterPut(t: Table, k: CStr, v: CStr, k': CStr)
    ensures Find(Put(t, k, v), k') == if k' == k then Some(v) else Find(t, k')
  {
    var t' := Put(t, k, v);
    if k' != k && Hash(k') == Hash(k) {
      assert t'[Hash(k')][1..] == t[Hash(k')];
    }
  }

  /** In a table whose entries sit in their own buckets, a clue stored
      anywhere is found, although only one bucket is scanned. */
  lemma FindComplete(t: Table, k: CStr, i: nat, j: nat)
    requires Placed(t)
    requires i < TableSize && j < |t[i]| && t[i][j].clue == k
    ensures Find(t, k).Some?
  {
  }

  /** The table after `inserirNaHash` has been called for each pair in turn. */
  function BuildIndex(pairs: seq<Entry>): Table {
    if pairs == [] then EmptyTable
    else
      var last := pairs[|pairs| - 1];
      Put(BuildIndex(pairs[..|pairs| - 1]), last.clue, last.suspect)
  }

  lemma {:induction false} BuildIndexPlaced(pairs: seq<Entry>)
    ensures Placed(BuildIndex(pairs))
  {
    if pairs != [] {
      var last := pairs[|pairs| - 1];
      BuildIndexPlaced(pairs[..|pairs| - 1]);
      PutKeepsPlaced(BuildIndex(pairs[..|pairs| - 1]), last.clue, last.suspect);
    }
  }

  /** A clue that was never inserted is not found, so it resolves to the
      sentinel. */
  lemma {:induction false} FindNeverPut(pairs: seq<Entry>, k: CStr)
    requires forall j :: 0 <= j < |pairs| ==> pairs[j].clue != k
    ensures Find(BuildIndex(pairs), k) == None
    ensures SuspectOf(BuildIndex(pairs), k) == Unknown
  {
    if pairs != [] {
      var last := pairs[|pairs| - 1];
      FindNeverPut(pairs[..|pairs| - 1], k);
      FindAfterPut(BuildIndex(pairs[..|pairs| - 1]), last.clue, last.suspect, k);
    }
  }

  /** A clue resolves to the suspect of the most recent insertion of it. */
  lemma {:induction false} FindLastPut(pairs: seq<Entry>, i: nat)
    requires i < |pairs|
    requires forall j :: i < j < |pairs| ==> pairs[j].clue != pairs[i].clue
    ensures Find(BuildIndex(pairs), pairs[i].clue) == Some(pairs[i].suspect)
    ensures SuspectOf(BuildIndex(pairs), pairs[i].clue) == pairs[i].suspect
  {
    var last := pairs[|pairs| - 1];
    var prefix := pairs[..|pairs| - 1];
    FindAfterPut(BuildIndex(prefix), last.clue, last.suspect, pairs[i].clue);
    if i < |pairs| - 1 {
      FindLastPut(prefix, i);
    }
  }

  /** The global `tabelaHash`: an array of bucket chains. */
  class Index {
    var buckets: array<Chain>

    ghost predicate Valid()
      reads this
    {
      buckets.Length == TableSize
    }

    /** The table's value. */
    ghost function Contents(): Table
      reads this, buckets
      requires Valid()
    {
      buckets[..]
    }

    /** `main`'s initialisation loop: every bucket NULL. */
    constructor ()
      ensures Valid() && fresh(buckets) && Contents() == EmptyTable
    {
      buckets := new Chain[TableSize];
      new;
      forall i | 0 <= i < TableSize {
        buckets[i] := [];
      }
    }

    /** `inserirNaHash`: push a new entry on the front of bucket `hash(k)`;
        every other bucket is left as it was. */
    method Insert(k: CStr, v: CStr)
      requires Valid()
      modifies buckets
      ensures Valid()
      ensures Contents() == Put(old(Contents()), k, v)
      ensures buckets[Hash(k)] == [Entry(k, v)] + old(buckets[Hash(k)])
      ensures forall i :: 0 <= i < TableSize && i != Hash(k) ==> buckets[i] == old(buckets[i])
    {
      var h := HashOf(k);
      buckets[h] := [Entry(k, v)] + buckets[h];
    }

    /** `encontrarSuspeito`: scan bucket `hash(k)` for the first entry whose
        clue is `k`; "Desconhecido" when none is. */
    method Lookup(k: CStr) returns (suspect: CStr)
      requires Valid()
      ensures suspect == SuspectOf(Contents(), k)
    {
      var h := HashOf(k);
      var chain := buckets[h];
      var i := 0;
      while i < |chain|
        invariant 0 <= i <= |chain|
        invariant ChainFind(chain[i..], k) == ChainFind(chain, k)
      {
        if StrCmp(chain[i].clue, k) == 0 {
          return chain[i].suspect;
        }
        assert chain[i..][1..] == chain[i + 1..];
        i := i + 1;
      }
      return Unknown;
    }
  }

  /** `main`'s calls to `inserirNaHash`, one per pair, in order. */
  method FillIndex(pairs: seq<Entry>) returns (index: Index)
    ensures fresh(index) && fresh(index.buckets) && index.Valid()
    ensures index.Contents() == BuildIndex(pairs)
  {
    index := new Index();
    for n := 0 to |pairs|
      invariant index.Valid() && fresh(index.buckets)
      invariant index.Contents() == BuildIndex(pairs[..n])
    {
      assert pairs[..n + 1][..n] == pairs[..n];
      index.Insert(pairs[n].clue, pairs[n].suspect);
    }
    assert pairs[..|pairs|] == pairs;
  }
}
