/**
  Cluster chains of a File Allocation Table, on the table's meaning: a sequence that gives
  each cluster its `FatValue` (the byte encoding is in FatEntry.dfy).

  `WellFormed` is a condition on single entries and pairs of entries. `InUseIsOnOneChain` and
  `ChainsAreDisjoint` show what it amounts to: the in-use clusters are partitioned into
  acyclic chains that end in `EndOfChain`. The four edits at the end say, for every sequence
  of clusters, whether it is a chain of the edited table.
  */
module FatChains {

  import opened Pigeonhole

  datatype FatValue = Free | Data(next: nat) | Bad | EndOfChain {
    predicate InUse() { Data? || EndOfChain? }
  }

  /** Entry `c` is the FAT value of cluster `c`; entries 0 and 1 are reserved. */
  type Table = seq<FatValue>

  const RESERVED_FAT_ENTRIES: nat := 2

  predicate InRange(t: Table, n: int) {
    RESERVED_FAT_ENTRIES <= n < |t|
  }

  // ---------------------------------------------------------------- chains

  /** Member `i` of `c` is a cluster whose entry is the link to the next member. */
  ghost predicate LinkAt(t: Table, c: seq<nat>, i: nat)
    requires i + 1 < |c|
  {
    c[i] < |t| && t[c[i]] == Data(c[i + 1])
  }

  ghost predicate IsChain(t: Table, c: seq<nat>) {
    && |c| > 0
    && (forall i :: 0 <= i < |c| ==> InRange(t, c[i]))
    && (forall i :: 0 <= i < |c| - 1 ==> LinkAt(t, c, i))
    && t[c[|c| - 1]] == EndOfChain
  }

  /** What `IsChain` says about one member: its entry is the link to the next one, or the end. */
  lemma ChainLink(t: Table, c: seq<nat>, i: nat)
    requires IsChain(t, c) && i < |c|
    ensures InRange(t, c[i])
    ensures t[c[i]] == if i + 1 < |c| then Data(c[i + 1]) else EndOfChain
  {
    if i + 1 < |c| { assert LinkAt(t, c, i); }
  }

  lemma ChainMember(t: Table, c: seq<nat>, x: nat) returns (i: nat)
    requires IsChain(t, c) && x in c
    ensures i < |c| && c[i] == x && InRange(t, x)
    ensures t[x] == if i + 1 < |c| then Data(c[i + 1]) else EndOfChain
  {
    i :| 0 <= i < |c| && c[i] == x;
    ChainLink(t, c, i);
  }

  /** Chains depend only on the entries of their members. */
  lemma ChainFrame(t: Table, t': Table, c: seq<nat>)
    requires IsChain(t, c) && |t'| == |t|
    requires forall i :: 0 <= i < |c| ==> InRange(t, c[i]) && t'[c[i]] == t[c[i]]
    ensures IsChain(t', c)
  {
    forall i | 0 <= i < |c| - 1 ensures LinkAt(t', c, i) { ChainLink(t, c, i); }
  }

  /** A chain that reaches `EndOfChain` visits no cluster twice. */
  lemma {:induction false} ChainIsAcyclic(t: Table, c: seq<nat>)
    requires IsChain(t, c)
    ensures Distinct(c)
  {
    forall i, j | 0 <= i < j < |c| ensures c[i] != c[j] {
      if c[i] == c[j] {
        RepeatRunsToTheEnd(t, c, i, j);
      }
    }
  }

  lemma {:induction false} RepeatRunsToTheEnd(t: Table, c: seq<nat>, i: nat, j: nat)
    requires IsChain(t, c)
    requires i < j < |c| && c[i] == c[j]
    ensures false
    decreases |c| - j
  {
    ChainLink(t, c, i);
    ChainLink(t, c, j);
    if j + 1 < |c| {
      RepeatRunsToTheEnd(t, c, i + 1, j + 1);
    }
  }

  /** Two chains that share a cluster share everything after it. */
  lemma {:induction false} SharedSuffix(t: Table, c: seq<nat>, d: seq<nat>, i: nat, j: nat)
    requires IsChain(t, c) && IsChain(t, d)
    requires i < |c| && j < |d| && c[i] == d[j]
    ensures c[i..] == d[j..]
    decreases |c| - i
  {
    ChainLink(t, c, i);
    ChainLink(t, d, j);
    if i + 1 < |c| {
      SharedSuffix(t, c, d, i + 1, j + 1);
      assert c[i..] == [c[i]] + c[i + 1..];
      assert d[j..] == [d[j]] + d[j + 1..];
    }
  }

  // ---------------------------------------------------------------- well-formed tables

  /** A link leads to an in-use cluster with a greater rank. */
  ghost predicate LinkOk(t: Table, rank: seq<nat>, x: nat)
    requires |rank| == |t| && x < |t|
  {
    t[x].Data? ==> InRange(t, t[x].next) && t[t[x].next].InUse() && rank[x] < rank[t[x].next]
  }

  ghost predicate Ranked(t: Table, rank: seq<nat>) {
    && |rank| == |t|
    && forall x :: RESERVED_FAT_ENTRIES <= x < |t| ==> LinkOk(t, rank, x)
  }

  ghost predicate LinksTo(t: Table, x: nat, y: nat) {
    InRange(t, x) && t[x] == Data(y)
  }

  ghost predicate NoSharedSuccessor(t: Table) {
    forall x, x', y :: LinksTo(t, x, y) && LinksTo(t, x', y) ==> x == x'
  }

  ghost predicate WellFormed(t: Table) {
    NoSharedSuccessor(t) && exists rank :: Ranked(t, rank)
  }

  ghost predicate NoPredecessor(t: Table, h: nat) {
    forall x :: !LinksTo(t, x, h)
  }

  /** A whole chain: nothing links to its first cluster. */
  ghost predicate FullChain(t: Table, c: seq<nat>) {
    IsChain(t, c) && NoPredecessor(t, c[0])
  }

  lemma WellFormedLink(t: Table, x: nat, y: nat)
    requires WellFormed(t) && LinksTo(t, x, y)
    ensures InRange(t, y) && t[y].InUse()
  {
    var rank :| Ranked(t, rank);
    assert LinkOk(t, rank, x);
  }

  /** Two whole chains that share a cluster are the same chain. */
  lemma ChainsAreDisjoint(t: Table, c: seq<nat>, d: seq<nat>, x: nat)
    requires WellFormed(t) && FullChain(t, c) && FullChain(t, d)
    requires x in c && x in d
    ensures c == d
  {
    var i := ChainMember(t, c, x);
    var j := ChainMember(t, d, x);
    SharedPrefix(t, c, d, i, j);
    SharedSuffix(t, c, d, 0, 0);
    assert c[0..] == c && d[0..] == d;
  }

  lemma {:induction false} SharedPrefix(t: Table, c: seq<nat>, d: seq<nat>, i: nat, j: nat)
    requires WellFormed(t) && FullChain(t, c) && FullChain(t, d)
    requires i < |c| && j < |d| && c[i] == d[j]
    ensures c[0] == d[0]
    decreases i
  {
    if i > 0 { ChainLink(t, c, i - 1); assert LinksTo(t, c[i - 1], c[i]); }
    if j > 0 { ChainLink(t, d, j - 1); assert LinksTo(t, d[j - 1], d[j]); }
    if i > 0 { SharedPrefix(t, c, d, i - 1, j - 1); }
  }

  /** Follows the links from `x` to the end of its chain. */
  lemma ChainForward(t: Table, x: nat) returns (c: seq<nat>)
    requires WellFormed(t) && InRange(t, x) && t[x].InUse()
    ensures IsChain(t, c) && c[0] == x
  {
    var rank :| Ranked(t, rank);
    c := [x];
    while t[c[|c| - 1]] != EndOfChain
      invariant |c| > 0 && c[0] == x
      invariant forall i :: 0 <= i < |c| ==> InRange(t, c[i])
      invariant forall i :: 0 <= i < |c| - 1 ==> LinkAt(t, c, i)
      invariant t[c[|c| - 1]].InUse()
      invariant forall i, j :: 0 <= i < j < |c| ==> rank[c[i]] < rank[c[j]]
      invariant |c| <= |t|
      decreases |t| - |c|
    {
      var last := c[|c| - 1];
      assert LinkOk(t, rank, last);
      var c' := c + [t[last].next];
      assert forall i :: 0 <= i < |c| ==> rank[c[i]] <= rank[last];
      forall i | 0 <= i < |c'| - 1 ensures LinkAt(t, c', i) {
        if i < |c| - 1 { assert LinkAt(t, c, i); }
      }
      DistinctBelow(c', |t|);
      c := c';
    }
  }

  /** Extends a chain backwards until nothing links to its first cluster. */
  lemma {:induction false} ChainBackward(t: Table, rank: seq<nat>, c: seq<nat>) returns (full: seq<nat>)
    requires WellFormed(t) && Ranked(t, rank) && IsChain(t, c)
    ensures FullChain(t, full) && c[0] in full
    decreases rank[c[0]]
  {
    if x :| LinksTo(t, x, c[0]) {
      assert LinkOk(t, rank, x);
      ChainPrepend(t, x, c);
      full := ChainBackward(t, rank, [x] + c);
      var i := ChainMember(t, full, x);
      assert c[0] in full;
    } else {
      full := c;
    }
  }

  lemma ChainPrepend(t: Table, x: nat, c: seq<nat>)
    requires IsChain(t, c) && LinksTo(t, x, c[0])
    ensures IsChain(t, [x] + c)
  {
    var c' := [x] + c;
    forall i | 0 <= i < |c'| - 1 ensures LinkAt(t, c', i) {
      if i > 0 { ChainLink(t, c, i - 1); }
    }
  }

  /** Every in-use cluster lies on a whole chain. */
  lemma InUseIsOnOneChain(t: Table, x: nat) returns (c: seq<nat>)
    requires WellFormed(t) && InRange(t, x) && t[x].InUse()
    ensures FullChain(t, c) && x in c
  {
    var rank :| Ranked(t, rank);
    var tail := ChainForward(t, x);
    c := ChainBackward(t, rank, tail);
  }

  // ---------------------------------------------------------------- starting a chain

  lemma FreeHasNoPredecessor(t: Table, n: nat)
    requires WellFormed(t) && InRange(t, n) && !t[n].InUse()
    ensures NoPredecessor(t, n)
  {
    forall x ensures !LinksTo(t, x, n) {
      if LinksTo(t, x, n) { WellFormedLink(t, x, n); }
    }
  }

  lemma NotInChain(t: Table, c: seq<nat>, n: nat)
    requires IsChain(t, c) && n < |t| && !t[n].InUse()
    ensures n !in c
  {
    if n in c { var i := ChainMember(t, c, n); }
  }

  lemma StartWellFormed(t: Table, n: nat)
    requires WellFormed(t) && InRange(t, n) && t[n] == Free
    ensures WellFormed(t[n := EndOfChain])
  {
    var t' := t[n := EndOfChain];
    var rank :| Ranked(t, rank);
    forall x | RESERVED_FAT_ENTRIES <= x < |t'| ensures LinkOk(t', rank, x) { assert LinkOk(t, rank, x); }
    assert Ranked(t', rank);
    forall x, x', y | LinksTo(t', x, y) && LinksTo(t', x', y) ensures x == x' {
      assert LinksTo(t, x, y) && LinksTo(t, x', y);
    }
  }

  lemma StartSameLinks(t: Table, n: nat, h: nat)
    requires InRange(t, n) && t[n] == Free
    ensures NoPredecessor(t[n := EndOfChain], h) <==> NoPredecessor(t, h)
  {
    var t' := t[n := EndOfChain];
    if NoPredecessor(t, h) {
      forall x ensures !LinksTo(t', x, h) { assert !LinksTo(t, x, h); }
    }
    if NoPredecessor(t', h) {
      forall x ensures !LinksTo(t, x, h) { assert !LinksTo(t', x, h); }
    }
  }

  /** Claiming a free cluster without a predecessor adds the chain `[n]` and changes no other. */
  lemma StartChain(t: Table, n: nat, e: seq<nat>)
    requires WellFormed(t) && InRange(t, n) && t[n] == Free
    ensures WellFormed(t[n := EndOfChain])
    ensures FullChain(t[n := EndOfChain], e) <==> e == [n] || FullChain(t, e)
  {
    var t' := t[n := EndOfChain];
    StartWellFormed(t, n);
    FreeHasNoPredecessor(t, n);
    StartSameLinks(t, n, n);
    assert FullChain(t', [n]);
    if FullChain(t', e) && e != [n] {
      if n in e { ChainsAreDisjoint(t', e, [n], n); }
      ChainFrame(t', t, e);
      StartSameLinks(t, n, e[0]);
    }
    if FullChain(t, e) {
      NotInChain(t, e, n);
      ChainFrame(t, t', e);
      StartSameLinks(t, n, e[0]);
    }
  }

  // ---------------------------------------------------------------- extending a chain

  /** Cluster `n` becomes the end of the chain that ended in `p`. */
  function Append(t: Table, p: nat, n: nat): (r: Table)
    requires p < |t| && n < |t|
    ensures |r| == |t|
  {
    t[n := EndOfChain][p := Data(n)]
  }

  lemma AppendLinks(t: Table, p: nat, n: nat, x: nat, y: nat)
    requires InRange(t, p) && t[p] == EndOfChain && InRange(t, n) && t[n] == Free
    ensures LinksTo(Append(t, p, n), x, y) <==> LinksTo(t, x, y) || (x == p && y == n)
  {
  }

  lemma AppendWellFormed(t: Table, p: nat, n: nat)
    requires WellFormed(t) && InRange(t, p) && t[p] == EndOfChain && InRange(t, n) && t[n] == Free
    ensures WellFormed(Append(t, p, n))
  {
    var t' := Append(t, p, n);
    FreeHasNoPredecessor(t, n);
    var rank :| Ranked(t, rank);
    var rank' := rank[n := rank[p] + 1];
    forall x | RESERVED_FAT_ENTRIES <= x < |t'| ensures LinkOk(t', rank', x) {
      assert LinkOk(t, rank, x);
      if t[x].Data? { assert LinksTo(t, x, t[x].next); }
    }
    assert Ranked(t', rank');
    forall x, x', y | LinksTo(t', x, y) && LinksTo(t', x', y) ensures x == x' {
      AppendLinks(t, p, n, x, y);
      AppendLinks(t, p, n, x', y);
    }
  }

  lemma AppendedChain(t: Table, c: seq<nat>, n: nat)
    requires WellFormed(t) && FullChain(t, c) && InRange(t, n) && t[n] == Free
    ensures FullChain(Append(t, c[|c| - 1], n), c + [n])
  {
    var p := c[|c| - 1];
    var t', c' := Append(t, p, n), c + [n];
    ChainIsAcyclic(t, c);
    ChainLink(t, c, |c| - 1);
    NotInChain(t, c, n);
    forall i | 0 <= i < |c'| - 1 ensures LinkAt(t', c', i) { ChainLink(t, c, i); }
    forall x ensures !LinksTo(t', x, c'[0]) { AppendLinks(t, p, n, x, c[0]); }
  }

  /** Claiming a free cluster behind the tail of `c` turns `c` into `c + [n]` and changes no other chain. */
  lemma ExtendChain(t: Table, c: seq<nat>, n: nat, e: seq<nat>)
    requires WellFormed(t) && FullChain(t, c) && InRange(t, n) && t[n] == Free
    ensures WellFormed(Append(t, c[|c| - 1], n))
    ensures FullChain(Append(t, c[|c| - 1], n), e) <==> e == c + [n] || (FullChain(t, e) && e != c)
  {
    var p := c[|c| - 1];
    var t' := Append(t, p, n);
    ChainLink(t, c, |c| - 1);
    AppendWellFormed(t, p, n);
    AppendedChain(t, c, n);
    if FullChain(t', e) && e != c + [n] { ExtendOnly(t, c, n, e); }
    if FullChain(t, e) && e != c { ExtendKeeps(t, c, n, e); }
  }

  lemma ExtendOnly(t: Table, c: seq<nat>, n: nat, e: seq<nat>)
    requires WellFormed(t) && FullChain(t, c) && InRange(t, n) && t[n] == Free
    requires WellFormed(Append(t, c[|c| - 1], n)) && FullChain(Append(t, c[|c| - 1], n), c + [n])
    requires FullChain(Append(t, c[|c| - 1], n), e) && e != c + [n]
    ensures FullChain(t, e) && e != c
  {
    var p := c[|c| - 1];
    var t' := Append(t, p, n);
    ChainLink(t, c, |c| - 1);
    forall x | x in e ensures x !in c + [n] {
      if x in c + [n] { ChainsAreDisjoint(t', e, c + [n], x); }
    }
    assert p in c + [n] && n in c + [n];
    forall i | 0 <= i < |e| ensures InRange(t', e[i]) && t[e[i]] == t'[e[i]] { assert e[i] in e; }
    ChainFrame(t', t, e);
    forall x ensures !LinksTo(t, x, e[0]) { AppendLinks(t, p, n, x, e[0]); }
    assert c[0] in c + [n];
  }

  lemma ExtendKeeps(t: Table, c: seq<nat>, n: nat, e: seq<nat>)
    requires WellFormed(t) && FullChain(t, c) && InRange(t, n) && t[n] == Free
    requires FullChain(t, e) && e != c
    ensures FullChain(Append(t, c[|c| - 1], n), e)
  {
    var p := c[|c| - 1];
    ChainLink(t, c, |c| - 1);
    if p in e { ChainsAreDisjoint(t, e, c, p); }
    NotInChain(t, e, n);
    ChainFrame(t, Append(t, p, n), e);
    forall x ensures !LinksTo(Append(t, p, n), x, e[0]) { AppendLinks(t, p, n, x, e[0]); }
  }

  // ---------------------------------------------------------------- releasing a chain

  /** Entries of `t` at members of `c` become `Free`; all others keep their value. */
  function FreeAll(t: Table, c: seq<nat>): (r: Table)
    ensures |r| == |t|
    ensures forall i {:trigger r[i]} :: 0 <= i < |t| ==> r[i] == if i in c then Free else t[i]
  {
    seq(|t|, i requires 0 <= i < |t| => if i in c then Free else t[i])
  }

  /** No cluster outside `c` links into `c`, whole chains being closed backwards. */
  lemma LinkIntoChain(t: Table, c: seq<nat>, x: nat, y: nat)
    requires WellFormed(t) && FullChain(t, c) && LinksTo(t, x, y)
    ensures x in c <==> y in c
  {
    if y in c {
      var i := ChainMember(t, c, y);
      if i > 0 { ChainLink(t, c, i - 1); assert LinksTo(t, c[i - 1], y); }
    }
    if x in c {
      var i := ChainMember(t, c, x);
    }
  }

  lemma ReleaseWellFormed(t: Table, c: seq<nat>)
    requires WellFormed(t) && FullChain(t, c)
    ensures WellFormed(FreeAll(t, c))
  {
    var t' := FreeAll(t, c);
    var rank :| Ranked(t, rank);
    forall x | RESERVED_FAT_ENTRIES <= x < |t'| ensures LinkOk(t', rank, x) {
      assert LinkOk(t, rank, x);
      if t'[x].Data? { LinkIntoChain(t, c, x, t[x].next); }
    }
    assert Ranked(t', rank);
    forall x, x', y | LinksTo(t', x, y) && LinksTo(t', x', y) ensures x == x' {
      assert LinksTo(t, x, y) && LinksTo(t, x', y);
    }
  }

  /** Releasing `c` removes the chain `c` and changes no other. */
  lemma ReleaseChain(t: Table, c: seq<nat>, e: seq<nat>)
    requires WellFormed(t) && FullChain(t, c)
    ensures WellFormed(FreeAll(t, c))
    ensures FullChain(FreeAll(t, c), e) <==> FullChain(t, e) && e != c
  {
    var t' := FreeAll(t, c);
    ReleaseWellFormed(t, c);
    if FullChain(t', e) {
      forall i | 0 <= i < |e| ensures InRange(t', e[i]) && t[e[i]] == t'[e[i]] && e[i] !in c { ChainLink(t', e, i); }
      ChainFrame(t', t, e);
      forall x ensures !LinksTo(t, x, e[0]) {
        if LinksTo(t, x, e[0]) {
          LinkIntoChain(t, c, x, e[0]);
          assert LinksTo(t', x, e[0]);
        }
      }
      assert c[0] in c;
    }
    if FullChain(t, e) && e != c {
      forall i | 0 <= i < |e| ensures InRange(t, e[i]) && e[i] !in c {
        ChainLink(t, e, i);
        if e[i] in c { ChainsAreDisjoint(t, e, c, e[i]); }
      }
      ChainFrame(t, t', e);
      forall x ensures !LinksTo(t', x, e[0]) {
        if LinksTo(t', x, e[0]) { assert LinksTo(t, x, e[0]); }
      }
    }
  }

  // ---------------------------------------------------------------- truncating a chain

  /** Member `k` of `c` becomes the end; the members after it become free. */
  function Cut(t: Table, c: seq<nat>, k: nat): (r: Table)
    requires k < |c| && c[k] < |t|
    ensures |r| == |t|
  {
    FreeAll(t[c[k] := EndOfChain], c[k + 1..])
  }

  lemma SplitMember(c: seq<nat>, k: nat, x: nat)
    requires k < |c| && Distinct(c)
    ensures x in c <==> x in c[..k + 1] || x in c[k + 1..]
    ensures !(x in c[..k + 1] && x in c[k + 1..])
    ensures c[k] in c[..k + 1]
  {
    assert c == c[..k + 1] + c[k + 1..];
    assert c[..k + 1][k] == c[k];
    if x in c[..k + 1] {
      var i :| 0 <= i < k + 1 && c[i] == x;
      var cut := c[k + 1..];
      forall j | 0 <= j < |cut| ensures cut[j] != x { assert cut[j] == c[k + 1 + j]; }
    }
  }

  lemma CutEntry(t: Table, c: seq<nat>, k: nat, x: nat)
    requires IsChain(t, c) && k < |c| && InRange(t, x)
    ensures InRange(t, c[k])
    ensures Cut(t, c, k)[x] == if x == c[k] then EndOfChain else if x in c[k + 1..] then Free else t[x]
    ensures x !in c ==> Cut(t, c, k)[x] == t[x]
  {
    ChainLink(t, c, k);
    ChainIsAcyclic(t, c);
    SplitMember(c, k, x);
    SplitMember(c, k, c[k]);
  }

  lemma CutChain(t: Table, c: seq<nat>, k: nat)
    requires FullChain(t, c) && k < |c|
    ensures InRange(t, c[k]) && FullChain(Cut(t, c, k), c[..k + 1])
  {
    var kept := c[..k + 1];
    ChainLink(t, c, k);
    ChainIsAcyclic(t, c);
    forall i | 0 <= i < |kept| ensures InRange(t, kept[i]) && kept[i] !in c[k + 1..] {
      ChainLink(t, c, i);
      SplitMember(c, k, kept[i]);
    }
    forall i | 0 <= i < |kept| - 1 ensures LinkAt(Cut(t, c, k), kept, i) {
      ChainLink(t, c, i);
      CutEntry(t, c, k, c[i]);
    }
    CutEntry(t, c, k, c[k]);
    forall x ensures !LinksTo(Cut(t, c, k), x, c[0]) {
      if LinksTo(Cut(t, c, k), x, c[0]) { CutEntry(t, c, k, x); assert LinksTo(t, x, c[0]); }
    }
  }

  lemma CutWellFormed(t: Table, c: seq<nat>, k: nat)
    requires WellFormed(t) && FullChain(t, c) && k < |c|
    ensures InRange(t, c[k]) && WellFormed(Cut(t, c, k))
  {
    ChainLink(t, c, k);
    var t' := Cut(t, c, k);
    var rank :| Ranked(t, rank);
    forall x | RESERVED_FAT_ENTRIES <= x < |t'| ensures LinkOk(t', rank, x) {
      assert LinkOk(t, rank, x);
      CutEntry(t, c, k, x);
      if t'[x].Data? { CutLink(t, c, k, x); }
    }
    assert Ranked(t', rank);
    forall x, x', y | LinksTo(t', x, y) && LinksTo(t', x', y) ensures x == x' {
      CutEntry(t, c, k, x);
      CutEntry(t, c, k, x');
      assert LinksTo(t, x, y) && LinksTo(t, x', y);
    }
  }

  /** A link that survives the cut still leads to an in-use cluster. */
  lemma CutLink(t: Table, c: seq<nat>, k: nat, x: nat)
    requires WellFormed(t) && FullChain(t, c) && k < |c| && InRange(t, x) && InRange(t, c[k])
    requires Cut(t, c, k)[x].Data?
    ensures t[x] == Cut(t, c, k)[x] && InRange(t, t[x].next) && Cut(t, c, k)[t[x].next].InUse()
  {
    CutEntry(t, c, k, x);
    var y := t[x].next;
    assert LinksTo(t, x, y);
    WellFormedLink(t, x, y);
    LinkIntoChain(t, c, x, y);
    CutEntry(t, c, k, y);
    if x in c {
      ChainIsAcyclic(t, c);
      var i := ChainMember(t, c, x);
      var cut := c[k + 1..];
      forall j | k < j < |c| ensures c[j] in cut { assert cut[j - k - 1] == c[j]; }
      SplitMember(c, k, y);
      assert c[..k + 1][i + 1] == y;
    }
  }

  /** Truncating `c` after member `k` turns `c` into `c[..k + 1]` and changes no other chain. */
  lemma TruncateChain(t: Table, c: seq<nat>, k: nat, e: seq<nat>)
    requires WellFormed(t) && FullChain(t, c) && k < |c|
    ensures InRange(t, c[k]) && WellFormed(Cut(t, c, k))
    ensures FullChain(Cut(t, c, k), e) <==> e == c[..k + 1] || (FullChain(t, e) && e != c)
  {
    CutWellFormed(t, c, k);
    CutChain(t, c, k);
    if FullChain(Cut(t, c, k), e) && e != c[..k + 1] { TruncateOnly(t, c, k, e); }
    if FullChain(t, e) && e != c { TruncateKeeps(t, c, k, e); }
  }

  lemma TruncateOnly(t: Table, c: seq<nat>, k: nat, e: seq<nat>)
    requires WellFormed(t) && FullChain(t, c) && k < |c| && InRange(t, c[k])
    requires WellFormed(Cut(t, c, k)) && FullChain(Cut(t, c, k), c[..k + 1])
    requires FullChain(Cut(t, c, k), e) && e != c[..k + 1]
    ensures FullChain(t, e) && e != c
  {
    var t' := Cut(t, c, k);
    ChainIsAcyclic(t, c);
    forall i | 0 <= i < |e| ensures InRange(t', e[i]) && e[i] !in c && t[e[i]] == t'[e[i]] {
      ChainLink(t', e, i);
      CutEntry(t, c, k, e[i]);
      SplitMember(c, k, e[i]);
      if e[i] in c[..k + 1] { ChainsAreDisjoint(t', e, c[..k + 1], e[i]); }
    }
    ChainFrame(t', t, e);
    forall x ensures !LinksTo(t, x, e[0]) {
      if LinksTo(t, x, e[0]) {
        LinkIntoChain(t, c, x, e[0]);
        CutEntry(t, c, k, x);
        assert LinksTo(t', x, e[0]);
      }
    }
    assert c[0] in c;
  }

  lemma TruncateKeeps(t: Table, c: seq<nat>, k: nat, e: seq<nat>)
    requires WellFormed(t) && FullChain(t, c) && k < |c| && InRange(t, c[k])
    requires FullChain(t, e) && e != c
    ensures FullChain(Cut(t, c, k), e)
  {
    forall i | 0 <= i < |e| ensures InRange(t, e[i]) && Cut(t, c, k)[e[i]] == t[e[i]] {
      ChainLink(t, e, i);
      if e[i] in c { ChainsAreDisjoint(t, e, c, e[i]); }
      CutEntry(t, c, k, e[i]);
    }
    ChainFrame(t, Cut(t, c, k), e);
    forall x ensures !LinksTo(Cut(t, c, k), x, e[0]) {
      if LinksTo(Cut(t, c, k), x, e[0]) {
        CutEntry(t, c, k, x);
        assert LinksTo(t, x, e[0]);
      }
    }
  }
}
