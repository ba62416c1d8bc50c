/** The circular doubly linked lists behind the unsorted list and the bins. The header of list i is the node
    -i; chunks are positive. Each pointer operation is shown to do to the lists what module MallocLists says. */
module MallocLinks {
  import opened MallocLists
  import opened MallocRelease

  /** The fd and bk pointers, node -> node. */
  datatype Links = Links(fd: map<int, int>, bk: map<int, int>)

  function Header(i: int): int {
    -i
  }

  /** Node k of the ring of list s with header h; the header is both before the first and after the last. */
  function Node(h: int, s: List, k: int): int {
    if 0 <= k < |s| then s[k] else h
  }

  /** Nodes k - 1 and k point at each other. */
  ghost predicate LinkAt(l: Links, h: int, s: List, k: int) {
    0 <= k <= |s| ==>
      var a, b := Node(h, s, k - 1), Node(h, s, k);
      a in l.fd && l.fd[a] == b && b in l.bk && l.bk[b] == a
  }

  ghost predicate Ring(l: Links, h: int, s: List) {
    forall k :: LinkAt(l, h, s, k)
  }

  /** No node is in two places. */
  ghost predicate Separate(bins: seq<List>) {
    && (forall i | 0 <= i < |bins| :: NoDup(bins[i]) && Positive(bins[i]))
    && (forall i, j, a | 0 <= i < |bins| && 0 <= j < |bins| && a in bins[i] && a in bins[j] :: i == j)
  }

  ghost predicate Positive(s: List) {
    forall a | a in s :: a > 0
  }

  ghost predicate RingAt(l: Links, bins: seq<List>, i: int) {
    1 <= i < |bins| ==> Ring(l, Header(i), bins[i])
  }

  /** The pointers form the lists. */
  ghost predicate Linked(l: Links, bins: seq<List>) {
    Separate(bins) && forall i :: RingAt(l, bins, i)
  }

  /* ---------- the pointer operations ---------- */

  function Fd(l: Links, a: int): int {
    if a in l.fd then l.fd[a] else 0
  }

  function Bk(l: Links, a: int): int {
    if a in l.bk then l.bk[a] else 0
  }

  /** unlink */
  function Unlinked(l: Links, p: int): Links {
    var fwd, bck := Fd(l, p), Bk(l, p);
    Links(l.fd[bck := fwd], l.bk[fwd := bck])
  }

  function UnlinkedIf(l: Links, present: bool, p: int): Links {
    if present then Unlinked(l, p) else l
  }

  /** Putting p between the neighbours bck and fwd. */
  function LinkedIn(l: Links, p: int, bck: int, fwd: int): Links {
    Links(l.fd[p := fwd][bck := p], l.bk[p := bck][fwd := p])
  }

  /** Making p the only node of the unsorted list by overwriting both pointers of its header. */
  function HeaderSet(l: Links, p: int): Links {
    Links(l.fd[Header(1) := p][p := Header(1)], l.bk[Header(1) := p][p := Header(1)])
  }

  /** The first and the last node of list i, or its header if it is empty. */
  lemma EndsOfList(l: Links, bins: seq<List>, i: int)
    requires Linked(l, bins) && 1 <= i < |bins|
    ensures Fd(l, Header(i)) == Node(Header(i), bins[i], 0)
              && Bk(l, Header(i)) == Node(Header(i), bins[i], |bins[i]| - 1)
  {
    assert RingAt(l, bins, i) && LinkAt(l, Header(i), bins[i], 0) && LinkAt(l, Header(i), bins[i], |bins[i]|);
  }

  /** malloc_init_state: every header points at itself. */
  method EmptyLinks(n: nat) returns (l: Links)
    ensures Linked(l, seq(n, _ => []))
  {
    var f: map<int, int> := map[];
    var i := 1;
    while i < n
      invariant 1 <= i && (n >= 1 ==> i <= n)
      invariant forall j :: j in f <==> -i < j < 0
      invariant forall j | j in f :: f[j] == j
    {
      f := f[Header(i) := Header(i)];
      i := i + 1;
    }
    l := Links(f, f);
    ghost var bins: seq<List> := seq(n, _ => []);
    forall j ensures RingAt(l, bins, j) {
      if 1 <= j < n {
        forall k ensures LinkAt(l, Header(j), [], k) {}
      }
    }
  }

  /* ---------- one ring ---------- */

  /** The nodes a ring writes to are its own: distinct positions hold distinct nodes, as sources and as targets. */
  lemma NodesDistinct(h: int, s: List, j: int, k: int)
    requires NoDup(s) && h !in s && j != k
    ensures -1 <= j < |s| && -1 <= k < |s| ==> Node(h, s, j) != Node(h, s, k)
    ensures 0 <= j <= |s| && 0 <= k <= |s| ==> Node(h, s, j) != Node(h, s, k)
  {
  }

  function Dropped(s: List, k: int): List
    requires 0 <= k < |s|
  {
    s[..k] + s[k + 1..]
  }

  function Inserted(s: List, k: int, p: int): List
    requires 0 <= k <= |s|
  {
    s[..k] + [p] + s[k..]
  }

  /** unlink on one ring: the neighbours of node k are joined. */
  lemma UnlinkRing(l: Links, h: int, s: List, k: int)
    requires Ring(l, h, s) && NoDup(s) && h !in s && 0 <= k < |s|
    ensures Ring(Unlinked(l, s[k]), h, Dropped(s, k))
  {
    assert LinkAt(l, h, s, k) && LinkAt(l, h, s, k + 1);
    var t, l' := Dropped(s, k), Unlinked(l, s[k]);
    forall j ensures LinkAt(l', h, t, j) {
      var i := if j <= k then j else j + 1;
      assert LinkAt(l, h, s, i);
      if 0 <= j <= |t| && j != k {
        assert Node(h, t, j) == Node(h, s, i) && Node(h, t, j - 1) == Node(h, s, i - 1);
        NodesDistinct(h, s, i - 1, k - 1);
        NodesDistinct(h, s, i, k + 1);
      }
    }
  }

  /** Linking p in before node k. */
  lemma LinkRing(l: Links, h: int, s: List, k: int, p: int)
    requires Ring(l, h, s) && NoDup(s) && h !in s && 0 <= k <= |s| && p !in s && p != h
    ensures Ring(LinkedIn(l, p, Node(h, s, k - 1), Node(h, s, k)), h, Inserted(s, k, p))
  {
    assert LinkAt(l, h, s, k);
    var t, l' := Inserted(s, k, p), LinkedIn(l, p, Node(h, s, k - 1), Node(h, s, k));
    forall j ensures LinkAt(l', h, t, j) {
      var i := if j <= k then j else j - 1;
      assert LinkAt(l, h, s, i);
      if 0 <= j <= |t| && j != k && j != k + 1 {
        assert Node(h, t, j) == Node(h, s, i) && Node(h, t, j - 1) == Node(h, s, i - 1);
        NodesDistinct(h, s, i - 1, k - 1);
        NodesDistinct(h, s, i, k);
      }
    }
  }

  /** The pointers of node a are as before. */
  ghost predicate SameAt(l: Links, l': Links, a: int) {
    (a in l.fd ==> a in l'.fd && l'.fd[a] == l.fd[a]) && (a in l.bk ==> a in l'.bk && l'.bk[a] == l.bk[a])
  }

  /** A ring is not disturbed by writes to other nodes. */
  lemma RingUndisturbed(l: Links, l': Links, h: int, s: List)
    requires Ring(l, h, s)
    requires SameAt(l, l', h) && forall a | a in s :: SameAt(l, l', a)
    ensures Ring(l', h, s)
  {
    forall k ensures LinkAt(l', h, s, k) {
      assert LinkAt(l, h, s, k);
      assert 0 <= k <= |s| ==> SameAt(l, l', Node(h, s, k - 1)) && SameAt(l, l', Node(h, s, k));
    }
  }

  lemma {:induction false} RemoveIsDrop(s: List, k: int)
    requires NoDup(s) && 0 <= k < |s|
    ensures Remove(s, s[k]) == Dropped(s, k)
    decreases |s|
  {
    if k == 0 {
      assert s[0] !in s[1..];
      RemoveAbsent(s[1..], s[0]);
      assert Dropped(s, 0) == s[1..];
    } else {
      RemoveIsDrop(s[1..], k - 1);
      assert Dropped(s, k) == [s[0]] + Dropped(s[1..], k - 1);
    }
  }

  /* ---------- all rings ---------- */

  /** Nodes of different rings are different. */
  lemma OtherRing(bins: seq<List>, i: int, j: int, k: int, a: int)
    requires Separate(bins) && 1 <= i < |bins| && 1 <= j < |bins| && i != j
    requires a == Header(j) || a in bins[j]
    ensures a != Node(Header(i), bins[i], k)
  {
    assert Positive(bins[i]) && Positive(bins[j]);
    assert 0 <= k < |bins[i]| ==> bins[i][k] in bins[i];
  }

  lemma WithoutIsDrop(bins: seq<List>, i: int, k: int)
    requires Separate(bins) && 0 <= i < |bins| && 0 <= k < |bins[i]|
    ensures Without(bins, bins[i][k]) == bins[i := Dropped(bins[i], k)]
  {
    var p := bins[i][k];
    forall j | 0 <= j < |bins|
      ensures Remove(bins[j], p) == bins[i := Dropped(bins[i], k)][j]
    {
      if j == i {
        RemoveIsDrop(bins[i], k);
      } else {
        assert p in bins[i];
        RemoveAbsent(bins[j], p);
      }
    }
  }

  lemma DroppedSeparate(bins: seq<List>, i: int, k: int)
    requires Separate(bins) && 0 <= i < |bins| && 0 <= k < |bins[i]|
    ensures Separate(bins[i := Dropped(bins[i], k)])
  {
    var bins', s := bins[i := Dropped(bins[i], k)], bins[i];
    assert forall a :: a in Dropped(s, k) ==> a in s;
    assert NoDup(Dropped(s, k));
    forall j | 0 <= j < |bins'|
      ensures NoDup(bins'[j]) && Positive(bins'[j])
    {
      assert NoDup(bins[j]) && Positive(bins[j]);
    }
  }

  lemma InsertedSeparate(bins: seq<List>, i: int, k: int, p: int)
    requires Separate(bins) && 0 <= i < |bins| && 0 <= k <= |bins[i]| && p > 0
    requires forall j | 0 <= j < |bins| :: p !in bins[j]
    ensures Separate(InsertAt(bins, i, k, p))
  {
    var bins', s := InsertAt(bins, i, k, p), bins[i];
    assert forall a :: a in bins'[i] <==> a in s || a == p;
    forall j | 0 <= j < |bins'|
      ensures NoDup(bins'[j]) && Positive(bins'[j])
    {
      assert NoDup(bins[j]) && Positive(bins[j]);
    }
  }

  /** unlink on the pointers is removal from the lists, and no other list notices. */
  lemma UnlinkLists(l: Links, bins: seq<List>, p: int, i: int)
    requires Linked(l, bins) && 1 <= i < |bins| && p in bins[i]
    ensures Linked(Unlinked(l, p), Without(bins, p))
  {
    var k :| 0 <= k < |bins[i]| && bins[i][k] == p;
    var h := Header(i);
    assert RingAt(l, bins, i) && LinkAt(l, h, bins[i], k) && LinkAt(l, h, bins[i], k + 1) && Positive(bins[i]);
    UnlinkRing(l, h, bins[i], k);
    WithoutIsDrop(bins, i, k);
    DroppedSeparate(bins, i, k);
    var bins', l' := Without(bins, p), Unlinked(l, p);
    forall j ensures RingAt(l', bins', j) {
      assert RingAt(l, bins, j);
      if 1 <= j < |bins| && j != i {
        forall a | a == Header(j) || a in bins[j]
          ensures SameAt(l, l', a)
        {
          OtherRing(bins, i, j, k - 1, a);
          OtherRing(bins, i, j, k + 1, a);
        }
        RingUndisturbed(l, l', Header(j), bins[j]);
      }
    }
  }

  ghost predicate Unlisted(bins: seq<List>, p: int) {
    p > 0 && forall j | 0 <= j < |bins| :: p !in bins[j]
  }

  /** Linking p in before node k of list i is insertion into the lists. */
  lemma InsertLists(l: Links, bins: seq<List>, i: int, k: int, p: int)
    requires Linked(l, bins) && 1 <= i < |bins| && 0 <= k <= |bins[i]| && Unlisted(bins, p)
    ensures Linked(LinkedIn(l, p, Node(Header(i), bins[i], k - 1), Node(Header(i), bins[i], k)),
                   InsertAt(bins, i, k, p))
  {
    var h := Header(i);
    var bins', l' := InsertAt(bins, i, k, p), LinkedIn(l, p, Node(h, bins[i], k - 1), Node(h, bins[i], k));
    assert RingAt(l, bins, i) && Positive(bins[i]);
    LinkRing(l, h, bins[i], k, p);
    forall j ensures RingAt(l', bins', j) {
      assert RingAt(l, bins, j);
      if 1 <= j < |bins| && j != i {
        forall a | a == Header(j) || a in bins[j]
          ensures SameAt(l, l', a)
        {
          OtherRing(bins, i, j, k - 1, a);
          OtherRing(bins, i, j, k, a);
        }
        RingUndisturbed(l, l', Header(j), bins[j]);
      }
    }
    InsertedSeparate(bins, i, k, p);
  }

  /** Freed chunks go to the front of the unsorted list. */
  lemma PushLists(l: Links, bins: seq<List>, p: int)
    requires Linked(l, bins) && |bins| > 1 && Unlisted(bins, p)
    ensures Linked(LinkedIn(l, p, Header(1), Fd(l, Header(1))), PushUnsorted(bins, p))
  {
    EndsOfList(l, bins, 1);
    InsertLists(l, bins, 1, 0, p);
    assert [p] + bins[1] == bins[1][..0] + [p] + bins[1][0..];
  }

  /** Overwriting both pointers of the unsorted list's header with a split remainder drops no chunk, because
      the list is empty or holds only the chunk that was split. */
  lemma ReplaceLists(l: Links, bins: seq<List>, p: int)
    requires Linked(l, bins) && |bins| > 1 && |bins[1]| <= 1 && Unlisted(bins, p)
    ensures Linked(HeaderSet(l, p), bins[1 := [p]])
  {
    var bins', l' := bins[1 := [p]], HeaderSet(l, p);
    forall i ensures RingAt(l', bins', i) {
      assert RingAt(l, bins, i);
      if i == 1 {
        forall k ensures LinkAt(l', Header(1), [p], k) {}
      } else if 1 <= i < |bins| {
        assert Positive(bins[i]);
        RingUndisturbed(l, l', Header(i), bins[i]);
      }
    }
    assert Positive([p]);
  }

  /* ---------- the lists of the arena ---------- */

  lemma UnlinkFree(fr: Sizes, bins: seq<List>, l: Links, present: bool, p: int)
    requires BinsOk(fr, bins) && Linked(l, bins) && (present ==> p in fr)
    ensures Linked(UnlinkedIf(l, present, p), WithoutIf(bins, present, p))
  {
    if present {
      assert Listed(fr, bins, p);
      BinOfRange(fr[p]);
      hide BinsOk, Linked, Unlinked, Without;
      if p in bins[1] {
        UnlinkLists(l, bins, p, 1);
      } else {
        UnlinkLists(l, bins, p, BinOf(fr[p]));
      }
    }
  }

  lemma NotListed(fr: Sizes, bins: seq<List>, p: int)
    requires BinsOk(fr, bins) && p !in fr && p > 0
    ensures Unlisted(bins, p)
  {
    forall j | 0 <= j < |bins|
      ensures p !in bins[j]
    {
      assert OnList(fr, bins, j, p);
    }
  }

  /** The pointers after p and its free neighbours became the chunk [lo, hi) on the unsorted list. */
  function ReleasedLinks(l: Links, lo: int, p: int, next: int, hi: int): Links {
    var rest := UnlinkedIf(UnlinkedIf(l, lo != p, lo), hi != next, next);
    LinkedIn(rest, lo, Header(1), Fd(rest, Header(1)))
  }

  lemma ReleaseLists(fr: Sizes, bins: seq<List>, binmap: seq<nat>, l: Links, lo: int, p: int, next: int, hi: int)
    requires BinsOk(fr, bins) && BinmapOk(bins, binmap) && Linked(l, bins) && lo > 0 && lo != next
    requires (lo != p <==> lo in fr) && (hi != next <==> next in fr)
    ensures |bins| == 96 && Linked(ReleasedLinks(l, lo, p, next, hi), ReleasedBins(bins, lo, p, next, hi))
  {
    BinsCount(fr, bins);
    hide Linked, BinsOk, BinmapOk, UnlinkedIf, WithoutIf, LinkedIn, PushUnsorted;
    var b1, l1 := WithoutIf(bins, lo != p, lo), UnlinkedIf(l, lo != p, lo);
    UnlinkFree(fr, bins, l, lo != p, lo);
    UnlinkIfKeeps(fr, bins, binmap, lo != p, lo);
    var b2, l2 := WithoutIf(b1, hi != next, next), UnlinkedIf(l1, hi != next, next);
    UnlinkFree(fr - {lo}, b1, l1, hi != next, next);
    UnlinkIfKeeps(fr - {lo}, b1, binmap, hi != next, next);
    BinsCount(fr - {lo} - {next}, b2);
    NotListed(fr - {lo} - {next}, b2, lo);
    PushLists(l2, b2, lo);
  }

  /** Taking a whole chunk off its list. */
  lemma TakeLists(fr: Sizes, bins: seq<List>, l: Links, p: int)
    requires BinsOk(fr, bins) && Linked(l, bins) && p in fr
    ensures Linked(Unlinked(l, p), Without(bins, p))
  {
    UnlinkFree(fr, bins, l, true, p);
  }

  /** Splitting a chunk: it is unlinked, and its remainder becomes the unsorted list. */
  lemma CutLists(fr: Sizes, bins: seq<List>, l: Links, p: int, rest: int)
    requires BinsOk(fr, bins) && Linked(l, bins) && p in fr && rest > 0 && rest !in fr
    requires |bins| == 96 && Without(bins, p)[1] == []
    ensures Linked(HeaderSet(Unlinked(l, p), rest), Without(bins, p)[1 := [rest]])
  {
    TakeLists(fr, bins, l, p);
    UnlinkKeeps(fr, bins, p);
    NotListed(fr - {p}, Without(bins, p), rest);
    hide BinsOk, Linked, Without;
    ReplaceLists(Unlinked(l, p), Without(bins, p), rest);
  }

  /** Moving a chunk from the unsorted list to place k of its bin. */
  function BinnedLinks(l: Links, bins: seq<List>, p: int, i: int, k: int): Links
    requires 0 <= i < |bins|
  {
    var s := Without(bins, p)[i];
    LinkedIn(Unlinked(l, p), p, Node(Header(i), s, k - 1), Node(Header(i), s, k))
  }

  lemma BinLists(fr: Sizes, bins: seq<List>, l: Links, p: int, i: int, k: int)
    requires BinsOk(fr, bins) && Linked(l, bins) && p in fr && p > 0 && |bins| == 96 && 1 <= i < 96
    requires 0 <= k <= |Without(bins, p)[i]|
    ensures Linked(BinnedLinks(l, bins, p, i, k), InsertAt(Without(bins, p), i, k, p))
  {
    TakeLists(fr, bins, l, p);
    UnlinkKeeps(fr, bins, p);
    NotListed(fr - {p}, Without(bins, p), p);
    hide BinsOk, Linked;
    InsertLists(Unlinked(l, p), Without(bins, p), i, k, p);
  }
}
