/** The free lists: which free chunk is kept on which list, and in which order.
    A list runs from first (fd side) to last (bk side). List 1 holds unsorted chunks; list i >= 2 holds
    the chunks whose size maps to bin i, largest first. */
module MallocLists {
  import opened BitWords
  import opened MallocSizes

  type List = seq<int>

  /** chunk address -> chunk size, for the chunks that must be on a list */
  type Sizes = map<int, int>

  /** BinIndex for sizes read from tags. */
  function BinOf(size: int): nat {
    if size < 16 then 0 else BinIndex(size)
  }

  lemma BinOfRange(size: int)
    requires size >= 16
    ensures 2 <= BinOf(size) < 96
  {
    BinIndexRange(size);
  }

  ghost predicate NoDup(s: List) {
    forall i, j | 0 <= i < j < |s| :: s[i] != s[j]
  }

  function SizeOf(fr: Sizes, a: int): int {
    if a in fr then fr[a] else 0
  }

  /** Largest first. */
  ghost predicate Sorted(fr: Sizes, s: List) {
    forall i, j | 0 <= i < j < |s| :: SizeOf(fr, s[i]) >= SizeOf(fr, s[j])
  }

  ghost predicate BinAt(fr: Sizes, bins: seq<List>, i: int) {
    0 <= i < |bins| ==> NoDup(bins[i]) && (i >= 2 ==> Sorted(fr, bins[i]))
  }

  /** A chunk on list i is free and belongs there, and is not also on the unsorted list. */
  ghost predicate OnList(fr: Sizes, bins: seq<List>, i: int, a: int)
    requires |bins| == 96
  {
    0 <= i < |bins| && a in bins[i] ==>
      a in fr && (i == 1 || (i == BinOf(fr[a]) && a !in bins[1]))
  }

  /** A free chunk is on the unsorted list or in the bin of its size. */
  ghost predicate Listed(fr: Sizes, bins: seq<List>, a: int)
    requires |bins| == 96
  {
    a in fr ==> fr[a] >= 16 && (a in bins[1] || (BinOf(fr[a]) < |bins| && a in bins[BinOf(fr[a])]))
  }

  /** Every free chunk is on exactly one list, and the bins are in size order. */
  ghost predicate BinsOk(fr: Sizes, bins: seq<List>)
  {
    && |bins| == 96 && bins[0] == []
    && (forall i :: BinAt(fr, bins, i))
    && (forall i, a :: OnList(fr, bins, i, a))
    && (forall a :: Listed(fr, bins, a))
  }

  lemma BinsCount(fr: Sizes, bins: seq<List>)
    requires BinsOk(fr, bins)
    ensures |bins| == 96
  {
  }

  /** No chunk is on two lists, or twice on one. */
  lemma OnExactlyOneList(fr: Sizes, bins: seq<List>, a: int)
    requires BinsOk(fr, bins) && a in fr
    ensures exists i :: 0 <= i < 96 && a in bins[i] && (forall j | 0 <= j < 96 && a in bins[j] :: j == i)
  {
    assert Listed(fr, bins, a);
    BinOfRange(fr[a]);
    var i := if a in bins[1] then 1 else BinOf(fr[a]);
    assert a in bins[i];
    forall j | 0 <= j < 96 && a in bins[j]
      ensures j == i
    {
      assert OnList(fr, bins, j, a);
    }
  }

  /* ---------- removing a chunk ---------- */

  function Remove(s: List, p: int): List {
    if s == [] then [] else if s[0] == p then Remove(s[1..], p) else [s[0]] + Remove(s[1..], p)
  }

  lemma {:induction false} RemoveMembers(s: List, p: int)
    ensures forall x :: x in Remove(s, p) <==> x in s && x != p
  {
    if s != [] {
      RemoveMembers(s[1..], p);
      assert s == [s[0]] + s[1..];
    }
  }

  lemma {:induction false} RemoveNoDup(s: List, p: int)
    requires NoDup(s)
    ensures NoDup(Remove(s, p))
  {
    if s != [] {
      var rest := s[1..];
      assert NoDup(rest) && s[0] !in rest;
      RemoveNoDup(rest, p);
      RemoveMembers(rest, p);
      NoDupCons(s[0], Remove(rest, p));
    }
  }

  lemma NoDupCons(x: int, r: List)
    requires NoDup(r) && x !in r
    ensures NoDup([x] + r)
  {
  }

  lemma {:induction false} RemoveSorted(fr: Sizes, s: List, p: int)
    requires Sorted(fr, s)
    ensures Sorted(fr, Remove(s, p))
  {
    if s != [] {
      var rest := s[1..];
      SortedTail(fr, s);
      RemoveSorted(fr, rest, p);
      RemoveMembers(rest, p);
      SortedCons(fr, s[0], Remove(rest, p), rest);
    }
  }

  lemma SortedTail(fr: Sizes, s: List)
    requires s != [] && Sorted(fr, s)
    ensures Sorted(fr, s[1..])
    ensures forall y | y in s[1..] :: SizeOf(fr, s[0]) >= SizeOf(fr, y)
  {
  }

  lemma SortedCons(fr: Sizes, x: int, r: List, s: List)
    requires Sorted(fr, r) && (forall y | y in s :: SizeOf(fr, x) >= SizeOf(fr, y))
    requires forall y :: y in r ==> y in s
    ensures Sorted(fr, [x] + r)
  {
    forall j | 0 <= j < |r|
      ensures SizeOf(fr, x) >= SizeOf(fr, r[j])
    {
      assert r[j] in r;
    }
  }

  /** Removal keeps everything else, in order. */
  lemma RemoveKeeps(fr: Sizes, s: List, p: int)
    ensures forall x :: x in Remove(s, p) <==> x in s && x != p
    ensures NoDup(s) ==> NoDup(Remove(s, p))
    ensures Sorted(fr, s) ==> Sorted(fr - {p}, Remove(s, p))
  {
    RemoveMembers(s, p);
    if NoDup(s) {
      RemoveNoDup(s, p);
    }
    if Sorted(fr, s) {
      RemoveSorted(fr, s, p);
      var r := Remove(s, p);
      forall i | 0 <= i < |r|
        ensures SizeOf(fr - {p}, r[i]) == SizeOf(fr, r[i])
      {
        assert r[i] in r;
      }
    }
  }

  lemma {:induction false} RemoveAbsent(s: List, p: int)
    requires p !in s
    ensures Remove(s, p) == s
  {
    if s != [] {
      RemoveAbsent(s[1..], p);
    }
  }

  lemma {:induction false} RemoveLast(s: List, p: int)
    requires p !in s
    ensures Remove(s + [p], p) == s
  {
    if s == [] {
      assert s + [p] == [p];
    } else {
      RemoveLast(s[1..], p);
      assert (s + [p])[1..] == s[1..] + [p];
    }
  }

  /** The effect of unlink: p leaves whichever list it is on. */
  function Without(bins: seq<List>, p: int): seq<List> {
    seq(|bins|, i requires 0 <= i < |bins| => Remove(bins[i], p))
  }

  lemma UnlinkKeeps(fr: Sizes, bins: seq<List>, p: int)
    requires BinsOk(fr, bins) && p in fr
    ensures BinsOk(fr - {p}, Without(bins, p))
  {
    var fr', bins' := fr - {p}, Without(bins, p);
    assert bins'[0] == Remove(bins[0], p) == [];
    forall i ensures BinAt(fr', bins', i) {
      assert BinAt(fr, bins, i);
      if 0 <= i < |bins| {
        RemoveKeeps(fr, bins[i], p);
      }
    }
    forall i, a ensures OnList(fr', bins', i, a) {
      assert OnList(fr, bins, i, a);
      if 0 <= i < |bins| {
        RemoveKeeps(fr, bins[i], p);
        RemoveKeeps(fr, bins[1], p);
      }
    }
    forall a ensures Listed(fr', bins', a) {
      assert Listed(fr, bins, a);
      if a in fr' {
        RemoveKeeps(fr, bins[1], p);
        if BinOf(fr[a]) < |bins| {
          RemoveKeeps(fr, bins[BinOf(fr[a])], p);
        }
      }
    }
  }

  function WithoutIf(bins: seq<List>, present: bool, p: int): seq<List> {
    if present then Without(bins, p) else bins
  }

  lemma UnlinkIfKeeps(fr: Sizes, bins: seq<List>, binmap: seq<nat>, present: bool, p: int)
    requires BinsOk(fr, bins) && BinmapOk(bins, binmap) && (present <==> p in fr)
    ensures BinsOk(fr - {p}, WithoutIf(bins, present, p)) && BinmapOk(WithoutIf(bins, present, p), binmap)
  {
    if present {
      UnlinkKeeps(fr, bins, p);
      UnlinkBinmap(bins, binmap, p);
    } else {
      assert fr - {p} == fr;
    }
  }

  /** Taking the last chunk off list i is the same as unlinking it. */
  lemma PopIsUnlink(fr: Sizes, bins: seq<List>, i: int)
    requires BinsOk(fr, bins) && 0 <= i < 96 && bins[i] != []
    ensures var p := bins[i][|bins[i]| - 1];
            p in fr && bins[i := bins[i][..|bins[i]| - 1]] == Without(bins, p)
  {
    var n := |bins[i]| - 1;
    var p := bins[i][n];
    assert OnList(fr, bins, i, p) && BinAt(fr, bins, i);
    forall j | 0 <= j < 96
      ensures bins[i := bins[i][..n]][j] == Remove(bins[j], p)
    {
      if j == i {
        assert bins[i] == bins[i][..n] + [p];
        assert p !in bins[i][..n];
        RemoveLast(bins[i][..n], p);
      } else {
        assert OnList(fr, bins, j, p);
        RemoveAbsent(bins[j], p);
      }
    }
  }

  /* ---------- adding a chunk ---------- */

  function PushUnsorted(bins: seq<List>, p: int): seq<List>
    requires |bins| > 1
  {
    bins[1 := [p] + bins[1]]
  }

  lemma PushKeeps(fr: Sizes, bins: seq<List>, p: int, size: int)
    requires BinsOk(fr, bins) && p !in fr && size >= 16
    ensures BinsOk(fr[p := size], PushUnsorted(bins, p))
  {
    var fr', bins' := fr[p := size], PushUnsorted(bins, p);
    forall i ensures BinAt(fr', bins', i) {
      assert BinAt(fr, bins, i);
      if 0 <= i < |bins| {
        forall k | 0 <= k < |bins[i]| ensures bins[i][k] != p {
          assert OnList(fr, bins, i, bins[i][k]);
        }
      }
    }
    forall i, a ensures OnList(fr', bins', i, a) {
      assert OnList(fr, bins, i, a) && OnList(fr, bins, i, p);
    }
    forall a ensures Listed(fr', bins', a) {
      assert Listed(fr, bins, a);
    }
  }

  /** p is put in front of position k of bin i. */
  function InsertAt(bins: seq<List>, i: int, k: int, p: int): seq<List>
    requires 0 <= i < |bins| && 0 <= k <= |bins[i]|
  {
    bins[i := bins[i][..k] + [p] + bins[i][k..]]
  }

  /** k is a place for size that keeps the list ordered. */
  ghost predicate Place(fr: Sizes, s: List, k: int, size: int) {
    && 0 <= k <= |s|
    && (forall j | 0 <= j < k :: SizeOf(fr, s[j]) >= size)
    && (forall j | k <= j < |s| :: SizeOf(fr, s[j]) <= size)
  }

  lemma InsertKeeps(fr: Sizes, bins: seq<List>, p: int, size: int, k: int)
    requires BinsOk(fr, bins) && p !in fr && size >= 16
    requires BinOf(size) < |bins| && Place(fr, bins[BinOf(size)], k, size)
    ensures BinsOk(fr[p := size], InsertAt(bins, BinOf(size), k, p))
  {
    var b := BinOf(size);
    BinOfRange(size);
    var fr', bins' := fr[p := size], InsertAt(bins, b, k, p);
    forall i ensures BinAt(fr', bins', i) {
      assert BinAt(fr, bins, i);
      if 0 <= i < |bins| {
        forall j | 0 <= j < |bins[i]| ensures bins[i][j] != p {
          assert OnList(fr, bins, i, bins[i][j]);
        }
        if i == b {
          InsertedInOrder(fr, bins[b], p, size, k);
        }
      }
    }
    forall i, a ensures OnList(fr', bins', i, a) {
      assert OnList(fr, bins, i, a) && OnList(fr, bins, 1, p);
    }
    forall a ensures Listed(fr', bins', a) {
      assert Listed(fr, bins, a);
    }
  }

  lemma InsertedInOrder(fr: Sizes, s: List, p: int, size: int, k: int)
    requires NoDup(s) && Sorted(fr, s) && p !in s && p !in fr && Place(fr, s, k, size)
    ensures NoDup(s[..k] + [p] + s[k..]) && Sorted(fr[p := size], s[..k] + [p] + s[k..])
  {
    var t, fr' := s[..k] + [p] + s[k..], fr[p := size];
    assert forall j | 0 <= j < |t| :: t[j] == if j < k then s[j] else if j == k then p else s[j - 1];
  }

  /* ---------- fastbins ---------- */

  function FastbinIndex(size: int): int {
    size / 8 - 2
  }

  ghost predicate OnFastbin(fa: Sizes, fast: seq<List>, i: int, a: int) {
    0 <= i < |fast| && a in fast[i] ==> a in fa && fa[a] == 8 * (i + 2)
  }

  ghost predicate FastListed(fa: Sizes, fast: seq<List>, a: int)
    requires |fast| == 10
  {
    a in fa ==> 16 <= fa[a] <= 72 && Aligned(fa[a]) && a in fast[FastbinIndex(fa[a])]
  }

  /** Every chunk held by the fastbins is in the one for its size, once. */
  ghost predicate FastOk(fa: Sizes, fast: seq<List>) {
    && |fast| == 10
    && (forall i | 0 <= i < |fast| :: NoDup(fast[i]))
    && (forall i, a :: OnFastbin(fa, fast, i, a))
    && (forall a :: FastListed(fa, fast, a))
  }

  lemma FastIndexOf(size: int)
    requires Aligned(size) && 16 <= size <= 72
    ensures 0 <= FastbinIndex(size) < 8 && size == 8 * (FastbinIndex(size) + 2)
  {
    assert size == 8 * (size / 8);
  }

  lemma FastPushKeeps(fa: Sizes, fast: seq<List>, p: int, size: int)
    requires FastOk(fa, fast) && p !in fa && Aligned(size) && 16 <= size <= 72
    ensures 0 <= FastbinIndex(size) < 10
    ensures var i := FastbinIndex(size); FastOk(fa[p := size], fast[i := [p] + fast[i]])
  {
    FastIndexOf(size);
    var i := FastbinIndex(size);
    var fa', fast' := fa[p := size], fast[i := [p] + fast[i]];
    assert p !in fast[i] by { assert OnFastbin(fa, fast, i, p); }
    NoDupCons(p, fast[i]);
    forall j, a ensures OnFastbin(fa', fast', j, a) {
      assert OnFastbin(fa, fast, j, a) && OnFastbin(fa, fast, j, p);
    }
    forall a ensures FastListed(fa', fast', a) {
      assert FastListed(fa, fast, a);
      if a in fa {
        FastIndexOf(fa[a]);
      }
    }
  }

  lemma FastPopKeeps(fa: Sizes, fast: seq<List>, i: int)
    requires FastOk(fa, fast) && 0 <= i < 10 && fast[i] != []
    ensures var p := fast[i][0]; p in fa && fa[p] == 8 * (i + 2) && FastOk(fa - {p}, fast[i := fast[i][1..]])
  {
    var p := fast[i][0];
    assert OnFastbin(fa, fast, i, p);
    var fa', fast' := fa - {p}, fast[i := fast[i][1..]];
    assert fast[i] == [p] + fast[i][1..];
    assert p !in fast[i][1..];
    forall j, a ensures OnFastbin(fa', fast', j, a) {
      assert OnFastbin(fa, fast, j, a) && OnFastbin(fa, fast, j, p);
    }
    forall a ensures FastListed(fa', fast', a) {
      assert FastListed(fa, fast, a);
      if a in fa {
        FastIndexOf(fa[a]);
      }
    }
  }

  /** Once the fastbins up to that of max_fast are empty, no fast chunk is left anywhere. */
  lemma FastDrained(fa: Sizes, fast: seq<List>)
    requires FastOk(fa, fast) && forall i | 0 <= i < 8 :: fast[i] == []
    ensures fa == map[] && forall i | 0 <= i < 10 :: fast[i] == []
  {
    forall a | a in fa
      ensures false
    {
      assert FastListed(fa, fast, a);
      FastIndexOf(fa[a]);
    }
    NoFastChunks(fast);
  }

  lemma NoFastChunks(fast: seq<List>)
    requires FastOk(map[], fast)
    ensures forall i | 0 <= i < 10 :: fast[i] == []
  {
    forall i | 0 <= i < 10
      ensures fast[i] == []
    {
      var s := fast[i];
      assert s == [] || s[0] in s;
      forall a ensures a !in s { assert OnFastbin(map[], fast, i, a); }
    }
  }

  /* ---------- binmap ---------- */

  /** A bin that is not empty has its bit set. */
  ghost predicate MarkedAt(bins: seq<List>, binmap: seq<nat>, i: int)
    requires |bins| == 96 && |binmap| == 4
  {
    2 <= i < 96 && bins[i] != [] ==> Bit(binmap[i / 32], i % 32) == 1
  }

  ghost predicate BinmapOk(bins: seq<List>, binmap: seq<nat>) {
    && |bins| == 96 && |binmap| == 4
    && binmap[3] == 0
    && (forall b | 0 <= b < 4 :: binmap[b] < Pow2(32))
    && (forall i :: MarkedAt(bins, binmap, i))
  }

  /** mark_bin */
  function MarkBin(binmap: seq<nat>, i: nat): seq<nat>
    requires |binmap| == 4 && i < 96
  {
    binmap[i / 32 := Or(binmap[i / 32], Pow2(i % 32))]
  }

  lemma MarkBinKeeps(bins: seq<List>, binmap: seq<nat>, i: nat, s: List)
    requires BinmapOk(bins, binmap) && 2 <= i < 96
    ensures BinmapOk(bins[i := s], MarkBin(binmap, i))
  {
    var bins', binmap' := bins[i := s], MarkBin(binmap, i);
    var w := i / 32;
    assert Pow2(i % 32) < Pow2(32) by {
      Pow2Monotone(i % 32, 31);
    }
    OrBelow(binmap[w], Pow2(i % 32), 32);
    forall j ensures MarkedAt(bins', binmap', j) {
      assert MarkedAt(bins, binmap, j);
      if 2 <= j < 96 && j / 32 == w {
        BitOfOr(binmap[w], Pow2(i % 32), j % 32);
        BitOfPow2(i % 32, j % 32);
        assert j == 32 * (j / 32) + j % 32;
        assert i == 32 * (i / 32) + i % 32;
      }
    }
  }

  /** The bit of a bin seen to be empty may be cleared. */
  lemma ClearBinKeeps(bins: seq<List>, binmap: seq<nat>, i: nat)
    requires BinmapOk(bins, binmap) && 2 <= i < 96 && bins[i] == []
    ensures BinmapOk(bins, binmap[i / 32 := AndNot(binmap[i / 32], Pow2(i % 32))])
  {
    var w := i / 32;
    var binmap' := binmap[w := AndNot(binmap[w], Pow2(i % 32))];
    AndNotBelow(binmap[w], Pow2(i % 32));
    forall j ensures MarkedAt(bins, binmap', j) {
      assert MarkedAt(bins, binmap, j);
      if 2 <= j < 96 && j / 32 == w {
        BitOfAndNot(binmap[w], Pow2(i % 32), j % 32);
        BitOfPow2(i % 32, j % 32);
        assert j == 32 * (j / 32) + j % 32;
        assert i == 32 * (i / 32) + i % 32;
      }
    }
  }

  /** Unlinking a chunk, or changing the unsorted list, never needs a binmap bit set. */
  lemma UnlinkBinmap(bins: seq<List>, binmap: seq<nat>, p: int)
    requires BinmapOk(bins, binmap)
    ensures BinmapOk(Without(bins, p), binmap)
  {
    var bins' := Without(bins, p);
    forall i ensures MarkedAt(bins', binmap, i) {
      assert MarkedAt(bins, binmap, i);
    }
  }

  lemma UnsortedBinmap(bins: seq<List>, binmap: seq<nat>, s: List)
    requires BinmapOk(bins, binmap)
    ensures BinmapOk(bins[1 := s], binmap)
  {
    var bins' := bins[1 := s];
    forall i ensures MarkedAt(bins', binmap, i) {
      assert MarkedAt(bins, binmap, i);
    }
  }
}
