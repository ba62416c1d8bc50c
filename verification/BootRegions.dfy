/** The boot loader's table of memory regions: adding a region moves whatever it overlaps. Regions are
    half-open, memory descriptors are inclusive, and addresses do not wrap. */
module BootRegions {
  const MAX_REGIONS: nat := 16

  datatype Region = Region(name: string, start: int, end: int, movable: bool, used: bool)

  datatype Desc = Desc(conventional: bool, low: int, high: int)

  predicate Apart(r: Region, s: Region) {
    r.used && s.used ==> r.end <= s.start || s.end <= r.start
  }

  ghost predicate PairwiseApart(rs: seq<Region>) {
    forall i, j | 0 <= i < |rs| && 0 <= j < |rs| && i != j :: Apart(rs[i], rs[j])
  }

  ghost predicate Proper(rs: seq<Region>) {
    |rs| <= MAX_REGIONS && forall i | 0 <= i < |rs| && rs[i].used :: rs[i].start < rs[i].end
  }

  /* ---------- looking for a place ---------- */

  /** The bytes from a to b, both included, meet those from c to d. */
  predicate Meets(a: int, b: int, c: int, d: int) {
    a <= d && c <= b
  }

  /** The three-way test in the code. */
  predicate InTheWay(r: Region, ns: int, last: int) {
    (ns >= r.start && ns <= r.end) || (last >= r.start && last <= r.end) || (ns < r.start && last >= r.start)
  }

  /** Region i, moved to ns, stays clear of every other region in use, of their end addresses too. */
  ghost predicate FreeFor(rs: seq<Region>, i: int, ns: int, last: int) {
    forall k | 0 <= k < |rs| && k != i && rs[k].used :: !Meets(ns, last, rs[k].start, rs[k].end)
  }

  /** Places that are considered: the lowest address of a descriptor, and page boundaries. */
  ghost predicate Candidate(rs: seq<Region>, i: int, d: Desc, size: int, c: int) {
    d.low <= c && c + size <= d.high && (c == d.low || c % 4096 == 0) && FreeFor(rs, i, c, c + size)
  }

  ghost predicate NoCandidate(rs: seq<Region>, i: int, d: Desc, size: int) {
    forall c :: !Candidate(rs, i, d, size, c)
  }

  function PageUp(x: int): int {
    x + 0xfff - (x + 0xfff) % 4096
  }

  lemma NoPageBetween(x: int, c: int)
    requires c % 4096 == 0 && x <= c
    ensures PageUp(x) <= c && PageUp(x) % 4096 == 0 && x <= PageUp(x)
  {
  }

  lemma PageUpFacts(x: int)
    ensures PageUp(x) % 4096 == 0 && x <= PageUp(x)
  {
  }

  /** The search with restarts finds the lowest candidate of a descriptor if there is one. */
  method FindPlace(rs: seq<Region>, i: int, d: Desc) returns (ns: int, found: bool)
    requires Proper(rs) && 0 <= i < |rs| && rs[i].used
    ensures found ==> Candidate(rs, i, d, rs[i].end - rs[i].start, ns)
    ensures found ==> var size := rs[i].end - rs[i].start; forall c | Candidate(rs, i, d, size, c) :: ns <= c
    ensures !found ==> NoCandidate(rs, i, d, rs[i].end - rs[i].start)
  {
    var msize := rs[i].end - rs[i].start + 1;
    ghost var size := msize - 1;
    ns := d.low;
    var k := 0;
    while k < |rs| && ns + msize - 1 <= d.high
      invariant 0 <= k <= |rs| && d.low <= ns && (ns == d.low || ns % 4096 == 0)
      invariant forall m | 0 <= m < k && m != i && rs[m].used :: !Meets(ns, ns + msize - 1, rs[m].start, rs[m].end)
      invariant forall c | Candidate(rs, i, d, size, c) :: ns <= c
      decreases d.high - ns, |rs| - k
    {
      if rs[k].used && k != i && InTheWay(rs[k], ns, ns + msize - 1) {
        ghost var was := ns;
        ns := PageUp(rs[k].end + 1);
        PageUpFacts(rs[k].end + 1);
        forall c | Candidate(rs, i, d, size, c)
          ensures ns <= c
        {
          assert was <= c && !Meets(c, c + msize - 1, rs[k].start, rs[k].end);
          if c % 4096 == 0 {
            NoPageBetween(rs[k].end + 1, c);
          }
        }
        k := 0;
      } else {
        k := k + 1;
      }
    }
    found := k == |rs| && ns + msize - 1 <= d.high;
  }

  /** Which descriptors are tried at all. */
  predicate Usable(d: Desc, size: int) {
    d.conventional && d.high - d.low >= size + 1
  }

  /** No usable descriptor has a free candidate for region i. */
  ghost predicate NowhereToGo(rs: seq<Region>, i: int, memoryMap: seq<Desc>)
    requires 0 <= i < |rs|
  {
    forall j | 0 <= j < |memoryMap| && Usable(memoryMap[j], rs[i].end - rs[i].start) ::
      NoCandidate(rs, i, memoryMap[j], rs[i].end - rs[i].start)
  }

  /** Descriptor j is the first usable one with a free candidate for region i, and ns is its lowest. */
  ghost predicate FirstPlace(rs: seq<Region>, i: int, memoryMap: seq<Desc>, j: int, ns: int)
    requires 0 <= i < |rs|
  {
    var size := rs[i].end - rs[i].start;
    && 0 <= j < |memoryMap| && Usable(memoryMap[j], size) && Candidate(rs, i, memoryMap[j], size, ns)
    && (forall c | Candidate(rs, i, memoryMap[j], size, c) :: ns <= c)
    && (forall m | 0 <= m < j && Usable(memoryMap[m], size) :: NoCandidate(rs, i, memoryMap[m], size))
  }

  /** The test for a conflict between the new region, from start to end, and an established one. */
  predicate Conflicts(r: Region, start: int, end: int) {
    r.used && ((start >= r.start && start < r.end) || (end >= r.start && end <= r.end)
               || (start < r.start && end > r.start))
  }

  /** The test finds every overlap, and regions that start where the new one ends besides. */
  lemma ConflictsIffNear(r: Region, start: int, end: int)
    requires start < end && r.start < r.end
    ensures Conflicts(r, start, end) <==> r.used && r.start <= end && start < r.end
  {
  }

  /** Region i conflicts with the new one and cannot be moved, or there is nowhere to move it to. */
  ghost predicate Stuck(rs: seq<Region>, region: int, memoryMap: seq<Desc>, i: int) {
    && 0 <= i < |rs| && 0 <= region < |rs| && i != region && Conflicts(rs[i], rs[region].start, rs[region].end)
    && (!rs[i].movable || NowhereToGo(rs, i, memoryMap))
  }

  ghost predicate AnyStuck(rs: seq<Region>, region: int, memoryMap: seq<Desc>) {
    exists i :: Stuck(rs, region, memoryMap, i)
  }

  /** A region that does not conflict with the new one is left alone, and one that does is movable. */
  ghost predicate MovedIfNeeded(r: Region, s: Region, start: int, end: int) {
    if Conflicts(r, start, end) then r.movable else s == r
  }

  /* ---------- moving ---------- */

  /** address -> byte; an address that is not a key holds 0 */
  type Memory = map<int, int>

  function Rd(m: Memory, x: int): int {
    if x in m then m[x] else 0
  }

  /** After moving n bytes, address x holds what it should. */
  ghost predicate MovedAt(m: Memory, m': Memory, to: int, from: int, n: int, x: int) {
    Rd(m', x) == if to <= x < to + n then Rd(m, x - to + from) else Rd(m, x)
  }

  ghost predicate Moved(m: Memory, m': Memory, to: int, from: int, n: int) {
    forall x :: MovedAt(m, m', to, from, n, x)
  }

  /** memmove: every byte is taken from the old contents, even where source and target overlap. */
  method Memmove(m: Memory, to: int, from: int, n: nat) returns (m': Memory)
    ensures Moved(m, m', to, from, n)
  {
    m' := m;
    var k := 0;
    while k < n
      invariant k <= n && Moved(m, m', to, from, k)
    {
      ghost var was := m';
      m' := m'[to + k := Rd(m, from + k)];
      k := k + 1;
      forall x ensures MovedAt(m, m', to, from, k, x) {
        assert MovedAt(m, was, to, from, k - 1, x);
      }
    }
  }

  /** Byte o of region r, now at s, is what it was. */
  ghost predicate SameByte(before: Memory, r: Region, after: Memory, s: Region, o: int) {
    0 <= o < r.end - r.start ==> Rd(after, s.start + o) == Rd(before, r.start + o)
  }

  ghost predicate SameBytes(before: Memory, r: Region, after: Memory, s: Region) {
    forall o :: SameByte(before, r, after, s, o)
  }

  /** Region r is now s, with its bytes. */
  ghost predicate Kept(before: Memory, r: Region, after: Memory, s: Region) {
    && s.end - s.start == r.end - r.start && s.name == r.name && s.movable == r.movable && s.used == r.used
    && (r.used ==> SameBytes(before, r, after, s))
  }

  /** Region r, if it moved, lies inside one conventional descriptor. */
  ghost predicate Placed(memoryMap: seq<Desc>, r: Region, s: Region) {
    s.start == r.start || exists j :: 0 <= j < |memoryMap| && Inside(memoryMap[j], s)
  }

  predicate Inside(d: Desc, s: Region) {
    d.conventional && d.low <= s.start && s.end <= d.high
  }

  ghost predicate KeptAll(before: Memory, rs: seq<Region>, after: Memory, ss: seq<Region>, memoryMap: seq<Desc>) {
    |ss| == |rs| && forall k | 0 <= k < |rs| :: Kept(before, rs[k], after, ss[k]) && Placed(memoryMap, rs[k], ss[k])
  }

  /** A region moved with its bytes, and a region apart from the place they went to, keep them. */
  lemma MovedBytes(now: Memory, after: Memory, r: Region, ns: int)
    requires Moved(now, after, ns, r.start, r.end - r.start + 1)
    ensures SameBytes(now, r, after, r.(start := ns, end := ns + (r.end - r.start)))
  {
    var s := r.(start := ns, end := ns + (r.end - r.start));
    forall o ensures SameByte(now, r, after, s, o) {
      assert MovedAt(now, after, ns, r.start, r.end - r.start + 1, ns + o);
      assert ns + o - ns + r.start == r.start + o;
    }
  }

  lemma UnmovedBytes(now: Memory, after: Memory, ns: int, from: int, size: int, r: Region)
    requires Moved(now, after, ns, from, size + 1) && !Meets(ns, ns + size, r.start, r.end)
    ensures SameBytes(now, r, after, r)
  {
    forall o ensures SameByte(now, r, after, r, o) {
      assert MovedAt(now, after, ns, from, size + 1, r.start + o);
    }
  }

  lemma SameBytesTrans(m0: Memory, r0: Region, m1: Memory, r1: Region, m2: Memory, r2: Region)
    requires SameBytes(m0, r0, m1, r1) && SameBytes(m1, r1, m2, r2) && r1.end - r1.start == r0.end - r0.start
    ensures SameBytes(m0, r0, m2, r2)
  {
    forall o ensures SameByte(m0, r0, m2, r2, o) {
      assert SameByte(m0, r0, m1, r1, o) && SameByte(m1, r1, m2, r2, o);
    }
  }

  /** Moving region i to a free place keeps the bytes of every region. */
  lemma KeptOne(before: Memory, r: Region, now: Memory, after: Memory, ss: seq<Region>, i: int, ns: int, k: int)
    requires 0 <= i < |ss| && 0 <= k < |ss| && Kept(before, r, now, ss[k])
    requires var size := ss[i].end - ss[i].start;
             FreeFor(ss, i, ns, ns + size) && Moved(now, after, ns, ss[i].start, size + 1)
    ensures Kept(before, r, after, if k == i then ss[i].(start := ns, end := ns + (ss[i].end - ss[i].start)) else ss[k])
  {
    hide Moved, SameBytes, Meets;
    var size := ss[i].end - ss[i].start;
    if r.used {
      if k == i {
        var t := ss[i].(start := ns, end := ns + size);
        MovedBytes(now, after, ss[i], ns);
        SameBytesTrans(before, r, now, ss[i], after, t);
      } else {
        UnmovedBytes(now, after, ns, ss[i].start, size, ss[k]);
        SameBytesTrans(before, r, now, ss[k], after, ss[k]);
      }
    }
  }

  lemma KeptMore(before: Memory, rs: seq<Region>, now: Memory, after: Memory, ss: seq<Region>, memoryMap: seq<Desc>,
                 i: int, ns: int, d: Desc)
    requires KeptAll(before, rs, now, ss, memoryMap) && 0 <= i < |ss|
    requires var size := ss[i].end - ss[i].start;
             && FreeFor(ss, i, ns, ns + size) && Moved(now, after, ns, ss[i].start, size + 1)
             && d in memoryMap && d.conventional && d.low <= ns && ns + size <= d.high
    ensures KeptAll(before, rs, after, ss[i := ss[i].(start := ns, end := ns + (ss[i].end - ss[i].start))], memoryMap)
  {
    hide Moved, FreeFor, Kept;
    var ts := ss[i := ss[i].(start := ns, end := ns + (ss[i].end - ss[i].start))];
    forall k | 0 <= k < |rs|
      ensures Kept(before, rs[k], after, ts[k]) && Placed(memoryMap, rs[k], ts[k])
    {
      assert Kept(before, rs[k], now, ss[k]) && Placed(memoryMap, rs[k], ss[k]);
      KeptOne(before, rs[k], now, after, ss, i, ns, k);
      assert k == i ==> Inside(d, ts[k]);
    }
  }

  class Loader {
    /** used_regions[0 .. nr_regions] */
    var regions: seq<Region>
    var memory: Memory
    const memoryMap: seq<Desc>

    ghost predicate Valid()
      reads this
    {
      Proper(regions) && PairwiseApart(regions)
    }

    constructor (memoryMap: seq<Desc>, memory: Memory)
      ensures Valid() && regions == [] && this.memoryMap == memoryMap && this.memory == memory
    {
      this.memoryMap, this.memory := memoryMap, memory;
      regions := [];
    }

    /** A descriptor for a new region, or -1 if all are in use. */
    method Slot() returns (region: int)
      requires Valid()
      ensures -1 <= region <= |regions| && (region == |regions| ==> |regions| < MAX_REGIONS)
      ensures 0 <= region < |regions| ==> !regions[region].used
      ensures region == -1 <==> |regions| == MAX_REGIONS && forall k | 0 <= k < |regions| :: regions[k].used
    {
      region := |regions|;
      if region == MAX_REGIONS {
        region := 0;
        while region < MAX_REGIONS && regions[region].used
          invariant 0 <= region <= MAX_REGIONS
          invariant forall k | 0 <= k < region :: regions[k].used
        {
          region := region + 1;
        }
        if region == MAX_REGIONS {
          region := -1;
        }
      }
    }

    /** Moves region i out of the way; panics exactly when no usable descriptor has a free candidate place. */
    method Relocate(i: int) returns (panic: bool)
      requires Proper(regions) && 0 <= i < |regions| && regions[i].used
      modifies this`regions, this`memory
      ensures panic <==> NowhereToGo(old(regions), i, memoryMap)
      ensures panic ==> regions == old(regions) && memory == old(memory)
      ensures |regions| == |old(regions)|
      ensures !panic ==>
                var ns, size := regions[i].start, old(regions[i].end - regions[i].start);
                && regions == old(regions)[i := old(regions[i]).(start := ns, end := ns + size)]
                && Moved(old(memory), memory, ns, old(regions[i].start), size + 1)
                && exists j :: FirstPlace(old(regions), i, memoryMap, j, ns)
    {
      var mstart, mend := regions[i].start, regions[i].end;
      var msize := mend - mstart + 1;
      var j := 0;
      while j < |memoryMap|
        invariant 0 <= j <= |memoryMap| && regions == old(regions) && memory == old(memory)
        invariant forall m | 0 <= m < j && Usable(memoryMap[m], msize - 1) ::
                    NoCandidate(regions, i, memoryMap[m], msize - 1)
      {
        if memoryMap[j].conventional && memoryMap[j].high - memoryMap[j].low >= msize {
          var ns, found := FindPlace(regions, i, memoryMap[j]);
          if found {
            memory := Memmove(memory, ns, mstart, msize);
            regions := regions[i := regions[i].(start := ns, end := ns + msize - 1)];
            assert FirstPlace(old(regions), i, memoryMap, j, ns);
            return false;
          }
        }
        j := j + 1;
      }
      panic := true;
    }

    /** loader_add_region: fits is the verdict of mem_check. Unless it panics, all regions in use are disjoint
        afterwards, each old one keeps its bytes wherever it was moved to, and the bytes under the new one are
        unchanged. */
    method AddRegion(name: string, start: int, end: int, movable: bool, fits: bool) returns (panic: bool, region: int)
      requires Valid()
      modifies this`regions, this`memory
      ensures !panic ==> Valid() && start < end && fits
      ensures !panic ==> 0 <= region < |regions| && regions[region] == Region(name, start, end, movable, true)
      ensures !panic ==> region < |old(regions)| ==> !old(regions)[region].used
      ensures !panic ==> |regions| == if region < |old(regions)| then |old(regions)| else |old(regions)| + 1
      ensures !panic ==> forall k | 0 <= k < |old(regions)| && k != region ::
                           && Kept(old(memory), old(regions)[k], memory, regions[k])
                           && Placed(memoryMap, old(regions)[k], regions[k])
      ensures !panic ==> forall x | start <= x < end :: Rd(memory, x) == Rd(old(memory), x)
      ensures !panic ==> forall k | 0 <= k < |old(regions)| && k != region ::
                           MovedIfNeeded(old(regions)[k], regions[k], start, end)
      ensures panic <==>
                || start >= end || !fits
                || (|old(regions)| == MAX_REGIONS && forall k | 0 <= k < |old(regions)| :: old(regions)[k].used)
                || (region != -1 && AnyStuck(regions, region, memoryMap))
    {
      hide Moved, Candidate, Kept, Placed, FreeFor, MovedIfNeeded, AnyStuck;
      if start >= end || !fits {
        return true, -1;
      }
      region := Slot();
      if region == -1 {
        return true, -1;
      }
      var added := Region(name, start, end, movable, true);
      regions := if region == |regions| then regions + [added] else regions[region := added];
      ghost var first := regions;
      panic := MakeRoom(region);
      if !panic {
        RoomMade(first, old(memory), regions, memory, memoryMap, region);
      }
    }

    /** The scan for conflicts with the new region. */
    method MakeRoom(region: int) returns (panic: bool)
      requires Proper(regions) && 0 <= region < |regions| && regions[region].used && OthersApart(regions, region)
      modifies this`regions, this`memory
      ensures !panic ==>
                && |regions| == |old(regions)| && Proper(regions) && PairwiseApart(regions)
                && regions[region] == old(regions)[region]
      ensures !panic ==> KeptAll(old(memory), old(regions), memory, regions, memoryMap)
      ensures !panic ==> forall k | 0 <= k < |regions| && k != region ::
                MovedIfNeeded(old(regions)[k], regions[k], regions[region].start, regions[region].end)
      ensures panic <==> AnyStuck(regions, region, memoryMap)
    {
      hide Moved, Candidate, Kept, Placed, FreeFor, KeptAll, Usable, NowhereToGo;
      var added := regions[region];
      KeptAtFirst(memory, regions, memoryMap);
      var i := 0;
      while i < |regions|
        invariant 0 <= i <= |regions| == |old(regions)| && Proper(regions) && regions[region] == added
        invariant OthersApart(regions, region)
        invariant forall k | 0 <= k < i && k != region :: Apart(regions[k], added)
        invariant KeptAll(old(memory), old(regions), memory, regions, memoryMap)
        invariant forall k | i <= k < |regions| :: regions[k] == old(regions)[k]
        invariant forall k | 0 <= k < i && k != region ::
                    MovedIfNeeded(old(regions)[k], regions[k], added.start, added.end)
        invariant forall k | 0 <= k < i && k != region :: !Conflicts(regions[k], added.start, added.end)
      {
        if i != region && Conflicts(regions[i], added.start, added.end) {
          if !regions[i].movable {
            assert Stuck(regions, region, memoryMap, i);
            return true;
          }
          panic := MoveAway(i, region, old(memory), old(regions));
          if panic {
            assert Stuck(regions, region, memoryMap, i);
            return;
          }
        }
        i := i + 1;
      }
      panic := false;
    }

    /** Relocates region i, with what that means for the table. */
    method MoveAway(i: int, ghost region: int, ghost memory0: Memory, ghost regions0: seq<Region>) returns (panic: bool)
      requires Proper(regions) && 0 <= i < |regions| && i != region && regions[i].used && OthersApart(regions, region)
      requires 0 <= region < |regions| && regions[region].used
      requires KeptAll(memory0, regions0, memory, regions, memoryMap)
      modifies this`regions, this`memory
      ensures !panic ==> |regions| == |old(regions)| && Proper(regions) && OthersApart(regions, region)
      ensures !panic ==> forall k | 0 <= k < |regions| && k != i ::
                regions[k] == old(regions)[k] && Apart(regions[i], regions[k])
      ensures !panic ==> KeptAll(memory0, regions0, memory, regions, memoryMap)
      ensures !panic ==> !Meets(regions[i].start, regions[i].end, regions[region].start, regions[region].end)
      ensures panic ==> regions == old(regions) && NowhereToGo(regions, i, memoryMap)
    {
      hide Moved, Candidate, Kept, Placed, FreeFor, KeptAll, Apart, NowhereToGo;
      ghost var before, now := regions, memory;
      panic := Relocate(i);
      if !panic {
        ghost var ns, size := regions[i].start, before[i].end - before[i].start;
        ghost var j :| FirstPlace(before, i, memoryMap, j, ns);
        CandidateFacts(before, i, memoryMap[j], size, ns);
        ClearOf(before, i, ns, ns + size, region);
        KeptMore(memory0, regions0, now, memory, before, memoryMap, i, ns, memoryMap[j]);
        MovedApart(before, region, i, ns);
      }
    }

    /** loader_remove_region */
    method RemoveRegion(name: string) returns (panic: bool)
      requires Valid()
      modifies this`regions
      ensures Valid() && |regions| == |old(regions)|
      ensures forall k | 0 <= k < |regions| ::
                regions[k] == if old(regions)[k].name == name then old(regions)[k].(used := false) else old(regions)[k]
      ensures panic <==> forall k | 0 <= k < |regions| :: old(regions)[k].name != name
    {
      var i, found := 0, false;
      while i < |regions|
        invariant 0 <= i <= |regions| == |old(regions)|
        invariant forall k | 0 <= k < i ::
                    regions[k] ==
                      if old(regions)[k].name == name then old(regions)[k].(used := false) else old(regions)[k]
        invariant forall k | i <= k < |regions| :: regions[k] == old(regions)[k]
        invariant found <==> exists k :: 0 <= k < i && old(regions)[k].name == name
      {
        if regions[i].name == name {
          found := true;
          regions := regions[i := regions[i].(used := false)];
        }
        i := i + 1;
      }
      panic := !found;
    }
  }

  lemma KeptAtFirst(memory: Memory, rs: seq<Region>, memoryMap: seq<Desc>)
    ensures KeptAll(memory, rs, memory, rs, memoryMap)
  {
  }

  lemma RoomMade(first: seq<Region>, before: Memory, rs: seq<Region>, after: Memory, memoryMap: seq<Desc>, region: int)
    requires KeptAll(before, first, after, rs, memoryMap) && 0 <= region < |rs| && first[region] == rs[region]
               && rs[region].used
    ensures forall k | 0 <= k < |rs| :: Kept(before, first[k], after, rs[k]) && Placed(memoryMap, first[k], rs[k])
    ensures forall x | rs[region].start <= x < rs[region].end :: Rd(after, x) == Rd(before, x)
  {
    hide Kept, Placed;
    KeptBytes(before, after, rs[region]);
  }

  lemma KeptBytes(before: Memory, after: Memory, r: Region)
    requires Kept(before, r, after, r) && r.used
    ensures forall x | r.start <= x < r.end :: Rd(after, x) == Rd(before, x)
  {
    forall x | r.start <= x < r.end
      ensures Rd(after, x) == Rd(before, x)
    {
      assert SameByte(before, r, after, r, x - r.start);
      assert r.start + (x - r.start) == x;
    }
  }

  lemma CandidateFacts(rs: seq<Region>, i: int, d: Desc, size: int, c: int)
    requires Candidate(rs, i, d, size, c)
    ensures d.low <= c && c + size <= d.high && FreeFor(rs, i, c, c + size)
  {
  }

  lemma ClearOf(rs: seq<Region>, i: int, ns: int, last: int, k: int)
    requires FreeFor(rs, i, ns, last) && 0 <= k < |rs| && k != i && rs[k].used
    ensures !Meets(ns, last, rs[k].start, rs[k].end)
  {
  }

  /** All regions but the given one are disjoint. */
  ghost predicate OthersApart(rs: seq<Region>, region: int) {
    forall i, j | 0 <= i < |rs| && 0 <= j < |rs| && i != j && i != region && j != region :: Apart(rs[i], rs[j])
  }

  /** A region moved to a free place is apart from every other. */
  lemma MovedApart(rs: seq<Region>, region: int, i: int, ns: int)
    requires Proper(rs) && OthersApart(rs, region) && 0 <= i < |rs| && i != region && rs[i].used
    requires FreeFor(rs, i, ns, ns + (rs[i].end - rs[i].start))
    ensures var ss := rs[i := rs[i].(start := ns, end := ns + (rs[i].end - rs[i].start))];
            && Proper(ss) && OthersApart(ss, region)
            && forall k | 0 <= k < |ss| && k != i :: Apart(ss[i], ss[k]) && Apart(ss[k], ss[i])
  {
    var ss := rs[i := rs[i].(start := ns, end := ns + (rs[i].end - rs[i].start))];
    forall k | 0 <= k < |ss| && k != i
      ensures Apart(ss[i], ss[k]) && Apart(ss[k], ss[i])
    {
      assert rs[k].used ==> !Meets(ns, ns + (rs[i].end - rs[i].start), rs[k].start, rs[k].end);
    }
  }
}
