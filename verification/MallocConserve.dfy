/** Conservation: every byte obtained from the system is accounted for by exactly one chunk. */
module MallocConserve {
  import opened MallocShape

  /* ---------- sums over finite maps ---------- */

  ghost function Pick<T>(s: set<T>): (a: T)
    requires s != {}
    ensures a in s
  {
    var a :| a in s; a
  }

  ghost function Total(v: map<int, int>): int {
    if v.Keys == {} then 0 else var a := Pick(v.Keys); v[a] + Total(v - {a})
  }

  lemma {:induction false} TotalPick(v: map<int, int>, a: int)
    requires a in v
    ensures Total(v) == v[a] + Total(v - {a})
    decreases |v|
  {
    var c := Pick(v.Keys);
    if c != a {
      TotalPick(v - {c}, a);
      TotalPick(v - {a}, c);
      assert v - {c} - {a} == v - {a} - {c};
    }
  }

  /** Bytes in the chunks whose kind is one of ks. */
  ghost function Bytes(sh: Shape, ks: set<Kind>): int {
    if sh.Keys == {} then 0
    else
      var a := Pick(sh.Keys);
      (if sh[a].kind in ks then sh[a].size else 0) + Bytes(sh - {a}, ks)
  }

  lemma {:induction false} BytesPick(sh: Shape, ks: set<Kind>, a: int)
    requires a in sh
    ensures Bytes(sh, ks) == (if sh[a].kind in ks then sh[a].size else 0) + Bytes(sh - {a}, ks)
    decreases |sh|
  {
    var c := Pick(sh.Keys);
    if c != a {
      BytesPick(sh - {c}, ks, a);
      BytesPick(sh - {a}, ks, c);
      assert sh - {c} - {a} == sh - {a} - {c};
    }
  }

  lemma {:induction false} BytesSplit(sh: Shape, k1: set<Kind>, k2: set<Kind>)
    requires k1 !! k2
    ensures Bytes(sh, k1 + k2) == Bytes(sh, k1) + Bytes(sh, k2)
    decreases |sh|
  {
    if sh.Keys != {} {
      var a := Pick(sh.Keys);
      BytesPick(sh, k1, a);
      BytesPick(sh, k2, a);
      BytesPick(sh, k1 + k2, a);
      BytesSplit(sh - {a}, k1, k2);
    }
  }

  const Everything: set<Kind> := {Live, Fast, Free, Top, Sliver, Fence}

  /* ---------- the chunks of one segment ---------- */

  ghost predicate IsFrom(sh: Shape, part: Shape, segs: Segs, c: int, b: int, a: int) {
    (a in part <==> a in sh && sh[a].base == b && c <= a) && (a in part ==> part[a] == sh[a])
  }

  /** The chunks of segment b from address c on take up exactly the bytes from c to its end. */
  lemma {:induction false} SegmentBytes(sh: Shape, part: Shape, segs: Segs, b: int, c: int)
    requires WellFormed(sh, segs) && b in segs
    requires c == segs[b] || (c in sh && sh[c].base == b)
    requires forall a :: IsFrom(sh, part, segs, c, b, a)
    ensures Bytes(part, Everything) == segs[b] - c
    decreases segs[b] - c, |part|
  {
    if c == segs[b] {
      forall a ensures a !in part {
        assert IsFrom(sh, part, segs, c, b, a) && ChunkAt(sh, segs, a);
      }
    } else {
      assert ChunkAt(sh, segs, c) && NextAt(sh, c) && IsFrom(sh, part, segs, c, b, c);
      var next, rest := c + sh[c].size, part - {c};
      forall a ensures IsFrom(sh, rest, segs, next, b, a) {
        assert IsFrom(sh, part, segs, c, b, a) && Apart(sh, c, a);
      }
      SegmentBytes(sh, rest, segs, b, next);
      BytesPick(part, Everything, c);
    }
  }

  ghost predicate InOne(sh: Shape, x: Shape, y: Shape, a: int) {
    && (a in sh <==> a in x || a in y) && !(a in x && a in y)
    && (a in x ==> x[a] == sh[a]) && (a in y ==> y[a] == sh[a])
  }

  lemma {:induction false} BytesDisjoint(sh: Shape, x: Shape, y: Shape, ks: set<Kind>)
    requires forall a :: InOne(sh, x, y, a)
    ensures Bytes(sh, ks) == Bytes(x, ks) + Bytes(y, ks)
    decreases |y|
  {
    if y.Keys == {} {
      forall a ensures a in sh <==> a in x { assert InOne(sh, x, y, a); }
      forall a | a in sh ensures sh[a] == x[a] { assert InOne(sh, x, y, a); }
      assert sh == x;
    } else {
      var a := Pick(y.Keys);
      assert InOne(sh, x, y, a);
      var sh', y' := sh - {a}, y - {a};
      forall c ensures InOne(sh', x, y', c) { assert InOne(sh, x, y, c); }
      BytesDisjoint(sh', x, y', ks);
      BytesPick(sh, ks, a);
      BytesPick(y, ks, a);
    }
  }

  /* ---------- the whole arena ---------- */

  /** Bytes between the bases and the ends of all segments. */
  ghost function SegBytes(segs: Segs): int {
    if segs.Keys == {} then 0 else var b := Pick(segs.Keys); segs[b] - b + SegBytes(segs - {b})
  }

  lemma {:induction false} SegBytesPick(segs: Segs, b: int)
    requires b in segs
    ensures SegBytes(segs) == segs[b] - b + SegBytes(segs - {b})
    decreases |segs|
  {
    var c := Pick(segs.Keys);
    if c != b {
      SegBytesPick(segs - {c}, b);
      SegBytesPick(segs - {b}, c);
      assert segs - {c} - {b} == segs - {b} - {c};
    }
  }

  lemma SegBytesMapped(segs: Segs, b: int, e: int)
    requires b !in segs
    ensures SegBytes(segs[b := e]) == SegBytes(segs) + e - b
  {
    SegBytesPick(segs[b := e], b);
    assert segs[b := e] - {b} == segs;
  }

  /** Without one of its segments the arena is still well formed. */
  lemma DropSegment(sh: Shape, segs: Segs, b: int, s: set<int>)
    requires WellFormed(sh, segs) && b in segs
    requires forall a :: a in s <==> a in sh && sh[a].base == b
    ensures WellFormed(sh - s, segs - {b})
  {
    var t, g := sh - s, segs - {b};
    forall a ensures ChunkAt(t, g, a) { assert ChunkAt(sh, segs, a); }
    forall x, y ensures Apart(t, x, y) { assert Apart(sh, x, y); }
    forall a ensures NextAt(t, a) { assert NextAt(sh, a); }
    forall c ensures SegAt(t, g, c) { assert SegAt(sh, segs, c); }
    forall c, d ensures SegsApart(g, c, d) { assert SegsApart(segs, c, d); }
  }

  /** The chunks of a well-formed arena take up exactly the mapped bytes. */
  lemma {:induction false} ChunksFillSegments(sh: Shape, segs: Segs)
    requires WellFormed(sh, segs)
    ensures Bytes(sh, Everything) == SegBytes(segs)
    decreases |segs|
  {
    if segs.Keys == {} {
      forall a ensures a !in sh { assert ChunkAt(sh, segs, a); }
    } else {
      var b := Pick(segs.Keys);
      var s := set a | a in sh && sh[a].base == b;
      var part := sh - (sh.Keys - s);
      assert SegAt(sh, segs, b);
      forall a ensures IsFrom(sh, part, segs, b, b, a) { assert ChunkAt(sh, segs, a); }
      SegmentBytes(sh, part, segs, b, b);
      DropSegment(sh, segs, b, s);
      ChunksFillSegments(sh - s, segs - {b});
      var rest := sh - s;
      forall a ensures InOne(sh, rest, part, a) {}
      BytesDisjoint(sh, rest, part, Everything);
      SegBytesPick(segs, b);
    }
  }

  lemma {:induction false} ViewTotal(sh: Shape, v: map<int, int>, k: Kind)
    requires forall a :: Holds(v, sh, a, k)
    ensures Bytes(sh, {k}) == Total(v)
    decreases |sh|
  {
    if sh.Keys == {} {
      forall a ensures a !in v { assert Holds(v, sh, a, k); }
    } else {
      var a := Pick(sh.Keys);
      var t, w := sh - {a}, v - {a};
      assert Holds(v, sh, a, k);
      forall c ensures Holds(w, t, c, k) { assert Holds(v, sh, c, k); }
      ViewTotal(t, w, k);
      BytesPick(sh, {k}, a);
      if a in v {
        TotalPick(v, a);
      } else {
        assert w == v;
      }
    }
  }

  lemma {:induction false} TopBytes(sh: Shape, top: int)
    requires forall a | a in sh && sh[a].kind.Top? :: a == top
    ensures Bytes(sh, {Top}) == TopSize(sh, top)
    decreases |sh|
  {
    if sh.Keys != {} {
      var a := Pick(sh.Keys);
      TopBytes(sh - {a}, top);
      BytesPick(sh, {Top}, a);
    }
  }

  /** Bytes lost to fenceposts, and to the eight bytes in front of some of them. */
  ghost function Waste(sh: Shape): int {
    Bytes(sh, {Sliver, Fence})
  }

  /** Bytes held by the user, by the fastbins, by the lists and by top, plus fencepost waste, are the
      bytes obtained from the system. */
  lemma Conservation(sh: Shape, segs: Segs, top: int, v: Views)
    requires WellFormed(sh, segs) && OneTop(sh, top) && Viewed(sh, v)
    ensures Total(v.lives) + Total(v.fasts) + Total(v.frees) + TopSize(sh, top) + Waste(sh) == SegBytes(segs)
  {
    ChunksFillSegments(sh, segs);
    forall a ensures Holds(v.lives, sh, a, Live) { assert ViewAt(sh, v, a); }
    forall a ensures Holds(v.fasts, sh, a, Fast) { assert ViewAt(sh, v, a); }
    forall a ensures Holds(v.frees, sh, a, Free) { assert ViewAt(sh, v, a); }
    ViewTotal(sh, v.lives, Live);
    ViewTotal(sh, v.fasts, Fast);
    ViewTotal(sh, v.frees, Free);
    TopBytes(sh, top);
    BytesSplit(sh, {Live}, {Fast});
    BytesSplit(sh, {Live} + {Fast}, {Free});
    BytesSplit(sh, {Live} + {Fast} + {Free}, {Top});
    BytesSplit(sh, {Live} + {Fast} + {Free} + {Top}, {Sliver, Fence});
    assert {Live} + {Fast} + {Free} + {Top} + {Sliver, Fence} == Everything;
  }
}
