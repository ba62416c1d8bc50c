/** The packed guard and subpage of a capability. */
module AddrTrans {
  import opened BitWords

  /** guard_subpage (22 bits), subpages_log2 (4 bits) and gdepth (6 bits) */
  datatype Trans = Trans(guardSubpage: nat, log2: nat, gdepth: nat)

  predicate InFields(t: Trans) {
    t.guardSubpage < Pow2(22) && t.log2 < 16 && t.gdepth < 64
  }

  /** Position of the highest set bit, counted from 1; 0 for 0. */
  function Msb(x: nat): nat {
    if x == 0 then 0 else Log2(x) + 1
  }

  function Subpages(t: Trans): nat {
    Pow2(t.log2)
  }

  function Subpage(t: Trans): nat {
    And(t.guardSubpage, Subpages(t) - 1)
  }

  function Guard(t: Trans): int {
    t.guardSubpage / Pow2(t.log2)
  }

  function GuardBits(t: Trans): nat {
    t.gdepth
  }

  /** The tests of CAP_ADDR_TRANS_SET_GUARD_SUBPAGE, all of which must pass. */
  predicate Settable(guard: nat, gdepth: nat, subpage: int, subpages: int) {
    && subpages > 0
    && And(subpages, subpages - 1) == 0
    && Msb(subpages) - 1 <= 8
    && 0 <= subpage < subpages
    && Msb(guard) <= gdepth
    && Msb(guard) + (Msb(subpages) - 1) <= 22
  }

  /** What it then stores; gdepth goes into six bits. */
  function Packed(guard: nat, gdepth: nat, subpage: nat, subpages: nat): Trans
    requires subpages > 0
  {
    var log2 := Msb(subpages) - 1;
    Trans(Or(Shl(guard, log2), subpage), log2, gdepth % 64)
  }

  lemma MsbBound(x: nat)
    ensures x < Pow2(Msb(x)) && (x > 0 ==> Msb(x) >= 1 && Pow2(Msb(x) - 1) <= x)
  {
    if x > 0 {
      Log2Brackets(x);
    }
  }

  lemma SubpagesIsPower(subpages: nat)
    requires subpages > 0 && And(subpages, subpages - 1) == 0
    ensures subpages == Pow2(Msb(subpages) - 1)
  {
    OneBit(subpages);
  }

  lemma QuotientAndRest(guard: nat, p: nat, subpage: nat)
    requires p >= 1 && subpage < p
    ensures (guard * p + subpage) % p == subpage && (guard * p + subpage) / p == guard
  {
    var x := guard * p + subpage;
    ModUnique(x, p, guard, subpage);
    assert x == p * (x / p) + x % p;
    Cancel(p, x / p, guard);
  }

  /** Whatever can be set is read back unchanged by the accessors. */
  lemma SetReadsBack(guard: nat, gdepth: nat, subpage: nat, subpages: nat)
    requires Settable(guard, gdepth, subpage, subpages) && gdepth < 64
    ensures var t := Packed(guard, gdepth, subpage, subpages);
            && InFields(t) && t.log2 <= 8 && t.guardSubpage == guard * subpages + subpage
            && Guard(t) == guard && GuardBits(t) == gdepth && Subpage(t) == subpage && Subpages(t) == subpages
  {
    hide And, Or, Shl, Pow2;
    var k := Msb(subpages) - 1;
    var t := Packed(guard, gdepth, subpage, subpages);
    SubpagesIsPower(subpages);
    OrDisjoint(guard, k, subpage);
    ShlIsTimes(guard, k);
    QuotientAndRest(guard, Pow2(k), subpage);
    AndLowMask(t.guardSubpage, k);
    PackedBound(guard, k, subpage);
  }

  lemma PackedBound(guard: nat, k: nat, subpage: nat)
    requires Msb(guard) + k <= 22 && subpage < Pow2(k)
    ensures guard * Pow2(k) + subpage < Pow2(22)
  {
    MsbBound(guard);
    Pow2Add(Msb(guard), k);
    Pow2Monotone(Msb(guard) + k, 22);
    hide Pow2, Msb;
    BelowProduct(guard, Pow2(Msb(guard)), Pow2(k), subpage);
  }

  lemma BelowProduct(x: nat, m: nat, p: nat, y: nat)
    requires x < m && y < p
    ensures x * p + y < m * p
  {
    assert (x + 1) * p <= m * p;
    assert (x + 1) * p == x * p + p;
  }

  lemma Cancel(p: nat, x: int, y: int)
    requires p >= 1 && p * x == p * y
    ensures x == y
  {
    assert p * (x - y) == 0;
  }

  /* ---------- the window ---------- */

  /** The first slot of the designated subpage and the slot after its last, out of 256. */
  function Start(t: Trans): int {
    Subpage(t) * (256 / Subpages(t))
  }

  function End(t: Trans): int {
    (Subpage(t) + 1) * (256 / Subpages(t))
  }

  predicate Designates(t: Trans, slot: int) {
    Start(t) <= slot < End(t)
  }

  ghost predicate Within(t: Trans, u: Trans) {
    forall slot :: Designates(t, slot) ==> Designates(u, slot)
  }

  lemma SubpageBelow(t: Trans)
    ensures Subpage(t) < Subpages(t)
  {
    AndLowMask(t.guardSubpage, t.log2);
  }

  /** CAP_ADDR_TRANS_SUBPAGE_SIZE and CAP_ADDR_TRANS_SUBPAGE_OFFSET */
  function SubpageSize(t: Trans): nat
    requires t.log2 <= 8
  {
    Pow2(8 - t.log2)
  }

  function SubpageOffset(t: Trans): int
    requires t.log2 <= 8
  {
    Subpage(t) * SubpageSize(t)
  }

  /** A valid capability designates a non-empty window of the 256 slots, the one of its offset and size. */
  lemma WindowInPage(t: Trans)
    requires t.log2 <= 8
    ensures 0 <= Start(t) < End(t) <= 256
    ensures Start(t) == SubpageOffset(t) && End(t) - Start(t) == SubpageSize(t)
  {
    hide Subpage, Pow2;
    SubpageBelow(t);
    var p, q := Pow2(t.log2), Pow2(8 - t.log2);
    Pow2Add(t.log2, 8 - t.log2);
    SmallPowers();
    DivideEvenly(256, p, q);
    Scaled(Subpage(t), p, q);
  }

  lemma DivideEvenly(n: nat, p: nat, q: nat)
    requires p >= 1 && n == p * q
    ensures n / p == q
  {
    ModUnique(n, p, q, 0);
    assert n == p * (n / p) + n % p;
    Cancel(p, n / p, q);
  }

  lemma Scaled(s: nat, p: nat, q: nat)
    requires s < p && q >= 1
    ensures 0 <= s * q < (s + 1) * q <= p * q && (s + 1) * q - s * q == q
  {
    assert (s + 1) * q == s * q + q;
    assert (s + 1) * q <= p * q;
  }
}

/** Capabilities and copying them. */
module Capability {
  import opened BitWords
  import opened AddrTrans

  datatype Type = Void | Page | RPage | CapPage | RCapPage | Folio | Activity | ActivityControl | Thread

  datatype Policy = Policy(discardable: bool, priority: int)

  datatype Cap = Cap(oid: int, version: int, policy: Policy, trans: Trans, typ: Type)

  datatype Flags = Flags(subpage: bool, guard: bool, sourceGuard: bool, weaken: bool, discardable: bool, priority: bool)

  /* ---------- types ---------- */

  function Weaken(t: Type): Type {
    match t
    case Page => RPage
    case RPage => RPage
    case CapPage => RCapPage
    case RCapPage => RCapPage
    case ActivityControl => Activity
    case Activity => Activity
    case _ => Void
  }

  function Strengthen(t: Type): Type {
    match t
    case Page => Page
    case RPage => Page
    case CapPage => CapPage
    case RCapPage => CapPage
    case ActivityControl => ActivityControl
    case Activity => ActivityControl
    case _ => t
  }

  predicate Compatible(a: Type, b: Type) {
    || a == b
    || (a == Page && b == RPage) || (a == RPage && b == Page)
    || (a == CapPage && b == RCapPage) || (a == RCapPage && b == CapPage)
    || (a == Activity && b == ActivityControl) || (a == ActivityControl && b == Activity)
  }

  /** cap_type_weak_p */
  predicate Weak(t: Type) {
    t == RPage || t == RCapPage || t == Activity
  }

  /** What holding a capability of some type permits. */
  datatype Right =
    | ReadPage | WritePage
    | ReadSlots | WriteSlots
    | AllocateFolio
    | UseActivity | ControlActivity
    | ControlThread

  function Rights(t: Type): set<Right> {
    match t
    case Void => {}
    case Page => {ReadPage, WritePage}
    case RPage => {ReadPage}
    case CapPage => {ReadSlots, WriteSlots}
    case RCapPage => {ReadSlots}
    case Folio => {AllocateFolio}
    case Activity => {UseActivity}
    case ActivityControl => {UseActivity, ControlActivity}
    case Thread => {ControlThread}
  }

  /** The rights to change an object. */
  predicate Changes(r: Right) {
    r != ReadPage && r != ReadSlots && r != UseActivity
  }

  /** The weakened type is the strongest of the weak types that permit nothing new, or void if there is none. It
      permits no change, and a weak type stays as it is. */
  lemma WeakenIsGreatestWeak(t: Type)
    ensures Weak(Weaken(t)) || Weaken(t) == Void
    ensures Rights(Weaken(t)) <= Rights(t) && forall r | r in Rights(Weaken(t)) :: !Changes(r)
    ensures forall u | Weak(u) && Rights(u) <= Rights(t) :: Rights(u) <= Rights(Weaken(t))
    ensures Weak(t) ==> Weaken(t) == t
  {
    forall u | Weak(u) && Rights(u) <= Rights(t)
      ensures Rights(u) <= Rights(Weaken(t))
    {
      assert u == RPage ==> ReadPage in Rights(u);
      assert u == RCapPage ==> ReadSlots in Rights(u);
      assert u == Activity ==> UseActivity in Rights(u);
    }
  }

  /** The strong type is the least of the other types that permits as much, and a type that is not weak stays. */
  lemma StrengthenIsLeastStrong(t: Type)
    ensures !Weak(Strengthen(t)) && Rights(t) <= Rights(Strengthen(t))
    ensures forall u | !Weak(u) && Rights(t) <= Rights(u) :: Rights(Strengthen(t)) <= Rights(u)
    ensures !Weak(t) ==> Strengthen(t) == t
  {
    forall u | !Weak(u) && Rights(t) <= Rights(u)
      ensures Rights(Strengthen(t)) <= Rights(u)
    {
      assert t == RPage ==> ReadPage in Rights(t);
      assert t == RCapPage ==> ReadSlots in Rights(t);
      assert t == Activity ==> UseActivity in Rights(t);
    }
  }

  /** Two types can designate the same object exactly when they have the same strong type, which is when they share a
      right or are equal; weakening or strengthening once more changes nothing. */
  lemma TypesLattice(a: Type, b: Type)
    ensures Compatible(a, b) <==> Strengthen(a) == Strengthen(b)
    ensures Compatible(a, b) <==> a == b || Rights(a) * Rights(b) != {}
    ensures Weaken(Weaken(a)) == Weaken(a) && Strengthen(Strengthen(a)) == Strengthen(a)
    ensures Weaken(a) != Void ==> Strengthen(Weaken(a)) == Strengthen(a) && Weaken(Strengthen(a)) == Weaken(a)
  {
    if a != b && Compatible(a, b) {
      assert ReadPage in Rights(a) * Rights(b) || ReadSlots in Rights(a) * Rights(b)
          || UseActivity in Rights(a) * Rights(b);
    }
  }

  /* ---------- copying ---------- */

  /** The subpage specification asked for narrows the source's. */
  predicate Narrows(source: Cap, p: Trans) {
    && (Subpages(p) != 1 ==> source.typ == CapPage || source.typ == RCapPage)
    && Start(source.trans) <= Start(p) && End(p) <= End(source.trans)
  }

  /** Guard and number of guard bits of the copy. */
  function ChosenGuard(target: Cap, source: Cap, flags: Flags, p: Trans): Trans {
    if flags.guard then p else if flags.sourceGuard then source.trans else target.trans
  }

  /** Subpage of the copy. */
  function ChosenSubpage(source: Cap, flags: Flags, p: Trans): Trans {
    if flags.subpage then p else source.trans
  }

  ghost predicate WellFormed(c: Cap) {
    InFields(c.trans) && c.trans.log2 <= 8
  }

  /** The copy is allowed exactly in these cases. */
  ghost predicate Allowed(target: Cap, source: Cap, flags: Flags, p: Trans) {
    var g, s := ChosenGuard(target, source, flags, p), ChosenSubpage(source, flags, p);
    && (flags.subpage ==> Narrows(source, p))
    && s.log2 <= 8
    && Guard(g) >= 0 && Msb(Guard(g)) <= g.gdepth && Msb(Guard(g)) + s.log2 <= 22
  }

  /** What the copy is: the source's object and window or a part of it, with the chosen guard. */
  ghost predicate IsCopy(copy: Cap, target: Cap, source: Cap, flags: Flags, p: Trans, policy: Policy) {
    var g, s := ChosenGuard(target, source, flags, p), ChosenSubpage(source, flags, p);
    && copy.oid == source.oid && copy.version == source.version
    && copy.typ == (if flags.weaken then Weaken(source.typ) else source.typ)
    && copy.policy.discardable == (if flags.discardable then policy.discardable else source.policy.discardable)
    && copy.policy.priority == (if flags.priority then policy.priority else source.policy.priority)
    && Guard(copy.trans) == Guard(g) && GuardBits(copy.trans) == GuardBits(g)
    && Start(copy.trans) == Start(s) && End(copy.trans) == End(s)
    && WellFormed(copy)
  }

  lemma GuardIsNat(t: Trans)
    ensures Guard(t) >= 0
  {
    hide Pow2;
    QuotientIsNat(t.guardSubpage, Pow2(t.log2));
  }

  lemma QuotientIsNat(x: nat, p: nat)
    requires p >= 1
    ensures x / p >= 0
  {
    var q := x / p;
    assert x == p * q + x % p;
    assert q <= -1 ==> p * q <= p * -1;
  }

  lemma PowerOfTwo(k: nat)
    ensures And(Pow2(k), Pow2(k) - 1) == 0 && Msb(Pow2(k)) == k + 1
  {
    hide And, Log2, Pow2;
    AndLowMask(Pow2(k), k);
    SelfMod(Pow2(k));
    Log2Unique(Pow2(k), k);
  }

  lemma SelfMod(p: nat)
    requires p >= 1
    ensures p % p == 0
  {
    ModUnique(p, p, 1, 0);
  }

  /** cap_copy_x, in terms of the tests it makes. */
  lemma SettableIff(g: Trans, s: Trans)
    ensures Guard(g) >= 0
    ensures Settable(Guard(g), g.gdepth, Subpage(s), Subpages(s)) <==>
            s.log2 <= 8 && Msb(Guard(g)) <= g.gdepth && Msb(Guard(g)) + s.log2 <= 22
  {
    GuardIsNat(g);
    PowerOfTwo(s.log2);
    SubpageBelow(s);
    hide Subpage, And, Msb, Guard;
  }

  lemma SameWindow(t: Trans, u: Trans)
    requires Subpage(t) == Subpage(u) && Subpages(t) == Subpages(u)
    ensures Start(t) == Start(u) && End(t) == End(u)
  {
  }

  class Slot {
    var cap: Cap

    constructor (cap: Cap)
      ensures this.cap == cap
    {
      this.cap := cap;
    }

    /** cap_copy_x: copies source into this slot, possibly weakened, with a new guard or a narrower window. A
        refused copy leaves the slot as it was. */
    method CopyX(source: Cap, flags: Flags, p: Trans, policy: Policy) returns (ok: bool)
      requires InFields(source.trans) && InFields(p) && InFields(cap.trans)
      modifies this
      ensures ok <==> Allowed(old(cap), source, flags, p)
      ensures ok ==> IsCopy(cap, old(cap), source, flags, p, policy)
      ensures !ok ==> cap == old(cap)
    {
      hide Subpage, Guard, And, Msb, Start, End, Packed, Pow2, Settable;
      var subpage, subpages := Subpage(source.trans), Subpages(source.trans);
      if flags.subpage {
        if Subpages(p) != 1 && source.typ != CapPage && source.typ != RCapPage {
          return false;
        }
        if !(Start(source.trans) <= Start(p) && End(p) <= End(source.trans)) {
          return false;
        }
        subpage, subpages := Subpage(p), Subpages(p);
      }
      var guard, gbits := Guard(cap.trans), GuardBits(cap.trans);
      if flags.guard {
        guard, gbits := Guard(p), GuardBits(p);
      } else if flags.sourceGuard {
        guard, gbits := Guard(source.trans), GuardBits(source.trans);
      }
      ghost var g, s := ChosenGuard(cap, source, flags, p), ChosenSubpage(source, flags, p);
      SettableIff(g, s);
      if !Settable(guard, gbits, subpage, subpages) {
        return false;
      }
      SetReadsBack(guard, gbits, subpage, subpages);
      var trans := Packed(guard, gbits, subpage, subpages);
      SameWindow(trans, s);
      cap := source.(trans := trans);
      if flags.weaken {
        cap := cap.(typ := Weaken(cap.typ));
      }
      if flags.discardable {
        cap := cap.(policy := cap.policy.(discardable := policy.discardable));
      }
      if flags.priority {
        cap := cap.(policy := cap.policy.(priority := policy.priority));
      }
      ok := true;
    }
  }

  /* ---------- chains of copies ---------- */

  /** One copy after another: each is made from the one before it. */
  ghost predicate Chain(caps: seq<Cap>) {
    |caps| > 0 && forall i | 0 <= i < |caps| - 1 :: CopyOf(caps[i], caps[i + 1])
  }

  ghost predicate CopyOf(source: Cap, copy: Cap) {
    exists target, flags, p, policy ::
      Allowed(target, source, flags, p) && IsCopy(copy, target, source, flags, p, policy)
  }

  lemma CopyNarrows(source: Cap, copy: Cap)
    requires CopyOf(source, copy)
    ensures copy.oid == source.oid && copy.version == source.version && WellFormed(copy)
    ensures copy.typ == source.typ || copy.typ == Weaken(source.typ)
    ensures Rights(copy.typ) <= Rights(source.typ)
    ensures Start(source.trans) <= Start(copy.trans) && End(copy.trans) <= End(source.trans)
  {
    hide Start, End, Guard, Msb, Rights, Weaken;
    WeakenIsGreatestWeak(source.typ);
    var target, flags, p, policy :| Allowed(target, source, flags, p) && IsCopy(copy, target, source, flags, p, policy);
  }

  /** No chain of copies ever gains rights: the object stays the same, the window never leaves the original's,
      what the type permits the original's permits, and it is the original's or its weakened form. */
  lemma {:induction false} ChainNeverGains(caps: seq<Cap>)
    requires Chain(caps)
    ensures var first, last := caps[0], caps[|caps| - 1];
            && last.oid == first.oid && last.version == first.version
            && Rights(last.typ) <= Rights(first.typ) && (last.typ == first.typ || last.typ == Weaken(first.typ))
            && Start(first.trans) <= Start(last.trans) && End(last.trans) <= End(first.trans)
            && Within(last.trans, first.trans)
    ensures WellFormed(caps[0]) ==> WellFormed(caps[|caps| - 1])
    decreases |caps|
  {
    hide Start, End, CopyOf, WellFormed, Rights, Weaken;
    var n := |caps| - 1;
    if n > 0 {
      var shorter := caps[..n];
      forall i | 0 <= i < |shorter| - 1
        ensures CopyOf(shorter[i], shorter[i + 1])
      {
        assert CopyOf(caps[i], caps[i + 1]);
      }
      ChainNeverGains(shorter);
      assert CopyOf(caps[n - 1], caps[n - 1 + 1]);
      CopyNarrows(caps[n - 1], caps[n]);
      TypesLattice(caps[0].typ, caps[0].typ);
    }
  }
}
