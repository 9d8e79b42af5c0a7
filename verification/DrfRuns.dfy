/**
 Sequences of field operations: modifying a register again and again, and building a
 register value from zero by OR-ing terms together.
 */
module DrfRuns {
  import opened Bits
  import opened Drf
  import opened Options

  /** One use of a macro: field and number. */
  datatype Update = Update(field: Field, n: u64)

  function Last<T>(s: seq<T>): (r: T)
    requires s != []
  {
    s[|s| - 1]
  }

  function Front<T>(s: seq<T>): (r: seq<T>)
    requires s != []
  {
    s[..|s| - 1]
  }

  /** `v` after `NV_FLD_SET_DRF_NUM` for every update in turn. */
  function Run(us: seq<Update>, v: u64): (r: u64) {
    if us == [] then v else NvFldSetDrfNum(Last(us).field, Last(us).n, Run(Front(us), v))
  }

  // ------------------------------------------------------------- one bit of a run

  /** The last update that touches bit `i`. */
  function LastCover(us: seq<Update>, i: nat): (r: Option<Update>)
    ensures r.Some? ==> r.value in us && Covers(r.value.field, i)
    ensures r.None? ==> forall u :: u in us ==> !Covers(u.field, i)
  {
    if us == [] then None
    else if Covers(Last(us).field, i) then Some(Last(us))
    else LastCover(Front(us), i)
  }

  lemma {:induction false} RunBit(us: seq<Update>, v: u64, i: nat)
    ensures Bit(Run(us, v), i) ==
      match LastCover(us, i)
      case None => Bit(v, i)
      case Some(u) => Bit(u.n, i - u.field.lo % 32)
  {
    hide Bit, Covers, NvFldSetDrfNum;
    if us != [] {
      RunBit(Front(us), v, i);
      SetBits(Last(us).field, Last(us).n, Run(Front(us), v));
    }
  }

  // ------------------------------------------------------ a run is one masked write

  /** The OR of all shift-masks. */
  function ClearWord(us: seq<Update>): (r: u64) {
    if us == [] then 0 else Or64(ClearWord(Front(us)), NvFieldShiftMask(Last(us).field))
  }

  lemma {:induction false} ClearWordBit(us: seq<Update>, i: nat)
    ensures Bit(ClearWord(us), i) == LastCover(us, i).Some?
  {
    hide Bit, Covers, NvFieldShiftMask;
    if us == [] {
      BitZero(i);
    } else {
      ClearWordBit(Front(us), i);
      ShiftMaskBits(Last(us).field);
      Or64Bits(ClearWord(Front(us)), NvFieldShiftMask(Last(us).field));
    }
  }

  /**
   Every run, overlapping fields and malformed ranges included, is a single masked write
   `(v & ~C) | S` whose two constants do not depend on the starting word.
   */
  lemma CollapseToMaskedWrite(us: seq<Update>, v: u64)
    ensures Run(us, v) == Or64(And(v, Not64(ClearWord(us))), Run(us, 0))
    ensures And(Run(us, 0), Not64(ClearWord(us))) == 0
  {
    hide Bit, Run, ClearWord;
    var c, s := ClearWord(us), Run(us, 0);
    MaskedWriteBits(v, c, s);
    Not64Bits(c);
    BitsOfAnd(s, Not64(c));
    BitsOfZero();
    forall i: nat
      ensures Bit(Run(us, v), i) == Bit(Or64(And(v, Not64(c)), s), i)
      ensures Bit(And(s, Not64(c)), i) == Bit(0, i)
    {
      RunBit(us, v, i);
      RunBit(us, 0, i);
      ClearWordBit(us, i);
    }
    SameBits(Run(us, v), Or64(And(v, Not64(c)), s));
    SameBits(And(s, Not64(c)), 0);
  }

  ghost predicate SameEffect(us: seq<Update>, us': seq<Update>) {
    forall v: u64 :: Run(us, v) == Run(us', v)
  }

  /** The two constants of the masked write decide the effect of a run completely. */
  lemma EffectIsMaskAndValue(us: seq<Update>, us': seq<Update>)
    ensures SameEffect(us, us') <==> ClearWord(us) == ClearWord(us') && Run(us, 0) == Run(us', 0)
  {
    hide Bit, Run, ClearWord, LastCover;
    if SameEffect(us, us') {
      AllBits();
      Word64Bits(ClearWord(us));
      Word64Bits(ClearWord(us'));
      assert Run(us, 0) == Run(us', 0) && Run(us, ALL64) == Run(us', ALL64);
      forall i: nat ensures Bit(ClearWord(us), i) == Bit(ClearWord(us'), i) {
        BitZero(i);
        RunBit(us, 0, i);
        RunBit(us', 0, i);
        RunBit(us, ALL64, i);
        RunBit(us', ALL64, i);
        ClearWordBit(us, i);
        ClearWordBit(us', i);
      }
      SameBits(ClearWord(us), ClearWord(us'));
    } else {
      var v: u64 :| Run(us, v) != Run(us', v);
      CollapseToMaskedWrite(us, v);
      CollapseToMaskedWrite(us', v);
    }
  }

  // ------------------------------------------------------------ a run refines a map

  ghost predicate PairwiseDisjoint(fields: set<Field>) {
    forall f, g :: f in fields && g in fields && f != g ==> Disjoint(f, g)
  }

  ghost predicate Within(us: seq<Update>, fields: set<Field>) {
    forall u :: u in us ==> u.field in fields
  }

  /** What software sees of a register: the value of each field. */
  function View(fields: set<Field>, v: u64): (m: map<Field, nat>) {
    map f | f in fields :: NvDrfVal(f, v)
  }

  /** The same run on an ordinary map from fields to values. */
  function RunOnMap(us: seq<Update>, m: map<Field, nat>): (r: map<Field, nat>) {
    if us == [] then m
    else RunOnMap(Front(us), m)[Last(us).field := LowBits(Width(Last(us).field), Last(us).n)]
  }

  /** The number most recently written to `f`. */
  function LastWrite(us: seq<Update>, f: Field): (r: Option<u64>)
    ensures r.Some? ==> Update(f, r.value) in us
    ensures r.None? ==> forall u :: u in us ==> u.field != f
  {
    if us == [] then None
    else if Last(us).field == f then Some(Last(us).n)
    else LastWrite(Front(us), f)
  }

  lemma SetRefinesUpdate(fields: set<Field>, u: Update, v: u64)
    requires PairwiseDisjoint(fields) && u.field in fields
    ensures View(fields, NvFldSetDrfNum(u.field, u.n, v)) ==
            View(fields, v)[u.field := LowBits(Width(u.field), u.n)]
  {
    ReadBack(u.field, u.n, v);
    forall g | g in fields && g != u.field
      ensures NvDrfVal(g, NvFldSetDrfNum(u.field, u.n, v)) == NvDrfVal(g, v)
    {
      ReadOther(u.field, g, u.n, v);
    }
  }

  /** Over disjoint fields a register behaves as a map from field to value. */
  lemma {:induction false} RunRefinesMap(fields: set<Field>, us: seq<Update>, v: u64)
    requires PairwiseDisjoint(fields) && Within(us, fields)
    ensures View(fields, Run(us, v)) == RunOnMap(us, View(fields, v))
  {
    if us != [] {
      RunRefinesMap(fields, Front(us), v);
      SetRefinesUpdate(fields, Last(us), Run(Front(us), v));
    }
  }

  lemma {:induction false} MapHoldsLastWrite(us: seq<Update>, m: map<Field, nat>, f: Field)
    requires f in m
    ensures f in RunOnMap(us, m)
    ensures RunOnMap(us, m)[f] ==
      match LastWrite(us, f)
      case None => m[f]
      case Some(n) => LowBits(Width(f), n)
  {
    if us != [] {
      MapHoldsLastWrite(Front(us), m, f);
    }
  }

  /**
   Each field reads back the number last written to it, reduced to the size of the field,
   or its starting value; every bit outside the written fields is untouched.
   */
  lemma EachFieldReadsLastWrite(fields: set<Field>, us: seq<Update>, v: u64, f: Field)
    requires PairwiseDisjoint(fields) && Within(us, fields) && f in fields && WellFormed(f)
    ensures NvDrfVal(f, Run(us, v)) ==
      match LastWrite(us, f)
      case None => NvDrfVal(f, v)
      case Some(n) => LowBits(Size(f), n)
    ensures forall i: nat :: (forall u :: u in us ==> !Covers(u.field, i)) ==> Bit(Run(us, v), i) == Bit(v, i)
  {
    RunRefinesMap(fields, us, v);
    MapHoldsLastWrite(us, View(fields, v), f);
    assert View(fields, Run(us, v))[f] == NvDrfVal(f, Run(us, v));
    WidthAgainstSize(f);
    forall i: nat | forall u :: u in us ==> !Covers(u.field, i)
      ensures Bit(Run(us, v), i) == Bit(v, i)
    {
      RunBit(us, v, i);
    }
  }

  /** The map and the uncovered bits together are the whole register. */
  lemma ViewIsFaithful(fields: set<Field>, v: u64, v': u64)
    requires View(fields, v) == View(fields, v')
    requires forall i: nat :: (forall f :: f in fields ==> !Covers(f, i)) ==> Bit(v, i) == Bit(v', i)
    ensures v == v'
  {
    forall i: nat ensures Bit(v, i) == Bit(v', i) {
      if f :| f in fields && Covers(f, i) {
        assert View(fields, v)[f] == View(fields, v')[f];
        ValBits(f, v);
        ValBits(f, v');
        var j := i - f.lo % 32;
        assert Bit(NvDrfVal(f, v), j) == Bit(NvDrfVal(f, v'), j);
        assert Bit(NvDrfVal(f, v), j) == Bit(v, j + f.lo % 32);
        assert Bit(NvDrfVal(f, v'), j) == Bit(v', j + f.lo % 32);
      }
    }
    SameBits(v, v');
  }

  // ------------------------------------------------------------------ order

  /** Different updates never touch a common bit. */
  ghost predicate Conflictless(us: seq<Update>) {
    forall u, u' :: u in us && u' in us && u != u' ==> Disjoint(u.field, u'.field)
  }

  lemma LastCoverOfSameUpdates(us: seq<Update>, us': seq<Update>, i: nat)
    requires Conflictless(us) && forall u :: u in us <==> u in us'
    ensures LastCover(us, i) == LastCover(us', i)
  {
  }

  lemma OrderIrrelevantForBit(us: seq<Update>, us': seq<Update>, v: u64, i: nat)
    requires Conflictless(us) && forall u :: u in us <==> u in us'
    ensures Bit(Run(us, v), i) == Bit(Run(us', v), i)
  {
    hide Bit, Covers, Run, LastCover;
    RunBit(us, v, i);
    RunBit(us', v, i);
    LastCoverOfSameUpdates(us, us', i);
  }

  /** Only which updates are made matters, not their order nor how often each is repeated. */
  lemma OrderIsIrrelevant(us: seq<Update>, us': seq<Update>, v: u64)
    requires Conflictless(us) && forall u :: u in us <==> u in us'
    ensures Run(us, v) == Run(us', v)
  {
    hide Bit, Covers, Run;
    forall i: nat ensures Bit(Run(us, v), i) == Bit(Run(us', v), i) {
      OrderIrrelevantForBit(us, us', v, i);
    }
    SameBits(Run(us, v), Run(us', v));
  }

  lemma AnyPermutation(us: seq<Update>, us': seq<Update>, v: u64)
    requires Conflictless(us) && multiset(us) == multiset(us')
    ensures Run(us, v) == Run(us', v)
  {
    forall u ensures u in us <==> u in us' {
      assert u in us <==> u in multiset(us);
      assert u in us' <==> u in multiset(us');
    }
    OrderIsIrrelevant(us, us', v);
  }

  /** Writing a field twice leaves what the second write alone would leave. */
  lemma LaterWriteWins(f: Field, n: u64, n': u64, v: u64)
    ensures NvFldSetDrfNum(f, n', NvFldSetDrfNum(f, n, v)) == NvFldSetDrfNum(f, n', v)
  {
    SetBits(f, n, v);
    SetBits(f, n', NvFldSetDrfNum(f, n, v));
    SetBits(f, n', v);
    SameBits(NvFldSetDrfNum(f, n', NvFldSetDrfNum(f, n, v)), NvFldSetDrfNum(f, n', v));
  }

  // --------------------------------------------------------- building from zero

  /** The OR of the `NV_DRF_NUM` terms. */
  function Build(us: seq<Update>): (r: u64) {
    if us == [] then 0 else Or64(Build(Front(us)), NvDrfNum(Last(us).field, Last(us).n))
  }

  function Sum(us: seq<Update>): (r: nat) {
    if us == [] then 0
    else Sum(Front(us)) + Double(LowBits(Width(Last(us).field), Last(us).n), Last(us).field.lo % 32)
  }

  ghost predicate NoOverlap(us: seq<Update>) {
    forall i, j :: 0 <= i < j < |us| ==> Disjoint(us[i].field, us[j].field)
  }

  predicate Sets(u: Update, i: nat) {
    Covers(u.field, i) && Bit(u.n, i - u.field.lo % 32)
  }

  lemma {:induction false} BuildBit(us: seq<Update>, i: nat)
    ensures Bit(Build(us), i) <==> exists u :: u in us && Sets(u, i)
  {
    hide Bit, Covers, NvDrfNum, Or64;
    if us == [] {
      BitZero(i);
    } else {
      var u := Last(us);
      BuildBit(Front(us), i);
      NumBits(u.field, u.n);
      Or64Bits(Build(Front(us)), NvDrfNum(u.field, u.n));
      assert Bit(NvDrfNum(u.field, u.n), i) == Sets(u, i);
      assert forall x :: x in us <==> x in Front(us) || x == u;
    }
  }

  /** Over fields that do not overlap the OR is the arithmetic sum. */
  lemma {:induction false} BuildIsSum(us: seq<Update>)
    requires NoOverlap(us)
    ensures Build(us) == Sum(us)
  {
    hide Bit, Covers, NvDrfNum, And;
    if us != [] {
      var u, b := Last(us), Build(Front(us));
      BuildIsSum(Front(us));
      NumIsTimes(u.field, u.n);
      var t := NvDrfNum(u.field, u.n);
      NumBits(u.field, u.n);
      BitsOfAnd(b, t);
      BitsOfZero();
      forall i: nat ensures Bit(And(b, t), i) == Bit(0, i) {
        BuildBit(Front(us), i);
        if x :| x in Front(us) && Sets(x, i) {
          var k :| 0 <= k < |us| - 1 && us[k] == x;
          assert Disjoint(us[k].field, us[|us| - 1].field);
        }
      }
      SameBits(And(b, t), 0);
      OrIsSum(b, t);
    }
  }

  /** The order of the terms never matters. */
  lemma BuildIgnoresOrder(us: seq<Update>, us': seq<Update>)
    requires forall u :: u in us <==> u in us'
    ensures Build(us) == Build(us')
  {
    forall i: nat ensures Bit(Build(us), i) == Bit(Build(us'), i) {
      BuildBit(us, i);
      BuildBit(us', i);
    }
    SameBits(Build(us), Build(us'));
  }

  /** A covered bit of the word comes from the one term that covers it. */
  lemma BuildCoveredBit(us: seq<Update>, k: nat, i: nat)
    requires NoOverlap(us) && k < |us| && Covers(us[k].field, i)
    ensures Bit(Build(us), i) == Bit(us[k].n, i - us[k].field.lo % 32)
  {
    hide Bit;
    BuildBit(us, i);
    assert us[k] in us;
    if Sets(us[k], i) {
      assert Bit(Build(us), i);
    } else {
      forall u | u in us ensures !Sets(u, i) {
        var l :| 0 <= l < |us| && us[l] == u;
        assert l < k ==> Disjoint(us[l].field, us[k].field);
        assert k < l ==> Disjoint(us[k].field, us[l].field);
      }
    }
  }

  /** Each value can be read back from the word built. */
  lemma BuildReadsBack(us: seq<Update>, k: nat)
    requires NoOverlap(us) && k < |us| && WellFormed(us[k].field)
    ensures NvDrfVal(us[k].field, Build(us)) == LowBits(Size(us[k].field), us[k].n)
  {
    var f, n := us[k].field, us[k].n;
    SetBits(f, n, 0);
    forall i: nat | Covers(f, i) ensures Bit(Build(us), i) == Bit(NvFldSetDrfNum(f, n, 0), i) {
      BuildCoveredBit(us, k, i);
    }
    ValDependsOnCovered(f, Build(us), NvFldSetDrfNum(f, n, 0));
    ReadBack(f, n, 0);
    WidthAgainstSize(f);
  }

  /** The terms that rebuild `v` from its fields. */
  function Terms(fs: seq<Field>, v: u64): (us: seq<Update>)
    ensures |us| == |fs| && forall k :: 0 <= k < |fs| ==> us[k] == Update(fs[k], NvDrfVal(fs[k], v))
  {
    seq(|fs|, k requires 0 <= k < |fs| => Update(fs[k], NvDrfVal(fs[k], v)))
  }

  lemma TermBit(f: Field, v: u64, i: nat)
    ensures Sets(Update(f, NvDrfVal(f, v)), i) == (Covers(f, i) && Bit(v, i))
  {
    hide Bit;
    if Covers(f, i) {
      ValBits(f, v);
      var j := i - f.lo % 32;
      assert Bit(NvDrfVal(f, v), j) == (Covers(f, j + f.lo % 32) && Bit(v, j + f.lo % 32));
    }
  }

  lemma RebuildBit(fs: seq<Field>, v: u64, i: nat)
    ensures Bit(Build(Terms(fs, v)), i) <==> Bit(v, i) && exists f :: f in fs && Covers(f, i)
  {
    var us := Terms(fs, v);
    BuildBit(us, i);
    if Bit(Build(us), i) {
      var u :| u in us && Sets(u, i);
      var k :| 0 <= k < |us| && us[k] == u;
      TermBit(fs[k], v, i);
      assert fs[k] in fs;
    }
    if f :| f in fs && Covers(f, i) && Bit(v, i) {
      var k :| 0 <= k < |fs| && fs[k] == f;
      TermBit(f, v, i);
      assert us[k] in us;
    }
  }

  /** Taking a register apart field by field and OR-ing the pieces restores it. */
  lemma DisassembleAndRebuild(fs: seq<Field>, v: u64)
    requires forall i: nat :: Bit(v, i) ==> exists f :: f in fs && Covers(f, i)
    ensures Build(Terms(fs, v)) == v
  {
    forall i: nat ensures Bit(Build(Terms(fs, v)), i) == Bit(v, i) {
      RebuildBit(fs, v, i);
    }
    SameBits(Build(Terms(fs, v)), v);
  }

  // -------------------------------------------------------------- 64-bit registers

  /** The field lies in half `h` of a 64-bit register. */
  predicate InHalf(f: Field, h: nat) {
    h < 2 && f.lo <= f.hi && f.lo / 32 == h && f.hi / 32 == h
  }

  lemma HalfRange(f: Field, h: nat)
    requires InHalf(f, h)
    ensures f.lo % 64 == f.lo % 32 + 32 * h
    ensures f.hi % 64 == f.hi % 32 + 32 * h
    ensures f.lo % 32 <= f.hi % 32
  {
  }

  lemma HalfTermBits(f: Field, h: nat, n: u64)
    requires InHalf(f, h)
    ensures NvDrf64Num(f, n).Value?
    ensures forall i: nat :: Bit(NvDrf64Num(f, n).value, i) == (i >= 32 * h && Bit(NvDrfNum(f, n), i - 32 * h))
  {
    hide Bit, NvDrf64Num, NvDrfNum;
    HalfRange(f, h);
    Num64Bits(f, n);
    NumBits(f, n);
  }

  /** A 64-bit term is the 32-bit term of the same field, moved to its half. */
  lemma HalfTerm(f: Field, h: nat, n: u64)
    requires InHalf(f, h)
    ensures NvDrf64Num(f, n) == Value(Shl64(NvDrfNum(f, n), 32 * h))
    ensures h == 0 ==> NvDrf64Num(f, n) == Value(NvDrfNum(f, n))
  {
    hide Bit, NvDrfNum, NvDrf64Num, Shl64;
    HalfTermBits(f, h, n);
    NumBits(f, n);
    Shl64Bits(NvDrfNum(f, n), 32 * h);
    SameBits(NvDrf64Num(f, n).value, Shl64(NvDrfNum(f, n), 32 * h));
    if h == 0 {
      SameBits(NvDrf64Num(f, n).value, NvDrfNum(f, n));
    }
  }

  /** The OR of the `NV_DRF64_NUM` terms. */
  function Build64(us: seq<Update>): (r: CValue<u64>) {
    if us == [] then Value(0)
    else
      match (Build64(Front(us)), NvDrf64Num(Last(us).field, Last(us).n))
      case (Value(b), Value(t)) => Value(Or64(b, t))
      case _ => Undefined
  }

  /** The update sets bit `i` of a 64-bit register. */
  predicate Sets64(u: Update, i: nat) {
    u.field.lo % 64 <= i <= u.field.hi % 64 && Bit(u.n, i - u.field.lo % 64)
  }

  /** Fields across both halves included: undefined if some range is reversed, otherwise the union of the terms. */
  lemma {:induction false} Build64Bit(us: seq<Update>, i: nat)
    ensures Build64(us).Undefined? <==> exists u :: u in us && u.field.hi % 64 < u.field.lo % 64
    ensures Build64(us).Value? ==> (Bit(Build64(us).value, i) <==> exists u :: u in us && Sets64(u, i))
  {
    hide Bit, NvDrf64Num, Or64;
    if us == [] {
      BitZero(i);
    } else {
      var u := Last(us);
      Build64Bit(Front(us), i);
      Num64Bits(u.field, u.n);
      assert u in us && forall x :: x in us <==> x in Front(us) || x == u;
      if Build64(Front(us)).Value? && NvDrf64Num(u.field, u.n).Value? {
        Or64Bits(Build64(Front(us)).value, NvDrf64Num(u.field, u.n).value);
        assert Bit(NvDrf64Num(u.field, u.n).value, i) == Sets64(u, i);
      }
    }
  }

  /** The terms of one half, in order. */
  function HalfOf(us: seq<Update>, h: nat): (r: seq<Update>) {
    if us == [] then []
    else HalfOf(Front(us), h) + (if InHalf(Last(us).field, h) then [Last(us)] else [])
  }

  /** The 64-bit word whose halves are the low words of `a` and `b`. */
  function Join(a: u64, b: u64): (r: u64) {
    Or64(a, Shl64(b, 32))
  }

  lemma JoinBits(a: u64, b: u64)
    ensures forall i: nat :: Bit(Join(a, b), i) == (Bit(a, i) || (32 <= i < 64 && Bit(b, i - 32)))
  {
    Shl64Bits(b, 32);
    BitsOfOr(a, Shl64(b, 32));
  }

  lemma JoinWithLowTerm(a: u64, b: u64, t: u64)
    ensures Or64(Join(a, b), t) == Join(Or64(a, t), b)
  {
    hide Bit, Or64, Join, Shl64;
    JoinBits(a, b);
    Or64Bits(Join(a, b), t);
    Or64Bits(a, t);
    JoinBits(Or64(a, t), b);
    SameBits(Or64(Join(a, b), t), Join(Or64(a, t), b));
  }

  lemma JoinWithHighTerm(a: u64, b: u64, t: u64, t': u64)
    requires t' == Shl64(t, 32)
    ensures Or64(Join(a, b), t') == Join(a, Or64(b, t))
  {
    hide Bit, Or64, Join, Shl64;
    JoinBits(a, b);
    Shl64Bits(t, 32);
    Or64Bits(Join(a, b), t');
    Or64Bits(b, t);
    JoinBits(a, Or64(b, t));
    SameBits(Or64(Join(a, b), t'), Join(a, Or64(b, t)));
  }

  lemma BuildAppend(us: seq<Update>, u: Update)
    ensures Build(us + [u]) == Or64(Build(us), NvDrfNum(u.field, u.n))
  {
    assert Front(us + [u]) == us;
  }

  /** Building a 64-bit register directly is building its two 32-bit halves and joining them. */
  lemma {:induction false} JoinTheHalves(us: seq<Update>)
    requires forall u :: u in us ==> InHalf(u.field, 0) || InHalf(u.field, 1)
    ensures Build64(us) == Value(Join(Build(HalfOf(us, 0)), Build(HalfOf(us, 1))))
  {
    if us == [] {
      JoinBits(0, 0);
      BitsOfZero();
      SameBits(Join(0, 0), 0);
    } else {
      var u, low, high := Last(us), HalfOf(Front(us), 0), HalfOf(Front(us), 1);
      JoinTheHalves(Front(us));
      if InHalf(u.field, 0) {
        assert HalfOf(us, 0) == low + [u] && HalfOf(us, 1) == high + [] == high;
        JoinLowStep(low, high, u);
      } else {
        assert HalfOf(us, 1) == high + [u] && HalfOf(us, 0) == low + [] == low;
        JoinHighStep(low, high, u);
      }
    }
  }

  lemma JoinLowStep(low: seq<Update>, high: seq<Update>, u: Update)
    requires InHalf(u.field, 0)
    ensures NvDrf64Num(u.field, u.n).Value?
    ensures Or64(Join(Build(low), Build(high)), NvDrf64Num(u.field, u.n).value) ==
            Join(Build(low + [u]), Build(high))
  {
    HalfTerm(u.field, 0, u.n);
    BuildAppend(low, u);
    JoinWithLowTerm(Build(low), Build(high), NvDrfNum(u.field, u.n));
  }

  lemma JoinHighStep(low: seq<Update>, high: seq<Update>, u: Update)
    requires InHalf(u.field, 1)
    ensures NvDrf64Num(u.field, u.n).Value?
    ensures Or64(Join(Build(low), Build(high)), NvDrf64Num(u.field, u.n).value) ==
            Join(Build(low), Build(high + [u]))
  {
    HalfTerm(u.field, 1, u.n);
    BuildAppend(high, u);
    JoinWithHighTerm(Build(low), Build(high), NvDrfNum(u.field, u.n), NvDrf64Num(u.field, u.n).value);
  }
}
