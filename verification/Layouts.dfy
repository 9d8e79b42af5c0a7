/** The chip identification register rebuilt from the field defaults of its header. */
module Layouts {
  import opened Bits
  import opened Drf
  import opened DrfRuns

  const HIDFAM := Field(3, 0)
  const MAJORREV := Field(7, 4)
  const CHIPID := Field(15, 8)
  const MINORREV := Field(19, 16)

  const HIDREV_RESET_VAL: u64 := 0x21917

  /** Every field with its default value. */
  function HidRevDefaults(): (us: seq<Update>) {
    [Update(HIDFAM, 0x7), Update(MAJORREV, 0x1), Update(CHIPID, 0x19), Update(MINORREV, 0x2)]
  }

  lemma Apart(f: Field, g: Field)
    requires f.hi % 32 < g.lo % 32
    ensures Disjoint(f, g)
  {
  }

  lemma HidRevFieldsAreDisjoint()
    ensures NoOverlap(HidRevDefaults())
  {
    hide Disjoint;
    var us := HidRevDefaults();
    forall i, j | 0 <= i < j < |us| ensures Disjoint(us[i].field, us[j].field) {
      Apart(us[i].field, us[j].field);
    }
  }

  lemma SumOfTerm(us: seq<Update>, u: Update, w: nat, shift: nat)
    requires u.field.lo % 32 == shift && Width(u.field) == w && u.n < Pow2(w)
    ensures Sum(us + [u]) == Sum(us) + u.n * Pow2(shift)
  {
    hide LowBits, Double, Pow2, Width;
    assert Front(us + [u]) == us && Last(us + [u]) == u;
    SmallLowBits(w, u.n);
    DoubleIsProduct(u.n, shift);
  }

  lemma SmallLowBits(w: nat, n: nat)
    requires n < Pow2(w)
    ensures LowBits(w, n) == n
  {
    LowBitsIsMod(w, n);
    DivModUnique(n, Pow2(w), 0, n);
  }

  lemma HidRevSum()
    ensures Sum(HidRevDefaults()) == HIDREV_RESET_VAL
  {
    hide Pow2, Sum;
    var us := HidRevDefaults();
    SmallPowers(0);
    SmallPowers(4);
    SmallPowers(8);
    SmallPowers(16);
    SumOfTerm([], us[0], 4, 0);
    SumOfTerm([us[0]], us[1], 4, 4);
    SumOfTerm([us[0], us[1]], us[2], 8, 8);
    SumOfTerm([us[0], us[1], us[2]], us[3], 4, 16);
    assert [] + [us[0]] == [us[0]] && [us[0]] + [us[1]] == [us[0], us[1]];
    assert [us[0], us[1]] + [us[2]] == [us[0], us[1], us[2]];
    assert [us[0], us[1], us[2]] + [us[3]] == us;
    SumOfNothing();
  }

  lemma SumOfNothing()
    ensures Sum([]) == 0
  {
  }

  /** Where the fields of the register lie, as quotients of its word. */
  lemma HidRevFields(v: u32)
    ensures NvDrfVal(HIDFAM, v) == v % 0x10
    ensures NvDrfVal(MAJORREV, v) == v / 0x10 % 0x10
    ensures NvDrfVal(CHIPID, v) == v / 0x100 % 0x100
    ensures NvDrfVal(MINORREV, v) == v / 0x1_0000 % 0x10
  {
    hide NvDrfVal, Pow2;
    SmallPowers(0);
    SmallPowers(4);
    SmallPowers(8);
    SmallPowers(16);
    FieldIsQuotient(HIDFAM, v, 1, 0x10);
    FieldIsQuotient(MAJORREV, v, 0x10, 0x10);
    FieldIsQuotient(CHIPID, v, 0x100, 0x100);
    FieldIsQuotient(MINORREV, v, 0x1_0000, 0x10);
  }

  /** The defaults OR-ed together, in any order, are the reset value; each can be read from it. */
  lemma HidRevDefaultsAreItsReset(us: seq<Update>, k: nat)
    requires multiset(us) == multiset(HidRevDefaults()) && k < 4
    ensures Build(us) == HIDREV_RESET_VAL == 0x21917
    ensures NvDrfVal(HidRevDefaults()[k].field, HIDREV_RESET_VAL) == HidRevDefaults()[k].n
  {
    hide Pow2, Sum, Build, NvDrfVal, LowBits;
    var defaults := HidRevDefaults();
    HidRevFieldsAreDisjoint();
    BuildIsSum(defaults);
    HidRevSum();
    SameElements(us, defaults);
    BuildIgnoresOrder(us, defaults);
    BuildReadsBack(defaults, k);
    SmallPowers(4);
    SmallPowers(8);
    SmallLowBits(Size(defaults[k].field), defaults[k].n);
  }

  lemma SameElements(us: seq<Update>, us': seq<Update>)
    requires multiset(us) == multiset(us')
    ensures forall u :: u in us <==> u in us'
  {
    forall u ensures u in us <==> u in us' {
      assert u in us <==> u in multiset(us);
      assert u in us' <==> u in multiset(us');
    }
  }
}
