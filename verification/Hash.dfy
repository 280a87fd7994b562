/** The 64-bit mixer and its projection into [0, 1) (series_hash.go). */
module Hash {

  const TWO_64 := 0x1_0000_0000_0000_0000

  /** Go's uint64(i) for a signed i: two's complement wrap-around. */
  function Uint64(i: int): bv64 {
    (i % TWO_64) as bv64
  }

  function XorShift33(h: bv64): bv64 {
    h ^ (h >> 33)
  }

  function Xor(g: bv64, h: bv64): bv64 {
    g ^ h
  }

  /** The two multipliers of the mixer, and their inverses modulo 2^64. */
  function SpreadID(id: bv64): bv64 { id * 0x9e3779b97f4a7c15 }
  function UnspreadID(h: bv64): bv64 { h * 0xf1de83e19937733d }
  function Finalize(h: bv64): bv64 { h * 0xff51afd7ed558ccd }
  function Unfinalize(h: bv64): bv64 { h * 0x4f74430c22a54005 }

  function MixInstanceID(identityHash: bv64, instanceID: bv64): bv64 {
    XorShift33(Finalize(XorShift33(Xor(identityHash, SpreadID(instanceID)))))
  }

  /** The finalizer run backwards. */
  function Unmix(mixed: bv64): bv64 {
    XorShift33(Unfinalize(XorShift33(mixed)))
  }

  lemma XorShiftUnfolds(h: bv64)
    ensures XorShift33(h) == h ^ (h >> 33)
  {
  }

  lemma XorShiftCancels(h: bv64)
    ensures (h ^ (h >> 33)) ^ ((h ^ (h >> 33)) >> 33) == h
  {
  }

  lemma XorShiftIsInvolution(h: bv64)
    ensures XorShift33(XorShift33(h)) == h
  {
    XorShiftUnfolds(h);
    XorShiftUnfolds(h ^ (h >> 33));
    XorShiftCancels(h);
    hide *;
  }

  // Each product of a multiplier and its inverse is 1 modulo 2^64. The lemmas take the
  // product as a literal so that no two 64-bit multiplications meet in one proof.

  lemma FinalizeUnfolds(h: bv64)
    ensures Finalize(h) == h * 0xff51afd7ed558ccd && Unfinalize(h * 0xff51afd7ed558ccd) == h
  {
  }

  lemma UnfinalizeUnfolds(h: bv64)
    ensures Unfinalize(h) == h * 0x4f74430c22a54005 && Finalize(h * 0x4f74430c22a54005) == h
  {
  }

  lemma SpreadUnfolds(h: bv64)
    ensures SpreadID(h) == h * 0x9e3779b97f4a7c15 && UnspreadID(h * 0x9e3779b97f4a7c15) == h
  {
  }

  lemma UnspreadUnfolds(h: bv64)
    ensures UnspreadID(h) == h * 0xf1de83e19937733d && SpreadID(h * 0xf1de83e19937733d) == h
  {
  }

  lemma OddMultipliersInvert(h: bv64)
    ensures Unfinalize(Finalize(h)) == h && Finalize(Unfinalize(h)) == h
    ensures UnspreadID(SpreadID(h)) == h && SpreadID(UnspreadID(h)) == h
  {
    hide *;
    FinalizeUnfolds(h);
    UnfinalizeUnfolds(h);
    SpreadUnfolds(h);
    UnspreadUnfolds(h);
  }

  lemma XorCancels(g: bv64, h: bv64)
    ensures Xor(g, Xor(g, h)) == h && Xor(Xor(g, h), h) == g
  {
  }

  lemma FinalizerInverts(h: bv64)
    ensures Unmix(XorShift33(Finalize(XorShift33(h)))) == h
    ensures XorShift33(Finalize(XorShift33(Unmix(h)))) == h
  {
    hide XorShift33, Finalize, Unfinalize;
    XorShiftIsInvolution(h);
    OddMultipliersInvert(XorShift33(h));
    XorShiftIsInvolution(Finalize(XorShift33(h)));
    XorShiftIsInvolution(Unfinalize(XorShift33(h)));
  }

  /** For a fixed identity hash, mixing is a bijection between instance ids and hashes. */
  lemma MixIsBijectiveInInstance(identityHash: bv64, instanceID: bv64, mixed: bv64)
    ensures MixInstanceID(identityHash, instanceID) == mixed
       <==> UnspreadID(Xor(identityHash, Unmix(mixed))) == instanceID
  {
    hide XorShift33, Finalize, SpreadID, UnspreadID, Xor, Unmix;
    FinalizerInverts(Xor(identityHash, SpreadID(instanceID)));
    FinalizerInverts(mixed);
    XorCancels(identityHash, SpreadID(instanceID));
    XorCancels(identityHash, Unmix(mixed));
    OddMultipliersInvert(instanceID);
    OddMultipliersInvert(Xor(identityHash, Unmix(mixed)));
  }

  /** For a fixed instance id, mixing is a bijection between identity hashes and hashes. */
  lemma MixIsBijectiveInIdentity(identityHash: bv64, instanceID: bv64, mixed: bv64)
    ensures MixInstanceID(identityHash, instanceID) == mixed
       <==> Xor(Unmix(mixed), SpreadID(instanceID)) == identityHash
  {
    hide XorShift33, Finalize, SpreadID, Xor, Unmix;
    FinalizerInverts(Xor(identityHash, SpreadID(instanceID)));
    FinalizerInverts(mixed);
    XorCancels(identityHash, SpreadID(instanceID));
    XorCancels(Unmix(mixed), SpreadID(instanceID));
  }

  /** Two instances never share a mixed hash of the same series, nor two series that of one instance. */
  lemma MixedHashesAreDistinct(h1: bv64, h2: bv64, i1: bv64, i2: bv64)
    ensures i1 != i2 ==> MixInstanceID(h1, i1) != MixInstanceID(h1, i2)
    ensures h1 != h2 ==> MixInstanceID(h1, i1) != MixInstanceID(h2, i1)
  {
    hide MixInstanceID, SpreadID, UnspreadID, Xor, Unmix;
    MixIsBijectiveInInstance(h1, i1, MixInstanceID(h1, i2));
    MixIsBijectiveInInstance(h1, i2, MixInstanceID(h1, i2));
    MixIsBijectiveInIdentity(h1, i1, MixInstanceID(h2, i1));
    MixIsBijectiveInIdentity(h2, i1, MixInstanceID(h2, i1));
  }

  /** A 53-bit fraction of one: n units of 2^-53 after dropping the low 11 bits of n. */
  function UnitOf(n: nat): (u: real)
    requires n < TWO_64
    ensures 0.0 <= u < 1.0
  {
    (n / 0x800) as real / 9007199254740992.0
  }

  /** float64(hash >> 11) * 2^-53, the shift being a division by 2^11. */
  function HashToUnitInterval(hash: bv64): real {
    UnitOf(hash as int)
  }

  lemma UnitIntervalMonotone(m: nat, n: nat)
    requires m <= n < TWO_64
    ensures UnitOf(m) <= UnitOf(n)
  {
    assert m / 0x800 <= n / 0x800;
  }

  function HashToSignedUnit(hash: bv64): (u: real)
    ensures -1.0 <= u < 1.0
  {
    HashToUnitInterval(hash) * 2.0 - 1.0
  }

  /** The multiplier a unit stands for, between two bounds. */
  function StableMultiplier(minValue: real, maxValue: real, unit: real): real {
    minValue + (maxValue - minValue) * unit
  }

  /** The bounds belong to the units 0 and 1, and between them the multiplier grows evenly. */
  lemma MultiplierIsAffine(minValue: real, maxValue: real, u: real, v: real)
    ensures StableMultiplier(minValue, maxValue, 0.0) == minValue
    ensures StableMultiplier(minValue, maxValue, 1.0) == maxValue
    ensures StableMultiplier(minValue, maxValue, v) - StableMultiplier(minValue, maxValue, u)
         == (maxValue - minValue) * (v - u)
  {
  }

  // ----- two different hashes can be told apart by their projections -----

  function High(h: bv64): bv64 { h >> 33 }

  /** The 53 bits that are projected. */
  function Top(h: bv64): bv64 { h >> 11 }

  lemma HighIs(h: bv64)
    ensures High(h) == h >> 33
  {
  }

  lemma XorIs(g: bv64, h: bv64)
    ensures Xor(g, h) == g ^ h
  {
  }

  lemma XorShiftIs(h: bv64)
    ensures XorShift33(h) == Xor(h, High(h))
  {
    XorShiftUnfolds(h);
    HighIs(h);
    XorIs(h, h >> 33);
    hide *;
  }

  lemma HighIsLinear(g: bv64, h: bv64)
    ensures High(Xor(g, h)) == Xor(High(g), High(h))
  {
  }

  lemma XorAssociates(a: bv64, b: bv64, c: bv64)
    ensures Xor(Xor(a, b), c) == Xor(a, Xor(b, c))
  {
  }

  lemma XorCommutes(a: bv64, b: bv64)
    ensures Xor(a, b) == Xor(b, a)
  {
  }

  lemma XorExchange(a: bv64, b: bv64, c: bv64, d: bv64)
    ensures Xor(Xor(a, b), Xor(c, d)) == Xor(Xor(a, c), Xor(b, d))
  {
    hide *;
    XorAssociates(a, b, Xor(c, d));
    XorAssociates(b, c, d);
    XorCommutes(b, c);
    XorAssociates(c, b, d);
    XorAssociates(a, c, Xor(b, d));
  }

  lemma XorShiftIsLinear(g: bv64, h: bv64)
    ensures XorShift33(Xor(g, h)) == Xor(XorShift33(g), XorShift33(h))
  {
    hide *;
    XorShiftIs(g);
    XorShiftIs(h);
    XorShiftIs(Xor(g, h));
    HighIsLinear(g, h);
    XorExchange(g, h, High(g), High(h));
  }

  lemma HighOfShifted(p: bv64, q: bv64)
    requires High(Xor(p, High(p))) == High(Xor(q, High(q)))
    ensures High(p) == High(q)
  {
  }

  lemma TopDecidesHigh(p: bv64, q: bv64)
    requires Top(p) == Top(q)
    ensures High(p) == High(q)
  {
  }

  lemma TopCancels(p: bv64, q: bv64, a: bv64)
    requires Top(Xor(p, a)) == Top(Xor(q, a))
    ensures Top(p) == Top(q)
  {
  }

  /** Whatever the xor-shift maps to the same top bits has the same top bits. */
  lemma TopOfShifted(p: bv64, q: bv64)
    requires Top(XorShift33(p)) == Top(XorShift33(q))
    ensures Top(p) == Top(q)
  {
    hide *;
    XorShiftIs(p);
    XorShiftIs(q);
    TopDecidesHigh(Xor(p, High(p)), Xor(q, High(q)));
    HighOfShifted(p, q);
    TopCancels(p, q, High(p));
  }

  // A product of at most 11 bits is still told apart once its factor is mixed with a fixed
  // pattern. The four lemmas share the range of the product between them.

  const PATTERN: bv64 := 0x5555555555555555

  lemma FirstQuarter(r: bv64)
    requires 0 < r < 0x200
    ensures Top(Finalize(Xor(PATTERN, Unfinalize(r)))) != Top(Finalize(PATTERN))
  {
  }

  lemma SecondQuarter(r: bv64)
    requires 0x200 <= r < 0x400
    ensures Top(Finalize(Xor(PATTERN, Unfinalize(r)))) != Top(Finalize(PATTERN))
  {
  }

  lemma ThirdQuarter(r: bv64)
    requires 0x400 <= r < 0x600
    ensures Top(Finalize(Xor(PATTERN, Unfinalize(r)))) != Top(Finalize(PATTERN))
  {
  }

  lemma FourthQuarter(r: bv64)
    requires 0x600 <= r < 0x800
    ensures Top(Finalize(Xor(PATTERN, Unfinalize(r)))) != Top(Finalize(PATTERN))
  {
  }

  lemma SmallProductToldApart(r: bv64)
    requires 0 < r < 0x800
    ensures Top(Finalize(Xor(PATTERN, Unfinalize(r)))) != Top(Finalize(PATTERN))
  {
    hide *;
    if r < 0x200 {
      FirstQuarter(r);
    } else if r < 0x400 {
      SecondQuarter(r);
    } else if r < 0x600 {
      ThirdQuarter(r);
    } else {
      FourthQuarter(r);
    }
  }

  // Bit patterns and the integers they stand for, compared with fixed bounds.

  lemma SmallPattern(h: bv64)
    requires h as int < 0x800
    ensures h < 0x800
  {
  }

  lemma BelowPattern(h: bv64)
    requires h < 0x3a1ab80625d800
    ensures h as int < 0x3a1ab80625d800
  {
  }

  lemma AbovePattern(h: bv64)
    requires h > 0x3a1ab80625dfff
    ensures h as int > 0x3a1ab80625dfff
  {
  }

  lemma PatternMixes()
    ensures XorShift33(Finalize(PATTERN)) == 0x3a1ab80625dc4d
    ensures Top(0x3a1ab80625dc4d) == 0x7435700c4bb
  {
  }

  lemma TopInRange(h: bv64)
    requires 0x3a1ab80625d800 <= h <= 0x3a1ab80625dfff
    ensures Top(h) == 0x7435700c4bb
  {
  }

  /** The mixer on an already combined input. */
  function Mixed(x: bv64): bv64 { XorShift33(Finalize(XorShift33(x))) }

  lemma SmallShift(r: bv64)
    requires r < 0x800
    ensures XorShift33(r) == r
  {
  }

  lemma ZeroMixes()
    ensures Mixed(0) == 0
  {
  }

  lemma XorZero(h: bv64)
    ensures Xor(h, h) == 0 && Xor(h, 0) == h && Xor(0, h) == h
  {
  }

  lemma PatternValue()
    ensures 0x3a1ab80625dc4d as bv64 as int == 0x3a1ab80625dc4d
  {
  }

  lemma UnitsDiffer(m: nat, n: nat)
    requires m < TWO_64 && n < TWO_64
    ensures UnitOf(m) == UnitOf(n) <==> m / 0x800 == n / 0x800
  {
  }

  lemma ZeroIsZero()
    ensures 0 as bv64 as int == 0 && XorShift33(0) == 0 && Unfinalize(0) == 0
  {
  }

  /** The only input that mixes to 0 is 0. */
  lemma OnlyZeroFinalizesToZero(x: bv64)
    requires Finalize(XorShift33(x)) == 0
    ensures x == 0
  {
    hide *;
    ZeroIsZero();
    OddMultipliersInvert(XorShift33(x));
    XorShiftIsInvolution(x);
  }

  lemma MixedIs(x: bv64)
    ensures Mixed(x) == XorShift33(Finalize(XorShift33(x)))
  {
  }

  lemma PositivePattern(r: bv64)
    requires r != 0
    ensures r > 0
  {
  }

  lemma OnlyZero(x: bv64)
    requires x != 0
    ensures Finalize(XorShift33(x)) != 0
  {
    hide *;
    if Finalize(XorShift33(x)) == 0 {
      OnlyZeroFinalizesToZero(x);
    }
  }

  lemma SmallMixIsUnmixed(x: bv64)
    requires Mixed(x) < 0x800
    ensures Mixed(x) == Finalize(XorShift33(x))
  {
    SmallShift(Mixed(x));
    MixedIs(x);
    hide *;
    XorShiftIsInvolution(Finalize(XorShift33(x)));
  }

  /** An input that mixes to less than 11 bits is a small product, unmixed. */
  lemma SmallMixIsProduct(x: bv64)
    requires x != 0 && Mixed(x) < 0x800
    ensures Mixed(x) > 0 && XorShift33(x) == Unfinalize(Mixed(x))
  {
    SmallMixIsUnmixed(x);
    hide *;
    OddMultipliersInvert(XorShift33(x));
    OnlyZero(x);
    PositivePattern(Mixed(x));
  }

  lemma SameUnitAsPattern(w: bv64)
    requires HashToUnitInterval(w) == HashToUnitInterval(0x3a1ab80625dc4d)
    ensures Top(w) == Top(0x3a1ab80625dc4d)
  {
    PatternValue();
    UnitsDiffer(w as int, 0x3a1ab80625dc4d);
    hide *;
    if w < 0x3a1ab80625d800 {
      BelowPattern(w);
    } else if w > 0x3a1ab80625dfff {
      AbovePattern(w);
    } else {
      TopInRange(w);
      PatternMixes();
    }
  }

  /** Mixed with the pattern as salt, such an input projects differently from the pattern alone. */
  lemma PatternSeparates(x: bv64)
    requires x != 0 && Mixed(x) < 0x800
    ensures HashToUnitInterval(Mixed(Xor(x, XorShift33(PATTERN)))) != HashToUnitInterval(Mixed(XorShift33(PATTERN)))
  {
    var r, w := Mixed(x), Mixed(Xor(x, XorShift33(PATTERN)));
    MixedIs(XorShift33(PATTERN));
    MixedIs(Xor(x, XorShift33(PATTERN)));
    hide *;
    SmallMixIsProduct(x);
    XorShiftIsInvolution(PATTERN);
    XorShiftIsLinear(x, XorShift33(PATTERN));
    XorCommutes(Unfinalize(r), PATTERN);
    PatternMixes();
    SmallProductToldApart(r);
    if HashToUnitInterval(w) == HashToUnitInterval(0x3a1ab80625dc4d) {
      SameUnitAsPattern(w);
      TopOfShifted(Finalize(Xor(PATTERN, Unfinalize(r))), Finalize(PATTERN));
    }
  }

  lemma NotBelow(n: nat)
    requires n >= 0x800
    ensures n / 0x800 != 0 / 0x800
  {
  }

  lemma UnitsOfZero(h: bv64)
    requires h as int >= 0x800
    ensures HashToUnitInterval(h) != HashToUnitInterval(0)
  {
    var n := h as int;
    assert HashToUnitInterval(h) == UnitOf(n) && n < TWO_64;
    assert HashToUnitInterval(0) == UnitOf(0) by { ZeroIsZero(); }
    hide *;
    NotBelow(n);
    UnitsDiffer(n, 0);
  }

  /** Two different inputs: shifted by one of two salts they project differently. */
  lemma SaltSeparates(g: bv64, h: bv64) returns (salt: bv64)
    requires g != h
    ensures HashToUnitInterval(Mixed(Xor(g, salt))) != HashToUnitInterval(Mixed(Xor(h, salt)))
  {
    var x := Xor(h, g);
    hide *;
    XorZero(g);
    XorCancels(h, g);
    XorZero(h);
    ZeroMixes();
    ZeroIsZero();
    if Mixed(x) as int >= 0x800 {
      salt := g;
      UnitsOfZero(Mixed(x));
    } else {
      SmallPattern(Mixed(x));
      salt := Xor(g, XorShift33(PATTERN));
      XorCancels(g, XorShift33(PATTERN));
      XorAssociates(h, g, XorShift33(PATTERN));
      PatternSeparates(x);
    }
  }

  lemma SpreadsZero()
    ensures SpreadID(0) == 0
  {
  }

  lemma MixesTo(h: bv64)
    ensures MixInstanceID(h, 0) == XorShift33(Finalize(XorShift33(Xor(h, SpreadID(0)))))
  {
  }

  lemma InstanceZero(h: bv64)
    ensures MixInstanceID(h, 0) == Mixed(h)
  {
    SpreadsZero();
    MixesTo(h);
    hide *;
    XorZero(h);
    MixedIs(h);
  }

  lemma MixIs(h: bv64, id: bv64)
    ensures MixInstanceID(h, id) == Mixed(Xor(h, SpreadID(id)))
  {
  }

  /** What a series' hash is combined with when instance `id` mixes it under a key. */
  function KeyOf(key: bv64, id: bv64): bv64 { Xor(key, SpreadID(id)) }

  lemma KeyedMix(h: bv64, key: bv64, id: bv64)
    ensures MixInstanceID(Xor(h, key), id) == Mixed(Xor(KeyOf(key, id), h))
  {
    MixIs(Xor(h, key), id);
    assert KeyOf(key, id) == Xor(key, SpreadID(id));
    hide *;
    XorAssociates(h, key, SpreadID(id));
    XorCommutes(h, Xor(key, SpreadID(id)));
  }

  /** Two draws keyed differently differ for some series. */
  lemma SomeSeriesTellsApart(key1: bv64, id1: bv64, key2: bv64, id2: bv64) returns (h: bv64)
    requires KeyOf(key1, id1) != KeyOf(key2, id2)
    ensures HashToUnitInterval(MixInstanceID(Xor(h, key1), id1))
         != HashToUnitInterval(MixInstanceID(Xor(h, key2), id2))
  {
    hide *;
    h := SaltSeparates(KeyOf(key1, id1), KeyOf(key2, id2));
    KeyedMix(h, key1, id1);
    KeyedMix(h, key2, id2);
  }

  lemma SpreadsApart(id1: bv64, id2: bv64)
    requires id1 != id2
    ensures SpreadID(id1) != SpreadID(id2)
  {
    hide *;
    OddMultipliersInvert(id1);
    OddMultipliersInvert(id2);
  }

  /** With one key, different instances draw from different keys; with one instance, different keys. */
  lemma KeysDiffer(key1: bv64, id1: bv64, key2: bv64, id2: bv64)
    requires key1 == key2 <==> id1 != id2
    ensures KeyOf(key1, id1) != KeyOf(key2, id2)
  {
    assert forall k, i :: KeyOf(k, i) == Xor(k, SpreadID(i));
    hide *;
    if key1 == key2 {
      SpreadsApart(id1, id2);
      XorCancels(key1, SpreadID(id1));
      XorCancels(key1, SpreadID(id2));
    } else {
      XorCancels(key1, SpreadID(id1));
      XorCancels(key2, SpreadID(id1));
    }
  }

  lemma UnspreadIs(h: bv64, salt: bv64)
    ensures MixInstanceID(h, UnspreadID(salt)) == Mixed(Xor(h, salt))
  {
    MixIs(h, UnspreadID(salt));
    hide *;
    OddMultipliersInvert(salt);
  }

  /** Two different series differ for some instance. */
  lemma SomeInstanceTellsApart(h1: bv64, h2: bv64) returns (id: bv64)
    requires h1 != h2
    ensures HashToUnitInterval(MixInstanceID(h1, id)) != HashToUnitInterval(MixInstanceID(h2, id))
  {
    hide *;
    var salt := SaltSeparates(h1, h2);
    id := UnspreadID(salt);
    UnspreadIs(h1, salt);
    UnspreadIs(h2, salt);
  }

  lemma QuotientGap(a: real, b: real, q: real)
    requires q > 0.0 && b - a >= 1.0
    ensures b / q - a / q >= 1.0 / q
  {
    assert b / q - a / q == (b - a) / q;
    assert (b - a - 1.0) / q >= 0.0;
  }

  lemma QuotientAtMost(a: real, b: real, q: real)
    requires q > 0.0 && a <= b
    ensures a / q <= b / q
  {
    assert b / q - a / q == (b - a) / q;
  }

  lemma QuotientOrder(a: int, b: int, q: real)
    requires q > 0.0 && a as real / q < b as real / q
    ensures b as real - a as real >= 1.0
  {
    if b <= a {
      QuotientAtMost(b as real, a as real, q);
    }
  }

  /** Units are whole multiples of 2^-53. */
  lemma UnitGap(m: nat, n: nat)
    requires m < TWO_64 && n < TWO_64 && UnitOf(m) < UnitOf(n)
    ensures UnitOf(n) - UnitOf(m) >= 1.0 / 9007199254740992.0
  {
    var a, b, q := m / 0x800, n / 0x800, 9007199254740992.0;
    assert UnitOf(m) == a as real / q && UnitOf(n) == b as real / q;
    hide *;
    QuotientOrder(a, b, q);
    QuotientGap(a as real, b as real, q);
  }
}
