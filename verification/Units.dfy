/** UTF-16 code units, their surrogates, and the XOR of one unit with another. */
module Units {
  type Unit = bv16

  predicate IsHigh(c: Unit) {
    0xD800 <= c <= 0xDBFF
  }

  predicate IsLow(c: Unit) {
    0xDC00 <= c <= 0xDFFF
  }

  // ---- XOR ----

  predicate SevenBit(k: Unit) {
    k < 0x80
  }

  function Mix(c: Unit, k: Unit): Unit {
    c ^ k
  }

  lemma XorUnit(c: Unit, k: Unit)
    requires SevenBit(k)
    ensures Mix(Mix(c, k), k) == c
    ensures IsHigh(Mix(c, k)) == IsHigh(c)
    ensures IsLow(Mix(c, k)) == IsLow(c)
  {
    assert (c ^ k) ^ k == c;
    assert (c ^ k) >> 10 == c >> 10;
    HighBits(c);
    HighBits(c ^ k);
  }

  /** A surrogate is told by its six high bits. */
  lemma HighBits(c: Unit)
    ensures IsHigh(c) <==> c >> 10 == 0x36
    ensures IsLow(c) <==> c >> 10 == 0x37
  {
  }

  // ---- one bit at a time ----

  /** The masks of the sixteen single bits. */
  predicate OneBit(m: Unit) {
    m != 0 && m & (m - 1) == 0
  }

  function Masked(c: Unit, m: Unit): Unit {
    c & m
  }

  predicate HasBit(c: Unit, m: Unit) {
    Masked(c, m) != 0
  }

  lemma MaskOfXor(c: Unit, k: Unit, m: Unit)
    ensures Masked(Mix(c, k), m) == Mix(Masked(c, m), Masked(k, m))
  {
  }

  /** Of one bit a unit has all or nothing. */
  lemma AllOrNothing(c: Unit, m: Unit)
    requires OneBit(m)
    ensures Masked(c, m) == 0 || Masked(c, m) == m
  {
  }

  lemma MixKeeps(c: Unit, k: Unit)
    ensures Mix(c, k) == c <==> k == 0
  {
  }

  lemma FourCases(m: Unit)
    ensures Mix(0, 0) == 0 && Mix(0, m) == m && Mix(m, 0) == m && Mix(m, m) == 0
  {
  }

  lemma NotZero(m: Unit)
    requires OneBit(m)
    ensures m != 0
  {
  }

  lemma MixBits(c: Unit, k: Unit, m: Unit)
    requires OneBit(m)
    ensures HasBit(Mix(c, k), m) <==> HasBit(c, m) != HasBit(k, m)
  {
    hide Mix, Masked, OneBit;
    NotZero(m);
    FourCases(m);
    MaskOfXor(c, k, m);
    AllOrNothing(c, m);
    AllOrNothing(k, m);
  }
}
