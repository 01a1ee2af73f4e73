/** One column of the AES state, and the two matrices of sections 5.1.3 and 5.3.3 of FIPS 197 with the proof that
  * they are inverse to each other. The matrices are linear, so it is enough to check one byte at a time.
  */
module MixColumn {
  import opened Gf256

  datatype Column = Column(a: bv8, b: bv8, c: bv8, d: bv8)

  function Add4(x: bv8, y: bv8, z: bv8, w: bv8): bv8 {
    Add(Add(Add(x, y), z), w)
  }

  function Mix(s: Column): Column {
    Column(
      Add4(Product(s.a, 0x02), Product(s.b, 0x03), s.c, s.d),
      Add4(s.a, Product(s.b, 0x02), Product(s.c, 0x03), s.d),
      Add4(s.a, s.b, Product(s.c, 0x02), Product(s.d, 0x03)),
      Add4(Product(s.a, 0x03), s.b, s.c, Product(s.d, 0x02)))
  }

  function InvMix(s: Column): Column {
    Column(
      Add4(Product(s.a, 0x0e), Product(s.b, 0x0b), Product(s.c, 0x0d), Product(s.d, 0x09)),
      Add4(Product(s.a, 0x09), Product(s.b, 0x0e), Product(s.c, 0x0b), Product(s.d, 0x0d)),
      Add4(Product(s.a, 0x0d), Product(s.b, 0x09), Product(s.c, 0x0e), Product(s.d, 0x0b)),
      Add4(Product(s.a, 0x0b), Product(s.b, 0x0d), Product(s.c, 0x09), Product(s.d, 0x0e)))
  }

  function Plus(s: Column, t: Column): Column {
    Column(Add(s.a, t.a), Add(s.b, t.b), Add(s.c, t.c), Add(s.d, t.d))
  }

  // ----- the six factors in terms of xtime -----

  lemma Factors(x: bv8)
    ensures Product(x, 0x02) == Xtime(x)
    ensures Product(x, 0x03) == Add(x, Xtime(x))
    ensures Product(x, 0x09) == Add(x, Xtime(Xtime(Xtime(x))))
    ensures Product(x, 0x0b) == Add(Add(x, Xtime(x)), Xtime(Xtime(Xtime(x))))
    ensures Product(x, 0x0d) == Add(Add(x, Xtime(Xtime(x))), Xtime(Xtime(Xtime(x))))
    ensures Product(x, 0x0e) == Add(Add(Xtime(x), Xtime(Xtime(x))), Xtime(Xtime(Xtime(x))))
  {
    hide Product, Xtime, Add;
    MultiplyIsProduct(x, 0x02);
    MultiplyIsProduct(x, 0x03);
    MultiplyIsProduct(x, 0x09);
    MultiplyIsProduct(x, 0x0b);
    MultiplyIsProduct(x, 0x0d);
    MultiplyIsProduct(x, 0x0e);
    var x1 := Xtime(x);
    var x2 := Xtime(x1);
    var x3 := Xtime(x2);
    AddZero(0);
    AddZero(x);
    AddZero(x1);
    AddZero(x2);
    AddZero(x3);
    AddZero(Add(x, x1));
    AddZero(Add(x, x2));
    AddZero(Add(x1, x2));
    AddZero(Add(x, x3));
    AddZero(Add(Add(x, x1), x3));
    AddZero(Add(Add(x, x2), x3));
    AddZero(Add(Add(x1, x2), x3));
  }

  // ----- both matrices are linear -----

  lemma Add4Adds(x: bv8, y: bv8, z: bv8, w: bv8, x': bv8, y': bv8, z': bv8, w': bv8)
    ensures Add4(Add(x, x'), Add(y, y'), Add(z, z'), Add(w, w')) == Add(Add4(x, y, z, w), Add4(x', y', z', w'))
  {
    hide Add;
    AddInterchanges(x, x', y, y');
    AddInterchanges(Add(x, y), Add(x', y'), z, z');
    AddInterchanges(Add(Add(x, y), z), Add(Add(x', y'), z'), w, w');
  }

  lemma MixPlus(s: Column, t: Column)
    ensures Mix(Plus(s, t)) == Plus(Mix(s), Mix(t))
  {
    hide Add, Add4, Product;
    ProductLinear(s.a, t.a, 0x02); ProductLinear(s.a, t.a, 0x03);
    ProductLinear(s.b, t.b, 0x02); ProductLinear(s.b, t.b, 0x03);
    ProductLinear(s.c, t.c, 0x02); ProductLinear(s.c, t.c, 0x03);
    ProductLinear(s.d, t.d, 0x02); ProductLinear(s.d, t.d, 0x03);
    Add4Adds(Product(s.a, 0x02), Product(s.b, 0x03), s.c, s.d, Product(t.a, 0x02), Product(t.b, 0x03), t.c, t.d);
    Add4Adds(s.a, Product(s.b, 0x02), Product(s.c, 0x03), s.d, t.a, Product(t.b, 0x02), Product(t.c, 0x03), t.d);
    Add4Adds(s.a, s.b, Product(s.c, 0x02), Product(s.d, 0x03), t.a, t.b, Product(t.c, 0x02), Product(t.d, 0x03));
    Add4Adds(Product(s.a, 0x03), s.b, s.c, Product(s.d, 0x02), Product(t.a, 0x03), t.b, t.c, Product(t.d, 0x02));
  }

  lemma InvFactorsLinear(x: bv8, y: bv8)
    ensures Product(Add(x, y), 0x09) == Add(Product(x, 0x09), Product(y, 0x09))
    ensures Product(Add(x, y), 0x0b) == Add(Product(x, 0x0b), Product(y, 0x0b))
    ensures Product(Add(x, y), 0x0d) == Add(Product(x, 0x0d), Product(y, 0x0d))
    ensures Product(Add(x, y), 0x0e) == Add(Product(x, 0x0e), Product(y, 0x0e))
  {
    hide Add, Product;
    ProductLinear(x, y, 0x09);
    ProductLinear(x, y, 0x0b);
    ProductLinear(x, y, 0x0d);
    ProductLinear(x, y, 0x0e);
  }

  lemma InvMixPlus(s: Column, t: Column)
    ensures InvMix(Plus(s, t)) == Plus(InvMix(s), InvMix(t))
  {
    hide Add, Add4, Product;
    InvFactorsLinear(s.a, t.a);
    InvFactorsLinear(s.b, t.b);
    InvFactorsLinear(s.c, t.c);
    InvFactorsLinear(s.d, t.d);
    Add4Adds(Product(s.a, 0x0e), Product(s.b, 0x0b), Product(s.c, 0x0d), Product(s.d, 0x09),
             Product(t.a, 0x0e), Product(t.b, 0x0b), Product(t.c, 0x0d), Product(t.d, 0x09));
    Add4Adds(Product(s.a, 0x09), Product(s.b, 0x0e), Product(s.c, 0x0b), Product(s.d, 0x0d),
             Product(t.a, 0x09), Product(t.b, 0x0e), Product(t.c, 0x0b), Product(t.d, 0x0d));
    Add4Adds(Product(s.a, 0x0d), Product(s.b, 0x09), Product(s.c, 0x0e), Product(s.d, 0x0b),
             Product(t.a, 0x0d), Product(t.b, 0x09), Product(t.c, 0x0e), Product(t.d, 0x0b));
    Add4Adds(Product(s.a, 0x0b), Product(s.b, 0x0d), Product(s.c, 0x09), Product(s.d, 0x0e),
             Product(t.a, 0x0b), Product(t.b, 0x0d), Product(t.c, 0x09), Product(t.d, 0x0e));
  }

  // ----- one byte at a time -----

  lemma OnlyByte(x: bv8)
    ensures Product(0, 0x02) == 0 && Product(0, 0x03) == 0
    ensures Product(0, 0x09) == 0 && Product(0, 0x0b) == 0 && Product(0, 0x0d) == 0 && Product(0, 0x0e) == 0
    ensures Add4(x, 0, 0, 0) == Add4(0, x, 0, 0) == Add4(0, 0, x, 0) == Add4(0, 0, 0, x) == x
  {
    hide Product;
    Factors(0);
  }

  /** Multiplying by 0x02 or 0x03 and by a factor of up to four bits is multiplying by their product. */
  lemma Twice(x: bv8, c: bv8)
    requires c < 0x10
    ensures Product(Product(x, 0x02), c) == Product(Product(x, c), 0x02) == Product(x, c << 1)
    ensures Product(Product(x, 0x03), c) == Product(Product(x, c), 0x03) == Product(x, Add(c, c << 1))
  {
    hide Product, Xtime, Add;
    Factors(x);
    Factors(Product(x, c));
    ProductOfXtime(x, c);
    XtimeOfProduct(x, c);
    ProductLinear(x, Xtime(x), c);
    ProductAdds(x, c, c << 1);
  }

  /** A row of such products is one product with the sum of the factors. */
  lemma Row(x: bv8, a: bv8, b: bv8, c: bv8, d: bv8)
    ensures Add4(Product(x, a), Product(x, b), Product(x, c), Product(x, d)) == Product(x, Add4(a, b, c, d))
  {
    hide Product, Add;
    ProductAdds(x, a, b);
    ProductAdds(x, Add(a, b), c);
    ProductAdds(x, Add(Add(a, b), c), d);
  }

  lemma Add4Is(a: bv8, b: bv8, c: bv8, d: bv8)
    ensures Add4(a, b, c, d) == a ^ b ^ c ^ d
  {
  }

  /** The four rows of the product of the two matrices, applied to one byte. */
  lemma Row0(x: bv8)
    ensures Add4(Product(Product(x, 0x02), 0x0e), Product(x, 0x0b),
                 Product(x, 0x0d), Product(Product(x, 0x03), 0x09)) == x
  {
    hide Product, Add4;
    Twice(x, 0x0e);
    Twice(x, 0x09);
    Row(x, 0x1c, 0x0b, 0x0d, 0x1b);
    assert Add4(0x1c, 0x0b, 0x0d, 0x1b) == 0x01 by { Add4Is(0x1c, 0x0b, 0x0d, 0x1b); }
    ProductZero(x);
  }

  lemma Row1(x: bv8)
    ensures Add4(Product(Product(x, 0x02), 0x09), Product(x, 0x0e),
                 Product(x, 0x0b), Product(Product(x, 0x03), 0x0d)) == 0
  {
    hide Product, Add4;
    Twice(x, 0x09);
    Twice(x, 0x0d);
    Row(x, 0x12, 0x0e, 0x0b, 0x17);
    assert Add4(0x12, 0x0e, 0x0b, 0x17) == 0x00 by { Add4Is(0x12, 0x0e, 0x0b, 0x17); }
    ProductZero(x);
  }

  lemma Row2(x: bv8)
    ensures Add4(Product(Product(x, 0x02), 0x0d), Product(x, 0x09),
                 Product(x, 0x0e), Product(Product(x, 0x03), 0x0b)) == 0
  {
    hide Product, Add4;
    Twice(x, 0x0d);
    Twice(x, 0x0b);
    Row(x, 0x1a, 0x09, 0x0e, 0x1d);
    assert Add4(0x1a, 0x09, 0x0e, 0x1d) == 0x00 by { Add4Is(0x1a, 0x09, 0x0e, 0x1d); }
    ProductZero(x);
  }

  lemma Row3(x: bv8)
    ensures Add4(Product(Product(x, 0x02), 0x0b), Product(x, 0x0d),
                 Product(x, 0x09), Product(Product(x, 0x03), 0x0e)) == 0
  {
    hide Product, Add4;
    Twice(x, 0x0b);
    Twice(x, 0x0e);
    Row(x, 0x16, 0x0d, 0x09, 0x12);
    assert Add4(0x16, 0x0d, 0x09, 0x12) == 0x00 by { Add4Is(0x16, 0x0d, 0x09, 0x12); }
    ProductZero(x);
  }

  lemma Add4Rotates(x: bv8, y: bv8, z: bv8, w: bv8)
    ensures Add4(x, y, z, w) == Add4(y, z, w, x) == Add4(z, w, x, y) == Add4(w, x, y, z)
  {
    hide Add;
    AddRotates(x, y, z, w);
    AddRotates(y, z, w, x);
    AddRotates(z, w, x, y);
  }

  lemma InvMixOfMixByte(x: bv8)
    ensures InvMix(Mix(Column(x, 0, 0, 0))) == Column(x, 0, 0, 0)
    ensures InvMix(Mix(Column(0, x, 0, 0))) == Column(0, x, 0, 0)
    ensures InvMix(Mix(Column(0, 0, x, 0))) == Column(0, 0, x, 0)
    ensures InvMix(Mix(Column(0, 0, 0, x))) == Column(0, 0, 0, x)
  {
    hide Product, Add4;
    var x2, x3 := Product(x, 0x02), Product(x, 0x03);
    OnlyByte(x);
    OnlyByte(x2);
    OnlyByte(x3);
    Row0(x);
    Row1(x);
    Row2(x);
    Row3(x);
    Add4Rotates(Product(x2, 0x0e), Product(x, 0x0b), Product(x, 0x0d), Product(x3, 0x09));
    Add4Rotates(Product(x2, 0x09), Product(x, 0x0e), Product(x, 0x0b), Product(x3, 0x0d));
    Add4Rotates(Product(x2, 0x0d), Product(x, 0x09), Product(x, 0x0e), Product(x3, 0x0b));
    Add4Rotates(Product(x2, 0x0b), Product(x, 0x0d), Product(x, 0x09), Product(x3, 0x0e));
  }

  lemma InvRow0(x: bv8)
    ensures Add4(Product(Product(x, 0x0e), 0x02), Product(Product(x, 0x09), 0x03),
                 Product(x, 0x0d), Product(x, 0x0b)) == x
  {
    hide Product, Add4;
    Twice(x, 0x0e);
    Twice(x, 0x09);
    Row(x, 0x1c, 0x1b, 0x0d, 0x0b);
    assert Add4(0x1c, 0x1b, 0x0d, 0x0b) == 0x01 by { Add4Is(0x1c, 0x1b, 0x0d, 0x0b); }
    ProductZero(x);
  }

  lemma InvRow1(x: bv8)
    ensures Add4(Product(x, 0x0e), Product(Product(x, 0x09), 0x02),
                 Product(Product(x, 0x0d), 0x03), Product(x, 0x0b)) == 0
  {
    hide Product, Add4;
    Twice(x, 0x09);
    Twice(x, 0x0d);
    Row(x, 0x0e, 0x12, 0x17, 0x0b);
    assert Add4(0x0e, 0x12, 0x17, 0x0b) == 0x00 by { Add4Is(0x0e, 0x12, 0x17, 0x0b); }
    ProductZero(x);
  }

  lemma InvRow2(x: bv8)
    ensures Add4(Product(x, 0x0e), Product(x, 0x09),
                 Product(Product(x, 0x0d), 0x02), Product(Product(x, 0x0b), 0x03)) == 0
  {
    hide Product, Add4;
    Twice(x, 0x0d);
    Twice(x, 0x0b);
    Row(x, 0x0e, 0x09, 0x1a, 0x1d);
    assert Add4(0x0e, 0x09, 0x1a, 0x1d) == 0x00 by { Add4Is(0x0e, 0x09, 0x1a, 0x1d); }
    ProductZero(x);
  }

  lemma InvRow3(x: bv8)
    ensures Add4(Product(Product(x, 0x0e), 0x03), Product(x, 0x09),
                 Product(x, 0x0d), Product(Product(x, 0x0b), 0x02)) == 0
  {
    hide Product, Add4;
    Twice(x, 0x0e);
    Twice(x, 0x0b);
    Row(x, 0x12, 0x09, 0x0d, 0x16);
    assert Add4(0x12, 0x09, 0x0d, 0x16) == 0x00 by { Add4Is(0x12, 0x09, 0x0d, 0x16); }
    ProductZero(x);
  }

  lemma MixOfInvMixByte(x: bv8)
    ensures Mix(InvMix(Column(x, 0, 0, 0))) == Column(x, 0, 0, 0)
    ensures Mix(InvMix(Column(0, x, 0, 0))) == Column(0, x, 0, 0)
    ensures Mix(InvMix(Column(0, 0, x, 0))) == Column(0, 0, x, 0)
    ensures Mix(InvMix(Column(0, 0, 0, x))) == Column(0, 0, 0, x)
  {
    hide Product, Add4;
    var x9, xb, xd, xe := Product(x, 0x09), Product(x, 0x0b), Product(x, 0x0d), Product(x, 0x0e);
    OnlyByte(x9);
    OnlyByte(xb);
    OnlyByte(xd);
    OnlyByte(xe);
    InvRow0(x);
    InvRow1(x);
    InvRow2(x);
    InvRow3(x);
    Add4Rotates(Product(xe, 0x02), Product(x9, 0x03), xd, xb);
    Add4Rotates(xe, Product(x9, 0x02), Product(xd, 0x03), xb);
    Add4Rotates(xe, x9, Product(xd, 0x02), Product(xb, 0x03));
    Add4Rotates(Product(xe, 0x03), x9, xd, Product(xb, 0x02));
  }

  // ----- the whole column -----

  function Bytewise(s: Column): Column {
    Plus(Plus(Plus(Column(s.a, 0, 0, 0), Column(0, s.b, 0, 0)), Column(0, 0, s.c, 0)), Column(0, 0, 0, s.d))
  }

  lemma BytewiseSame(s: Column)
    ensures Bytewise(s) == s
  {
    hide Add;
    AddZero(0);
    AddZero(s.a);
    AddZero(s.b);
    AddZero(s.c);
    AddZero(s.d);
  }

  lemma InvMixOfMix(s: Column)
    ensures InvMix(Mix(s)) == s
  {
    hide Mix, InvMix, Plus;
    var a, b, c, d := Column(s.a, 0, 0, 0), Column(0, s.b, 0, 0), Column(0, 0, s.c, 0), Column(0, 0, 0, s.d);
    BytewiseSame(s);
    MixPlus(Plus(Plus(a, b), c), d);
    MixPlus(Plus(a, b), c);
    MixPlus(a, b);
    InvMixPlus(Plus(Plus(Mix(a), Mix(b)), Mix(c)), Mix(d));
    InvMixPlus(Plus(Mix(a), Mix(b)), Mix(c));
    InvMixPlus(Mix(a), Mix(b));
    InvMixOfMixByte(s.a);
    InvMixOfMixByte(s.b);
    InvMixOfMixByte(s.c);
    InvMixOfMixByte(s.d);
  }

  lemma MixOfInvMix(s: Column)
    ensures Mix(InvMix(s)) == s
  {
    hide Mix, InvMix, Plus;
    var a, b, c, d := Column(s.a, 0, 0, 0), Column(0, s.b, 0, 0), Column(0, 0, s.c, 0), Column(0, 0, 0, s.d);
    BytewiseSame(s);
    InvMixPlus(Plus(Plus(a, b), c), d);
    InvMixPlus(Plus(a, b), c);
    InvMixPlus(a, b);
    MixPlus(Plus(Plus(InvMix(a), InvMix(b)), InvMix(c)), InvMix(d));
    MixPlus(Plus(InvMix(a), InvMix(b)), InvMix(c));
    MixPlus(InvMix(a), InvMix(b));
    MixOfInvMixByte(s.a);
    MixOfInvMixByte(s.b);
    MixOfInvMixByte(s.c);
    MixOfInvMixByte(s.d);
  }

  // ----- the single pass of aes.c -----

  /** With t = a + b + c + d, adding t and 2 * (a + b) to a leaves the first row of the matrix product. */
  lemma MixInOnePass(a: bv8, b: bv8, c: bv8, d: bv8)
    ensures Add(a, Add(Xtime(Add(a, b)), Add4(a, b, c, d))) == Add4(Product(a, 0x02), Product(b, 0x03), c, d)
  {
    hide Add, Product, Xtime;
    Factors(a);
    Factors(b);
    XtimeLinear(a, b);
    var x, y := Xtime(a), Xtime(b);
    calc {
      Add(a, Add(Add(x, y), Add4(a, b, c, d)));
      { AddComm(Add(x, y), Add4(a, b, c, d)); AddAssoc(a, Add4(a, b, c, d), Add(x, y)); }
      Add(Add(a, Add4(a, b, c, d)), Add(x, y));
      { AddCancels(a, b, c, d); }
      Add(Add(Add(b, c), d), Add(x, y));
      { AddAssoc(b, c, d); AddComm(b, Add(c, d)); AddAssoc(Add(c, d), b, Add(x, y)); AddAssoc(b, x, y); AddComm(b, x);
        AddAssoc(x, b, y); AddComm(Add(c, d), Add(x, Add(b, y))); }
      Add(Add(x, Add(b, y)), Add(c, d));
      { AddAssoc(Add(x, Add(b, y)), c, d); }
      Add4(x, Add(b, y), c, d);
    }
  }

  lemma AddCancels(a: bv8, b: bv8, c: bv8, d: bv8)
    ensures Add(a, Add4(a, b, c, d)) == Add(Add(b, c), d)
  {
    hide Add;
    AddAssoc(a, Add(Add(a, b), c), d);
    AddAssoc(a, Add(a, b), c);
    AddAssoc(a, a, b);
    AddSelf(a);
    AddZero(b);
  }

  lemma AddSelf(x: bv8)
    ensures Add(x, x) == 0
  {
  }
}
