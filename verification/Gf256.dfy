/** Arithmetic of section 4 of FIPS 197: bytes as polynomials over GF(2) modulo x^8 + x^4 + x^3 + x + 1.
  * Product is the definition; Xtime and Multiply are what aes.c computes.
  */
module Gf256 {

  /** Section 4.1: addition of two bytes. */
  function Add(x: bv8, y: bv8): bv8 {
    x ^ y
  }

  function Add16(p: bv16, q: bv16): bv16 {
    p ^ q
  }

  function Scale(bit: bv8, x: bv8): bv8 {
    if bit == 0 then 0 else x
  }

  function Scale16(bit: bv8, w: bv16): bv16 {
    if bit == 0 then 0 else w
  }

  function Sum8(a: bv16, b: bv16, c: bv16, d: bv16, e: bv16, f: bv16, g: bv16, h: bv16): bv16 {
    Add16(Add16(Add16(Add16(Add16(Add16(Add16(a, b), c), d), e), f), g), h)
  }

  /** A polynomial times x. */
  function Up(w: bv16): bv16 {
    w << 1
  }

  /** A polynomial, if y has the power of `bit`. */
  function Part(y: bv8, bit: bv8, w: bv16): bv16 {
    Scale16(y & bit, w)
  }

  /** The product of two polynomials, before reduction. */
  function PolyProduct(x: bv8, y: bv8): bv16 {
    var w0 := x as bv16;
    var w1 := Up(w0);
    var w2 := Up(w1);
    var w3 := Up(w2);
    var w4 := Up(w3);
    var w5 := Up(w4);
    var w6 := Up(w5);
    var w7 := Up(w6);
    Sum8(Part(y, 0x01, w0), Part(y, 0x02, w1), Part(y, 0x04, w2), Part(y, 0x08, w3),
         Part(y, 0x10, w4), Part(y, 0x20, w5), Part(y, 0x40, w6), Part(y, 0x80, w7))
  }

  /** One step of long division: cancels the leading power `top` with a multiple of the modulus 0x11b. */
  function DivStep(p: bv16, top: bv16, multiple: bv16): bv16 {
    if p & top == 0 then p else Add16(p, multiple)
  }

  function Reduce(p: bv16): bv8 {
    var p6 := DivStep(p, 0x4000, 0x46c0);
    var p5 := DivStep(p6, 0x2000, 0x2360);
    var p4 := DivStep(p5, 0x1000, 0x11b0);
    var p3 := DivStep(p4, 0x0800, 0x08d8);
    var p2 := DivStep(p3, 0x0400, 0x046c);
    var p1 := DivStep(p2, 0x0200, 0x0236);
    var p0 := DivStep(p1, 0x0100, 0x011b);
    Low(p0)
  }

  function Low(p: bv16): bv8 {
    (p & 0xff) as bv8
  }

  /** Section 4.2: the product of two bytes. */
  function Product(x: bv8, y: bv8): bv8 {
    Reduce(PolyProduct(x, y))
  }

  function Xtime(x: bv8): bv8 {
    (x << 1) ^ (if x & 0x80 == 0 then 0 else 0x1b)
  }

  function Multiply(x: bv8, y: bv8): bv8 {
    Add(Add(Add(Add(
      Scale(y & 0x01, x), Scale(y & 0x02, Xtime(x))), Scale(y & 0x04, Xtime(Xtime(x)))),
      Scale(y & 0x08, Xtime(Xtime(Xtime(x))))), Scale(y & 0x10, Xtime(Xtime(Xtime(Xtime(x))))))
  }

  // ----- addition -----

  lemma AddZero(x: bv8)
    ensures Add(x, 0) == x && Add(0, x) == x
  {
  }

  lemma AddAssoc(x: bv8, y: bv8, z: bv8)
    ensures Add(x, Add(y, z)) == Add(Add(x, y), z)
  {
  }

  lemma AddComm(x: bv8, y: bv8)
    ensures Add(x, y) == Add(y, x)
  {
  }

  lemma AddInterchanges(x: bv8, y: bv8, z: bv8, w: bv8)
    ensures Add(Add(x, y), Add(z, w)) == Add(Add(x, z), Add(y, w))
  {
    hide Add;
    AddAssoc(Add(x, y), z, w);
    AddAssoc(x, y, z);
    AddComm(y, z);
    AddAssoc(x, z, y);
    AddAssoc(Add(x, z), y, w);
  }

  lemma AddRotates(x: bv8, y: bv8, z: bv8, w: bv8)
    ensures Add(Add(Add(x, y), z), w) == Add(Add(Add(y, z), w), x)
  {
  }

  // ----- everything is linear -----

  lemma XtimeLinear(x: bv8, y: bv8)
    ensures Xtime(Add(x, y)) == Add(Xtime(x), Xtime(y))
  {
    if x & 0x80 == 0 {
      if y & 0x80 == 0 {} else {}
    } else {
      if y & 0x80 == 0 {} else {}
    }
  }

  lemma DivStepLinear(p: bv16, q: bv16, top: bv16, m: bv16)
    requires top & (top - 1) == 0
    ensures DivStep(Add16(p, q), top, m) == Add16(DivStep(p, top, m), DivStep(q, top, m))
  {
    hide Add16;
    OneBit(p, top);
    OneBit(q, top);
    MaskAdds(p, q, top);
    Add16Multiple(p, q, m);
    Add16Group(top, top);
    Add16Group(0, 0);
  }

  lemma OneBit(p: bv16, top: bv16)
    requires top & (top - 1) == 0
    ensures p & top == 0 || p & top == top
  {
  }

  lemma MaskAdds(p: bv16, q: bv16, top: bv16)
    ensures Add16(p, q) & top == Add16(p & top, q & top)
  {
  }

  lemma Add16Assoc(p: bv16, q: bv16, m: bv16)
    ensures Add16(p, Add16(q, m)) == Add16(Add16(p, q), m)
  {
  }

  lemma Add16Group(p: bv16, q: bv16)
    ensures Add16(p, q) == Add16(q, p)
    ensures Add16(p, p) == 0 && Add16(p, 0) == p && Add16(0, p) == p
  {
  }

  /** Adding the same polynomial to one or both of two summands. */
  lemma Add16Multiple(p: bv16, q: bv16, m: bv16)
    ensures Add16(Add16(p, m), q) == Add16(Add16(p, q), m)
    ensures Add16(p, Add16(q, m)) == Add16(Add16(p, q), m)
    ensures Add16(Add16(p, m), Add16(q, m)) == Add16(p, q)
  {
    hide Add16;
    Add16Assoc(p, m, q);
    Add16Group(m, q);
    Add16Assoc(p, q, m);
    Add16Assoc(Add16(p, m), q, m);
    Add16Assoc(Add16(p, q), m, m);
    Add16Group(m, m);
    Add16Group(Add16(p, q), 0);
  }

  lemma LowLinear(p: bv16, q: bv16)
    ensures Low(Add16(p, q)) == Add(Low(p), Low(q))
  {
  }

  lemma ReduceLinear(p: bv16, q: bv16)
    ensures Reduce(Add16(p, q)) == Add(Reduce(p), Reduce(q))
  {
    hide DivStep, Add16, Add, Low;
    DivStepLinear(p, q, 0x4000, 0x46c0);
    var p6, q6 := DivStep(p, 0x4000, 0x46c0), DivStep(q, 0x4000, 0x46c0);
    DivStepLinear(p6, q6, 0x2000, 0x2360);
    var p5, q5 := DivStep(p6, 0x2000, 0x2360), DivStep(q6, 0x2000, 0x2360);
    DivStepLinear(p5, q5, 0x1000, 0x11b0);
    var p4, q4 := DivStep(p5, 0x1000, 0x11b0), DivStep(q5, 0x1000, 0x11b0);
    DivStepLinear(p4, q4, 0x0800, 0x08d8);
    var p3, q3 := DivStep(p4, 0x0800, 0x08d8), DivStep(q4, 0x0800, 0x08d8);
    DivStepLinear(p3, q3, 0x0400, 0x046c);
    var p2, q2 := DivStep(p3, 0x0400, 0x046c), DivStep(q3, 0x0400, 0x046c);
    DivStepLinear(p2, q2, 0x0200, 0x0236);
    var p1, q1 := DivStep(p2, 0x0200, 0x0236), DivStep(q2, 0x0200, 0x0236);
    DivStepLinear(p1, q1, 0x0100, 0x011b);
    LowLinear(DivStep(p1, 0x0100, 0x011b), DivStep(q1, 0x0100, 0x011b));
  }

  // ----- Multiply -----

  /** Shifting a byte up by i places and reducing is i times xtime. */
  lemma ReduceShifts(x: bv8)
    ensures Reduce(x as bv16) == x
    ensures Reduce(Up(x as bv16)) == Xtime(x)
  {
  }

  lemma ReduceShifts2(x: bv8)
    ensures Reduce(Up(Up(x as bv16))) == Xtime(Xtime(x))
  {
  }

  lemma ReduceShifts3(x: bv8)
    ensures Reduce(Up(Up(Up(x as bv16)))) == Xtime(Xtime(Xtime(x)))
  {
  }

  lemma ReduceShifts4(x: bv8)
    ensures Reduce(Up(Up(Up(Up(x as bv16))))) == Xtime(Xtime(Xtime(Xtime(x))))
  {
  }

  lemma ReducePart(y: bv8, bit: bv8, w: bv16)
    ensures Reduce(Part(y, bit, w)) == Scale(y & bit, Reduce(w))
  {
  }

  lemma NoHighBits(y: bv8, w: bv16)
    requires y < 0x20
    ensures Part(y, 0x20, w) == Part(y, 0x40, w) == Part(y, 0x80, w) == 0
  {
  }

  lemma ReduceSum5(a: bv16, b: bv16, c: bv16, d: bv16, e: bv16)
    ensures Reduce(Add16(Add16(Add16(Add16(a, b), c), d), e))
         == Add(Add(Add(Add(Reduce(a), Reduce(b)), Reduce(c)), Reduce(d)), Reduce(e))
  {
    hide Reduce, Add, Add16;
    ReduceLinear(Add16(Add16(Add16(a, b), c), d), e);
    ReduceLinear(Add16(Add16(a, b), c), d);
    ReduceLinear(Add16(a, b), c);
    ReduceLinear(a, b);
  }

  /** The five lowest powers suffice for a factor below 0x20. */
  lemma PolyProductShort(x: bv8, y: bv8)
    requires y < 0x20
    ensures PolyProduct(x, y) == (
      var w := x as bv16;
      Add16(Add16(Add16(Add16(Part(y, 0x01, w), Part(y, 0x02, Up(w))), Part(y, 0x04, Up(Up(w)))),
                  Part(y, 0x08, Up(Up(Up(w))))), Part(y, 0x10, Up(Up(Up(Up(w)))))))
  {
    hide Part, Add16, Up;
    var w := x as bv16;
    var w4 := Up(Up(Up(Up(w))));
    NoHighBits(y, Up(w4));
    NoHighBits(y, Up(Up(w4)));
    NoHighBits(y, Up(Up(Up(w4))));
    Add16Group(Add16(Add16(Add16(Add16(Part(y, 0x01, w), Part(y, 0x02, Up(w))), Part(y, 0x04, Up(Up(w)))),
                           Part(y, 0x08, Up(Up(Up(w))))), Part(y, 0x10, w4)), 0);
  }

  lemma ReduceParts(x: bv8, y: bv8)
    ensures var w := x as bv16;
      && Reduce(Part(y, 0x01, w)) == Scale(y & 0x01, x)
      && Reduce(Part(y, 0x02, Up(w))) == Scale(y & 0x02, Xtime(x))
      && Reduce(Part(y, 0x04, Up(Up(w)))) == Scale(y & 0x04, Xtime(Xtime(x)))
      && Reduce(Part(y, 0x08, Up(Up(Up(w))))) == Scale(y & 0x08, Xtime(Xtime(Xtime(x))))
      && Reduce(Part(y, 0x10, Up(Up(Up(Up(w)))))) == Scale(y & 0x10, Xtime(Xtime(Xtime(Xtime(x)))))
  {
    hide Reduce, Xtime, Scale, Part, Up;
    var w := x as bv16;
    ReducePart(y, 0x01, w);
    ReducePart(y, 0x02, Up(w));
    ReducePart(y, 0x04, Up(Up(w)));
    ReducePart(y, 0x08, Up(Up(Up(w))));
    ReducePart(y, 0x10, Up(Up(Up(Up(w)))));
    ReduceShifts(x);
    ReduceShifts2(x);
    ReduceShifts3(x);
    ReduceShifts4(x);
  }

  /** Multiply drops the top three bits of its second factor; for the factors below 0x20 it is the product. */
  lemma MultiplyIsProduct(x: bv8, y: bv8)
    requires y < 0x20
    ensures Multiply(x, y) == Product(x, y)
  {
    hide Reduce, Xtime, Scale, Part, Up, Add, Add16, PolyProduct;
    var w := x as bv16;
    PolyProductShort(x, y);
    ReduceSum5(Part(y, 0x01, w), Part(y, 0x02, Up(w)), Part(y, 0x04, Up(Up(w))), Part(y, 0x08, Up(Up(Up(w)))),
               Part(y, 0x10, Up(Up(Up(Up(w))))));
    ReduceParts(x, y);
  }

  // ----- the product distributes on both sides -----

  lemma Add16Interchanges(p: bv16, q: bv16, r: bv16, s: bv16)
    ensures Add16(Add16(p, q), Add16(r, s)) == Add16(Add16(p, r), Add16(q, s))
  {
    hide Add16;
    Add16Assoc(Add16(p, q), r, s);
    Add16Assoc(p, q, r);
    Add16Group(q, r);
    Add16Assoc(p, r, q);
    Add16Assoc(Add16(p, r), q, s);
  }

  lemma Sum8Interchanges(a: bv16, b: bv16, c: bv16, d: bv16, e: bv16, f: bv16, g: bv16, h: bv16,
                         a': bv16, b': bv16, c': bv16, d': bv16, e': bv16, f': bv16, g': bv16, h': bv16)
    ensures Sum8(Add16(a, a'), Add16(b, b'), Add16(c, c'), Add16(d, d'),
                 Add16(e, e'), Add16(f, f'), Add16(g, g'), Add16(h, h'))
         == Add16(Sum8(a, b, c, d, e, f, g, h), Sum8(a', b', c', d', e', f', g', h'))
  {
    hide Add16;
    var s2, t2 := Add16(a, b), Add16(a', b');
    var s3, t3 := Add16(s2, c), Add16(t2, c');
    var s4, t4 := Add16(s3, d), Add16(t3, d');
    var s5, t5 := Add16(s4, e), Add16(t4, e');
    var s6, t6 := Add16(s5, f), Add16(t5, f');
    var s7, t7 := Add16(s6, g), Add16(t6, g');
    Add16Interchanges(a, a', b, b');
    Add16Interchanges(s2, t2, c, c');
    Add16Interchanges(s3, t3, d, d');
    Add16Interchanges(s4, t4, e, e');
    Add16Interchanges(s5, t5, f, f');
    Add16Interchanges(s6, t6, g, g');
    Add16Interchanges(s7, t7, h, h');
  }

  lemma PartLinear(y: bv8, bit: bv8, p: bv16, q: bv16)
    ensures Part(y, bit, Add16(p, q)) == Add16(Part(y, bit, p), Part(y, bit, q))
  {
    hide Add16;
    Add16Group(0, 0);
  }

  lemma WideAdds(x: bv8, y: bv8)
    ensures Add(x, y) as bv16 == Add16(x as bv16, y as bv16)
  {
  }

  lemma ShiftOverXor(p: bv16, q: bv16)
    ensures (p ^ q) << 1 == (p << 1) ^ (q << 1)
  {
  }

  lemma UpAdds(p: bv16, q: bv16)
    ensures Up(Add16(p, q)) == Add16(Up(p), Up(q))
  {
    ShiftOverXor(p, q);
  }

  /** Multiplication by any byte distributes over addition, in the first factor ... */
  lemma ProductLinear(x: bv8, y: bv8, z: bv8)
    ensures Product(Add(x, y), z) == Add(Product(x, z), Product(y, z))
  {
    hide Reduce, Add, Add16, Part, Up, Sum8;
    var p0, q0 := x as bv16, y as bv16;
    var p1, q1 := Up(p0), Up(q0);
    var p2, q2 := Up(p1), Up(q1);
    var p3, q3 := Up(p2), Up(q2);
    var p4, q4 := Up(p3), Up(q3);
    var p5, q5 := Up(p4), Up(q4);
    var p6, q6 := Up(p5), Up(q5);
    var p7, q7 := Up(p6), Up(q6);
    WideAdds(x, y);
    UpAdds(p0, q0);
    UpAdds(p1, q1);
    UpAdds(p2, q2);
    UpAdds(p3, q3);
    UpAdds(p4, q4);
    UpAdds(p5, q5);
    UpAdds(p6, q6);
    PartLinear(z, 0x01, p0, q0);
    PartLinear(z, 0x02, p1, q1);
    PartLinear(z, 0x04, p2, q2);
    PartLinear(z, 0x08, p3, q3);
    PartLinear(z, 0x10, p4, q4);
    PartLinear(z, 0x20, p5, q5);
    PartLinear(z, 0x40, p6, q6);
    PartLinear(z, 0x80, p7, q7);
    Sum8Interchanges(Part(z, 0x01, p0), Part(z, 0x02, p1), Part(z, 0x04, p2), Part(z, 0x08, p3),
                     Part(z, 0x10, p4), Part(z, 0x20, p5), Part(z, 0x40, p6), Part(z, 0x80, p7),
                     Part(z, 0x01, q0), Part(z, 0x02, q1), Part(z, 0x04, q2), Part(z, 0x08, q3),
                     Part(z, 0x10, q4), Part(z, 0x20, q5), Part(z, 0x40, q6), Part(z, 0x80, q7));
    ReduceLinear(PolyProduct(x, z), PolyProduct(y, z));
  }

  lemma PartAdds(m: bv8, n: bv8, bit: bv8, w: bv16)
    requires bit & (bit - 1) == 0
    ensures Part(Add(m, n), bit, w) == Add16(Part(m, bit, w), Part(n, bit, w))
  {
    hide Add16, Add;
    Add16Group(w, 0);
    Add16Group(0, 0);
    BitAdds(m, n, bit);
  }

  lemma BitAdds(m: bv8, n: bv8, bit: bv8)
    requires bit & (bit - 1) == 0
    ensures Add(m, n) & bit == 0 <==> (m & bit == 0 <==> n & bit == 0)
  {
  }

  /** ... and in the second. */
  lemma ProductAdds(x: bv8, m: bv8, n: bv8)
    ensures Product(x, Add(m, n)) == Add(Product(x, m), Product(x, n))
  {
    hide Reduce, Add, Add16, Part, Up, Sum8;
    var w0 := x as bv16;
    var w1 := Up(w0);
    var w2 := Up(w1);
    var w3 := Up(w2);
    var w4 := Up(w3);
    var w5 := Up(w4);
    var w6 := Up(w5);
    var w7 := Up(w6);
    PartAdds(m, n, 0x01, w0);
    PartAdds(m, n, 0x02, w1);
    PartAdds(m, n, 0x04, w2);
    PartAdds(m, n, 0x08, w3);
    PartAdds(m, n, 0x10, w4);
    PartAdds(m, n, 0x20, w5);
    PartAdds(m, n, 0x40, w6);
    PartAdds(m, n, 0x80, w7);
    Sum8Interchanges(Part(m, 0x01, w0), Part(m, 0x02, w1), Part(m, 0x04, w2), Part(m, 0x08, w3),
                     Part(m, 0x10, w4), Part(m, 0x20, w5), Part(m, 0x40, w6), Part(m, 0x80, w7),
                     Part(n, 0x01, w0), Part(n, 0x02, w1), Part(n, 0x04, w2), Part(n, 0x08, w3),
                     Part(n, 0x10, w4), Part(n, 0x20, w5), Part(n, 0x40, w6), Part(n, 0x80, w7));
    ReduceLinear(PolyProduct(x, m), PolyProduct(x, n));
  }

  // ----- multiplying twice -----

  lemma ProductZero(x: bv8)
    ensures Product(x, 0x00) == 0 && Product(x, 0x01) == x
  {
    hide Product, Xtime, Add;
    MultiplyIsProduct(x, 0x00);
    MultiplyIsProduct(x, 0x01);
    AddZero(0);
    AddZero(x);
  }

  lemma XtimeScaled(bit: bv8, x: bv8)
    ensures Xtime(Scale(bit, x)) == Scale(bit, Xtime(x))
  {
  }

  lemma ShiftedBits(c: bv8)
    requires c < 0x10
    ensures (c << 1) < 0x20 && (c << 1) & 0x01 == 0 && c & 0x10 == 0
    ensures ((c << 1) & 0x02 == 0 <==> c & 0x01 == 0) && ((c << 1) & 0x04 == 0 <==> c & 0x02 == 0)
    ensures ((c << 1) & 0x08 == 0 <==> c & 0x04 == 0) && ((c << 1) & 0x10 == 0 <==> c & 0x08 == 0)
  {
  }

  /** Multiplying by c and by x, in either order, is multiplying by c shifted, if c has fewer than five bits. */
  lemma ProductOfXtime(x: bv8, c: bv8)
    requires c < 0x10
    ensures Product(Xtime(x), c) == Product(x, c << 1)
  {
    hide Product, Xtime, Add;
    ShiftedBits(c);
    MultiplyIsProduct(Xtime(x), c);
    MultiplyIsProduct(x, c << 1);
    var x1 := Xtime(x);
    AddZero(Scale(c & 0x01, x1));
    AddZero(Add(Add(Add(Scale(c & 0x01, x1), Scale(c & 0x02, Xtime(x1))), Scale(c & 0x04, Xtime(Xtime(x1)))),
                Scale(c & 0x08, Xtime(Xtime(Xtime(x1))))));
  }

  lemma XtimeOfProduct(x: bv8, c: bv8)
    requires c < 0x10
    ensures Xtime(Product(x, c)) == Product(x, c << 1)
  {
    hide Product, Xtime, Add, Scale;
    ProductOfXtime(x, c);
    MultiplyIsProduct(x, c);
    MultiplyIsProduct(Xtime(x), c);
    var x1 := Xtime(x);
    var x2 := Xtime(x1);
    var x3 := Xtime(x2);
    var a, b, d, e, f := Scale(c & 0x01, x), Scale(c & 0x02, x1), Scale(c & 0x04, x2), Scale(c & 0x08, x3),
      Scale(c & 0x10, Xtime(x3));
    XtimeScaled(c & 0x01, x);
    XtimeScaled(c & 0x02, x1);
    XtimeScaled(c & 0x04, x2);
    XtimeScaled(c & 0x08, x3);
    XtimeScaled(c & 0x10, Xtime(x3));
    XtimeLinear(a, b);
    XtimeLinear(Add(a, b), d);
    XtimeLinear(Add(Add(a, b), d), e);
    XtimeLinear(Add(Add(Add(a, b), d), e), f);
  }
}
