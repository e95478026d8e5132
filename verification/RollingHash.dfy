/** The content script's 32-bit rolling hash, over UTF-16 code units. */
module RollingHash {
  const TWO_31 := 0x8000_0000
  const TWO_32 := 0x1_0000_0000
  const TWO_53 := 0x20_0000_0000_0000

  type CodeUnit = c: int | 0 <= c < 0x1_0000

  predicate IsInt32(x: int) {
    -TWO_31 <= x < TWO_31
  }

  // ToInt32, section 7.1.6 of ECMA-262.
  function ToInt32(x: int): (r: int)
    ensures IsInt32(r)
    ensures (r - x) % TWO_32 == 0
  {
    var m := x % TWO_32;
    if m >= TWO_31 then m - TWO_32 else m
  }

  function Pow31(n: nat): nat {
    if n == 0 then 1 else 31 * Pow31(n - 1)
  }

  // The sum of s[i] * 31^(|s| - 1 - i).
  function Polynomial(s: seq<CodeUnit>): nat {
    if s == [] then 0 else s[0] * Pow31(|s| - 1) + Polynomial(s[1..])
  }

  lemma ToInt32Unique(x: int, y: int, k: int)
    requires x == y + k * TWO_32
    ensures ToInt32(x) == ToInt32(y)
  {
    assert x % TWO_32 == y % TWO_32;
  }

  lemma {:induction false} PolynomialSnoc(s: seq<CodeUnit>, c: CodeUnit)
    ensures Polynomial(s + [c]) == 31 * Polynomial(s) + c
  {
    if s == [] {
      assert s + [c] == [c] && [c][1..] == [];
      assert Pow31(0) == 1;
    } else {
      PolynomialSnoc(s[1..], c);
      assert (s + [c])[1..] == s[1..] + [c];
      assert Pow31(|s|) == 31 * Pow31(|s| - 1);
      assert s[0] * Pow31(|s|) == 31 * (s[0] * Pow31(|s| - 1));
    }
  }

  // One pass of the loop multiplies by 31 and adds, modulo 2^32. The value before truncation is
  // exact as a double.
  lemma StepIsHorner(p: int, h: int, c: CodeUnit)
    requires h == ToInt32(p)
    ensures var wide := ToInt32(h * 32) - h + c;
            -TWO_53 < wide < TWO_53 && ToInt32(wide) == ToInt32(31 * p + c)
  {
    var shifted := ToInt32(h * 32);
    var j := (shifted - h * 32) / TWO_32;
    var k := (h - p) / TWO_32;
    assert shifted - h + c == 31 * p + c + (31 * k + j) * TWO_32;
    ToInt32Unique(shifted - h + c, 31 * p + c, 31 * k + j);
  }

  lemma NothingHashed()
    ensures ToInt32(Polynomial([])) == 0
  {
  }

  lemma OneMoreUnit(s: seq<CodeUnit>, i: nat)
    requires i < |s|
    ensures Polynomial(s[..i + 1]) == 31 * Polynomial(s[..i]) + s[i]
  {
    assert s[..i + 1] == s[..i] + [s[i]];
    PolynomialSnoc(s[..i], s[i]);
  }

  method SimpleHash(s: seq<CodeUnit>) returns (h: int)
    ensures h == ToInt32(Polynomial(s))
  {
    hide Pow31, Polynomial;
    NothingHashed();
    h := 0;
    for i := 0 to |s|
      invariant h == ToInt32(Polynomial(s[..i]))
    {
      OneMoreUnit(s, i);
      StepIsHorner(Polynomial(s[..i]), h, s[i]);
      h := ToInt32(h * 32) - h + s[i];
      assert -TWO_53 < h < TWO_53;
      h := ToInt32(h);
    }
    assert s[..|s|] == s;
  }

  function Hash(s: seq<CodeUnit>): int {
    ToInt32(Polynomial(s))
  }

  lemma PowerStep(p: int, n: nat)
    ensures 31 * (p * Pow31(n)) == p * Pow31(n + 1)
  {
    hide Pow31;
    PowerSucc(n);
    var w := Pow31(n);
    assert 31 * (p * w) == p * (31 * w);
  }

  lemma PowerSucc(n: nat)
    ensures Pow31(n + 1) == 31 * Pow31(n)
  {
  }

  lemma {:induction false} PolynomialAppend(a: seq<CodeUnit>, b: seq<CodeUnit>)
    ensures Polynomial(a + b) == Polynomial(a) * Pow31(|b|) + Polynomial(b)
    decreases |b|
  {
    if b == [] {
      assert a + b == a;
    } else {
      hide Polynomial, Pow31;
      var n := |b| - 1;
      var init, c := b[..n], b[n];
      assert b == init + [c];
      assert a + b == (a + init) + [c];
      PolynomialAppend(a, init);
      PolynomialSnoc(a + init, c);
      PolynomialSnoc(init, c);
      PowerStep(Polynomial(a), n);
    }
  }

  lemma Scaled(p: int, j: int, w: int)
    ensures (p + j * TWO_32) * w == p * w + (j * w) * TWO_32
  {
  }

  lemma ResidueOfCombination(pa: int, pb: int, w: int)
    ensures ToInt32(ToInt32(pa) * w + ToInt32(pb)) == ToInt32(pa * w + pb)
  {
    var j := (ToInt32(pa) - pa) / TWO_32;
    var k := (ToInt32(pb) - pb) / TWO_32;
    Scaled(pa, j, w);
    ToInt32Unique(ToInt32(pa) * w + ToInt32(pb), pa * w + pb, j * w + k);
  }

  // The hash of a concatenation depends on the parts only through their hashes and the length
  // of the second.
  lemma HashOfConcatenation(a: seq<CodeUnit>, b: seq<CodeUnit>)
    ensures Hash(a + b) == ToInt32(Hash(a) * Pow31(|b|) + Hash(b))
  {
    hide Polynomial, Pow31, ToInt32;
    PolynomialAppend(a, b);
    ResidueOfCombination(Polynomial(a), Polynomial(b), Pow31(|b|));
  }
}
