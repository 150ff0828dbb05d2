/** The 40-bit checksum register of descriptor_checksum.py: it is linear and injective, so every
    error within eight consecutive symbols changes the final value. */
module Polymod {

  /** A five-bit symbol. */
  type Symbol = bv5

  const GENERATOR: seq<bv40> := [0xf5dee51989, 0xa9fdca3312, 0x1bab10e32d, 0x3706b1677a, 0x644d626ffd]

  function Xor(a: bv40, b: bv40): (r: bv40) { a ^ b }

  function Bits(v: Symbol): (r: bv40) { v as bv40 }

  /** What bit `i` of the five bits shifted out contributes. */
  function Tap(top: bv40, i: nat): (r: bv40)
    requires i < 5
  {
    if (top >> i) & 1 != 0 then GENERATOR[i] else 0
  }

  function Top(chk: bv40): (r: bv40) { chk >> 35 }

  function Shift(chk: bv40): (r: bv40) { (chk & 0x7ffffffff) << 5 }

  function HasBit(top: bv40, mask: bv40): bool { top & mask != 0 }

  function Bit(top: bv40, mask: bv40, g: bv40): (r: bv40) { if HasBit(top, mask) then g else 0 }

  /** The five contributions together. */
  function Taps(top: bv40): (r: bv40) {
    Xor(Xor(Xor(Xor(Bit(top, 1, 0xf5dee51989), Bit(top, 2, 0xa9fdca3312)), Bit(top, 4, 0x1bab10e32d)),
            Bit(top, 8, 0x3706b1677a)), Bit(top, 16, 0x644d626ffd))
  }

  /** Multiplication of the register by the fifth power of the variable, modulo the generator. */
  function Turn(chk: bv40): (r: bv40) { Xor(Shift(chk), Taps(Top(chk))) }

  function Advance(chk: bv40, value: Symbol): (r: bv40) { Xor(Turn(chk), Bits(value)) }

  /** The register after the symbols. */
  function Run(chk: bv40, symbols: seq<Symbol>): (r: bv40) {
    if |symbols| == 0 then chk else Advance(Run(chk, symbols[..|symbols| - 1]), symbols[|symbols| - 1])
  }

  // ---- The loops ----

  function Mix(chk: bv40, top: bv40, i: nat): (r: bv40)
    requires i <= 5
  {
    if i == 0 then chk else Xor(Mix(chk, top, i - 1), Tap(top, i - 1))
  }

  /** One symbol. */
  method Feed(before: bv40, value: Symbol) returns (chk: bv40)
    ensures chk == Advance(before, value)
  {
    hide Xor, Advance, Shift, Taps, Tap, Top, Bits;
    var top := Top(before);
    chk := Xor(Shift(before), Bits(value));
    ghost var base := chk;
    MixIsTurn(before, value, 5);
    var i := 0;
    while i < 5
      invariant 0 <= i <= 5
      invariant chk == Mix(base, top, i)
    {
      chk := Xor(chk, Tap(top, i));
      i := i + 1;
    }
  }

  method DescsumPolymod(symbols: seq<Symbol>) returns (chk: bv40)
    ensures chk == Run(1, symbols)
  {
    chk := 1;
    var i := 0;
    while i < |symbols|
      invariant 0 <= i <= |symbols|
      invariant chk == Run(1, symbols[..i])
    {
      assert symbols[..i + 1][..i] == symbols[..i];
      chk := Feed(chk, symbols[i]);
      i := i + 1;
    }
    assert symbols[..i] == symbols;
  }

  lemma MixIsTurn(chk: bv40, v: Symbol, n: nat)
    requires n == 5
    ensures Mix(Xor(Shift(chk), Bits(v)), Top(chk), n) == Advance(chk, v)
  {
    hide Xor, Tap, Bit, Shift, Top, Bits;
    var top := Top(chk);
    var c := Xor(Shift(chk), Bits(v));
    assert Mix(c, top, n - 5) == c;
    assert Mix(c, top, n - 4) == Xor(c, Tap(top, 0));
    assert Mix(c, top, n - 3) == Xor(Mix(c, top, n - 4), Tap(top, 1));
    assert Mix(c, top, n - 2) == Xor(Mix(c, top, n - 3), Tap(top, 2));
    assert Mix(c, top, n - 1) == Xor(Mix(c, top, n - 2), Tap(top, 3));
    assert Mix(c, top, n) == Xor(Mix(c, top, n - 1), Tap(top, 4));
    TapIsBit(top);
    Rearrange(Shift(chk), Bits(v), Tap(top, 0), Tap(top, 1), Tap(top, 2), Tap(top, 3), Tap(top, 4));
  }

  lemma TapIsBit(top: bv40)
    ensures Tap(top, 0) == Bit(top, 1, 0xf5dee51989)
    ensures Tap(top, 1) == Bit(top, 2, 0xa9fdca3312)
    ensures Tap(top, 2) == Bit(top, 4, 0x1bab10e32d)
    ensures Tap(top, 3) == Bit(top, 8, 0x3706b1677a)
    ensures Tap(top, 4) == Bit(top, 16, 0x644d626ffd)
  {
  }

  // ---- Exclusive or ----

  lemma XorAssoc(a: bv40, b: bv40, c: bv40)
    ensures Xor(Xor(a, b), c) == Xor(a, Xor(b, c))
  {
  }

  lemma XorComm(a: bv40, b: bv40)
    ensures Xor(a, b) == Xor(b, a)
  {
  }

  lemma XorZero(a: bv40)
    ensures Xor(a, 0) == a && Xor(0, a) == a && Xor(a, a) == 0
  {
  }

  lemma XorEqual(a: bv40, b: bv40)
    requires Xor(a, b) == 0
    ensures a == b
  {
  }

  lemma XorSwap(a: bv40, b: bv40, c: bv40, d: bv40)
    ensures Xor(Xor(a, b), Xor(c, d)) == Xor(Xor(a, c), Xor(b, d))
  {
    hide Xor;
    XorAssoc(a, b, Xor(c, d));
    XorAssoc(b, c, d);
    XorComm(b, c);
    XorAssoc(c, b, d);
    XorAssoc(a, c, Xor(b, d));
  }

  lemma Rearrange(s: bv40, v: bv40, a: bv40, b: bv40, c: bv40, d: bv40, e: bv40)
    ensures Xor(Xor(Xor(Xor(Xor(Xor(s, v), a), b), c), d), e)
         == Xor(Xor(s, Xor(Xor(Xor(Xor(a, b), c), d), e)), v)
  {
    hide Xor;
    var ab, abc, abcd := Xor(a, b), Xor(Xor(a, b), c), Xor(Xor(Xor(a, b), c), d);
    XorAssoc(Xor(s, v), a, b);
    XorAssoc(Xor(s, v), ab, c);
    XorAssoc(Xor(s, v), abc, d);
    XorAssoc(Xor(s, v), abcd, e);
    var t := Xor(abcd, e);
    XorAssoc(s, v, t);
    XorComm(v, t);
    XorAssoc(s, t, v);
  }

  // ---- Linearity ----

  lemma HasBitXor(a: bv40, b: bv40, mask: bv40)
    requires mask == 1 || mask == 2 || mask == 4 || mask == 8 || mask == 16
    ensures HasBit(Xor(a, b), mask) <==> (HasBit(a, mask) != HasBit(b, mask))
  {
  }

  lemma BitLinear(a: bv40, b: bv40, mask: bv40, g: bv40)
    requires mask == 1 || mask == 2 || mask == 4 || mask == 8 || mask == 16
    ensures Bit(Xor(a, b), mask, g) == Xor(Bit(a, mask, g), Bit(b, mask, g))
  {
    hide Xor, HasBit;
    HasBitXor(a, b, mask);
    XorZero(g);
    XorZero(0);
  }

  lemma TapsLinear(a: bv40, b: bv40)
    ensures Taps(Xor(a, b)) == Xor(Taps(a), Taps(b))
  {
    hide Xor, Bit;
    var g0, g1, g2, g3, g4 := 0xf5dee51989 as bv40, 0xa9fdca3312 as bv40, 0x1bab10e32d as bv40, 0x3706b1677a as bv40, 0x644d626ffd as bv40;
    BitLinear(a, b, 1, g0);
    BitLinear(a, b, 2, g1);
    BitLinear(a, b, 4, g2);
    BitLinear(a, b, 8, g3);
    BitLinear(a, b, 16, g4);
    var a2, b2 := Xor(Bit(a, 1, g0), Bit(a, 2, g1)), Xor(Bit(b, 1, g0), Bit(b, 2, g1));
    var a3, b3 := Xor(a2, Bit(a, 4, g2)), Xor(b2, Bit(b, 4, g2));
    var a4, b4 := Xor(a3, Bit(a, 8, g3)), Xor(b3, Bit(b, 8, g3));
    XorSwap(Bit(a, 1, g0), Bit(b, 1, g0), Bit(a, 2, g1), Bit(b, 2, g1));
    XorSwap(a2, b2, Bit(a, 4, g2), Bit(b, 4, g2));
    XorSwap(a3, b3, Bit(a, 8, g3), Bit(b, 8, g3));
    XorSwap(a4, b4, Bit(a, 16, g4), Bit(b, 16, g4));
  }

  lemma ShiftLinear(a: bv40, b: bv40)
    ensures Shift(Xor(a, b)) == Xor(Shift(a), Shift(b))
    ensures Top(Xor(a, b)) == Xor(Top(a), Top(b))
  {
  }

  lemma TurnLinear(a: bv40, b: bv40)
    ensures Turn(Xor(a, b)) == Xor(Turn(a), Turn(b))
  {
    hide Xor, Taps, Shift, Top;
    TapsLinear(Top(a), Top(b));
    ShiftLinear(a, b);
    XorSwap(Shift(a), Shift(b), Taps(Top(a)), Taps(Top(b)));
  }

  /** Only the zero register turns into zero. */
  lemma TurnKernel(d: bv40)
    requires Turn(d) == 0
    ensures d == 0
  {
  }

  /** The difference of two registers evolves by itself. */
  lemma AdvanceDifference(a: bv40, v: Symbol, b: bv40, w: Symbol)
    ensures Xor(Advance(a, v), Advance(b, w)) == Xor(Turn(Xor(a, b)), Xor(Bits(v), Bits(w)))
  {
    hide Xor, Turn, Bits;
    TurnLinear(a, b);
    XorSwap(Turn(a), Bits(v), Turn(b), Bits(w));
  }

  lemma AdvanceInjective(a: bv40, b: bv40, v: Symbol)
    requires Advance(a, v) == Advance(b, v)
    ensures a == b
  {
    hide Xor, Turn, Bits, Advance;
    AdvanceDifference(a, v, b, v);
    XorZero(Advance(a, v));
    XorZero(Bits(v));
    XorZero(Turn(Xor(a, b)));
    TurnKernel(Xor(a, b));
    XorEqual(a, b);
  }

  // ---- Runs ----

  lemma {:induction false} RunConcat(chk: bv40, a: seq<Symbol>, b: seq<Symbol>)
    ensures Run(chk, a + b) == Run(Run(chk, a), b)
  {
    hide Advance;
    if |b| == 0 {
      assert a + b == a;
    } else {
      RunConcat(chk, a, b[..|b| - 1]);
      assert (a + b)[..|a + b| - 1] == a + b[..|b| - 1];
    }
  }

  lemma {:induction false} RunInjective(a: bv40, b: bv40, symbols: seq<Symbol>)
    requires Run(a, symbols) == Run(b, symbols)
    ensures a == b
  {
    hide Advance;
    if |symbols| != 0 {
      var init, last := symbols[..|symbols| - 1], symbols[|symbols| - 1];
      AdvanceInjective(Run(a, init), Run(b, init), last);
      RunInjective(a, b, init);
    }
  }

  lemma BitsInjective(v: Symbol, w: Symbol)
    requires Bits(v) == Bits(w)
    ensures v == w
  {
  }

  /** No symbol reaches bit five. */
  lemma BitsSmall(v: Symbol)
    ensures Bits(v) < 32
  {
  }

  /** 2 to the power 5k. */
  function Limit(k: nat): (r: bv40)
    requires k <= 7
  {
    if k == 0 then 1 else if k == 1 then 0x20 else if k == 2 then 0x400 else if k == 3 then 0x8000
    else if k == 4 then 0x10_0000 else if k == 5 then 0x200_0000 else if k == 6 then 0x4000_0000 else 0x8_0000_0000
  }

  predicate Below(d: bv40, k: nat)
    requires k <= 7
  {
    d < Limit(k)
  }

  function PushSymbol(d: bv40): (r: bv40) { d << 5 }

  lemma SmallTurn(d: bv40)
    requires Below(d, 7)
    ensures Turn(d) == PushSymbol(d)
  {
  }

  lemma AppendDigit(d: bv40, e: bv40, k: nat)
    requires k <= 7 && Below(d, k) && e < 32
    ensures k < 7 ==> Below(Xor(PushSymbol(d), e), k + 1)
    ensures Xor(PushSymbol(d), e) == 0 ==> d == 0 && e == 0
  {
  }

  lemma XorSmall(a: bv40, b: bv40)
    requires a < 32 && b < 32
    ensures Xor(a, b) < 32
  {
  }

  /** Two lists of at most eight symbols that start from the same register and end in the same
      register are the same list: the difference is shifted along without ever wrapping around. */
  lemma {:induction false} BurstInjective(chk: bv40, a: seq<Symbol>, b: seq<Symbol>)
    requires |a| == |b| <= 8
    ensures |a| < 8 ==> Below(Xor(Run(chk, a), Run(chk, b)), |a|)
    ensures Run(chk, a) == Run(chk, b) ==> a == b
  {
    hide Advance, Xor, Below;
    if |a| == 0 {
      NoDifference(chk);
    } else {
      var n := |a| - 1;
      var x, y := Run(chk, a[..n]), Run(chk, b[..n]);
      BurstInjective(chk, a[..n], b[..n]);
      BurstStep(x, a[n], y, b[n], n);
      if Advance(x, a[n]) == Advance(y, b[n]) {
        assert a == a[..n] + [a[n]] && b == b[..n] + [b[n]];
      }
    }
  }

  lemma NoDifference(chk: bv40)
    ensures Below(Xor(chk, chk), 0)
  {
  }

  lemma BurstStep(x: bv40, v: Symbol, y: bv40, w: Symbol, k: nat)
    requires k <= 7 && Below(Xor(x, y), k)
    ensures k < 7 ==> Below(Xor(Advance(x, v), Advance(y, w)), k + 1)
    ensures Advance(x, v) == Advance(y, w) ==> x == y && v == w
  {
    hide Xor, Turn, Bits, Advance, PushSymbol, Below;
    var d, e := Xor(x, y), Xor(Bits(v), Bits(w));
    AdvanceDifference(x, v, y, w);
    LimitAtMost(d, k);
    SmallTurn(d);
    BitsSmall(v);
    BitsSmall(w);
    XorSmall(Bits(v), Bits(w));
    AppendDigit(d, e, k);
    if Advance(x, v) == Advance(y, w) {
      XorZero(Advance(x, v));
      XorEqual(x, y);
      XorEqual(Bits(v), Bits(w));
      BitsInjective(v, w);
    }
  }

  lemma LimitAtMost(d: bv40, k: nat)
    requires k <= 7 && Below(d, k)
    ensures Below(d, 7)
  {
  }

  /** Any error confined to eight consecutive symbols, in a sequence of any length, changes the result. */
  lemma BurstDetected(chk: bv40, before: seq<Symbol>, a: seq<Symbol>, b: seq<Symbol>, after: seq<Symbol>)
    requires |a| == |b| <= 8 && a != b
    ensures Run(chk, before + a + after) != Run(chk, before + b + after)
  {
    hide Run;
    RunConcat(chk, before + a, after);
    RunConcat(chk, before + b, after);
    RunConcat(chk, before, a);
    RunConcat(chk, before, b);
    BurstInjective(Run(chk, before), a, b);
    if Run(chk, before + a + after) == Run(chk, before + b + after) {
      RunInjective(Run(chk, before + a), Run(chk, before + b), after);
    }
  }

  // ---- The checksum itself ----

  function DropSymbol(x: bv40): (r: bv40) { x >> 5 }

  /** checksum >> (5 * (7 - i)), five bits at a time. */
  function Shifted(checksum: bv40, i: nat): (r: bv40)
    requires i < 8
    decreases 7 - i
  {
    if i == 7 then checksum else DropSymbol(Shifted(checksum, i + 1))
  }

  /** The low five bits. */
  function LowBits(x: bv40): (v: Symbol) {
    (x & 31) as bv5
  }

  /** Symbol `i` of the checksum. */
  function ChecksumSymbol(checksum: bv40, i: nat): (v: Symbol)
    requires i < 8
  {
    LowBits(Shifted(checksum, i))
  }

  function ChecksumSymbols(checksum: bv40): (symbols: seq<Symbol>)
    ensures |symbols| == 8
  {
    seq(8, i requires 0 <= i < 8 => ChecksumSymbol(checksum, i))
  }

  function Zeros(n: nat): (symbols: seq<Symbol>)
    ensures |symbols| == n
  {
    seq(n, i => 0)
  }

  /** The first `i` symbols of the checksum as a number. */
  function Head(checksum: bv40, i: nat): (r: bv40)
    requires i <= 8
  {
    if i == 0 then 0 else Shifted(checksum, i - 1)
  }

  lemma DropBelow(x: bv40, k: nat)
    requires k < 7 && (k < 6 ==> Below(x, k + 2))
    ensures Below(DropSymbol(x), k + 1)
  {
  }

  lemma {:induction false} ShiftedBelow(checksum: bv40, i: nat)
    requires i < 7
    ensures Below(Shifted(checksum, i), i + 1)
    decreases 7 - i
  {
    hide DropSymbol, Below;
    if i < 6 {
      ShiftedBelow(checksum, i + 1);
    }
    DropBelow(Shifted(checksum, i + 1), i);
  }

  lemma LastDrop(x: bv40)
    requires Below(x, 1)
    ensures DropSymbol(x) == 0
  {
  }

  lemma HeadIsShifted(checksum: bv40, i: nat)
    requires i < 8
    ensures Head(checksum, i) == DropSymbol(Shifted(checksum, i))
  {
    hide DropSymbol, Below;
    if i == 0 {
      ShiftedBelow(checksum, 0);
      LastDrop(Shifted(checksum, 0));
    }
  }

  lemma SplitLow(x: bv40)
    ensures Below(DropSymbol(x), 7)
    ensures Xor(PushSymbol(DropSymbol(x)), Bits(LowBits(x))) == x
  {
  }

  lemma HeadNext(checksum: bv40, i: nat)
    requires i < 8
    ensures Below(Head(checksum, i), 7)
    ensures Xor(PushSymbol(Head(checksum, i)), Bits(ChecksumSymbol(checksum, i))) == Head(checksum, i + 1)
  {
    hide Xor, Bits, LowBits, Shifted, DropSymbol, PushSymbol, Below;
    HeadIsShifted(checksum, i);
    SplitLow(Shifted(checksum, i));
  }

  /** Feeding the checksum instead of zeros adds the checksum to the register. */
  lemma {:induction false} ChecksumAdds(chk: bv40, checksum: bv40, i: nat)
    requires i <= 8
    ensures Run(chk, ChecksumSymbols(checksum)[..i]) == Xor(Run(chk, Zeros(8)[..i]), Head(checksum, i))
  {
    hide Advance, Xor, Shifted, ChecksumSymbol;
    if i == 0 {
      XorZero(chk);
    } else {
      ChecksumAdds(chk, checksum, i - 1);
      var z, h := Run(chk, Zeros(8)[..i - 1]), Head(checksum, i - 1);
      var v := ChecksumSymbol(checksum, i - 1);
      assert ChecksumSymbols(checksum)[..i][..i - 1] == ChecksumSymbols(checksum)[..i - 1];
      assert Zeros(8)[..i][..i - 1] == Zeros(8)[..i - 1];
      AdvanceSum(z, h, checksum, i - 1);
    }
  }

  lemma AdvanceSum(z: bv40, h: bv40, checksum: bv40, i: nat)
    requires i < 8 && h == Head(checksum, i)
    ensures Advance(Xor(z, h), ChecksumSymbol(checksum, i)) == Xor(Advance(z, 0), Head(checksum, i + 1))
  {
    hide Xor, Turn, Bits, Head, ChecksumSymbol, PushSymbol, Below;
    var bits := Bits(ChecksumSymbol(checksum, i));
    HeadNext(checksum, i);
    SmallTurn(h);
    TurnLinear(z, h);
    XorAssoc(Turn(z), Turn(h), bits);
    BitsOfZero();
    XorZero(Turn(z));
  }

  lemma BitsOfZero()
    ensures Bits(0) == 0
  {
  }

  /** With its checksum appended, every sequence of symbols ends in register value 1. */
  lemma ChecksumCompletes(symbols: seq<Symbol>)
    ensures Run(1, symbols + ChecksumSymbols(Xor(Run(1, symbols + Zeros(8)), 1))) == 1
  {
    hide Run, Xor;
    var c := Run(1, symbols);
    var z := Run(c, Zeros(8));
    var checksum := Xor(z, 1);
    RunConcat(1, symbols, Zeros(8));
    RunConcat(1, symbols, ChecksumSymbols(checksum));
    ChecksumAdds(c, checksum, 8);
    assert Zeros(8)[..8] == Zeros(8);
    assert ChecksumSymbols(checksum)[..8] == ChecksumSymbols(checksum);
    WholeHead(checksum);
    XorAssoc(z, z, 1);
    XorZero(z);
    XorZero(1);
  }

  lemma WholeHead(checksum: bv40)
    ensures Head(checksum, 8) == checksum
  {
  }

  /** Any other eight symbols end in another value. */
  lemma ChecksumUnique(symbols: seq<Symbol>, tail: seq<Symbol>)
    requires |tail| == 8
    ensures Run(1, symbols + tail) == 1 <==> tail == ChecksumSymbols(Xor(Run(1, symbols + Zeros(8)), 1))
  {
    hide Run, Xor;
    var checksum := ChecksumSymbols(Xor(Run(1, symbols + Zeros(8)), 1));
    ChecksumCompletes(symbols);
    if tail != checksum {
      BurstDetected(1, symbols, tail, checksum, []);
      assert symbols + tail + [] == symbols + tail && symbols + checksum + [] == symbols + checksum;
    }
  }
}
