/**
 Machine-word bit tricks over natural numbers: the mask that replaces a
 modulus, the align-up formula and the bit-smearing round-up to a power of two.
 Words are 64 bits wide; `And` and `Or` are the bitwise operators.
 */
module Bits {

  type byte = x: int | 0 <= x < 256

  const WORD: nat := 0x1_0000_0000_0000_0000

  function Pow2(k: nat): (p: nat)
    ensures p >= 1
  {
    if k == 0 then 1 else 2 * Pow2(k - 1)
  }

  function And(x: nat, y: nat): nat {
    if x == 0 || y == 0 then 0
    else 2 * And(x / 2, y / 2) + (if x % 2 == 1 && y % 2 == 1 then 1 else 0)
  }

  function Or(x: nat, y: nat): nat
    decreases x + y
  {
    if x == 0 then y
    else if y == 0 then x
    else 2 * Or(x / 2, y / 2) + (if x % 2 == 1 || y % 2 == 1 then 1 else 0)
  }

  function Shr(x: nat, k: nat): nat {
    var p := Pow2(k);
    DivNonNegative(x, p);
    x / p
  }

  lemma DivNonNegative(x: nat, p: nat)
    requires p >= 1
    ensures x / p >= 0
  {
  }

  ghost predicate IsPow2(v: nat) {
    exists k: nat :: v == Pow2(k)
  }

  // ---- Word arithmetic ----

  /** `a - b` and `a + b` on 64-bit unsigned words. */
  function WordSub(a: nat, b: nat): nat
    requires a < WORD && b < WORD
  {
    if a >= b then a - b else a - b + WORD
  }

  function WordAdd(a: nat, b: nat): (s: nat)
    requires a < WORD && b < WORD
    ensures s < WORD
  {
    if a + b < WORD then a + b else a + b - WORD
  }

  // ---- Powers of two ----

  lemma {:induction false} Pow2Add(a: nat, b: nat)
    ensures Pow2(a + b) == Pow2(a) * Pow2(b)
  {
    if a == 0 {
    } else {
      Pow2Add(a - 1, b);
      assert Pow2(a + b) == 2 * Pow2(a - 1 + b);
      assert Pow2(a) * Pow2(b) == 2 * (Pow2(a - 1) * Pow2(b));
    }
  }

  lemma {:induction false} Pow2Mono(a: nat, b: nat)
    requires a <= b
    ensures Pow2(a) <= Pow2(b)
    decreases b
  {
    if a == b {
    } else {
      Pow2Mono(a, b - 1);
    }
  }

  lemma Pow2Injective(a: nat, b: nat)
    requires Pow2(a) < Pow2(b)
    ensures a < b
  {
    if b <= a {
      Pow2Mono(b, a);
    }
  }

  lemma Pow2Of64()
    ensures Pow2(64) == WORD && Pow2(63) == 0x8000_0000_0000_0000 && Pow2(48) == 0x1_0000_0000_0000
    ensures Pow2(32) == 0x1_0000_0000 && Pow2(16) == 0x1_0000
  {
    assert Pow2(8) == 256;
    Pow2Add(8, 8);
    Pow2Add(16, 16);
    Pow2Add(32, 16);
    Pow2Add(32, 32);
    assert Pow2(64) == 2 * Pow2(63);
  }

  // ---- Halving facts used by every induction on bits ----

  lemma ModOfDouble(x: nat, m: nat)
    requires m >= 1
    ensures x % (2 * m) == 2 * ((x / 2) % m) + x % 2
  {
    var q, r := (x / 2) / m, (x / 2) % m;
    assert x / 2 == q * m + r;
    assert x == q * (2 * m) + (2 * r + x % 2) by {
      assert x == 2 * (x / 2) + x % 2;
      assert 2 * (q * m) == q * (2 * m);
    }
    DivModUnique(x, 2 * m, q, 2 * r + x % 2);
  }

  lemma DivModUnique(x: int, m: int, q: int, r: int)
    requires 0 <= r < m
    requires x == q * m + r
    ensures x / m == q && x % m == r
  {
    var q', r' := x / m, x % m;
    DivModIdentity(x, m);
    assert (q' - q) * m == q' * m - q * m;
    SmallMultiple(q' - q, m);
  }

  lemma DivModIdentity(x: int, m: int)
    requires m > 0
    ensures x == (x / m) * m + x % m && 0 <= x % m < m
  {
  }

  lemma SmallMultiple(d: int, m: int)
    requires m > 0 && -m < d * m < m
    ensures d == 0
  {
    if d >= 1 {
      MulMono(1, d, m);
    } else if d <= -1 {
      MulMono(d, -1, m);
    }
  }

  /** `pos & (capacity - 1)` is `pos % capacity` when the capacity is a power of two. */
  lemma {:induction false} MaskIsMod(x: nat, k: nat)
    ensures And(x, Pow2(k) - 1) == x % Pow2(k)
  {
    if k == 0 {
    } else if x == 0 {
      DivModUnique(0, Pow2(k), 0, 0);
    } else {
      var p := Pow2(k - 1);
      MaskIsMod(x / 2, k - 1);
      ModOfDouble(x, p);
      AndOddMask(x, p - 1);
    }
  }

  /** `pos & mask`, the physical index of a free-running position in a power-of-two ring. */
  function MaskIndex(pos: nat, bits: nat): (i: nat)
    ensures i < Pow2(bits)
  {
    MaskIsMod(pos, bits);
    And(pos, Pow2(bits) - 1)
  }

  /** Within one window of 2^bits positions, the index identifies the position. */
  lemma SameMaskIndex(bits: nat, j: nat, k: nat, base: nat)
    requires base <= j < base + Pow2(bits) && base <= k < base + Pow2(bits)
    ensures MaskIndex(j, bits) == MaskIndex(k, bits) <==> j == k
  {
    var m := Pow2(bits);
    MaskIsMod(j, bits);
    MaskIsMod(k, bits);
    if j % m == k % m {
      DivModIdentity(j, m);
      DivModIdentity(k, m);
      assert (j / m - k / m) * m == (j / m) * m - (k / m) * m;
      SmallMultiple(j / m - k / m, m);
    }
  }

  lemma MaskIndexPeriod(bits: nat, pos: nat)
    ensures MaskIndex(pos + Pow2(bits), bits) == MaskIndex(pos, bits)
  {
    MaskIndexIsMod(pos, bits);
    MaskIndexIsMod(pos + Pow2(bits), bits);
    ModAddPeriod(pos, Pow2(bits));
  }

  lemma MaskIndexIsMod(pos: nat, bits: nat)
    ensures MaskIndex(pos, bits) == pos % Pow2(bits)
  {
    MaskIsMod(pos, bits);
  }

  lemma ModAddPeriod(x: nat, m: nat)
    requires m >= 1
    ensures (x + m) % m == x % m
  {
    DivModIdentity(x, m);
    DivModUnique(x + m, m, x / m + 1, x % m);
  }

  lemma AndOddMask(x: nat, h: nat)
    ensures And(x, 2 * h + 1) == 2 * And(x / 2, h) + x % 2
  {
  }

  lemma AndEvenMask(x: nat, h: nat)
    ensures And(x, 2 * h) == 2 * And(x / 2, h)
  {
    if x != 0 && h != 0 {
      assert (2 * h) / 2 == h && (2 * h) % 2 == 0;
    }
  }

  /** `x & ~(2^k - 1)` in a w-bit word clears exactly the low k bits. */
  lemma {:induction false} NotMaskClearsLow(x: nat, k: nat, w: nat)
    requires k <= w && x < Pow2(w)
    ensures Pow2(k) <= Pow2(w)
    ensures And(x, Pow2(w) - Pow2(k)) == x - x % Pow2(k)
  {
    Pow2Mono(k, w);
    if k == 0 {
      FullMask(x, w);
    } else {
      NotMaskClearsLow(x / 2, k - 1, w - 1);
      NotMaskStep(x, Pow2(k - 1), Pow2(w - 1), Pow2(k), Pow2(w));
    }
  }

  lemma FullMask(x: nat, w: nat)
    requires x < Pow2(w)
    ensures And(x, Pow2(w) - 1) == x
  {
    MaskIsMod(x, w);
    SmallMod(x, Pow2(w));
  }

  lemma NotMaskStep(x: nat, p: nat, t: nat, p2: nat, t2: nat)
    requires 1 <= p <= t && p2 == 2 * p && t2 == 2 * t
    requires And(x / 2, t - p) == x / 2 - (x / 2) % p
    ensures And(x, t2 - p2) == x - x % p2
  {
    assert t2 - p2 == 2 * (t - p);
    AndEvenMask(x, t - p);
    ClearedLowDoubles(x, p, And(x / 2, t - p));
  }

  lemma ClearedLowDoubles(x: nat, p: nat, c: int)
    requires 1 <= p
    requires c == x / 2 - (x / 2) % p
    ensures 2 * c == x - x % (2 * p)
  {
    ModOfDouble(x, p);
  }

  // ---- Align up ----

  /** The source's `(addr + align - 1) & ~(align - 1)` on 64-bit words. */
  function AlignUp(addr: nat, align: nat): nat
    requires 1 <= align <= WORD
  {
    And((addr + align - 1) % WORD, WORD - align)
  }

  ghost predicate IsLeastMultiple(r: nat, addr: nat, align: nat)
    requires align >= 1
  {
    && r % align == 0
    && addr <= r < addr + align
    && forall z: nat :: addr <= z && z % align == 0 ==> r <= z
  }

  /** The formula yields the least multiple of `align` at or above `addr`. */
  lemma AlignUpIsLeast(addr: nat, k: nat)
    requires Pow2(k) < WORD && addr + Pow2(k) - 1 < WORD
    ensures IsLeastMultiple(AlignUp(addr, Pow2(k)), addr, Pow2(k))
  {
    AlignUpRoundsDown(addr, k);
    RoundedIsLeast(addr, Pow2(k));
  }

  lemma AlignUpRoundsDown(addr: nat, k: nat)
    requires Pow2(k) < WORD && addr + Pow2(k) - 1 < WORD
    ensures AlignUp(addr, Pow2(k)) == (addr + Pow2(k) - 1) - (addr + Pow2(k) - 1) % Pow2(k)
  {
    var s := addr + Pow2(k) - 1;
    assert And(s, WORD - Pow2(k)) == s - s % Pow2(k) by {
      var w := WordWidth();
      Pow2Injective(k, w);
      NotMaskClearsLow(s, k, w);
    }
    SmallMod(s, WORD);
  }

  /** On words the formula is the least multiple, except that a multiple at the end of the word wraps to 0. */
  lemma AlignUpOnWords(addr: nat, k: nat, q: nat)
    requires addr < WORD && Pow2(k) < WORD && IsLeastMultiple(q, addr, Pow2(k))
    ensures q <= WORD && AlignUp(addr, Pow2(k)) == (if q == WORD then 0 else q)
    ensures q == WORD <==> addr + Pow2(k) - 1 >= WORD
  {
    if addr + Pow2(k) - 1 < WORD {
      AlignUpIsLeast(addr, k);
    } else {
      AlignUpWraps(addr, k);
      WordIsMultiple(k);
      MultipleGap(q, WORD, Pow2(k));
    }
  }

  lemma WordIsMultiple(k: nat)
    requires Pow2(k) < WORD
    ensures WORD % Pow2(k) == 0
  {
    var w := WordWidth();
    Pow2Injective(k, w);
    Pow2Add(w - k, k);
    MultipleMod(Pow2(w - k), Pow2(k));
  }

  lemma AlignUpWraps(addr: nat, k: nat)
    requires Pow2(k) < WORD && addr < WORD <= addr + Pow2(k) - 1
    ensures AlignUp(addr, Pow2(k)) == 0
  {
    var low := addr + Pow2(k) - 1 - WORD;
    SmallMod(low, WORD);
    ModAddPeriod(low, WORD);
    var w := WordWidth();
    Pow2Injective(k, w);
    NotMaskClearsLow(low, k, w);
    SmallMod(low, Pow2(k));
  }

  lemma SmallMod(x: nat, m: nat)
    requires x < m
    ensures x % m == x
  {
  }

  lemma WordWidth() returns (w: nat)
    ensures w >= 64 && Pow2(w) == WORD
  {
    Pow2Of64();
    w := 64;
  }

  lemma RoundedIsLeast(addr: nat, a: nat)
    requires a >= 1
    ensures addr + a - 1 >= (addr + a - 1) % a
    ensures IsLeastMultiple((addr + a - 1) - (addr + a - 1) % a, addr, a)
  {
    var s := addr + a - 1;
    RoundDownMultiple(s, a);
    forall z: nat | addr <= z && z % a == 0
      ensures s - s % a <= z
    {
      MultipleGap(z, s, a);
    }
  }

  lemma RoundDownMultiple(s: nat, a: nat)
    requires a >= 1
    ensures (s - s % a) % a == 0 && s - a < s - s % a <= s
  {
    DivModIdentity(s, a);
    MultipleMod(s / a, a);
  }

  lemma MultipleGap(z: nat, s: nat, a: nat)
    requires a >= 1 && z % a == 0 && s < z + a
    ensures s - s % a <= z
  {
    DivModIdentity(s, a);
    DivModIdentity(z, a);
    var q, p := s / a, z / a;
    if q > p {
      MulMono(p + 1, q, a);
    }
  }

  lemma MultipleMod(q: int, m: int)
    requires m > 0
    ensures (q * m) % m == 0
  {
    DivModUnique(q * m, m, q, 0);
  }

  lemma MulMono(x: int, y: int, m: int)
    requires x <= y && m >= 0
    ensures x * m <= y * m
  {
    assert (y - x) * m >= 0;
  }

  // ---- Power-of-two test ----

  /** Among positive words, `(v & (v - 1)) == 0` holds exactly for the powers of two. */
  lemma {:induction false} PowerOfTwoTest(v: nat)
    requires v > 0
    ensures And(v, v - 1) == 0 <==> IsPow2(v)
  {
    if v == 1 {
      assert v == Pow2(0);
    } else if v % 2 == 1 {
      assert v / 2 == (v - 1) / 2;
      AndSelf(v / 2);
      forall k: nat ensures v != Pow2(k) {
        assert k > 0 ==> Pow2(k) % 2 == 0;
      }
    } else {
      var h := v / 2;
      PowerOfTwoTest(h);
      assert (v - 1) / 2 == h - 1;
      assert And(v, v - 1) == 2 * And(h, h - 1);
      if IsPow2(h) {
        var k: nat :| h == Pow2(k);
        assert v == Pow2(k + 1);
      }
      if IsPow2(v) {
        var k: nat :| v == Pow2(k);
        assert k > 0;
        assert h == Pow2(k - 1);
      }
    }
  }

  lemma {:induction false} AndSelf(x: nat)
    ensures And(x, x) == x
  {
    if x == 0 {
    } else {
      AndSelf(x / 2);
    }
  }

  // ---- Round up to a power of two ----

  function Smear(v: nat, k: nat): nat {
    Or(v, Shr(v, k))
  }

  function SmearSix(v: nat): nat {
    Smear(Smear(Smear(Smear(Smear(Smear(v, 1), 2), 4), 8), 16), 32)
  }

  /** `next_power_of_2`: 0 signals that no 64-bit power of two is large enough. */
  function NextPowerOf2(v: nat): nat
    requires v < WORD
  {
    if v == 0 then 1
    else if And(v, v - 1) == 0 then v
    else if v > (WORD - 1) / 2 + 1 then 0
    else
      SmearSix(v - 1) + 1
  }

  lemma {:induction false} OrBounds(x: nat, y: nat, q: nat)
    requires x < Pow2(q) && y < Pow2(q)
    ensures y <= Or(x, y) < Pow2(q)
    decreases q
  {
    if x == 0 || y == 0 || q == 0 {
    } else {
      OrBounds(x / 2, y / 2, q - 1);
    }
  }

  lemma {:induction false} OrSplit(hi: nat, a: nat, q: nat, low: nat, w: nat)
    requires hi == a * Pow2(q) && low < Pow2(q) && w < Pow2(q)
    ensures Or(hi + low, w) == hi + Or(low, w)
    decreases q
  {
    if q == 0 {
    } else {
      MulMono(0, a, Pow2(q - 1));
      var h := a * Pow2(q - 1);
      DoubleTimes(a, Pow2(q - 1));
      OrSplit(h, a, q - 1, low / 2, w / 2);
      OrSplitStep(h, low, w);
    }
  }

  lemma DoubleTimes(a: int, p: int)
    ensures a * (2 * p) == 2 * (a * p)
  {
  }

  lemma OrSplitStep(h: nat, low: nat, w: nat)
    requires Or(h + low / 2, w / 2) == h + Or(low / 2, w / 2)
    ensures Or(2 * h + low, w) == 2 * h + Or(low, w)
  {
    OrHalves(2 * h + low, w);
    OrHalves(low, w);
    assert (2 * h + low) / 2 == h + low / 2;
  }

  lemma OrHalves(x: nat, y: nat)
    ensures Or(x, y) == 2 * Or(x / 2, y / 2) + (if x % 2 == 1 || y % 2 == 1 then 1 else 0)
  {
  }

  /** The top m of the n significant bits of v are all ones. */
  ghost predicate TopOnes(v: nat, n: nat, m: nat) {
    v < Pow2(n) && v >= Pow2(n) - (if m <= n then Pow2(n - m) else 1)
  }

  /** One smearing step doubles the run of leading ones. */
  lemma SmearDoubles(v: nat, n: nat, m: nat)
    requires m >= 1 && TopOnes(v, n, m)
    ensures TopOnes(Smear(v, m), n, 2 * m)
  {
    if m >= n {
      SmearDone(v, n, m);
    } else {
      var low := SmearedTop(v, n, m);
      ShiftedBounds(v, n, m);
      OrBounds(low, Shr(v, m), n - m);
    }
  }

  lemma SmearDone(v: nat, n: nat, m: nat)
    requires m >= n && TopOnes(v, n, m) && m >= 1
    ensures Smear(v, m) == v == Pow2(n) - 1
  {
    Pow2Mono(n, m);
    DivModUnique(v, Pow2(m), 0, v);
  }

  /** Smearing keeps the leading ones and works on what is below them. */
  lemma SmearedTop(v: nat, n: nat, m: nat) returns (low: nat)
    requires 1 <= m < n && TopOnes(v, n, m)
    ensures low < Pow2(n - m) && Smear(v, m) == Pow2(n) - Pow2(n - m) + Or(low, Shr(v, m))
  {
    low := TopSplit(v, n, m);
    ShiftedBounds(v, n, m);
    OrSplit(Pow2(n) - Pow2(n - m), Pow2(m) - 1, n - m, low, Shr(v, m));
  }

  /** The leading ones as a multiple, and what is below them. */
  lemma TopSplit(v: nat, n: nat, m: nat) returns (low: nat)
    requires 1 <= m < n && TopOnes(v, n, m)
    ensures low < Pow2(n - m) && v == Pow2(n) - Pow2(n - m) + low
    ensures Pow2(n) - Pow2(n - m) == (Pow2(m) - 1) * Pow2(n - m) >= 0
  {
    Pow2Add(m, n - m);
    OneLessTimes(Pow2(m), Pow2(n - m));
    low := v - (Pow2(n) - Pow2(n - m));
  }

  lemma OneLessTimes(x: int, p: int)
    ensures (x - 1) * p == x * p - p
  {
  }

  lemma ShiftedBounds(v: nat, n: nat, m: nat)
    requires 1 <= m < n && TopOnes(v, n, m)
    ensures Shr(v, m) < Pow2(n - m)
    ensures Shr(v, m) >= Pow2(n - m) - (if 2 * m <= n then Pow2(n - 2 * m) else 1)
  {
    var d, t := Pow2(m), Pow2(n - m);
    Pow2Add(n - m, m);
    if 2 * m <= n {
      Pow2Add(n - 2 * m, m);
      QuotientBounds(v, d, t, Pow2(n - 2 * m));
    } else {
      Pow2Mono(n - m, m);
      QuotientBounds(v, d, t, 1);
    }
  }

  lemma QuotientBounds(v: nat, d: nat, t: nat, g: nat)
    requires d >= 1 && t * d - t <= v < t * d && g * d >= t
    ensures t - g <= v / d < t
  {
    var w := v / d;
    DivModIdentity(v, d);
    if w >= t {
      MulMono(t, w, d);
    }
    if w < t - g {
      MulMono(w + 1, t - g, d);
    }
  }

  lemma {:induction false} BitLength(v: nat) returns (n: nat)
    requires v > 0
    ensures n >= 1 && Pow2(n - 1) <= v < Pow2(n)
  {
    if v == 1 {
      n := 1;
    } else {
      n := BitLength(v / 2);
      n := n + 1;
    }
  }

  /** Rounding up gives the least power of two at or above v, or 0 exactly when none fits a word. */
  lemma NextPowerOf2IsLeast(v: nat)
    requires v < WORD
    ensures var p := NextPowerOf2(v);
            if v <= 0x8000_0000_0000_0000
            then v <= p < WORD && IsPow2(p) && (forall k: nat :: v <= Pow2(k) ==> p <= Pow2(k))
            else p == 0
  {
    Pow2Of64();
    if v == 0 {
      assert NextPowerOf2(v) == Pow2(0);
    } else {
      PowerOfTwoTest(v);
      if And(v, v - 1) == 0 {
        var k: nat :| v == Pow2(k);
        if v > Pow2(63) {
          Pow2Injective(63, k);
          Pow2Mono(64, k);
        }
      } else if v <= Pow2(63) {
        SmearAll(v);
      }
    }
  }

  /** The six steps fill every bit below the leading one of a 64-bit word. */
  lemma SmearFills(v: nat, n: nat)
    requires TopOnes(v, n, 1)
    ensures TopOnes(SmearSix(v), n, 64)
  {
    var v1 := Smear(v, 1);
    SmearDoubles(v, n, 1);
    var v2 := Smear(v1, 2);
    SmearDoubles(v1, n, 2);
    var v4 := Smear(v2, 4);
    SmearDoubles(v2, n, 4);
    var v8 := Smear(v4, 8);
    SmearDoubles(v4, n, 8);
    var v16 := Smear(v8, 16);
    SmearDoubles(v8, n, 16);
    SmearDoubles(v16, n, 32);
  }

  /** Above 2^(n-1), the least power of two that is enough is 2^n. */
  lemma LeastPower(v: nat, n: nat, k: nat)
    requires n >= 1 && Pow2(n - 1) < v <= Pow2(k)
    ensures Pow2(n) <= Pow2(k)
  {
    if k < n {
      Pow2Mono(k, n - 1);
    } else {
      Pow2Mono(n, k);
    }
  }

  lemma SmearAll(v: nat)
    requires 1 < v <= 0x8000_0000_0000_0000 && !IsPow2(v)
    ensures var p := SmearSix(v - 1) + 1;
            v <= p < WORD && IsPow2(p) && forall k: nat :: v <= Pow2(k) ==> p <= Pow2(k)
  {
    var n := BitLength(v - 1);
    SmearFills(v - 1, n);
    LengthFits(v - 1, n);
    assert SmearSix(v - 1) + 1 == Pow2(n);
    assert v != Pow2(n);
    forall k: nat | v <= Pow2(k) ensures Pow2(n) <= Pow2(k) {
      LeastPower(v, n, k);
    }
  }

  lemma LengthFits(v: nat, n: nat)
    requires n >= 1 && Pow2(n - 1) <= v < 0x8000_0000_0000_0000
    ensures n <= 63 && Pow2(n) < WORD
  {
    Pow2Of64();
    if n > 63 {
      Pow2Mono(63, n - 1);
    } else {
      Pow2Mono(n, 63);
    }
  }
}
