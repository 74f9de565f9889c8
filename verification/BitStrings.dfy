/** Bit strings, most significant bit first, and the numbers they spell. */
module BitStrings {

  type Bit = x: int | 0 <= x < 2

  function Pow2(n: nat): (r: nat)
    ensures r >= 1
  {
    if n == 0 then 1 else 2 * Pow2(n - 1)
  }

  /** `n >> k` */
  function Shr(n: nat, k: nat): nat
    decreases k
  {
    if k == 0 then n else Shr(n / 2, k - 1)
  }

  /** The `width` low bits of `n`, most significant first. */
  function Bits(n: nat, width: nat): (r: seq<Bit>)
    ensures |r| == width
  {
    if width == 0 then [] else Bits(n / 2, width - 1) + [n % 2]
  }

  function ValueOf(bits: seq<Bit>): nat {
    if bits == [] then 0 else 2 * ValueOf(bits[..|bits| - 1]) + bits[|bits| - 1]
  }

  /** Cuts a bit string into numbers of `width` bits; a shorter rest is left over. */
  function Chop(bits: seq<Bit>, width: nat): seq<nat>
    requires width > 0
    decreases |bits|
  {
    if |bits| < width then [] else [ValueOf(bits[..width])] + Chop(bits[width..], width)
  }

  function Rest(bits: seq<Bit>, width: nat): (r: seq<Bit>)
    requires width > 0
    ensures |r| < width
    decreases |bits|
  {
    if |bits| < width then bits else Rest(bits[width..], width)
  }

  /** The concatenated `width`-bit forms of a list of numbers. */
  function Join(ns: seq<nat>, width: nat): seq<Bit> {
    if ns == [] then [] else Bits(ns[0], width) + Join(ns[1..], width)
  }

  function Zeros(n: nat): (r: seq<Bit>)
    ensures |r| == n
  {
    seq(n, _ => 0)
  }

  // ----- Numbers -----

  lemma MulAtLeast(d: nat, k: int)
    ensures k >= 1 ==> d * k >= d
  {
  }

  lemma DivModUnique(n: nat, d: nat, q: nat, r: nat)
    requires n == d * q + r && r < d
    ensures n / d == q && n % d == r
  {
    var q', r' := n / d, n % d;
    assert d * (q' - q) == r - r';
    MulAtLeast(d, q' - q);
    MulAtLeast(d, q - q');
  }

  lemma HalveFirst(n: nat, d: nat)
    requires d >= 1
    ensures n / (2 * d) == n / 2 / d
    ensures n % (2 * d) == 2 * (n / 2 % d) + n % 2
  {
    var h := n / 2;
    var q, r := h / d, h % d;
    assert n == (2 * d) * q + (2 * r + n % 2) by {
      assert n == 2 * (d * q + r) + n % 2;
    }
    DivModUnique(n, 2 * d, q, 2 * r + n % 2);
  }

  // ----- Bit strings and numbers -----

  lemma {:induction false} ValueOfBits(n: nat, width: nat)
    ensures ValueOf(Bits(n, width)) == n % Pow2(width)
  {
    if width == 0 {
    } else {
      var init := Bits(n / 2, width - 1);
      ValueOfBits(n / 2, width - 1);
      assert (init + [n % 2])[..|init|] == init;
      HalveFirst(n, Pow2(width - 1));
    }
  }

  lemma {:induction false} BitsOfValue(bits: seq<Bit>)
    ensures Bits(ValueOf(bits), |bits|) == bits
  {
    if bits == [] {
    } else {
      var init, last := bits[..|bits| - 1], bits[|bits| - 1];
      BitsOfValue(init);
      assert ValueOf(bits) == 2 * ValueOf(init) + last;
      assert bits == init + [last];
    }
  }

  /** Shifting splits the bit string of a number. */
  lemma {:induction false} BitsSplit(n: nat, high: nat, low: nat)
    ensures Bits(n, high + low) == Bits(Shr(n, low), high) + Bits(n, low)
    decreases low
  {
    if low == 0 {
    } else {
      BitsSplit(n / 2, high, low - 1);
    }
  }

  /** Only the low bits of a number matter to its bit string. */
  lemma {:induction false} BitsLow(n: nat, keep: nat, width: nat)
    requires width <= keep
    ensures n % Pow2(keep) >= 0 && Bits(n % Pow2(keep), width) == Bits(n, width)
    decreases width
  {
    if width == 0 {
    } else {
      BitsLow(n / 2, keep - 1, width - 1);
      HalveFirst(n, Pow2(keep - 1));
    }
  }

  lemma JoinCons(n: nat, ns: seq<nat>, width: nat)
    ensures Join([n] + ns, width) == Bits(n, width) + Join(ns, width)
  {
    assert ([n] + ns)[1..] == ns;
  }

  /** Numbers joined into bits and cut again come back, and so does any short rest after them. */
  lemma {:induction false} ChopJoin(ns: seq<nat>, rest: seq<Bit>, width: nat)
    requires width > 0 && |rest| < width
    requires forall i :: 0 <= i < |ns| ==> ns[i] < Pow2(width)
    ensures Chop(Join(ns, width) + rest, width) == ns
    ensures Rest(Join(ns, width) + rest, width) == rest
  {
    if ns == [] {
      assert Join(ns, width) + rest == rest;
    } else {
      var first, others := Bits(ns[0], width), Join(ns[1..], width) + rest;
      assert Join(ns, width) + rest == first + others;
      ChopJoin(ns[1..], rest, width);
      ValueOfBits(ns[0], width);
      assert (first + others)[..width] == first && (first + others)[width..] == others;
      assert ns[0] % Pow2(width) == ns[0] by { DivModUnique(ns[0], Pow2(width), 0, ns[0]); }
    }
  }

  /** The cuts, joined, and the rest are the bits again. */
  lemma {:induction false} JoinChop(bits: seq<Bit>, width: nat)
    requires width > 0
    ensures Join(Chop(bits, width), width) + Rest(bits, width) == bits
    decreases |bits|
  {
    if |bits| < width {
    } else {
      var first, others := bits[..width], bits[width..];
      var cuts := Chop(others, width);
      calc {
        Join(Chop(bits, width), width) + Rest(bits, width);
        Join([ValueOf(first)] + cuts, width) + Rest(others, width);
        { JoinCons(ValueOf(first), cuts, width); BitsOfValue(first); }
        first + Join(cuts, width) + Rest(others, width);
        { assert first + Join(cuts, width) + Rest(others, width) == first + (Join(cuts, width) + Rest(others, width)); }
        first + (Join(cuts, width) + Rest(others, width));
        { JoinChop(others, width); }
        first + others;
        bits;
      }
    }
  }

  lemma {:induction false} ChopBound(bits: seq<Bit>, width: nat)
    requires width > 0
    ensures forall i :: 0 <= i < |Chop(bits, width)| ==> Chop(bits, width)[i] < Pow2(width)
    decreases |bits|
  {
    if |bits| < width {
    } else {
      ValueBound(bits[..width]);
      ChopBound(bits[width..], width);
    }
  }

  lemma ValueBound(bits: seq<Bit>)
    ensures ValueOf(bits) < Pow2(|bits|)
  {
  }

  lemma Widths()
    ensures Pow2(6) == 64 && Pow2(16) == 0x1_0000 && Pow2(26) == 0x400_0000
  {
    assert Pow2(3) == 8;
    assert Pow2(8) == 256;
    assert Pow2(12) == 4096;
    assert Pow2(20) == 0x10_0000;
  }

  lemma {:induction false} ShrDiv(n: nat, k: nat)
    ensures Shr(n, k) == n / Pow2(k)
    decreases k
  {
    if k == 0 {
    } else {
      ShrDiv(n / 2, k - 1);
      HalveFirst(n, Pow2(k - 1));
    }
  }

  /** Shifting `x` in at the low end appends its bits, as long as the bits kept from `acc` survive the shift. */
  lemma BitsPush(n: nat, acc: nat, kept: nat, x: nat, width: nat, keep: nat)
    requires kept <= keep && acc % Pow2(keep) >= 0
    requires Shr(n, width) == acc % Pow2(keep) && n % Pow2(width) == x
    ensures Bits(n, kept + width) == Bits(acc, kept) + Bits(x, width)
  {
    BitsSplit(n, kept, width);
    BitsLow(acc, keep, kept);
    BitsLow(n, width, width);
  }

  lemma {:induction false} ValueOfZeros(bits: seq<Bit>, k: nat)
    ensures ValueOf(bits + Zeros(k)) == ValueOf(bits) * Pow2(k)
    decreases k
  {
    if k == 0 {
      assert bits + Zeros(0) == bits;
    } else {
      assert (bits + Zeros(k))[..|bits| + k - 1] == bits + Zeros(k - 1);
      ValueOfZeros(bits, k - 1);
    }
  }
}
