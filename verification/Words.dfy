/**
 Fixed-width integers and their big-endian byte strings.

 The source repeats one pair of loops for every integer width: a store loop that
 takes the low byte and shifts right, and a load loop that shifts left and adds
 a byte. Both are methods here, proved against `BigEndian` and `FromBigEndian`.
 */
module Words {

  type byte = b: int | 0 <= b < 256

  const TWO_TO_32: nat := 0x1_0000_0000
  const TWO_TO_64: nat := 0x1_0000_0000_0000_0000

  type u32 = n: int | 0 <= n < 0x1_0000_0000
  type u64 = n: int | 0 <= n < 0x1_0000_0000_0000_0000
  type i32 = n: int | -0x8000_0000 <= n < 0x8000_0000
  type i64 = n: int | -0x8000_0000_0000_0000 <= n < 0x8000_0000_0000_0000

  function Pow256(n: nat): (p: nat)
    ensures p > 0
  {
    if n == 0 then 1 else 256 * Pow256(n - 1)
  }

  lemma PowersOfInterest()
    ensures Pow256(4) == TWO_TO_32
    ensures Pow256(8) == TWO_TO_64
  {
    assert Pow256(2) == 65536;
    assert Pow256(4) == 65536 * Pow256(2);
    assert Pow256(6) == 65536 * Pow256(4);
    assert Pow256(8) == 65536 * Pow256(6);
  }

  /** The low `n` bytes of `v` in two's complement, most significant first. */
  function BigEndian(n: nat, v: int): (s: seq<byte>)
    ensures |s| == n
  {
    if n == 0 then [] else BigEndian(n - 1, v / 256) + [v % 256]
  }

  /** The unsigned number whose big-endian digits are `s`. */
  function FromBigEndian(s: seq<byte>): nat
  {
    if s == [] then 0 else FromBigEndian(s[..|s| - 1]) * 256 + s[|s| - 1]
  }

  lemma {:induction false} LoadBound(s: seq<byte>)
    ensures FromBigEndian(s) < Pow256(|s|)
  {
    if s == [] {
    } else {
      LoadBound(s[..|s| - 1]);
    }
  }

  lemma DivModStep(v: int, p: nat)
    requires p > 0
    ensures (v / 256 % p) * 256 + v % 256 == v % (256 * p)
  {
    var q, r := v / 256 / p, v / 256 % p;
    assert v / 256 == q * p + r;
    assert v == (256 * p) * q + (256 * r + v % 256) by {
      assert v == 256 * (v / 256) + v % 256;
      assert 256 * (q * p + r) == (256 * p) * q + 256 * r;
    }
    RemainderIsUnique(v, 256 * p, q, 256 * r + v % 256);
  }

  lemma RemainderIsUnique(v: int, m: int, q: int, r: int)
    requires 0 <= r < m && v == m * q + r
    ensures v % m == r
  {
    var q', r' := v / m, v % m;
    assert v == m * q' + r';
    assert m * (q - q') == r' - r;
    assert q - q' >= 1 ==> m * (q - q') >= m;
    assert q - q' <= -1 ==> m * (q - q') <= -m;
    assert q == q';
  }

  /** Loading what was stored gives the value back, reduced to the width. */
  lemma {:induction false} LoadStore(n: nat, v: int)
    ensures FromBigEndian(BigEndian(n, v)) == v % Pow256(n)
  {
    if n == 0 {
    } else {
      LoadStore(n - 1, v / 256);
      DivModStep(v, Pow256(n - 1));
      assert BigEndian(n, v)[..n - 1] == BigEndian(n - 1, v / 256);
    }
  }

  /** Storing what was loaded gives the bytes back. */
  lemma {:induction false} StoreLoad(s: seq<byte>)
    ensures BigEndian(|s|, FromBigEndian(s)) == s
  {
    if s == [] {
    } else {
      var rest, b := s[..|s| - 1], s[|s| - 1];
      StoreLoad(rest);
      assert FromBigEndian(s) / 256 == FromBigEndian(rest);
      assert s == rest + [b];
    }
  }

  /** Storing depends on the value only modulo the width. */
  lemma StoreIsModular(n: nat, v: int, w: int)
    requires v % Pow256(n) == w % Pow256(n)
    ensures BigEndian(n, v) == BigEndian(n, w)
  {
    LoadStore(n, v);
    LoadStore(n, w);
    StoreLoad(BigEndian(n, v));
    StoreLoad(BigEndian(n, w));
  }

  /** A mask of 32 bits, or a cast to them, does not change the four bytes. */
  lemma MaskedIsSame(value: int)
    ensures BigEndian(4, value % 0x1_0000_0000) == BigEndian(4, value)
  {
    PowersOfInterest();
    StoreIsModular(4, value, value % 0x1_0000_0000);
  }

  function Signed32(bits: u32): (v: i32)
    ensures v % 0x1_0000_0000 == bits
  {
    if bits < 0x8000_0000 then bits else bits - 0x1_0000_0000
  }

  function Unsigned32(v: i32): (bits: u32)
    ensures Signed32(bits) == v
  {
    v % 0x1_0000_0000
  }

  function Signed64(bits: u64): (v: i64)
    ensures v % 0x1_0000_0000_0000_0000 == bits
  {
    if bits < 0x8000_0000_0000_0000 then bits else bits - 0x1_0000_0000_0000_0000
  }

  function Unsigned64(v: i64): (bits: u64)
    ensures Signed64(bits) == v
  {
    v % 0x1_0000_0000_0000_0000
  }

  /** A signed int stored with arithmetic shifts has the bytes of its bit pattern,
      and the unsigned load followed by a cast gives the int back. */
  lemma Int32RoundTrip(v: i32)
    ensures BigEndian(4, v) == BigEndian(4, Unsigned32(v))
    ensures FromBigEndian(BigEndian(4, v)) == Unsigned32(v)
    ensures Signed32(FromBigEndian(BigEndian(4, v))) == v
  {
    PowersOfInterest();
    LoadStore(4, v);
    StoreIsModular(4, v, Unsigned32(v));
  }

  lemma Int64RoundTrip(v: i64)
    ensures BigEndian(8, v) == BigEndian(8, Unsigned64(v))
    ensures FromBigEndian(BigEndian(8, v)) == Unsigned64(v)
    ensures Signed64(FromBigEndian(BigEndian(8, v))) == v
  {
    PowersOfInterest();
    LoadStore(8, v);
    StoreIsModular(8, v, Unsigned64(v));
  }

  /** Every four bytes are the encoding of exactly one int, so the signed and the
      unsigned codec are bijections that agree on the wire. */
  lemma Int32LoadIsInverse(s: seq<byte>)
    requires |s| == 4
    ensures FromBigEndian(s) < 0x1_0000_0000
    ensures BigEndian(4, Signed32(FromBigEndian(s))) == s
  {
    PowersOfInterest();
    LoadBound(s);
    StoreLoad(s);
    StoreIsModular(4, FromBigEndian(s), Signed32(FromBigEndian(s)));
  }

  lemma U32Load(s: seq<byte>)
    requires |s| == 4
    ensures FromBigEndian(s) < 0x1_0000_0000
  {
    PowersOfInterest();
    LoadBound(s);
  }

  lemma U64Load(s: seq<byte>)
    requires |s| == 8
    ensures FromBigEndian(s) < 0x1_0000_0000_0000_0000
  {
    PowersOfInterest();
    LoadBound(s);
  }

  lemma U32RoundTrip(v: u32)
    ensures FromBigEndian(BigEndian(4, v)) == v
  {
    PowersOfInterest();
    LoadStore(4, v);
  }

  lemma U64RoundTrip(v: u64)
    ensures FromBigEndian(BigEndian(8, v)) == v
  {
    PowersOfInterest();
    LoadStore(8, v);
  }

  /** The bytes of a wide value are its upper bytes followed by its lower ones. */
  lemma {:induction false} SplitStore(high: nat, low: nat, v: int)
    ensures BigEndian(high + low, v) == BigEndian(high, v / Pow256(low)) + BigEndian(low, v)
  {
    if low == 0 {
    } else {
      SplitStore(high, low - 1, v / 256);
      NestedDivision(v, Pow256(low - 1));
    }
  }

  lemma NestedDivision(v: int, p: nat)
    requires p > 0
    ensures v / 256 / p == v / (256 * p)
  {
    var q, r := v / 256 / p, v / 256 % p;
    DivModStep(v, p);
    assert v / 256 == p * q + r;
    assert v == 256 * (p * q + r) + v % 256;
    assert v == (256 * p) * q + v % (256 * p);
    assert v == (256 * p) * (v / (256 * p)) + v % (256 * p);
    assert (256 * p) * (q - v / (256 * p)) == 0;
  }

  /** The store loop: the last cell gets the low byte, then the value is shifted. */
  method StoreWord(width: nat, value: int) returns (data: array<byte>)
    ensures fresh(data)
    ensures data[..] == BigEndian(width, value)
  {
    data := new byte[width];
    var rest := value;
    var i := 0;
    while i < width
      invariant 0 <= i <= width
      invariant BigEndian(width, value) == BigEndian(width - i, rest) + data[width - i..]
    {
      var actual := rest % 256;
      rest := rest / 256;
      data[width - i - 1] := actual;
      i := i + 1;
    }
  }

  /** The load loop, on an unsigned accumulator of `bits` bytes. */
  method LoadWord(data: array<byte>, at: nat, width: nat, bits: nat) returns (value: nat)
    requires at + width <= data.Length && width <= bits
    ensures value == FromBigEndian(data[at..at + width])
  {
    value := 0;
    var i := 0;
    while i < width
      invariant 0 <= i <= width
      invariant value == FromBigEndian(data[at..at + i])
    {
      LoadStep(data[at..at + i], data[at + i], bits);
      assert data[at..at + i + 1] == data[at..at + i] + [data[at + i]];
      value := (value * 256) % Pow256(bits) + data[at + i];
      i := i + 1;
    }
  }

  /** No byte is shifted out of an accumulator that is wide enough. */
  lemma LoadStep(s: seq<byte>, b: byte, bits: nat)
    requires |s| < bits
    ensures (FromBigEndian(s) * 256) % Pow256(bits) + b == FromBigEndian(s + [b])
  {
    var longer := s + [b];
    assert longer[..|longer| - 1] == s;
    LoadBound(longer);
    Pow256Grows(|longer|, bits);
    RemainderIsUnique(FromBigEndian(s) * 256, Pow256(bits), 0, FromBigEndian(s) * 256);
  }

  lemma {:induction false} Pow256Grows(n: nat, m: nat)
    requires n <= m
    ensures Pow256(n) <= Pow256(m)
    decreases m
  {
    if n == m {
    } else {
      Pow256Grows(n, m - 1);
    }
  }

  // ---------------------------------------------------------------- bytes spelled out

  /** `(value >> shift) & 0xff` for the four shifts, on integers of any size and sign. */
  lemma FourBytes(value: int)
    ensures [(value / 0x100_0000) % 256, (value / 0x1_0000) % 256, (value / 0x100) % 256, value % 256]
         == BigEndian(4, value)
  {
    assert value / 256 / 256 == value / 0x1_0000;
    assert value / 256 / 256 / 256 == value / 0x100_0000;
    assert BigEndian(1, value / 0x100_0000) == [(value / 0x100_0000) % 256];
    assert BigEndian(2, value / 0x1_0000) == BigEndian(1, value / 0x100_0000) + [(value / 0x1_0000) % 256];
    assert BigEndian(3, value / 0x100) == BigEndian(2, value / 0x1_0000) + [(value / 0x100) % 256];
    assert BigEndian(4, value) == BigEndian(3, value / 0x100) + [value % 256];
  }

  /** The two halves of a 64-bit value, each masked, are its eight bytes. */
  lemma HalvesAreEightBytes(value: int)
    ensures BigEndian(4, value / 0x1_0000_0000 % 0x1_0000_0000) + BigEndian(4, value % 0x1_0000_0000)
         == BigEndian(8, value)
  {
    PowersOfInterest();
    SplitStore(4, 4, value);
    MaskedIsSame(value);
    MaskedIsSame(value / 0x1_0000_0000);
  }

  lemma MaskedLong(n: int)
    ensures BigEndian(8, n % 0x1_0000_0000_0000_0000) == BigEndian(8, n)
  {
    PowersOfInterest();
    StoreIsModular(8, n, n % 0x1_0000_0000_0000_0000);
  }
}
