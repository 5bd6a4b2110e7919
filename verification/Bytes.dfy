/** Bytes, bit fields and the arithmetic of Rust's `u8`. */
module Bytes {

  type Byte = x: int | 0 <= x < 0x100

  type Buffer = seq<Byte>

  // Bit fields of two to seven bits
  type Bits2 = x: int | 0 <= x < 4
  type Bits3 = x: int | 0 <= x < 8
  type Bits4 = x: int | 0 <= x < 16
  type Bits5 = x: int | 0 <= x < 32
  type Bits7 = x: int | 0 <= x < 128

  datatype Option<+T> = None | Some(value: T)

  /** The error text of the source is not modelled: a failure carries nothing. */
  datatype Result<+T> = Ok(value: T) | Err

  /** Rust's two behaviours on integer overflow: a checked build panics, a wrapping one truncates. */
  datatype Build = Checked | Wrapping

  /** `a + b` on `u8`; `None` is the overflow panic of a checked build. */
  function Add8(build: Build, a: Byte, b: Byte): (r: Option<Byte>)
    ensures r.None? <==> build.Checked? && a + b > 0xFF
    ensures r.Some? ==> r.value == a + b || r.value == a + b - 0x100
  {
    if a + b <= 0xFF then Some(a + b)
    else if build.Checked? then None
    else Some(a + b - 0x100)
  }

  /** `fetch_add(1)` on an `AtomicU8` wraps in every build. */
  function Increment(counter: Byte): Byte {
    if counter == 0xFF then 0 else counter + 1
  }

  /** An atomic byte counter after `n` increments. */
  function CounterAfter(start: Byte, n: nat): Byte {
    if n == 0 then start else Increment(CounterAfter(start, n - 1))
  }

  /** It counts modulo 256. */
  lemma {:induction false} CounterWraps(start: Byte, n: nat)
    ensures CounterAfter(start, n) == (start + n) % 0x100
  {
    if n > 0 {
      CounterWraps(start, n - 1);
      IncrementCounts(start, n - 1);
    }
  }

  lemma IncrementCounts(start: nat, n: nat)
    ensures Increment((start + n) % 0x100) == (start + (n + 1)) % 0x100
  {
  }

  lemma WrapAdd(a: int, b: int)
    ensures (a % 0x100 + b) % 0x100 == (a + b) % 0x100
  {
  }

  /** The low bits of a byte counter do not see it wrap. */
  lemma LowBitsOfCounter(start: int, i: int)
    ensures (start + i) % 0x100 % 8 == (start + i) % 8
    ensures (start + i) % 0x100 % 32 == (start + i) % 32
  {
    LowBits(start + i);
  }

  lemma LowBits(n: int)
    ensures n % 0x100 % 8 == n % 8
    ensures n % 0x100 % 32 == n % 32
  {
    DropMultiple8(n % 0x100, 32 * (n / 0x100));
    DropMultiple32(n % 0x100, 8 * (n / 0x100));
  }

  lemma DropMultiple8(a: int, k: int)
    ensures (a + 8 * k) % 8 == a % 8
  {
  }

  lemma DropMultiple32(a: int, k: int)
    ensures (a + 32 * k) % 32 == a % 32
  {
  }

  lemma SameResidue8(a: nat, b: nat)
    ensures a % 8 == b % 8 <==> (b - a) % 8 == 0
  {
    var q := b / 8 - a / 8;
    assert b - a == 8 * q + (b % 8 - a % 8);
  }

  lemma SameResidue32(a: nat, b: nat)
    ensures a % 32 == b % 32 <==> (b - a) % 32 == 0
  {
    var q := b / 32 - a / 32;
    assert b - a == 32 * q + (b % 32 - a % 32);
  }

  /** The one byte that lies `step` behind a byte, modulo 256. */
  lemma WrapNext(a: int, step: int, next: Byte)
    requires next == a % 0x100 + step || next == a % 0x100 + step - 0x100
    ensures next == (a + step) % 0x100
  {
    var p := a / 0x100;
    assert a + step == next + 0x100 * p || a + step == next + 0x100 * (p + 1);
  }

  /** One bit as a number. */
  function Bit(b: bool): Byte {
    if b then 1 else 0
  }

  /** A byte laid out as fields of 3, 1, 2, 1 and 1 bits reads back as those fields. */
  lemma Unpack31211(t: Bits3, o: bool, q: Bits2, e: bool, s: bool)
    ensures var b := t + 8 * Bit(o) + 16 * q + 64 * Bit(e) + 128 * Bit(s);
            b < 0x100 && b % 8 == t && (b / 8 % 2 == 1) == o && b / 16 % 4 == q
            && (b / 64 % 2 == 1) == e && (b / 128 % 2 == 1) == s
  {
    var b := t + 8 * Bit(o) + 16 * q + 64 * Bit(e) + 128 * Bit(s);
    assert b / 8 == Bit(o) + 2 * q + 8 * Bit(e) + 16 * Bit(s);
    assert b / 16 == q + 4 * Bit(e) + 8 * Bit(s);
  }

  /** A byte laid out as fields of 5, 1, 1 and 1 bits reads back as those fields. */
  lemma Unpack5111(i: Bits5, r: bool, d: bool, q: bool)
    ensures var b := i + 32 * Bit(r) + 64 * Bit(d) + 128 * Bit(q);
            b < 0x100 && b % 32 == i && (b / 32 % 2 == 1) == r && (b / 64 % 2 == 1) == d && (b / 128 % 2 == 1) == q
  {
  }

  /** A byte as four fields of two bits, from the lowest up. */
  datatype Quad = Quad(bits01: Bits2, bits23: Bits2, bits45: Bits2, bits67: Bits2) {
    function Encode(): Byte { bits01 + 4 * bits23 + 16 * bits45 + 64 * bits67 }
  }

  function ReadQuad(b: Byte): Quad {
    Quad(b % 4, b / 4 % 4, b / 16 % 4, b / 64)
  }

  lemma QuadDecodeEncode(q: Quad)
    ensures ReadQuad(q.Encode()) == q
  {
    var b := q.Encode();
    assert b / 64 == q.bits67;
    assert b / 16 == q.bits45 + 4 * q.bits67;
    assert b / 4 == q.bits23 + 4 * (q.bits45 + 4 * q.bits67);
  }

  lemma QuadEncodeDecode(b: Byte)
    ensures ReadQuad(b).Encode() == b
  {
    assert b / 4 == b / 4 % 4 + 4 * (b / 16);
    assert b / 16 == b / 16 % 4 + 4 * (b / 64);
  }
}
