/** Types whose serialized size is fixed, and their combinations. */
module FixedBytes {
  import opened Streams
  import opened Bytes

  /** A type whose serialized size is fixed; `read` takes a value off the front of a buffer that is long enough. */
  datatype Fixed<!T> = Fixed(size: nat, encode: T -> bytes, read: bytes -> Option<(T, bytes)>)

  ghost predicate Exact<T(!new)>(f: Fixed<T>) {
    && (forall x :: |f.encode(x)| == f.size)
    && (forall x, rest :: f.read(f.encode(x) + rest) == Some((x, rest)))
    && (forall b :: f.read(b).Some? ==> |b| >= f.size && f.read(b).value.1 == b[f.size..])
  }

  type u8 = x: int | 0 <= x < 0x100
  type u16 = x: int | 0 <= x < 0x1_0000
  type u128 = x: int | 0 <= x < 0x1_0000_0000_0000_0000_0000_0000_0000_0000
  type i8 = x: int | -0x80 <= x < 0x80
  type i16 = x: int | -0x8000 <= x < 0x8000
  type i32 = x: int | -0x8000_0000 <= x < 0x8000_0000
  type i64 = x: int | -0x8000_0000_0000_0000 <= x < 0x8000_0000_0000_0000
  type i128 = x: int | -0x8000_0000_0000_0000_0000_0000_0000_0000 <= x < 0x8000_0000_0000_0000_0000_0000_0000_0000

  /** Reads a little-endian number of some width off the front of a buffer. */
  function ReadLE(width: nat, b: bytes): Option<(nat, bytes)> {
    if |b| < width then None else Some((FromLE(b[..width]), b[width..]))
  }

  lemma LEReadsBack(width: nat, n: nat, rest: bytes)
    requires n < Pow256(width)
    ensures ReadLE(width, ToLE(n, width) + rest) == Some((n, rest))
  {
    LERoundTrip(n, width);
    assert (ToLE(n, width) + rest)[..width] == ToLE(n, width);
  }

  /** A number type of `width` bytes: how its values stand for the numbers below 256^width. */
  datatype Number<!T> = Number(width: nat, to: T -> nat, from: nat -> T)

  ghost predicate Faithful<T(!new)>(t: Number<T>) {
    forall x :: t.to(x) < Pow256(t.width) && t.from(t.to(x)) == x
  }

  function ReadNumber<T>(t: Number<T>, b: bytes): Option<(T, bytes)> {
    match ReadLE(t.width, b) case None => None case Some((n, rest)) => Some((t.from(n), rest))
  }

  function NumberBytes<T>(t: Number<T>): Fixed<T> {
    Fixed(t.width, (x: T) => ToLE(t.to(x), t.width), b => ReadNumber(t, b))
  }

  /** A number type of any width is exact. */
  lemma NumberIsExact<T(!new)>(t: Number<T>)
    requires Faithful(t)
    ensures Exact(NumberBytes(t))
  {
    var f := NumberBytes(t);
    forall x: T, rest: bytes ensures f.read(f.encode(x) + rest) == Some((x, rest)) {
      LEReadsBack(t.width, t.to(x), rest);
    }
  }

  function U8(): Number<u8> { Number(1, (x: u8) => x as nat, (n: nat) => (if n < 0x100 then n else 0) as u8) }

  function U16(): Number<u16> { Number(2, (x: u16) => x as nat, (n: nat) => (if n < 0x1_0000 then n else 0) as u16) }

  function U32(): Number<u32> { Number(4, (x: u32) => x as nat, (n: nat) => (if n < 0x1_0000_0000 then n else 0) as u32) }

  function U64(): Number<u64> { Number(8, (x: u64) => x as nat, (n: nat) => (if n < 0x1_0000_0000_0000_0000 then n else 0) as u64) }

  function U128(): Number<u128> {
    Number(16, (x: u128) => x as nat,
      (n: nat) => (if n < 0x1_0000_0000_0000_0000_0000_0000_0000_0000 then n else 0) as u128)
  }

  // Two's complement: a negative number stands for the one 256^width above it.

  function I8(): Number<i8> {
    Number(1, (x: i8) => (if x < 0 then x + 0x100 else x) as nat,
      (n: nat) => (if n < 0x80 then n else if n < 0x100 then n - 0x100 else 0) as i8)
  }

  function I16(): Number<i16> {
    Number(2, (x: i16) => (if x < 0 then x + 0x1_0000 else x) as nat,
      (n: nat) => (if n < 0x8000 then n else if n < 0x1_0000 then n - 0x1_0000 else 0) as i16)
  }

  function I32(): Number<i32> {
    Number(4, (x: i32) => (if x < 0 then x + 0x1_0000_0000 else x) as nat,
      (n: nat) => (if n < 0x8000_0000 then n else if n < 0x1_0000_0000 then n - 0x1_0000_0000 else 0) as i32)
  }

  function I64(): Number<i64> {
    Number(8, (x: i64) => (if x < 0 then x + 0x1_0000_0000_0000_0000 else x) as nat,
      (n: nat) => (if n < 0x8000_0000_0000_0000 then n else if n < 0x1_0000_0000_0000_0000 then n - 0x1_0000_0000_0000_0000 else 0) as i64)
  }

  function I128(): Number<i128> {
    Number(16, (x: i128) => (if x < 0 then x + 0x1_0000_0000_0000_0000_0000_0000_0000_0000 else x) as nat,
      (n: nat) => (if n < 0x8000_0000_0000_0000_0000_0000_0000_0000 then n else if n < 0x1_0000_0000_0000_0000_0000_0000_0000_0000 then n - 0x1_0000_0000_0000_0000_0000_0000_0000_0000 else 0) as i128)
  }

  function UnitBytes(): Fixed<()> { Fixed(0, _ => [], b => Some(((), b))) }

  function BoolBytes(): Fixed<bool> {
    Fixed(1, x => [if x then 1 else 0], b => if b == [] then None else Some((b[0] != 0, b[1..])))
  }

  function ReadPair<A, B>(f: Fixed<A>, g: Fixed<B>, b: bytes): Option<((A, B), bytes)> {
    match f.read(b)
    case None => None
    case Some((x, rest)) =>
      match g.read(rest)
      case None => None
      case Some((y, more)) => Some(((x, y), more))
  }

  function PairBytes<A, B>(f: Fixed<A>, g: Fixed<B>): Fixed<(A, B)> {
    Fixed(f.size + g.size, (p: (A, B)) => f.encode(p.0) + g.encode(p.1), b => ReadPair(f, g, b))
  }

  function ArrayBytes<T>(f: Fixed<T>, xs: seq<T>): bytes {
    if xs == [] then [] else f.encode(xs[0]) + ArrayBytes(f, xs[1..])
  }

  function ReadArray<T>(f: Fixed<T>, n: nat, b: bytes): Option<(seq<T>, bytes)> {
    if n == 0 then Some(([], b))
    else
      match f.read(b)
      case None => None
      case Some((x, rest)) =>
        match ReadArray(f, n - 1, rest)
        case None => None
        case Some((xs, more)) => Some(([x] + xs, more))
  }

  lemma PowersOf256()
    ensures Pow256(1) == 0x100 && Pow256(2) == 0x1_0000 && Pow256(4) == 0x1_0000_0000
    ensures Pow256(8) == 0x1_0000_0000_0000_0000
    ensures Pow256(16) == 0x1_0000_0000_0000_0000_0000_0000_0000_0000
  {
    assert Pow256(6) == 0x1_0000_0000_0000;
    assert Pow256(10) == 0x1_0000_0000_0000_0000_0000;
    assert Pow256(12) == 0x1_0000_0000_0000_0000_0000_0000;
    assert Pow256(14) == 0x1_0000_0000_0000_0000_0000_0000_0000;
  }

  /** Signed integers are written in two's complement: as the number from 0 that is the same modulo 256^width. */
  lemma SignedAreTwosComplement()
    ensures forall x: i8 :: I8().to(x) == x % 0x100
    ensures forall x: i16 :: I16().to(x) == x % 0x1_0000
    ensures forall x: i32 :: I32().to(x) == x % 0x1_0000_0000
    ensures forall x: i64 :: I64().to(x) == x % 0x1_0000_0000_0000_0000
    ensures forall x: i128 :: I128().to(x) == x % 0x1_0000_0000_0000_0000_0000_0000_0000_0000
  {
  }

  lemma UnsignedAreExact()
    ensures Exact(NumberBytes(U8())) && Exact(NumberBytes(U16())) && Exact(NumberBytes(U32()))
    ensures Exact(NumberBytes(U64())) && Exact(NumberBytes(U128()))
  {
    PowersOf256();
    NumberIsExact(U8()); NumberIsExact(U16()); NumberIsExact(U32()); NumberIsExact(U64()); NumberIsExact(U128());
  }

  lemma SignedAreExact()
    ensures Exact(NumberBytes(I8())) && Exact(NumberBytes(I16())) && Exact(NumberBytes(I32()))
    ensures Exact(NumberBytes(I64())) && Exact(NumberBytes(I128()))
  {
    PowersOf256();
    NumberIsExact(I8()); NumberIsExact(I16()); NumberIsExact(I32()); NumberIsExact(I64()); NumberIsExact(I128());
  }

  /** All integer types the source serializes, signed and unsigned. */
  lemma IntegersAreExact()
    ensures Exact(NumberBytes(U8())) && Exact(NumberBytes(U16())) && Exact(NumberBytes(U32()))
    ensures Exact(NumberBytes(U64())) && Exact(NumberBytes(U128()))
    ensures Exact(NumberBytes(I8())) && Exact(NumberBytes(I16())) && Exact(NumberBytes(I32()))
    ensures Exact(NumberBytes(I64())) && Exact(NumberBytes(I128()))
  {
    UnsignedAreExact();
    SignedAreExact();
  }

  lemma BasicBytesAreExact()
    ensures Exact(UnitBytes()) && Exact(BoolBytes())
  {
    forall x: (), rest: bytes ensures UnitBytes().read(UnitBytes().encode(x) + rest) == Some((x, rest)) {
      assert UnitBytes().encode(x) + rest == rest;
      assert x == ();
    }
    forall x: bool, rest: bytes ensures BoolBytes().read(BoolBytes().encode(x) + rest) == Some((x, rest)) {
      assert (BoolBytes().encode(x) + rest)[1..] == rest;
    }
  }

  /** Tuples of exact parts are exact; longer tuples nest. */
  lemma PairIsExact<A(!new), B(!new)>(f: Fixed<A>, g: Fixed<B>)
    requires Exact(f) && Exact(g)
    ensures Exact(PairBytes(f, g))
  {
    var pair := PairBytes(f, g);
    forall p: (A, B) ensures |pair.encode(p)| == pair.size {
      assert pair.encode(p) == f.encode(p.0) + g.encode(p.1);
    }
    forall p: (A, B), rest: bytes ensures pair.read(pair.encode(p) + rest) == Some((p, rest)) {
      PairReadsBack(f, g, p, rest);
    }
    forall b: bytes | pair.read(b).Some? ensures |b| >= pair.size && pair.read(b).value.1 == b[pair.size..] {
      assert b[f.size..][g.size..] == b[f.size + g.size..];
    }
  }

  lemma PairReadsBack<A(!new), B(!new)>(f: Fixed<A>, g: Fixed<B>, p: (A, B), rest: bytes)
    requires Exact(f) && Exact(g)
    ensures ReadPair(f, g, f.encode(p.0) + g.encode(p.1) + rest) == Some((p, rest))
  {
    var x, y := f.encode(p.0), g.encode(p.1);
    assert x + y + rest == x + (y + rest);
    assert f.read(x + (y + rest)) == Some((p.0, y + rest));
    assert g.read(y + rest) == Some((p.1, rest));
  }

  lemma {:induction false} ArrayIsExact<T(!new)>(f: Fixed<T>, xs: seq<T>, rest: bytes)
    requires Exact(f)
    ensures |ArrayBytes(f, xs)| == f.size * |xs|
    ensures ReadArray(f, |xs|, ArrayBytes(f, xs) + rest) == Some((xs, rest))
  {
    if xs == [] {
      assert ArrayBytes(f, xs) + rest == rest;
    } else {
      var tail := ArrayBytes(f, xs[1..]);
      ArrayIsExact(f, xs[1..], rest);
      assert ArrayBytes(f, xs) + rest == f.encode(xs[0]) + (tail + rest);
      assert f.read(f.encode(xs[0]) + (tail + rest)) == Some((xs[0], tail + rest));
      assert [xs[0]] + xs[1..] == xs;
      assert f.size * |xs| == f.size + f.size * (|xs| - 1);
    }
  }

  /** An array is read off a buffer that has room for all its elements, and not off a shorter one. */
  lemma {:induction false} ShortArrayFails<T(!new)>(f: Fixed<T>, n: nat, b: bytes)
    requires Exact(f)
    ensures ReadArray(f, n, b).Some? ==> |b| >= f.size * n && |ReadArray(f, n, b).value.0| == n
  {
    if n > 0 && f.read(b).Some? {
      ShortArrayFails(f, n - 1, f.read(b).value.1);
      assert f.size * n == f.size + f.size * (n - 1);
    }
  }

  lemma TwoBytes(n: nat, size: nat)
    requires size >= 2
    ensures ToLE(n, size) == [n % 256, n / 256 % 256] + ToLE(n / 256 / 256, size - 2)
  {
    assert ToLE(n, size) == [n % 256] + ([n / 256 % 256] + ToLE(n / 256 / 256, size - 2));
  }

  lemma DeadBeef()
    ensures ToLE(0xDEAD_BEEF_CAFE_BABE, 8) == [0xBE, 0xBA, 0xFE, 0xCA, 0xEF, 0xBE, 0xAD, 0xDE]
  {
    TwoBytes(0xDEAD_BEEF_CAFE_BABE, 8);
    TwoBytes(0xDEAD_BEEF_CAFE, 6);
    TwoBytes(0xDEAD_BEEF, 4);
    TwoBytes(0xDEAD, 2);
  }

  /** The bytes of a tuple of three numbers, one of them negative. */
  lemma TupleBytes(f: Fixed<((u8, u64), i16)>)
    requires f == PairBytes(PairBytes(NumberBytes(U8()), NumberBytes(U64())), NumberBytes(I16()))
    ensures f.encode(((255, 0xDEAD_BEEF_CAFE_BABE), -128)) == [255, 0xBE, 0xBA, 0xFE, 0xCA, 0xEF, 0xBE, 0xAD, 0xDE, 128, 255]
  {
    DeadBeef();
    assert ToLE(255, 1) == [255];
    assert ToLE(0xFF80, 2) == [128, 255];
    var g := PairBytes(NumberBytes(U8()), NumberBytes(U64()));
    assert g.encode((255, 0xDEAD_BEEF_CAFE_BABE)) == [255] + ToLE(0xDEAD_BEEF_CAFE_BABE, 8);
  }
}
