/**
 The byte formats of the state backends: little-endian integers of fixed size, and
 Protocol Buffers messages with their length in front as a base-128 varint. Message
 bodies are left to a codec of which only the round trip is assumed.
 */
module Bytes {
  import opened Streams
  import opened Arithmetic

  type byte = x: int | 0 <= x < 256
  type bytes = seq<byte>

  /** What reading a state gives: a value, an error, or a panic. */
  datatype Outcome<+V> = Done(value: V) | Failed | Panic

  // ----- fixed-size integers -----

  function Pow256(n: nat): nat {
    if n == 0 then 1 else 256 * Pow256(n - 1)
  }

  function ToLE(n: nat, size: nat): (b: bytes)
    ensures |b| == size
  {
    if size == 0 then [] else [n % 256] + ToLE(n / 256, size - 1)
  }

  function FromLE(b: bytes): nat {
    if b == [] then 0 else b[0] + 256 * FromLE(b[1..])
  }

  lemma {:induction false} LERoundTrip(n: nat, size: nat)
    requires n < Pow256(size)
    ensures FromLE(ToLE(n, size)) == n
  {
    if size > 0 {
      LERoundTrip(n / 256, size - 1);
      assert ToLE(n, size)[1..] == ToLE(n / 256, size - 1);
    }
  }

  lemma Reassociate(p: int, a: int, b: int)
    ensures p * (a * b) == p * b * a
  {
  }

  lemma DivTwice(n: nat, a: nat, b: nat)
    requires a > 0 && b > 0
    ensures a * b > 0 && n / a / b == n / (a * b)
  {
    Quotient(n, a);
    var q := n / a;
    Quotient(q, b);
    var p := q / b;
    MulOrder(0, a, b);
    Between(n, a, b, q, p);
    QuotientIs(n, a * b, p);
  }

  lemma Between(n: int, a: int, b: int, q: int, p: int)
    requires a > 0 && q * a <= n < (q + 1) * a && p * b <= q < (p + 1) * b
    ensures p * (a * b) <= n < (p + 1) * (a * b)
  {
    Reassociate(p, a, b);
    Reassociate(p + 1, a, b);
    MulOrder(p * b, q, a);
    MulOrder(q + 1, (p + 1) * b, a);
  }

  /** Little-endian: byte i holds the digit of 256 to the i. */
  lemma {:induction false} LowestByteFirst(n: nat, size: nat, i: nat)
    requires i < size
    ensures Pow256(i) > 0 && ToLE(n, size)[i] == (n / Pow256(i)) % 256
  {
    if i > 0 {
      LowestByteFirst(n / 256, size - 1, i - 1);
      DivTwice(n, 256, Pow256(i - 1));
    }
  }

  const WORD: nat := 8

  function Word(n: nat): bytes { ToLE(n, WORD) }

  /** Reads the length at the front, if there is one, and returns what follows it. */
  function ReadWord(b: bytes): Option<(nat, bytes)> {
    if |b| < WORD then None else Some((FromLE(b[..WORD]), b[WORD..]))
  }

  lemma WordIsFull()
    ensures Pow256(WORD) == U64_MAX + 1
  {
    assert Pow256(2) == 0x1_0000;
    assert Pow256(4) == 0x1_0000_0000;
    assert Pow256(6) == 0x1_0000_0000_0000;
  }

  lemma WordRoundTrip(n: nat, rest: bytes)
    requires n <= U64_MAX
    ensures ReadWord(Word(n) + rest) == Some((n, rest))
  {
    WordIsFull();
    LERoundTrip(n, WORD);
    assert (Word(n) + rest)[..WORD] == Word(n);
  }

  // ----- varints -----

  function Varint(n: nat): bytes {
    if n < 128 then [n] else [n % 128 + 128] + Varint(n / 128)
  }

  /** At most `limit` bytes are read; a 64-bit varint has at most ten. */
  function ReadVarint(b: bytes, limit: nat): Option<(nat, bytes)> {
    if b == [] || limit == 0 then None
    else if b[0] < 128 then Some((b[0], b[1..]))
    else
      match ReadVarint(b[1..], limit - 1)
      case None => None
      case Some((n, rest)) => Some((b[0] - 128 + 128 * n, rest))
  }

  function Pow128(n: nat): nat {
    if n == 0 then 1 else 128 * Pow128(n - 1)
  }

  lemma {:induction false} VarintRoundTrip(n: nat, rest: bytes, limit: nat)
    requires n < Pow128(limit) && limit > 0
    ensures ReadVarint(Varint(n) + rest, limit) == Some((n, rest))
  {
    if n < 128 {
      assert (Varint(n) + rest)[1..] == rest;
    } else {
      VarintRoundTrip(n / 128, rest, limit - 1);
      assert (Varint(n) + rest)[1..] == Varint(n / 128) + rest;
    }
  }

  /** The value of base-128 digits, the lowest first; the highest bit of a byte does not count. */
  function Base128(b: bytes): nat {
    if b == [] then 0 else b[0] % 128 + 128 * Base128(b[1..])
  }

  /** A varint: all bytes but the last have their highest bit set, and there is no needless last one. */
  lemma {:induction false} VarintIsBase128(n: nat)
    ensures var v := Varint(n);
      && Base128(v) == n && v != [] && v[|v| - 1] < 128 && (|v| > 1 ==> v[|v| - 1] > 0)
      && forall i :: 0 <= i < |v| - 1 ==> v[i] >= 128
  {
    if n >= 128 {
      var v, rest := Varint(n), Varint(n / 128);
      VarintIsBase128(n / 128);
      assert v[1..] == rest;
      assert forall i :: 0 < i < |v| ==> v[i] == rest[i - 1];
    } else {
      assert Varint(n)[1..] == [];
    }
  }

  const LIMIT: nat := 10

  lemma LimitIsEnough(n: nat)
    requires n <= U64_MAX
    ensures n < Pow128(LIMIT)
  {
    assert Pow128(2) == 0x4000;
    assert Pow128(4) == 0x1000_0000;
    assert Pow128(6) == 0x400_0000_0000;
    assert Pow128(8) == 0x100_0000_0000_0000;
    assert Pow128(10) == 0x40_0000_0000_0000_0000;
  }

  // ----- messages with their length in front -----

  datatype Codec<!T> = Codec(encode: T -> bytes, decode: bytes -> Option<T>)

  ghost predicate Lawful<T(!new)>(c: Codec<T>) {
    forall x :: c.decode(c.encode(x)) == Some(x) && |c.encode(x)| <= U64_MAX
  }

  function Delimited<T>(c: Codec<T>, x: T): (b: bytes)
    ensures b != []
  {
    Varint(|c.encode(x)|) + c.encode(x)
  }

  function ReadDelimited<T>(c: Codec<T>, b: bytes): (r: Option<(T, bytes)>)
    ensures r.Some? ==> |r.value.1| < |b|
  {
    match ReadVarint(b, LIMIT)
    case None => None
    case Some((n, rest)) =>
      ReadVarintShrinks(b, LIMIT);
      if n > |rest| then None
      else
        match c.decode(rest[..n])
        case None => None
        case Some(x) => Some((x, rest[n..]))
  }

  lemma {:induction false} ReadVarintShrinks(b: bytes, limit: nat)
    ensures ReadVarint(b, limit).Some? ==> |ReadVarint(b, limit).value.1| < |b|
  {
    if b != [] && limit > 0 { ReadVarintShrinks(b[1..], limit - 1); }
  }

  lemma DelimitedRoundTrip<T(!new)>(c: Codec<T>, x: T, rest: bytes)
    requires Lawful(c)
    ensures ReadDelimited(c, Delimited(c, x) + rest) == Some((x, rest))
  {
    var body := c.encode(x);
    assert c.decode(body) == Some(x) && |body| <= U64_MAX;
    LimitIsEnough(|body|);
    VarintRoundTrip(|body|, body + rest, LIMIT);
    assert Delimited(c, x) + rest == Varint(|body|) + (body + rest);
    assert (body + rest)[..|body|] == body && (body + rest)[|body|..] == rest;
  }

  lemma DelimitedInjective<T(!new)>(c: Codec<T>, x: T, y: T)
    requires Lawful(c) && Delimited(c, x) == Delimited(c, y)
    ensures x == y
  {
    DelimitedRoundTrip(c, x, []);
    DelimitedRoundTrip(c, y, []);
    assert Delimited(c, x) + [] == Delimited(c, y) + [];
  }
}
