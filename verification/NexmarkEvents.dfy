/**
 Event numbers and ids of the NEXMark generator. Event numbers are shuffled within groups
 by a multiplication with the prime 953; persons and auctions get their ids from closed
 formulas over the event number. Numbers are 32 bits wide.
 */
module NexmarkEvents {
  import opened Streams
  import opened Arithmetic
  import opened NumberTheory

  const WRAP: nat := 0x1_0000_0000

  /** The shuffled number of event `x`, in groups of `n`; an optimised build wraps around. */
  function Adjusted(n: u32, x: u32): u32
    requires n > 0
  {
    (Div(x, n) * n + ((x * PRIME) % WRAP) % n) % WRAP
  }

  predicate InGroup(n: u32, q: nat, x: int) {
    q * n <= x < q * n + n
  }

  /** How often the product with the prime has wrapped around at event `x`, and what is left of it. */
  function Block(x: nat): nat { Div(x * PRIME, WRAP) }

  function Rest(x: nat): nat { (x * PRIME) % WRAP }

  /** The products of the whole group wrap around equally often. */
  predicate OneBlock(n: u32, q: nat) {
    n > 0 && Block(q * n) == Block(q * n + n - 1)
  }

  ghost predicate Permutes(n: u32, q: nat)
    requires n > 0 && q * n + n <= WRAP
  {
    && (forall x: u32 :: InGroup(n, q, x) ==> InGroup(n, q, Adjusted(n, x)))
    && (forall x: u32, y: u32 :: InGroup(n, q, x) && InGroup(n, q, y) && Adjusted(n, x) == Adjusted(n, y) ==> x == y)
  }

  lemma InGroupQuotient(n: u32, q: nat, x: u32)
    requires n > 0 && InGroup(n, q, x)
    ensures Div(x, n) == q
  {
    assert (q + 1) * n == q * n + n;
    QuotientIs(x, n, q);
  }

  lemma AdjustedIs(n: u32, q: nat, x: u32)
    requires n > 0 && q * n + n <= WRAP && InGroup(n, q, x)
    ensures Adjusted(n, x) == q * n + Rest(x) % n && InGroup(n, q, Adjusted(n, x))
  {
    InGroupQuotient(n, q, x);
    QuotientIs(q * n + Rest(x) % n, WRAP, 0);
  }

  lemma RestIs(x: nat)
    ensures x * PRIME == Block(x) * WRAP + Rest(x) && 0 <= Rest(x) < WRAP
  {
    Quotient(x * PRIME, WRAP);
  }

  lemma BlocksRise(x: nat, y: nat)
    requires x <= y
    ensures Block(x) <= Block(y)
  {
    RestIs(y);
    QuotientAtLeast(y * PRIME, WRAP, Block(x));
    RestIs(x);
  }

  /** Every event number of the group is hit: an injection of a finite set into itself is onto. */
  lemma PermutationIsOnto(n: u32, q: nat, group: set<u32>)
    requires n > 0 && q * n + n <= WRAP && Permutes(n, q)
    requires forall x: u32 :: x in group <==> InGroup(n, q, x)
    ensures (set x | x in group :: Adjusted(n, x)) == group
  {
    var image := set x | x in group :: Adjusted(n, x);
    ImageSize(n, group);
    SubsetEqual(image, group);
  }

  lemma {:induction false} ImageSize(n: u32, s: set<u32>)
    requires n > 0
    requires forall x, y :: x in s && y in s && Adjusted(n, x) == Adjusted(n, y) ==> x == y
    ensures |set x | x in s :: Adjusted(n, x)| == |s|
  {
    if s != {} {
      var a :| a in s;
      ImageSize(n, s - {a});
      assert (set x | x in s :: Adjusted(n, x)) == (set x | x in s - {a} :: Adjusted(n, x)) + {Adjusted(n, a)};
    }
  }

  lemma SubsetEqual(a: set<u32>, b: set<u32>)
    requires a <= b && |a| == |b|
    ensures a == b
  {
    var rest := b - a;
    assert b == a + rest;
    assert |rest| == 0;
  }

  lemma Collide(n: u32, q: nat, x: u32, y: u32, k: int)
    requires n > 0 && q * n + n <= WRAP && InGroup(n, q, x) && InGroup(n, q, y) && x != y
    requires Rest(x) - Rest(y) == k * n
    ensures !Permutes(n, q)
  {
    AdjustedIs(n, q, x);
    AdjustedIs(n, q, y);
    MultipleApart(Rest(x), Rest(y), n, k);
    assert Adjusted(n, x) == Adjusted(n, y);
  }

  /** Two numbers a multiple apart, as the prime sees it, collide when they are in one block. */
  lemma MultipleCollides(n: u32, q: nat, x: u32, m: nat)
    requires n > 0 && q * n + n <= WRAP && InGroup(n, q, x) && InGroup(n, q, x + m) && m > 0
    requires n == PRIME * m && Block(x) == Block(x + m)
    ensures !Permutes(n, q)
  {
    RestIs(x);
    RestIs(x + m);
    Collide(n, q, x + m, x, 1);
  }

  /** A group size that is a multiple of the prime never permutes: one wrap-around cannot separate all such pairs. */
  lemma PrimeMultipleCollides(n: u32, q: nat)
    requires n > 0 && q * n + n <= WRAP && n % PRIME == 0
    requires OneBlock(n, q) || n * PRIME <= WRAP
    ensures !Permutes(n, q)
  {
    Quotient(n, PRIME);
    var m := Div(n, PRIME);
    assert n == PRIME * m && m > 0;
    var first := q * n;
    if Block(first) == Block(first + m) {
      MultipleCollides(n, q, first, m);
    } else {
      BlocksRise(first, first + m);
      BlocksRise(first + m, first + 2 * m);
      BlocksRise(first + 2 * m, first + n - 1);
      OneWrapAtMost(n, q);
      MultipleCollides(n, q, first + m, m);
    }
  }

  lemma OneWrapAtMost(n: u32, q: nat)
    requires n > 0 && n * PRIME <= WRAP
    ensures Block(q * n) <= Block(q * n + n - 1) <= Block(q * n) + 1
  {
    var first, last := q * n, q * n + n - 1;
    BlocksRise(first, last);
    RestIs(first);
    RestIs(last);
    QuotientAtLeast(last * PRIME, WRAP, Block(first) + 2);
  }

  /** The place in the group from which on the products have wrapped around once more. */
  function WrapPoint(n: u32, q: nat): nat {
    RestIs(q * n);
    CeilDiv((Block(q * n) + 1) * WRAP - q * n * PRIME, PRIME)
  }

  lemma BlockAt(n: u32, q: nat, i: nat)
    requires n * PRIME <= WRAP && i < n
    ensures Block(q * n + i) == Block(q * n) + if i < WrapPoint(n, q) then 0 else 1
  {
    var first := q * n;
    OneWrapAtMost(n, q);
    RestIs(first);
    CeilDivAtMost((Block(first) + 1) * WRAP - first * PRIME, PRIME, i);
    QuotientAtLeast((first + i) * PRIME, WRAP, Block(first) + 1);
    BlocksRise(first, first + i);
    BlocksRise(first + i, first + n - 1);
  }

  /** Two numbers `d` apart on different sides of the wrap-around. */
  lemma AcrossTheWrap(n: u32, q: nat, d: nat) returns (i: nat, j: nat)
    requires n > 0 && n * PRIME <= WRAP && !OneBlock(n, q) && 0 < d < n
    ensures i < n && i == j + d && Block(q * n + i) == Block(q * n + j) + 1
  {
    var t := WrapPoint(n, q);
    BlockAt(n, q, 0);
    BlockAt(n, q, n - 1);
    if d <= t { i, j := t, t - d; } else { i, j := d, 0; }
    BlockAt(n, q, i);
    BlockAt(n, q, j);
  }

  /** A group that straddles a wrap-around is rotated in one part only, so that two numbers collide. */
  lemma StraddlingCollides(n: u32, q: nat)
    requires n > 0 && q * n + n <= WRAP && n * PRIME <= WRAP
    requires n % PRIME != 0 && WRAP % n != 0 && !OneBlock(n, q)
    ensures !Permutes(n, q)
  {
    var u, c := Euclid(WRAP, n);
    if c == 0 { ModShift(0, n, u); }
    var d, k := Preimage(n, c);
    var i, j := AcrossTheWrap(n, q, d);
    RestIs(q * n + i);
    RestIs(q * n + j);
    assert (k - u) * n == k * n - n * u;
    Collide(n, q, q * n + i, q * n + j, k - u);
  }

  /** In one block, or when the size divides 2^32, equal remainders mean a multiple of the size apart. */
  lemma BlockKeepsRemainders(n: u32, q: nat, x: u32, y: u32) returns (k: int)
    requires n > 0 && InGroup(n, q, x) && InGroup(n, q, y) && Rest(x) % n == Rest(y) % n
    requires WRAP % n == 0 || OneBlock(n, q)
    ensures PRIME * (x - y) == n * k
  {
    RestIs(x);
    RestIs(y);
    if WRAP % n == 0 {
      Quotient(WRAP, n);
      ModMod(x * PRIME, WRAP, n, Div(WRAP, n));
      ModMod(y * PRIME, WRAP, n, Div(WRAP, n));
      SameRemainder(x * PRIME, y * PRIME, n);
      k := (x * PRIME) / n - (y * PRIME) / n;
    } else {
      BlocksRise(q * n, x); BlocksRise(x, q * n + n - 1);
      BlocksRise(q * n, y); BlocksRise(y, q * n + n - 1);
      SameRemainder(Rest(x), Rest(y), n);
      k := Rest(x) / n - Rest(y) / n;
    }
  }

  /** Groups of any size: without a wrap-around inside, or with a size that divides 2^32. */
  lemma HarmlessGroupsPermute(n: u32, q: nat)
    requires n > 0 && q * n + n <= WRAP && n % PRIME != 0 && (WRAP % n == 0 || OneBlock(n, q))
    ensures Permutes(n, q)
  {
    forall x: u32 | InGroup(n, q, x) ensures InGroup(n, q, Adjusted(n, x)) {
      AdjustedIs(n, q, x);
    }
    forall x: u32, y: u32 | InGroup(n, q, x) && InGroup(n, q, y) && Adjusted(n, x) == Adjusted(n, y)
      ensures x == y
    {
      AdjustedIs(n, q, x);
      AdjustedIs(n, q, y);
      var k := BlockKeepsRemainders(n, q, x, y);
      PrimeIsInjective(x - y, n, k);
    }
  }

  /**
   The shuffle permutes a group if and only if the group size is no multiple of the prime
   and the products either do not wrap around inside the group or wrap around harmlessly,
   at a multiple of the group size.
   */
  lemma ShufflePermutesIff(n: u32, q: nat)
    requires n > 0 && q * n + n <= WRAP && n * PRIME <= WRAP
    ensures Permutes(n, q) <==>
      n % PRIME != 0 && (WRAP % n == 0 || (q * n * PRIME) / WRAP == ((q * n + n - 1) * PRIME) / WRAP)
  {
    if n % PRIME == 0 {
      PrimeMultipleCollides(n, q);
    } else if WRAP % n == 0 || OneBlock(n, q) {
      HarmlessGroupsPermute(n, q);
    } else {
      StraddlingCollides(n, q);
    }
  }

  /** With wrap-around and a size that does not divide 2^32, numbers can collide. */
  lemma WrapAroundCollides()
    ensures Adjusted(3, 4506786) == Adjusted(3, 4506788) == 4506786 && !Permutes(3, 1502262)
  {
    assert InGroup(3, 1502262, 4506786) && InGroup(3, 1502262, 4506788);
  }

  // ----- ids -----

  /** How many events of each kind there are in a round. */
  datatype Proportions = Proportions(persons: u32, auctions: u32, bids: u32) {
    function Denominator(): nat { persons + auctions + bids }
  }

  datatype Kind = Person | Auction | Bid

  /** What `create` makes of an adjusted event number. */
  function KindOf(p: Proportions, x: nat): Kind
    requires p.Denominator() > 0
  {
    var rem := x % p.Denominator();
    if rem < p.persons then Person else if rem < p.persons + p.auctions then Auction else Bid
  }

  /** `None` stands for a division by zero or an unsigned subtraction below zero. */
  function LastPerson(p: Proportions, id: nat): Option<nat> {
    var d := p.Denominator();
    if d == 0 then None
    else
      var epoch, offset := Div(id, d), id % d;
      if p.persons <= offset then
        if p.persons == 0 then None else Some(epoch * p.persons + (p.persons - 1))
      else Some(epoch * p.persons + offset)
  }

  function LastAuction(p: Proportions, id: nat): Option<nat> {
    var d := p.Denominator();
    if d == 0 then None
    else
      var epoch, offset := Div(id, d), id % d;
      if offset < p.persons then
        if epoch == 0 || p.auctions == 0 then None else Some((epoch - 1) * p.auctions + (p.auctions - 1))
      else if p.persons + p.auctions <= offset then
        if p.auctions == 0 then None else Some(epoch * p.auctions + (p.auctions - 1))
      else Some(epoch * p.auctions + (offset - p.persons))
  }

  /** The number of events of a kind among those numbered below `m`. */
  function CountBelow(p: Proportions, kind: Kind, m: nat): nat
    requires p.Denominator() > 0
  {
    if m == 0 then 0 else CountBelow(p, kind, m - 1) + if KindOf(p, m - 1) == kind then 1 else 0
  }

  function Clamp(x: int, hi: nat): nat {
    if x < 0 then 0 else if x > hi then hi else x
  }

  lemma NextQuotient(m: nat, d: nat)
    requires d > 0
    ensures m % d == d - 1 ==> Div(m + 1, d) == Div(m, d) + 1 && (m + 1) % d == 0
    ensures m % d < d - 1 ==> Div(m + 1, d) == Div(m, d) && (m + 1) % d == m % d + 1
  {
    Quotient(m, d);
    var q := Div(m, d);
    assert m == q * d + m % d;
    assert (q + 1) * d == q * d + d && (q + 2) * d == q * d + 2 * d;
    if m % d == d - 1 { QuotientIs(m + 1, d, q + 1); } else { QuotientIs(m + 1, d, q); }
  }

  /** Of `q` whole rounds and `r` events of the next, those at places lo..lo + size of their round. */
  function Places(q: nat, r: nat, lo: nat, size: nat): nat {
    q * size + Clamp(r - lo, size)
  }

  lemma NextPlace(q: nat, r: nat, d: nat, lo: nat, size: nat)
    requires lo + size <= d && r < d
    ensures Places(q, r, lo, size) + (if lo <= r < lo + size then 1 else 0) ==
      if r == d - 1 then Places(q + 1, 0, lo, size) else Places(q, r + 1, lo, size)
  {
    assert (q + 1) * size == q * size + size;
  }

  lemma {:induction false} CountIsClosed(p: Proportions, m: nat)
    requires p.Denominator() > 0
    ensures var q, r := Div(m, p.Denominator()), m % p.Denominator();
      CountBelow(p, Person, m) == Places(q, r, 0, p.persons) && CountBelow(p, Auction, m) == Places(q, r, p.persons, p.auctions)
  {
    var d := p.Denominator();
    if m == 0 {
      QuotientIs(0, d, 0);
    } else {
      CountIsClosed(p, m - 1);
      NextQuotient(m - 1, d);
      var q, r := Div(m - 1, d), (m - 1) % d;
      NextPlace(q, r, d, 0, p.persons);
      NextPlace(q, r, d, p.persons, p.auctions);
    }
  }

  lemma {:induction false} CountIsBounded(p: Proportions, kind: Kind, m: nat)
    requires p.Denominator() > 0
    ensures CountBelow(p, kind, m) <= m
  {
    if m > 0 { CountIsBounded(p, kind, m - 1); }
  }

  /** One more than the last person's id is the number of persons so far, unless there are none at all. */
  lemma LastPersonCounts(p: Proportions, id: nat)
    requires p.Denominator() > 0
    ensures LastPerson(p, id).Some? <==> p.persons > 0
    ensures LastPerson(p, id).Some? ==>
      LastPerson(p, id).value + 1 == CountBelow(p, Person, id + 1) && LastPerson(p, id).value <= id
  {
    var d := p.Denominator();
    CountIsClosed(p, id);
    NextPlace(Div(id, d), id % d, d, 0, p.persons);
    CountIsBounded(p, Person, id + 1);
  }

  /** Likewise for auctions; the formula underflows exactly when there is no auction so far. */
  lemma LastAuctionCounts(p: Proportions, id: nat)
    requires p.Denominator() > 0
    ensures LastAuction(p, id) == None <==> p.auctions == 0 || id < p.persons
    ensures LastAuction(p, id).Some? ==>
      LastAuction(p, id).value + 1 == CountBelow(p, Auction, id + 1) && LastAuction(p, id).value <= id
  {
    AuctionUnderflow(p, id);
    if LastAuction(p, id).Some? {
      LastAuctionIs(p, id);
      CountIsClosed(p, id);
      CountIsBounded(p, Auction, id + 1);
    }
  }

  lemma AuctionUnderflow(p: Proportions, id: nat)
    requires p.Denominator() > 0
    ensures LastAuction(p, id) == None <==> p.auctions == 0 || id < p.persons
  {
    FirstRound(id, p.Denominator());
  }

  lemma FirstRound(id: nat, d: nat)
    requires d > 0
    ensures Div(id, d) == 0 ==> id == id % d
    ensures Div(id, d) > 0 ==> id >= d
  {
    Quotient(id, d);
    if Div(id, d) > 0 { MulOrder(1, Div(id, d), d); }
  }

  lemma LastAuctionIs(p: Proportions, id: nat)
    requires p.Denominator() > 0 && LastAuction(p, id).Some?
    ensures LastAuction(p, id).value + 1 ==
      Places(Div(id, p.Denominator()), id % p.Denominator(), p.persons, p.auctions) + if KindOf(p, id) == Auction then 1 else 0
  {
    var q := Div(id, p.Denominator());
    assert (q - 1) * p.auctions == q * p.auctions - p.auctions;
  }

  /** Whatever the first event id, no auction or bid that `create` makes underflows, provided there are auctions. */
  lemma CreateNeverUnderflows(p: Proportions, first: u32, adjusted: u32)
    requires p.Denominator() > 0 && KindOf(p, adjusted) != Person
    ensures LastAuction(p, first + adjusted).Some? <==> p.auctions > 0
  {
    LastAuctionCounts(p, first + adjusted);
    if adjusted < p.persons { QuotientIs(adjusted, p.Denominator(), 0); }
  }

  lemma PlacesAreUnique(p: Proportions, x: nat, y: nat)
    requires p.Denominator() > 0 && KindOf(p, x) == Auction && KindOf(p, y) == Auction
    requires LastAuction(p, x) == LastAuction(p, y)
    ensures x == y
  {
    LastAuctionCounts(p, x);
    LastAuctionCounts(p, y);
    NotBeforePersons(p, x);
    NotBeforePersons(p, y);
    if x < y { CountGrows(p, x + 1, y); }
    if y < x { CountGrows(p, y + 1, x); }
  }

  lemma NotBeforePersons(p: Proportions, x: nat)
    requires p.Denominator() > 0 && KindOf(p, x) == Auction
    ensures p.auctions > 0 && x >= p.persons
  {
    if x < p.persons { QuotientIs(x, p.Denominator(), 0); }
  }

  lemma {:induction false} CountGrows(p: Proportions, a: nat, b: nat)
    requires p.Denominator() > 0 && a <= b
    ensures CountBelow(p, Auction, a) <= CountBelow(p, Auction, b)
  {
    if a < b { CountGrows(p, a, b - 1); }
  }

  /** The auction that has a given number of auctions before it. */
  lemma AuctionAt(p: Proportions, k: nat) returns (x: nat)
    requires p.auctions > 0
    ensures KindOf(p, x) == Auction && LastAuction(p, x) == Some(k)
  {
    var d := p.Denominator();
    Quotient(k, p.auctions);
    var q, r := Div(k, p.auctions), k % p.auctions;
    assert k == q * p.auctions + r;
    x := q * d + (p.persons + r);
    assert (q + 1) * d == q * d + d;
    QuotientIs(x, d, q);
  }

  // ----- ids with a first event id -----

  /** The event made of adjusted number `x` has event id first + x; its kind goes by `x` alone. */
  predicate SameId(p: Proportions, first: nat, x: nat, y: nat)
    requires p.Denominator() > 0
  {
    && KindOf(p, x) == Auction && KindOf(p, y) == Auction
    && LastAuction(p, first + x) == LastAuction(p, first + y)
  }

  ghost predicate IdsAreUnique(p: Proportions, first: nat)
    requires p.Denominator() > 0
  {
    forall x: nat, y: nat :: SameId(p, first, x, y) ==> x == y
  }

  lemma SameKind(p: Proportions, x: nat, rounds: nat)
    requires p.Denominator() > 0
    ensures KindOf(p, x + rounds * p.Denominator()) == KindOf(p, x)
  {
    ModShift(x, p.Denominator(), rounds);
  }

  lemma IsMultiple(first: nat, d: nat) returns (rounds: nat)
    requires d > 0 && first % d == 0
    ensures first == rounds * d
  {
    Quotient(first, d);
    rounds := Div(first, d);
  }

  lemma RoundsLater(m: nat, rounds: nat, d: nat)
    requires d > 0
    ensures Div(m + rounds * d, d) == Div(m, d) + rounds && (m + rounds * d) % d == m % d
  {
    Quotient(m, d);
    var q := Div(m, d);
    assert m == q * d + m % d;
    assert (q + rounds) * d == q * d + rounds * d && (q + rounds + 1) * d == (q + rounds) * d + d;
    QuotientIs(m + rounds * d, d, q + rounds);
  }

  lemma PlacesLater(q: nat, rounds: nat, r: nat, lo: nat, size: nat)
    ensures Places(q + rounds, r, lo, size) == Places(q, r, lo, size) + rounds * size
  {
    assert (q + rounds) * size == q * size + rounds * size;
  }

  /** Whole rounds later there are that many rounds of auctions more. */
  lemma CountShift(p: Proportions, m: nat, rounds: nat, later: nat)
    requires p.Denominator() > 0 && later == m + rounds * p.Denominator()
    ensures CountBelow(p, Auction, later) == CountBelow(p, Auction, m) + rounds * p.auctions
  {
    var d := p.Denominator();
    RoundsLater(m, rounds, d);
    PlacesLater(Div(m, d), rounds, m % d, p.persons, p.auctions);
    CountIsClosed(p, m);
    CountIsClosed(p, later);
  }

  lemma LaterId(p: Proportions, first: nat, x: nat)
    requires p.Denominator() > 0 && KindOf(p, x) == Auction
    ensures LastAuction(p, first + x).Some? && LastAuction(p, first + x).value + 1 == CountBelow(p, Auction, first + x + 1)
  {
    NotBeforePersons(p, x);
    LastAuctionCounts(p, first + x);
  }

  lemma WholeRoundsAreUnique(p: Proportions, first: nat)
    requires p.Denominator() > 0 && first % p.Denominator() == 0
    ensures IdsAreUnique(p, first)
  {
    var rounds := IsMultiple(first, p.Denominator());
    forall x: nat, y: nat | SameId(p, first, x, y) ensures x == y {
      SameKind(p, x, rounds);
      SameKind(p, y, rounds);
      PlacesAreUnique(p, first + x, first + y);
    }
  }

  /** One short of whole rounds, every auction's id is one less than it would be. */
  lemma OneShort(p: Proportions, first: nat, x: nat)
    requires p.Denominator() > 0 && (first + 1) % p.Denominator() == 0 && KindOf(p, x) == Auction
    ensures LastAuction(p, first + x).Some? && LastAuction(p, first + 1 + x) == Some(LastAuction(p, first + x).value + 1)
  {
    var rounds := IsMultiple(first + 1, p.Denominator());
    SameKind(p, x, rounds);
    LaterId(p, first, x);
    LaterId(p, first + 1, x);
  }

  lemma OneShortIsUnique(p: Proportions, first: nat)
    requires p.Denominator() > 0 && (first + 1) % p.Denominator() == 0
    ensures IdsAreUnique(p, first)
  {
    WholeRoundsAreUnique(p, first + 1);
    forall x: nat, y: nat | SameId(p, first, x, y) ensures x == y {
      OneShort(p, first, x);
      OneShort(p, first, y);
      assert SameId(p, first + 1, x, y);
    }
  }

  lemma OnlyAuctionsAreUnique(p: Proportions, first: nat)
    requires p.auctions == p.Denominator() > 0
    ensures IdsAreUnique(p, first)
  {
    forall x: nat, y: nat | SameId(p, first, x, y) ensures x == y {
      PlacesAreUnique(p, first + x, first + y);
    }
  }

  /** With one auction in a round, two auctions are whole rounds apart. */
  lemma SingleAuctionsAreUnique(p: Proportions, first: nat)
    requires p.auctions == 1
    ensures IdsAreUnique(p, first)
  {
    forall x: nat, y: nat | SameId(p, first, x, y) ensures x == y {
      if x <= y { SingleAuctionsApart(p, first, x, y); } else { SingleAuctionsApart(p, first, y, x); }
    }
  }

  lemma RoundsApart(x: nat, y: nat, d: nat) returns (rounds: nat)
    requires d > 0 && x % d == y % d && x <= y
    ensures y == x + rounds * d
  {
    SameRemainder(y, x, d);
    var k := y / d - x / d;
    if k < 0 { MulOrder(k, -1, d); }
    rounds := k;
  }

  lemma SingleAuctionsApart(p: Proportions, first: nat, x: nat, y: nat)
    requires p.auctions == 1 && SameId(p, first, x, y) && x <= y
    ensures x == y
  {
    var rounds := RoundsApart(x, y, p.Denominator());
    CountShift(p, first + x + 1, rounds, first + y + 1);
    LaterId(p, first, x);
    LaterId(p, first, y);
  }

  lemma NoAuctionAt(p: Proportions, first: nat, y: nat)
    requires p.Denominator() > 0 && p.persons <= y < p.Denominator()
    requires p.auctions <= first % p.Denominator() + y - p.persons < p.Denominator()
    ensures KindOf(p, first + y) != Auction
  {
    var d := p.Denominator();
    Quotient(first, d);
    var q, s := Div(first, d), first % d;
    assert first + y == q * d + (s + y) && (q + 1) * d == q * d + d && (q + 2) * d == q * d + 2 * d;
    if s + y < d { QuotientIs(first + y, d, q); } else { QuotientIs(first + y, d, q + 1); }
  }

  /** Otherwise two neighbouring auctions share an id: the second one's event id is not at an auction's place. */
  lemma NeighboursCollide(p: Proportions, first: nat)
    requires 2 <= p.auctions < p.Denominator() && 0 < first % p.Denominator() < p.Denominator() - 1
    ensures !IdsAreUnique(p, first)
  {
    var d := p.Denominator();
    var s := first % d;
    var x := if s >= p.auctions - 1 then p.persons else p.persons + p.auctions - s - 1;
    QuotientIs(x, d, 0);
    QuotientIs(x + 1, d, 0);
    NoAuctionAt(p, first, x + 1);
    LaterId(p, first, x);
    LaterId(p, first, x + 1);
    assert SameId(p, first, x, x + 1);
  }

  /**
   Auction ids are unique if and only if there is at most one auction in a round, or nothing
   else, or the first event id is at the start or at the end of a round.
   */
  lemma AuctionIdsAreUniqueIff(p: Proportions, first: nat)
    requires p.Denominator() > 0
    ensures IdsAreUnique(p, first) <==>
      p.auctions <= 1 || p.auctions == p.Denominator()
      || first % p.Denominator() == 0 || first % p.Denominator() == p.Denominator() - 1
  {
    var d := p.Denominator();
    if p.auctions == 1 {
      SingleAuctionsAreUnique(p, first);
    } else if p.auctions == d {
      OnlyAuctionsAreUnique(p, first);
    } else if first % d == 0 {
      WholeRoundsAreUnique(p, first);
    } else if first % d == d - 1 {
      NextQuotient(first, d);
      OneShortIsUnique(p, first);
    } else if p.auctions >= 2 {
      NeighboursCollide(p, first);
    }
  }

  /** Auction ids are dense: from the start of a round on, every number is the id of some auction. */
  lemma AuctionIdsAreDense(p: Proportions, first: nat, k: nat) returns (x: nat)
    requires p.auctions > 0 && first % p.Denominator() == 0 && k >= CountBelow(p, Auction, first)
    ensures KindOf(p, x) == Auction && LastAuction(p, first + x) == Some(k)
  {
    var z := AuctionAt(p, k);
    LaterId(p, 0, z);
    if z < first { CountGrows(p, z + 1, first); }
    x := z - first;
    var rounds := IsMultiple(first, p.Denominator());
    SameKind(p, x, rounds);
  }
}
