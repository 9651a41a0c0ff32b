/** Names of checkpoint directories, which hold the id of a backend and an epoch. */
module CheckpointNames {
  import opened Streams

  const PREFIX: string := "checkpoint_"

  // ----- decimal numbers -----

  predicate IsDigit(c: char) { '0' <= c <= '9' }

  function DigitOf(c: char): nat
    requires IsDigit(c)
  {
    c as int - '0' as int
  }

  function DigitChar(d: nat): (c: char)
    requires d < 10
    ensures IsDigit(c) && DigitOf(c) == d
  {
    (d + '0' as int) as char
  }

  function Decimal(n: nat): (s: string)
    ensures s != "" && forall i :: 0 <= i < |s| ==> IsDigit(s[i])
  {
    if n < 10 then [DigitChar(n)] else Decimal(n / 10) + [DigitChar(n % 10)]
  }

  function Shift(v: u64, c: char): Option<u64> {
    if !IsDigit(c) then None
    else if 10 * v + DigitOf(c) > U64_MAX then None
    else Some(10 * v + DigitOf(c))
  }

  function ParseDigits(acc: u64, s: string): Option<u64>
    decreases |s|
  {
    if s == "" then Some(acc)
    else match Shift(acc, s[0]) case None => None case Some(v) => ParseDigits(v, s[1..])
  }

  /** Parsing an unsigned number: digits, perhaps with a plus sign, that do not overflow. */
  function ParseU64(s: string): Option<u64> {
    if s == "" || s == "+" then None
    else if s[0] == '+' then ParseDigits(0, s[1..])
    else ParseDigits(0, s)
  }

  lemma {:induction false} ParseSnoc(acc: u64, s: string, c: char)
    ensures ParseDigits(acc, s + [c]) == match ParseDigits(acc, s) case None => None case Some(v) => Shift(v, c)
    decreases |s|
  {
    if s == "" {
      assert (s + [c])[1..] == "";
    } else {
      assert (s + [c])[1..] == s[1..] + [c];
      match Shift(acc, s[0])
      case None =>
      case Some(v) => ParseSnoc(v, s[1..], c);
    }
  }

  predicate AllDigits(s: string) {
    forall i :: 0 <= i < |s| ==> '0' <= s[i] <= '9'
  }

  /** The number that decimal digits stand for. */
  function ValueOf(s: string): nat
    requires AllDigits(s)
  {
    if s == "" then 0 else 10 * ValueOf(s[..|s| - 1]) + (s[|s| - 1] as int - '0' as int)
  }

  lemma {:induction false} ParseDigitsIff(s: string)
    ensures ParseDigits(0, s) == if AllDigits(s) && ValueOf(s) <= U64_MAX then Some(ValueOf(s)) else None
  {
    if s != "" {
      var n := |s| - 1;
      ParseDigitsIff(s[..n]);
      ParseSnoc(0, s[..n], s[n]);
      assert s == s[..n] + [s[n]];
    }
  }

  /** What parses: at least one digit, after a plus sign or not, and a value of at most 64 bits. */
  lemma ParseU64Iff(s: string)
    ensures var digits := if s != "" && s[0] == '+' then s[1..] else s;
      ParseU64(s) == if digits != "" && AllDigits(digits) && ValueOf(digits) <= U64_MAX then Some(ValueOf(digits)) else None
  {
    ParseDigitsIff(if s != "" && s[0] == '+' then s[1..] else s);
  }

  lemma {:induction false} DigitsRoundTrip(n: nat)
    requires n <= U64_MAX
    ensures ParseDigits(0, Decimal(n)) == Some(n)
  {
    if n < 10 {
      var s := Decimal(n);
      assert s[1..] == "";
    } else {
      DigitsRoundTrip(n / 10);
      ParseSnoc(0, Decimal(n / 10), DigitChar(n % 10));
    }
  }

  lemma ParseDecimal(n: nat)
    requires n <= U64_MAX
    ensures ParseU64(Decimal(n)) == Some(n)
  {
    DigitsRoundTrip(n);
    assert IsDigit(Decimal(n)[0]);
  }

  /** Without a sign and without leading zeros. */
  predicate Canonical(s: string) {
    s != "" && s[0] != '+' && (s[0] == '0' ==> |s| == 1)
  }

  lemma {:induction false} DecimalIsCanonical(n: nat)
    ensures Canonical(Decimal(n)) && (n > 0 ==> Decimal(n)[0] != '0')
  {
    if n >= 10 {
      DecimalIsCanonical(n / 10);
    } else if n > 0 {
      assert DigitOf(DigitChar(n)) != DigitOf('0');
    }
  }

  lemma {:induction false} CanonicalDigits(s: string, n: u64)
    requires Canonical(s) && ParseDigits(0, s) == Some(n)
    ensures s == Decimal(n) && (s[0] != '0' ==> n > 0)
    decreases |s|
  {
    var last := |s| - 1;
    var front, c := s[..last], s[last];
    assert s == front + [c];
    ParseSnoc(0, front, c);
    var v := ParseDigits(0, front).value;
    if front == "" {
      assert n == DigitOf(c) && DigitChar(n) == c;
    } else {
      CanonicalDigits(front, v);
      assert front[0] == s[0] && v > 0;
      assert n / 10 == v && n % 10 == DigitOf(c);
      assert DigitChar(n % 10) == c;
    }
  }

  /** A number that parses is written the way it would be printed if and only if it is canonical. */
  lemma PrintedIffCanonical(s: string, n: u64)
    requires ParseU64(s) == Some(n)
    ensures s == Decimal(n) <==> Canonical(s)
  {
    DecimalIsCanonical(n);
    if Canonical(s) { CanonicalDigits(s, n); }
  }

  // ----- names -----

  function Split(s: string): (parts: seq<string>)
    ensures parts != []
  {
    if s == "" then [""]
    else if s[0] == '_' then [""] + Split(s[1..])
    else
      var rest := Split(s[1..]);
      [[s[0]] + rest[0]] + rest[1..]
  }

  lemma {:induction false} SplitAt(a: string, b: string)
    requires '_' !in a
    ensures Split(a + "_" + b) == [a] + Split(b)
  {
    if a == "" {
      assert a + "_" + b == "_" + b && ("_" + b)[1..] == b;
    } else {
      assert (a + "_" + b)[1..] == a[1..] + "_" + b;
      SplitAt(a[1..], b);
      assert [a[0]] + a[1..] == a;
    }
  }

  lemma {:induction false} SplitWhole(a: string)
    requires '_' !in a
    ensures Split(a) == [a]
  {
    if a != "" {
      SplitWhole(a[1..]);
      assert [a[0]] + a[1..] == a;
    }
  }

  /** The directory `save_state` writes and `restore_or_create` looks for. */
  function Name(id: string, epoch: u64): string {
    PREFIX + id + "_" + Decimal(epoch)
  }

  /** Reads an id and an epoch from a name; a part too few or too many is an error. */
  function ParseName(name: string): Option<(string, u64)> {
    if |name| < |PREFIX| || name[..|PREFIX|] != PREFIX then None
    else
      var parts := Split(name[|PREFIX|..]);
      if |parts| != 2 then None
      else match ParseU64(parts[1]) case None => None case Some(epoch) => Some((parts[0], epoch))
  }

  /** The parts of a string, with the underscores put back between them. */
  function Joined(parts: seq<string>): string {
    if parts == [] then "" else if |parts| == 1 then parts[0] else parts[0] + "_" + Joined(parts[1..])
  }

  lemma {:induction false} SplitJoins(s: string)
    ensures Joined(Split(s)) == s && forall i :: 0 <= i < |Split(s)| ==> '_' !in Split(s)[i]
  {
    if s != "" {
      var rest := Split(s[1..]);
      SplitJoins(s[1..]);
      assert s == [s[0]] + s[1..];
      if s[0] == '_' {
        assert ([""] + rest)[1..] == rest;
        assert "" + "_" + Joined(rest) == "_" + s[1..];
      } else {
        var parts := [[s[0]] + rest[0]] + rest[1..];
        assert parts[1..] == rest[1..];
        if |rest| > 1 {
          assert [s[0]] + rest[0] + "_" + Joined(rest[1..]) == [s[0]] + (rest[0] + "_" + Joined(rest[1..]));
        }
      }
    }
  }

  /** The name is the prefix, an id without underscore, an underscore, and what parses as the epoch. */
  ghost predicate Spells(name: string, id: string, epoch: u64, digits: string) {
    name == "checkpoint_" + id + "_" + digits && '_' !in id && '_' !in digits && ParseU64(digits) == Some(epoch)
  }

  lemma BehindPrefix(name: string, rest: string)
    ensures name == PREFIX + rest <==> |name| >= |PREFIX| && name[..|PREFIX|] == PREFIX && name[|PREFIX|..] == rest
  {
    if |name| >= |PREFIX| { assert name == name[..|PREFIX|] + name[|PREFIX|..]; }
  }

  lemma Respell(id: string, digits: string)
    ensures "checkpoint_" + id + "_" + digits == PREFIX + (id + "_" + digits)
  {
  }

  lemma TwoPartsIff(rest: string, id: string, digits: string)
    ensures Split(rest) == [id, digits] <==> rest == id + "_" + digits && '_' !in id && '_' !in digits
  {
    SplitJoins(rest);
    if Split(rest) == [id, digits] {
      assert [id, digits][1..] == [digits];
      assert '_' !in Split(rest)[0] && '_' !in Split(rest)[1];
    }
    if rest == id + "_" + digits && '_' !in id && '_' !in digits {
      SplitAt(id, digits);
      SplitWhole(digits);
      assert [id] + [digits] == [id, digits];
    }
  }

  /** A name parses exactly when it is spelled that way. */
  lemma ParseNameIff(name: string, id: string, epoch: u64)
    ensures ParseName(name) == Some((id, epoch)) <==> exists digits :: Spells(name, id, epoch, digits)
  {
    if ParseName(name) == Some((id, epoch)) {
      var rest := name[|PREFIX|..];
      var digits := Split(rest)[1];
      assert Split(rest) == [id, digits];
      ParsesWhenSpelled(name, id, epoch, rest, digits);
    }
    if digits :| Spells(name, id, epoch, digits) {
      var rest := id + "_" + digits;
      ParsesWhenSpelled(name, id, epoch, rest, digits);
    }
  }

  lemma ParsesWhenSpelled(name: string, id: string, epoch: u64, rest: string, digits: string)
    ensures name == PREFIX + rest && Split(rest) == [id, digits] && ParseU64(digits) == Some(epoch) ==>
      ParseName(name) == Some((id, epoch)) && Spells(name, id, epoch, digits)
    ensures rest == id + "_" + digits && Spells(name, id, epoch, digits) ==>
      name == PREFIX + rest && Split(rest) == [id, digits]
    ensures |name| >= |PREFIX| && name[..|PREFIX|] == PREFIX && name[|PREFIX|..] == rest <==> name == PREFIX + rest
  {
    BehindPrefix(name, rest);
    Respell(id, digits);
    TwoPartsIff(rest, id, digits);
  }

  lemma {:induction false} FirstUnderscore(id: string) returns (a: string, b: string)
    requires '_' in id
    ensures id == a + "_" + b && '_' !in a
  {
    if id[0] == '_' {
      a, b := "", id[1..];
      assert id == "_" + b;
    } else {
      var c, d := FirstUnderscore(id[1..]);
      a, b := [id[0]] + c, d;
    }
  }

  lemma NameParts(id: string, epoch: u64)
    ensures Name(id, epoch)[|PREFIX|..] == id + "_" + Decimal(epoch) && Name(id, epoch)[..|PREFIX|] == PREFIX
  {
    assert Name(id, epoch) == PREFIX + (id + "_" + Decimal(epoch));
  }

  lemma NoUnderscoreInDecimal(n: nat)
    ensures '_' !in Decimal(n)
  {
  }

  /** A written name parses back to its id and epoch if and only if the id has no underscore. */
  lemma NameRoundTripIff(id: string, epoch: u64)
    ensures ParseName(Name(id, epoch)) == Some((id, epoch)) <==> '_' !in id
  {
    var digits := Decimal(epoch);
    NameParts(id, epoch);
    NoUnderscoreInDecimal(epoch);
    if '_' !in id {
      SplitAt(id, digits);
      SplitWhole(digits);
      ParseDecimal(epoch);
    } else {
      var a, b := FirstUnderscore(id);
      assert id + "_" + digits == a + "_" + (b + "_" + digits);
      SplitAt(a, b + "_" + digits);
      assert |a| < |id|;
    }
  }

  /** Node ids are numbers, so what `save_state` writes always parses back. */
  lemma SavedStateIsFound(node: NodeId, epoch: u64)
    ensures ParseName(Name(Decimal(node), epoch)) == Some((Decimal(node), epoch))
  {
    NoUnderscoreInDecimal(node);
    NameRoundTripIff(Decimal(node), epoch);
  }
}
