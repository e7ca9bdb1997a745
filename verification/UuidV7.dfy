/** The client's monotone UUIDv7 generator: 48 bits of time and 74 random bits
    around fixed version and variant bits (sections 5.7 and 6.2 of RFC 9562),
    kept as sixteen bytes and counted up in place. */
module UuidV7 {
  import opened Prelude
  import opened UuidText

  const MAX_TIMESTAMP: nat := 0xffff_ffff_ffff
  const TAIL_LIMIT: nat := 0x100_0000_0000_0000
  const RANDOM_LIMIT: nat := 0x40000 * TAIL_LIMIT

  // ----- The fields of the layout -----

  /** Version 7 in the high half of byte 6, variant 10 on top of byte 8. */
  predicate WellFormed(bs: seq<byte>) {
    IsUuid(bs) && bs[6] / 16 == 7 && bs[8] / 64 == 2
  }

  function TimeOf(bs: seq<byte>): nat
    requires IsUuid(bs)
  {
    Number(bs[..6])
  }

  /** The first eighteen random bits, around the variant. */
  function HeadOf(bs: seq<byte>): nat
    requires IsUuid(bs)
  {
    var six: nat, seven: nat, eight: nat := bs[6] % 16, bs[7], bs[8] % 64;
    (six * 256 + seven) * 64 + eight
  }

  /** The other fifty-six, bytes 9 to 15. */
  function TailOf(bs: seq<byte>): nat
    requires IsUuid(bs)
  {
    Number(bs[9..])
  }

  /** The 74 random bits as one number, skipping the fixed bits. */
  function RandomOf(bs: seq<byte>): nat
    requires IsUuid(bs)
  {
    HeadOf(bs) * TAIL_LIMIT + TailOf(bs)
  }

  /** The position of an identifier in the generator's sequence. */
  function Ordinal(bs: seq<byte>): nat
    requires IsUuid(bs)
  {
    TimeOf(bs) * RANDOM_LIMIT + RandomOf(bs)
  }

  lemma FieldBounds(bs: seq<byte>)
    requires IsUuid(bs)
    ensures TailOf(bs) < TAIL_LIMIT && HeadOf(bs) < 0x40000 && RandomOf(bs) < RANDOM_LIMIT
    ensures TimeOf(bs) <= MAX_TIMESTAMP
  {
    NumberBound(bs[9..]);
    NumberBound(bs[..6]);
    assert Power(7) == TAIL_LIMIT && Power(6) == MAX_TIMESTAMP + 1 by {
      assert Power(3) == 0x100_0000;
      assert Power(6) == 256 * (256 * (256 * Power(3)));
      assert Power(7) == 256 * Power(6);
    }
  }

  lemma {:induction false} NumberConcat(a: seq<byte>, b: seq<byte>)
    ensures Number(a + b) == Number(a) * Power(|b|) + Number(b)
  {
    if b == [] {
      assert a + b == a;
    } else {
      var front, last := b[..|b| - 1], b[|b| - 1];
      NumberConcat(a, front);
      assert (a + b)[..|a + b| - 1] == a + front;
      assert Number(a) * Power(|b|) == (Number(a) * Power(|front|)) * 256;
    }
  }

  /** The leading nine bytes, by their fields. */
  lemma UpperBytes(bs: seq<byte>)
    requires IsUuid(bs)
    ensures Number(bs) == Number(bs[..9]) * TAIL_LIMIT + TailOf(bs)
    ensures Number(bs[..9]) == TimeOf(bs) * 0x100_0000 + bs[6] as int * 0x1_0000 + bs[7] as int * 0x100 + bs[8] as int
  {
    assert bs == bs[..9] + bs[9..];
    NumberConcat(bs[..9], bs[9..]);
    assert Power(7) == TAIL_LIMIT by {
      assert Power(3) == 0x100_0000;
      assert Power(7) == 256 * (256 * (256 * (256 * Power(3))));
    }
    NumberOneMore(bs, 6);
    NumberOneMore(bs, 7);
    NumberOneMore(bs, 8);
  }

  lemma NumberOneMore(bs: seq<byte>, n: nat)
    requires n < |bs|
    ensures Number(bs[..n + 1]) == Number(bs[..n]) * 256 + bs[n]
  {
    assert bs[..n + 1][..n] == bs[..n];
  }

  // Two mixed-radix numbers compare like their digits, whatever the radices.
  lemma FieldOrder(t1: int, r1: int, s1: int, u1: int, t2: int, r2: int, s2: int, u2: int)
    requires 0 <= r1 < 16 && 0 <= s1 < 256 && 0 <= u1 < 64 && 0 <= r2 < 16 && 0 <= s2 < 256 && 0 <= u2 < 64
    ensures var dense1, dense2 := t1 * 0x40000 + (r1 * 256 + s1) * 64 + u1, t2 * 0x40000 + (r2 * 256 + s2) * 64 + u2;
      var wide1 := t1 * 0x100_0000 + r1 * 0x1_0000 + s1 * 0x100 + u1;
      var wide2 := t2 * 0x100_0000 + r2 * 0x1_0000 + s2 * 0x100 + u2;
      (dense1 < dense2 <==> wide1 < wide2) && (dense1 == dense2 <==> wide1 == wide2)
  {
    if t1 != t2 {
    } else if r1 != r2 {
    } else if s1 != s2 {
    }
  }

  lemma PairOfFields(h1: int, t1: int, h2: int, t2: int)
    requires 0 <= t1 < TAIL_LIMIT && 0 <= t2 < TAIL_LIMIT
    ensures h1 * TAIL_LIMIT + t1 < h2 * TAIL_LIMIT + t2 <==> h1 < h2 || (h1 == h2 && t1 < t2)
  {
  }

  /** Time and head: everything above the tail. */
  function UpperOf(bs: seq<byte>): nat
    requires IsUuid(bs)
  {
    TimeOf(bs) * 0x40000 + HeadOf(bs)
  }

  lemma OrdinalBySplit(bs: seq<byte>)
    requires IsUuid(bs)
    ensures Ordinal(bs) == UpperOf(bs) * TAIL_LIMIT + TailOf(bs)
  {
  }

  lemma UpperOrder(a: seq<byte>, b: seq<byte>)
    requires WellFormed(a) && WellFormed(b)
    ensures UpperOf(a) < UpperOf(b) <==> Number(a[..9]) < Number(b[..9])
    ensures UpperOf(a) == UpperOf(b) <==> Number(a[..9]) == Number(b[..9])
  {
    UpperBytes(a);
    UpperBytes(b);
    FieldOrder(TimeOf(a), a[6] % 16, a[7], a[8] % 64, TimeOf(b), b[6] % 16, b[7], b[8] % 64);
    assert a[6] as int == 112 + a[6] as int % 16 && a[8] as int == 128 + a[8] as int % 64;
    assert b[6] as int == 112 + b[6] as int % 16 && b[8] as int == 128 + b[8] as int % 64;
  }

  lemma NumberOrdinal(a: seq<byte>, b: seq<byte>)
    requires WellFormed(a) && WellFormed(b)
    ensures Ordinal(a) < Ordinal(b) <==> Number(a) < Number(b)
  {
    UpperBytes(a);
    UpperBytes(b);
    FieldBounds(a);
    FieldBounds(b);
    UpperOrder(a, b);
    OrdinalBySplit(a);
    OrdinalBySplit(b);
    PairOfFields(Number(a[..9]), TailOf(a), Number(b[..9]), TailOf(b));
    PairOfFields(UpperOf(a), TailOf(a), UpperOf(b), TailOf(b));
  }

  /** Among well-formed identifiers the sequence order is the order of the
      numbers, and so of the bytes and of the canonical strings. */
  lemma OrdinalOrder(a: seq<byte>, b: seq<byte>)
    requires WellFormed(a) && WellFormed(b)
    ensures Ordinal(a) < Ordinal(b) <==> Number(a) < Number(b)
    ensures Ordinal(a) < Ordinal(b) <==> TextBefore(Canonical(a), Canonical(b))
  {
    NumberOrdinal(a, b);
    OrdersAgree(a, b);
  }

  // ----- Counting up in place -----

  /** Adding one with carry: the digits behind the one that grows turn over. */
  lemma {:induction false} Carry(before: seq<byte>, after: seq<byte>, i: nat)
    requires i < |before| == |after| && before[..i] == after[..i] && after[i] as int == before[i] as int + 1
    requires forall k | i < k < |before| :: before[k] == 255 && after[k] == 0
    ensures Number(after) == Number(before) + 1
  {
    var n := |before| - 1;
    if i == n {
      assert before[..n] == after[..n];
    } else {
      assert before[..n][..i] == before[..i] && after[..n][..i] == after[..i];
      Carry(before[..n], after[..n], i);
    }
  }

  lemma {:induction false} TurnOver(before: seq<byte>, after: seq<byte>)
    requires |before| == |after| && forall k | 0 <= k < |before| :: before[k] == 255 && after[k] == 0
    ensures Number(before) == Power(|before|) - 1 && Number(after) == 0
  {
    if before != [] {
      TurnOver(before[..|before| - 1], after[..|after| - 1]);
    }
  }

  /** Every random bit is set. */
  predicate AllSet(bs: seq<byte>)
    requires IsUuid(bs)
  {
    RandomOf(bs) == RANDOM_LIMIT - 1
  }

  /** The bytes after a successful increment. */
  ghost predicate Next(before: seq<byte>, after: seq<byte>) {
    && WellFormed(before) && WellFormed(after) && after[..6] == before[..6]
    && RandomOf(after) == RandomOf(before) + 1
  }

  lemma TailCarries(before: seq<byte>, after: seq<byte>, i: nat)
    requires WellFormed(before) && IsUuid(after) && 9 <= i < 16 && after[..i] == before[..i]
    requires after[i] as int == before[i] as int + 1
    requires forall k | i < k < 16 :: before[k] == 255 && after[k] == 0
    ensures Next(before, after)
  {
    assert forall k | 0 <= k < 9 :: after[k] == after[..i][k] && before[k] == before[..i][k];
    var a, b := before[9..], after[9..];
    assert a[..i - 9] == before[..i][9..] && b[..i - 9] == after[..i][9..];
    Carry(a, b, i - 9);
    assert after[..6] == after[..i][..6] && before[..6] == before[..i][..6];
  }

  /** The tail turned over, and the head grew by one. */
  lemma HeadCarries(before: seq<byte>, after: seq<byte>)
    requires WellFormed(before) && WellFormed(after) && after[..6] == before[..6]
    requires HeadOf(after) == HeadOf(before) + 1
    requires forall k | 9 <= k < 16 :: before[k] == 255 && after[k] == 0
    ensures Next(before, after)
  {
    TailTurnsOver(before, after);
  }

  lemma TailTurnsOver(before: seq<byte>, after: seq<byte>)
    requires IsUuid(before) && IsUuid(after) && forall k | 9 <= k < 16 :: before[k] == 255 && after[k] == 0
    ensures TailOf(before) == TAIL_LIMIT - 1 && TailOf(after) == 0
  {
    TurnOver(before[9..], after[9..]);
    assert Power(7) == TAIL_LIMIT by {
      assert Power(3) == 0x100_0000;
      assert Power(7) == 256 * (256 * (256 * (256 * Power(3))));
    }
  }

  lemma NextIsNotLast(before: seq<byte>, after: seq<byte>)
    requires Next(before, after)
    ensures !AllSet(before)
  {
    FieldBounds(after);
  }

  method IncrementRandomBits(bytes: array<byte>) returns (ok: bool)
    requires WellFormed(bytes[..])
    modifies bytes
    ensures ok <==> !AllSet(old(bytes[..]))
    ensures ok ==> Next(old(bytes[..]), bytes[..])
  {
    ghost var before := bytes[..];
    var index := 15;
    while index >= 9
      invariant 8 <= index <= 15 && bytes[..index + 1] == before[..index + 1]
      invariant forall k | index < k < 16 :: before[k] == 255 && bytes[k] == 0
    {
      assert bytes[index] == bytes[..index + 1][index] && bytes[..index] == bytes[..index + 1][..index];
      assert before[index] == before[..index + 1][index] && before[..index] == before[..index + 1][..index];
      if bytes[index] != 255 {
        bytes[index] := bytes[index] + 1;
        TailCarries(before, bytes[..], index);
        NextIsNotLast(before, bytes[..]);
        return true;
      }
      bytes[index] := 0;
      index := index - 1;
    }
    ok := IncrementHead(bytes, before);
  }

  /** The six bits beside the variant, then byte 7, then the four bits beside
      the version. */
  method IncrementHead(bytes: array<byte>, ghost before: seq<byte>) returns (ok: bool)
    requires WellFormed(before) && bytes.Length == 16 && bytes[..9] == before[..9]
    requires forall k | 9 <= k < 16 :: before[k] == 255 && bytes[k] == 0
    modifies bytes
    ensures ok <==> !AllSet(before)
    ensures ok ==> Next(before, bytes[..])
  {
    assert forall k | 0 <= k < 9 :: bytes[k] == bytes[..9][k] && before[k] == before[..9][k];
    TailTurnsOver(before, bytes[..]);
    var randomByteEight := bytes[8] % 64;
    if randomByteEight != 63 {
      bytes[8] := 128 + (randomByteEight + 1);
      HeadCarries(before, bytes[..]);
      NextIsNotLast(before, bytes[..]);
      return true;
    }
    bytes[8] := 128;
    if bytes[7] != 255 {
      bytes[7] := bytes[7] + 1;
      HeadCarries(before, bytes[..]);
      NextIsNotLast(before, bytes[..]);
      return true;
    }
    bytes[7] := 0;
    var randomNibbleSix := bytes[6] % 16;
    if randomNibbleSix != 15 {
      bytes[6] := 112 + (randomNibbleSix + 1);
      HeadCarries(before, bytes[..]);
      NextIsNotLast(before, bytes[..]);
      return true;
    }
    bytes[6] := 112;
    ok := false;
  }

  // ----- Fresh identifiers -----

  /** The 74 of the 80 random bits that a fresh identifier keeps. */
  function RandomIn(random: seq<byte>): nat
    requires |random| == 10
  {
    var six: nat, seven: nat, eight: nat := random[0] % 16, random[1], random[2] % 64;
    ((six * 256 + seven) * 64 + eight) * TAIL_LIMIT + Number(random[3..])
  }

  /** The last n base-256 digits of a number. */
  function BytesOf(number: nat, n: nat): (bs: seq<byte>)
    ensures |bs| == n
  {
    if n == 0 then [] else BytesOf(number / 256, n - 1) + [number % 256]
  }

  /** A number that fits is read back from its digits. */
  lemma {:induction false} BytesReadBack(number: nat, n: nat)
    requires number < Power(n)
    ensures Number(BytesOf(number, n)) == number
  {
    if n > 0 {
      BytesReadBack(number / 256, n - 1);
      assert BytesOf(number, n)[..n - 1] == BytesOf(number / 256, n - 1);
    }
  }

  /** Shifts a timestamp into the first six bytes, last byte first. */
  method WriteTimestamp(bytes: array<byte>, timestampMilliseconds: nat)
    requires bytes.Length == 16 && timestampMilliseconds <= MAX_TIMESTAMP
    modifies bytes
    ensures Number(bytes[..6]) == timestampMilliseconds
  {
    var timestamp: nat := timestampMilliseconds;
    var index := 5;
    while index >= 0
      invariant -1 <= index <= 5
      invariant BytesOf(timestampMilliseconds, 6) == BytesOf(timestamp, index + 1) + bytes[index + 1..6]
    {
      ghost var rest := bytes[index + 1..6];
      bytes[index] := timestamp % 256;
      assert bytes[index..6] == [bytes[index]] + rest;
      timestamp := timestamp / 256;
      index := index - 1;
    }
    assert bytes[..6] == BytesOf(timestampMilliseconds, 6);
    assert Power(6) == MAX_TIMESTAMP + 1 by {
      assert Power(3) == 0x100_0000;
      assert Power(6) == 256 * (256 * (256 * Power(3)));
    }
    BytesReadBack(timestampMilliseconds, 6);
  }

  lemma FreshFields(bs: seq<byte>, random: seq<byte>)
    requires IsUuid(bs) && |random| == 10 && bs[9..] == random[3..] && bs[7] == random[1]
    requires bs[6] as int == random[0] as int % 16 + 112 && bs[8] as int == random[2] as int % 64 + 128
    ensures WellFormed(bs) && RandomOf(bs) == RandomIn(random)
  {
  }

  /** The time, and the random bytes but for the six bits that version and
      variant take. */
  predicate Drawn(bs: seq<byte>, time: nat, random: seq<byte>)
    requires IsUuid(bs)
  {
    && |random| == 10 && TimeOf(bs) == time
    && bs[6] as int == 0x70 + random[0] as int % 16 && bs[7] == random[1]
    && bs[8] as int == 0x80 + random[2] as int % 64 && bs[9..] == random[3..]
  }

  method NewUuidBytes(timestampMilliseconds: nat, random: seq<byte>) returns (bytes: array?<byte>)
    requires timestampMilliseconds <= MAX_TIMESTAMP
    ensures bytes == null <==> |random| != 10
    ensures bytes != null ==>
      && fresh(bytes) && WellFormed(bytes[..])
      && Drawn(bytes[..], timestampMilliseconds, random) && RandomOf(bytes[..]) == RandomIn(random)
  {
    if |random| != 10 {
      return null;
    }
    bytes := new byte[16];
    WriteTimestamp(bytes, timestampMilliseconds);
    ghost var stamp := bytes[..6];
    for i := 0 to 10
      invariant bytes[..6] == stamp && forall k | 6 <= k < 6 + i :: bytes[k] == random[k - 6]
    {
      bytes[6 + i] := random[i];
    }
    bytes[6] := bytes[6] % 16 + 112;
    bytes[8] := bytes[8] % 64 + 128;
    assert bytes[..][..6] == stamp;
    assert forall k | 9 <= k < 16 :: bytes[k] == random[k - 6];
    assert bytes[..][9..] == random[3..];
    FreshFields(bytes[..], random);
  }

  // ----- Later identifiers -----

  lemma SameTimeNext(before: seq<byte>, after: seq<byte>)
    requires Next(before, after)
    ensures TimeOf(after) == TimeOf(before)
    ensures Ordinal(before) < Ordinal(after) && TextBefore(Canonical(before), Canonical(after))
  {
    OrdinalOrder(before, after);
  }

  lemma LaterTimeOrdinal(t1: nat, r1: nat, t2: nat, r2: nat)
    requires t1 < t2 && r1 < RANDOM_LIMIT
    ensures t1 * RANDOM_LIMIT + r1 < t2 * RANDOM_LIMIT + r2
  {
    assert (t1 + 1) * RANDOM_LIMIT <= t2 * RANDOM_LIMIT;
  }

  lemma LaterTimeNext(before: seq<byte>, after: seq<byte>)
    requires WellFormed(before) && WellFormed(after) && TimeOf(before) < TimeOf(after)
    ensures Ordinal(before) < Ordinal(after) && TextBefore(Canonical(before), Canonical(after))
  {
    FieldBounds(before);
    LaterTimeOrdinal(TimeOf(before), RandomOf(before), TimeOf(after), RandomOf(after));
    OrdinalOrder(before, after);
  }

  const ONES: seq<byte> := [255, 255, 255, 255, 255, 255, 255, 255, 255, 255]

  lemma OnesSetAll()
    ensures RandomIn(ONES) == RANDOM_LIMIT - 1
  {
    TurnOver(ONES[3..], [0, 0, 0, 0, 0, 0, 0]);
    assert Power(7) == TAIL_LIMIT by {
      assert Power(3) == 0x100_0000;
      assert Power(7) == 256 * (256 * (256 * (256 * Power(3))));
    }
  }

  // ----- The timestamp back from the text -----

  /** The canonical pattern of a UUIDv7, in either letter case. */
  predicate IsValid(s: string) {
    && |s| == 36
    && (forall q | 0 <= q < 36 :: if IsHyphen(q) then s[q] == '-' else IsHex(s[q]))
    && s[14] == '7' && s[19] in "89abAB"
  }

  lemma {:induction false} OnlyHexLeft(s: string)
    requires forall q | 0 <= q < |s| :: s[q] == '-' || IsHex(s[q])
    ensures AllHex(WithoutHyphens(s))
  {
    if s != "" {
      OnlyHexLeft(s[..|s| - 1]);
    }
  }

  lemma ValidDigits(s: string)
    requires IsValid(s)
    ensures |WithoutHyphens(s)| >= 12 && AllHex(WithoutHyphens(s))
  {
    forall q | 0 <= q < 36 ensures s[q] == '-' || IsHex(s[q]) {
      assert IsHyphen(q) || !IsHyphen(q);
    }
    OnlyHexLeft(s);
    forall q | 24 <= q < 36 ensures IsHex(s[q]) {
      assert !IsHyphen(q);
    }
    NoHyphens(s[24..]);
    WithoutHyphensConcat(s[..24], s[24..]);
    assert s == s[..24] + s[24..];
  }

  lemma TwoGroups(s: string)
    requires IsValid(s)
    ensures AllHex(s[..8]) && s[8] == '-' && AllHex(s[9..13])
  {
    forall q | 0 <= q < 13 && q != 8 ensures IsHex(s[q]) {
      assert !IsHyphen(q);
    }
    assert IsHyphen(8);
  }

  lemma DropFirstHyphen(s: string)
    requires |s| >= 13 && AllHex(s[..8]) && s[8] == '-' && AllHex(s[9..13])
    ensures WithoutHyphens(s[..13]) == s[..8] + s[9..13]
  {
    Part(s[..8], "", s[..9]);
    NoHyphens(s[9..13]);
    assert s[..13] == s[..9] + s[9..13];
    WithoutHyphensConcat(s[..9], s[9..13]);
  }

  /** The digits of the first two groups are the first twelve digits. */
  lemma FirstTwelve(s: string)
    requires IsValid(s)
    ensures AllHex(s[..8] + s[9..13]) && |WithoutHyphens(s)| >= 12 && WithoutHyphens(s)[..12] == s[..8] + s[9..13]
  {
    TwoGroups(s);
    DropFirstHyphen(s);
    assert s == s[..13] + s[13..];
    WithoutHyphensConcat(s[..13], s[13..]);
  }

  /** The number spelled by the first two groups of a canonical UUIDv7. */
  function TimestampMilliseconds(s: string): (r: Option<nat>)
    ensures r.Some? <==> IsValid(s)
    ensures r.Some? <==>
      && |s| == 36 && s[8] == s[13] == s[18] == s[23] == '-' && s[14] == '7' && s[19] in "89abAB"
      && forall q | 0 <= q < 36 && q !in {8, 13, 18, 23} :: s[q] in "0123456789abcdefABCDEF"
    ensures r.Some? ==> AllHex(s[..8] + s[9..13]) && r.value == ParseHex(s[..8] + s[9..13])
  {
    if !IsValid(s) then None
    else
      ValidDigits(s);
      FirstTwelve(s);
      Some(ParseHex(WithoutHyphens(s)[..12]))
  }

  lemma GeneratedIsValid(bs: seq<byte>)
    requires WellFormed(bs)
    ensures IsValid(Canonical(bs))
  {
    ParseCompact(bs);
    CompactAt(bs, 6);
    CompactAt(bs, 8);
  }

  /** The text of a generated identifier is a valid UUIDv7, and its first twelve
      digits give back the embedded time. */
  lemma TimestampReadsBack(bs: seq<byte>)
    requires WellFormed(bs)
    ensures TimestampMilliseconds(Canonical(bs)) == Some(TimeOf(bs))
  {
    GeneratedIsValid(bs);
    CanonicalDigits(bs);
    CompactPrefix(bs, 6);
    ParseCompact(bs[..6]);
  }
}
