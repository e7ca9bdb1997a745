/** UUIDs as numbers, as sixteen bytes and as canonical text. The three orders
    are one (section 6.11 of RFC 9562), so a tie broken on strings in one
    program and on stored values in SQL picks the same winner. */
module UuidText {
  import opened Prelude
  import opened Ledger

  type byte = n: int | 0 <= n < 256

  /** Bytes read as one big-endian number. */
  function Number(bs: seq<byte>): nat {
    if bs == [] then 0 else Number(bs[..|bs| - 1]) * 256 + bs[|bs| - 1]
  }

  /** The first difference decides. */
  predicate BytesBefore(a: seq<byte>, b: seq<byte>) {
    exists k | 0 <= k < |a| && k < |b| :: a[k] < b[k] && forall j | 0 <= j < k :: a[j] == b[j]
  }

  predicate TextBefore(a: string, b: string) {
    exists k | 0 <= k < |a| && k < |b| :: a[k] < b[k] && forall j | 0 <= j < k :: a[j] == b[j]
  }

  // ----- Text -----

  const DIGITS: string := "0123456789abcdef"

  function Digit(d: int): char
    requires 0 <= d < 16
  {
    DIGITS[d]
  }

  /** Two lowercase hexadecimal digits per byte. */
  function Compact(bs: seq<byte>): (s: string)
    ensures |s| == 2 * |bs|
  {
    if bs == [] then ""
    else
      var b := bs[|bs| - 1];
      Compact(bs[..|bs| - 1]) + [Digit(b / 16), Digit(b % 16)]
  }

  predicate IsHyphen(q: int) {
    q == 8 || q == 13 || q == 18 || q == 23
  }

  /** The digit that stands at position q of the canonical text. */
  function DigitAt(q: int): int {
    if q < 8 then q else if q < 13 then q - 1 else if q < 18 then q - 2 else if q < 23 then q - 3 else q - 4
  }

  predicate IsUuid(bs: seq<byte>) {
    |bs| == 16
  }

  /** 8-4-4-4-12 digits. */
  function Canonical(bs: seq<byte>): (s: string)
    requires IsUuid(bs)
    ensures |s| == 36
    ensures forall q | 0 <= q < 36 :: s[q] == if IsHyphen(q) then '-' else Compact(bs)[DigitAt(q)]
  {
    var c := Compact(bs);
    c[..8] + "-" + c[8..12] + "-" + c[12..16] + "-" + c[16..20] + "-" + c[20..]
  }

  // ----- Byte order is numeric order -----

  lemma BeforeUnlessLast(a: seq<byte>, b: seq<byte>, n: nat)
    requires |a| == |b| == n + 1 && BytesBefore(a, b)
    ensures BytesBefore(a[..n], b[..n]) || (a[..n] == b[..n] && a[n] < b[n])
  {
    var k :| 0 <= k < |a| && a[k] < b[k] && forall j | 0 <= j < k :: a[j] == b[j];
    var x, y := a[..n], b[..n];
    if k < n {
      assert x[k] < y[k] && forall j | 0 <= j < k :: x[j] == y[j];
    }
  }

  lemma BeforeByFront(a: seq<byte>, b: seq<byte>, n: nat)
    requires |a| == |b| == n + 1 && BytesBefore(a[..n], b[..n])
    ensures BytesBefore(a, b)
  {
    var x, y := a[..n], b[..n];
    var k :| 0 <= k < n && x[k] < y[k] && forall j | 0 <= j < k :: x[j] == y[j];
    assert a[k] < b[k] && forall j | 0 <= j < k :: a[j] == b[j];
  }

  lemma BeforeAtLast(a: seq<byte>, b: seq<byte>, n: nat)
    requires |a| == |b| == n + 1 && a[..n] == b[..n] && a[n] < b[n]
    ensures BytesBefore(a, b)
  {
    assert forall j | 0 <= j < n :: a[j] == a[..n][j] && b[j] == b[..n][j];
  }

  /** Byte by byte from the back: the front decides, then the last byte. */
  lemma BeforeByLast(a: seq<byte>, b: seq<byte>, n: nat)
    requires |a| == |b| == n + 1
    ensures BytesBefore(a, b) <==> BytesBefore(a[..n], b[..n]) || (a[..n] == b[..n] && a[n] < b[n])
  {
    if BytesBefore(a, b) {
      BeforeUnlessLast(a, b, n);
    }
    if BytesBefore(a[..n], b[..n]) {
      BeforeByFront(a, b, n);
    }
    if a[..n] == b[..n] && a[n] < b[n] {
      BeforeAtLast(a, b, n);
    }
  }

  lemma PairOfDigits(x: nat, a: nat, y: nat, b: nat)
    requires a < 256 && b < 256
    ensures x * 256 + a < y * 256 + b <==> x < y || (x == y && a < b)
    ensures x * 256 + a == y * 256 + b <==> x == y && a == b
  {
  }

  lemma {:induction false} NumberOrder(a: seq<byte>, b: seq<byte>)
    requires |a| == |b|
    ensures BytesBefore(a, b) <==> Number(a) < Number(b)
    ensures a == b <==> Number(a) == Number(b)
  {
    if a != [] {
      var n := |a| - 1;
      NumberOrder(a[..n], b[..n]);
      BeforeByLast(a, b, n);
      PairOfDigits(Number(a[..n]), a[n], Number(b[..n]), b[n]);
      assert a == a[..n] + [a[n]] && b == b[..n] + [b[n]];
    }
  }

  lemma {:induction false} NumberBound(bs: seq<byte>)
    ensures Number(bs) < Power(|bs|)
  {
    if bs != [] {
      NumberBound(bs[..|bs| - 1]);
    }
  }

  function Power(n: nat): nat {
    if n == 0 then 1 else 256 * Power(n - 1)
  }

  lemma NumberIsUuid(bs: seq<byte>)
    requires IsUuid(bs)
    ensures Number(bs) < UUID_LIMIT
  {
    NumberBound(bs);
    assert Power(4) == 0x1_0000_0000;
    assert Power(8) == 0x1_0000_0000_0000_0000 by {
      assert Power(8) == 256 * (256 * (256 * (256 * Power(4))));
    }
    assert Power(12) == 256 * (256 * (256 * (256 * Power(8))));
    assert Power(16) == 256 * (256 * (256 * (256 * Power(12))));
  }

  // ----- Text order is byte order -----

  lemma {:induction false} CompactAt(bs: seq<byte>, i: nat)
    requires i < |bs|
    ensures Compact(bs)[2 * i] == Digit(bs[i] / 16) && Compact(bs)[2 * i + 1] == Digit(bs[i] % 16)
  {
    if i < |bs| - 1 {
      CompactAt(bs[..|bs| - 1], i);
    }
  }

  lemma {:induction false} CompactPrefix(bs: seq<byte>, n: nat)
    requires n <= |bs|
    ensures Compact(bs)[..2 * n] == Compact(bs[..n])
  {
    if n == |bs| {
      assert bs[..n] == bs;
    } else {
      CompactPrefix(bs[..|bs| - 1], n);
      assert bs[..|bs| - 1][..n] == bs[..n];
    }
  }

  lemma DigitOrder(x: int, y: int)
    requires 0 <= x < y < 16
    ensures Digit(x) < Digit(y)
  {
  }

  lemma PairOrder(x: byte, y: byte)
    requires x < y
    ensures Digit(x / 16) < Digit(y / 16) || (x / 16 == y / 16 && Digit(x % 16) < Digit(y % 16))
  {
    if x / 16 < y / 16 {
      DigitOrder(x / 16, y / 16);
    } else {
      DigitOrder(x % 16, y % 16);
    }
  }

  lemma DifferAt(c: string, d: string, k: nat)
    requires k + 1 < |c| == |d| && c[..k] == d[..k]
    requires c[k] < d[k] || (c[k] == d[k] && c[k + 1] < d[k + 1])
    ensures TextBefore(c, d)
  {
    assert forall j | 0 <= j < k :: c[j] == c[..k][j] && d[j] == d[..k][j];
    if c[k] < d[k] {
    } else {
      assert forall j | 0 <= j < k + 1 :: c[j] == d[j];
    }
  }

  lemma CompactBeforeAt(a: seq<byte>, b: seq<byte>, k: nat)
    requires k < |a| == |b| && a[..k] == b[..k] && a[k] < b[k]
    ensures TextBefore(Compact(a), Compact(b))
  {
    CompactAt(a, k);
    CompactAt(b, k);
    CompactPrefix(a, k);
    CompactPrefix(b, k);
    PairOrder(a[k], b[k]);
    DifferAt(Compact(a), Compact(b), 2 * k);
  }

  lemma CompactBefore(a: seq<byte>, b: seq<byte>)
    requires |a| == |b| && BytesBefore(a, b)
    ensures TextBefore(Compact(a), Compact(b))
  {
    var k :| 0 <= k < |a| && a[k] < b[k] && forall j | 0 <= j < k :: a[j] == b[j];
    CompactBeforeAt(a, b, k);
  }

  lemma CanonicalBefore(a: seq<byte>, b: seq<byte>)
    requires IsUuid(a) && IsUuid(b) && BytesBefore(a, b)
    ensures TextBefore(Canonical(a), Canonical(b))
  {
    CompactBefore(a, b);
    var c, d := Compact(a), Compact(b);
    var k :| 0 <= k < |c| && c[k] < d[k] && forall j | 0 <= j < k :: c[j] == d[j];
    var q := if k < 8 then k else if k < 12 then k + 1 else if k < 16 then k + 2 else if k < 20 then k + 3 else k + 4;
    assert !IsHyphen(q) && DigitAt(q) == k && q < 36;
    var s, t := Canonical(a), Canonical(b);
    assert s[q] < t[q];
    forall j | 0 <= j < q ensures s[j] == t[j] {
      assert IsHyphen(j) || DigitAt(j) < k;
    }
  }

  lemma TextBeforeIsStrict(s: string, t: string)
    requires TextBefore(s, t)
    ensures s != t && !TextBefore(t, s)
  {
    var k :| 0 <= k < |s| && k < |t| && s[k] < t[k] && forall j | 0 <= j < k :: s[j] == t[j];
    forall m | 0 <= m < |t| && m < |s| && t[m] < s[m] ensures exists j | 0 <= j < m :: t[j] != s[j] {
      assert k < m && t[k] != s[k];
    }
  }

  /** Comparing canonical strings, comparing bytes and comparing numbers are
      the same strict order, and equal strings mean equal identifiers. */
  lemma OrdersAgree(a: seq<byte>, b: seq<byte>)
    requires IsUuid(a) && IsUuid(b)
    ensures TextBefore(Canonical(a), Canonical(b)) <==> BytesBefore(a, b)
    ensures BytesBefore(a, b) <==> Number(a) < Number(b)
    ensures Canonical(a) == Canonical(b) <==> a == b
  {
    NumberOrder(a, b);
    NumberOrder(b, a);
    if BytesBefore(a, b) {
      CanonicalBefore(a, b);
      TextBeforeIsStrict(Canonical(a), Canonical(b));
    } else if BytesBefore(b, a) {
      CanonicalBefore(b, a);
      TextBeforeIsStrict(Canonical(b), Canonical(a));
    } else {
      assert a == b;
    }
  }

  /** The service compares movement ids as strings, the query orders by the
      stored id: both find the same later stocktake. */
  lemma SameTieBreak(at: Timestamp, a: seq<byte>, laterAt: Timestamp, b: seq<byte>)
    requires IsUuid(a) && IsUuid(b)
    ensures Number(a) < UUID_LIMIT && Number(b) < UUID_LIMIT
    ensures KeyBefore(at, Number(a), laterAt, Number(b)) <==>
            at < laterAt || (at == laterAt && TextBefore(Canonical(a), Canonical(b)))
  {
    NumberIsUuid(a);
    NumberIsUuid(b);
    OrdersAgree(a, b);
  }

  // ----- Reading text back -----

  predicate IsHex(c: char) {
    '0' <= c <= '9' || 'a' <= c <= 'f' || 'A' <= c <= 'F'
  }

  function HexValue(c: char): (d: nat)
    requires IsHex(c)
    ensures d < 16
  {
    if '0' <= c <= '9' then c as int - '0' as int
    else if 'a' <= c <= 'f' then c as int - 'a' as int + 10
    else c as int - 'A' as int + 10
  }

  predicate AllHex(s: string) {
    forall i | 0 <= i < |s| :: IsHex(s[i])
  }

  /** int.parse with radix 16. */
  function ParseHex(s: string): nat
    requires AllHex(s)
  {
    if s == "" then 0 else ParseHex(s[..|s| - 1]) * 16 + HexValue(s[|s| - 1])
  }

  lemma DigitReads(d: int)
    requires 0 <= d < 16
    ensures IsHex(Digit(d)) && HexValue(Digit(d)) == d && Digit(d) != '-'
  {
  }

  lemma ParseTwoMore(s: string, b: byte)
    requires AllHex(s)
    ensures var longer := s + [Digit(b / 16), Digit(b % 16)];
      AllHex(longer) && ParseHex(longer) == ParseHex(s) * 256 + b
  {
    DigitReads(b / 16);
    DigitReads(b % 16);
    var one := s + [Digit(b / 16)];
    var longer := s + [Digit(b / 16), Digit(b % 16)];
    assert one[..|one| - 1] == s && longer[..|longer| - 1] == one;
  }

  /** Parsing the digits of some bytes gives their number. */
  lemma {:induction false} ParseCompact(bs: seq<byte>)
    ensures AllHex(Compact(bs)) && ParseHex(Compact(bs)) == Number(bs)
  {
    if bs != [] {
      ParseCompact(bs[..|bs| - 1]);
      ParseTwoMore(Compact(bs[..|bs| - 1]), bs[|bs| - 1]);
    }
  }

  /** replaceAll('-', ''). */
  function WithoutHyphens(s: string): string {
    if s == "" then ""
    else WithoutHyphens(s[..|s| - 1]) + (if s[|s| - 1] == '-' then "" else [s[|s| - 1]])
  }

  lemma {:induction false} WithoutHyphensConcat(s: string, t: string)
    ensures WithoutHyphens(s + t) == WithoutHyphens(s) + WithoutHyphens(t)
  {
    if t == "" {
      assert s + t == s;
    } else {
      var front := t[..|t| - 1];
      WithoutHyphensConcat(s, front);
      assert (s + t)[..|s + t| - 1] == s + front;
    }
  }

  lemma {:induction false} NoHyphens(s: string)
    requires AllHex(s)
    ensures WithoutHyphens(s) == s
  {
    if s != "" {
      NoHyphens(s[..|s| - 1]);
    }
  }

  /** Removing the hyphens gives the digits back. */
  lemma CanonicalDigits(bs: seq<byte>)
    requires IsUuid(bs)
    ensures WithoutHyphens(Canonical(bs)) == Compact(bs)
  {
    var c := Compact(bs);
    ParseCompact(bs);
    var s1 := c[..8] + "-";
    var s2 := s1 + c[8..12] + "-";
    var s3 := s2 + c[12..16] + "-";
    var s4 := s3 + c[16..20] + "-";
    assert WithoutHyphens("-") == "";
    Part(c[..8], "", s1);
    Part(c[8..12], s1, s2);
    Part(c[12..16], s2, s3);
    Part(c[16..20], s3, s4);
    NoHyphens(c[20..]);
    WithoutHyphensConcat(s4, c[20..]);
    assert Canonical(bs) == s4 + c[20..];
    assert c == ((((("" + c[..8]) + c[8..12]) + c[12..16]) + c[16..20]) + c[20..]);
  }

  lemma Part(digits: string, before: string, after: string)
    requires AllHex(digits) && after == before + digits + "-"
    ensures WithoutHyphens(after) == WithoutHyphens(before) + digits
  {
    NoHyphens(digits);
    WithoutHyphensConcat(before, digits);
    assert after[..|after| - 1] == before + digits;
  }
}
