/** The generator object: its two fields, changed call by call, follow the
    sequence of module UuidSequence. */
module UuidGenerator {
  import opened Prelude
  import opened UuidText
  import opened UuidV7
  import opened UuidSequence

  function IdOf(bs: seq<byte>): Id
    requires IsUuid(bs)
  {
    Id(TimeOf(bs), RandomOf(bs))
  }

  /** The two free fields determine all sixteen bytes, and order the texts. */
  lemma IdDetermines(a: seq<byte>, b: seq<byte>)
    requires WellFormed(a) && WellFormed(b)
    ensures IdOf(a) == IdOf(b) ==> a == b
    ensures IdOf(a).Less(IdOf(b)) ==> TextBefore(Canonical(a), Canonical(b))
  {
    OrdinalOrder(a, b);
    OrdinalOrder(b, a);
    NumberOrder(a, b);
    if TimeOf(a) < TimeOf(b) {
      LaterTimeNext(a, b);
    }
  }

  method FromList(bytes: array<byte>) returns (copy: array<byte>)
    ensures fresh(copy) && copy[..] == bytes[..]
  {
    copy := new byte[bytes.Length](i requires 0 <= i < bytes.Length reads bytes => bytes[i]);
  }

  /** The same time, and the next random number. */
  predicate CountedUp(before: seq<byte>, after: seq<byte>)
    requires IsUuid(before) && IsUuid(after)
  {
    TimeOf(after) == TimeOf(before) && RandomOf(after) == RandomOf(before) + 1
  }

  /** A copy with the random bits one higher, unless they are all set. */
  method CountUp(bytes: array<byte>) returns (next: array?<byte>)
    requires WellFormed(bytes[..])
    ensures next == null <==> AllSet(bytes[..])
    ensures next == null <==> IdOf(bytes[..]).random == RANDOM_LIMIT - 1
    ensures next != null ==>
      && fresh(next) && WellFormed(next[..]) && IdOf(next[..]) == Id(TimeOf(bytes[..]), RandomOf(bytes[..]) + 1)
      && CountedUp(bytes[..], next[..])
      && Ordinal(bytes[..]) < Ordinal(next[..]) && TextBefore(Canonical(bytes[..]), Canonical(next[..]))
  {
    AllSetExactly(bytes[..]);
    var copy := FromList(bytes);
    var incremented := IncrementRandomBits(copy);
    if !incremented {
      return null;
    }
    SameTimeNext(bytes[..], copy[..]);
    next := copy;
  }

  class UuidV7Generator {
    var lastTimestamp: Option<nat>
    var lastBytes: array?<byte>

    constructor ()
      ensures Valid() && Position() == START && lastBytes == null
    {
      lastTimestamp, lastBytes := None, null;
    }

    ghost predicate Valid()
      reads this, lastBytes
    {
      && (lastTimestamp.Some? ==> lastTimestamp.value <= MAX_TIMESTAMP)
      && (lastBytes != null ==>
            WellFormed(lastBytes[..]) && lastTimestamp.Some? && TimeOf(lastBytes[..]) <= lastTimestamp.value)
    }

    ghost function Position(): Position
      requires Valid()
      reads this, lastBytes
    {
      UuidSequence.Position(lastTimestamp, if lastBytes == null then None else Some(IdOf(lastBytes[..])))
    }

    /** For every clock reading and every random source: a later reading gives
        an identifier of that time and of the random bytes, an earlier or equal
        one the next number, or the next millisecond. The object moves as the
        sequence does, a success is spelled out as canonical text, greater than
        the text before it, and exhaustion follows the greatest identifier if
        and only if the remembered time is the one in the last identifier. */
    method Generate(now: int, random: seq<byte>) returns (r: Result<string, GenerateError>)
      requires Valid()
      modifies this
      ensures Valid()
      ensures var (position, outcome) := Advance(old(Position()), Call(now, random));
        && Position() == position
        && if outcome.Err? then r == Err(outcome.error) && lastBytes == old(lastBytes)
           else
             lastBytes != null && fresh(lastBytes) && IdOf(lastBytes[..]) == outcome.value
             && r == Ok(Canonical(lastBytes[..]))
      ensures r.Ok? && old(lastBytes) != null ==>
        && Ordinal(old(lastBytes[..])) < Ordinal(lastBytes[..])
        && TextBefore(Canonical(old(lastBytes[..])), r.value)
      ensures r == Err(Exhausted) ==>
        && old(lastBytes) != null
        && (old(InStep(Position())) <==> Ordinal(old(lastBytes[..])) == (MAX_TIMESTAMP + 1) * RANDOM_LIMIT - 1)
      ensures r.Ok? ==>
        if old(lastBytes) == null || now > old(lastTimestamp).value then Drawn(lastBytes[..], now, random)
        else if IdOf(old(lastBytes[..])).random != RANDOM_LIMIT - 1 then
          CountedUp(old(lastBytes[..]), lastBytes[..])
        else Drawn(lastBytes[..], old(lastTimestamp).value + 1, random)
    {
      if now < 0 || now > MAX_TIMESTAMP {
        return Err(BadClock);
      }
      if lastTimestamp.None? || lastBytes == null || now > lastTimestamp.value {
        r := Renew(now, random);
        return;
      }
      r := Continue(random);
    }

    /** Within the remembered time: count up, or move on to the next
        millisecond, or give up after the last. */
    method Continue(random: seq<byte>) returns (r: Result<string, GenerateError>)
      requires Valid() && lastBytes != null
      modifies this
      ensures Valid()
      ensures var (position, outcome) := Advance(old(Position()), Call(0, random));
        && Position() == position
        && if outcome.Err? then r == Err(outcome.error) && lastBytes == old(lastBytes)
           else
             lastBytes != null && fresh(lastBytes) && IdOf(lastBytes[..]) == outcome.value
             && r == Ok(Canonical(lastBytes[..]))
      ensures r.Ok? ==>
        && Ordinal(old(lastBytes[..])) < Ordinal(lastBytes[..])
        && TextBefore(Canonical(old(lastBytes[..])), r.value)
      ensures r == Err(Exhausted) ==>
        (old(InStep(Position())) <==> Ordinal(old(lastBytes[..])) == (MAX_TIMESTAMP + 1) * RANDOM_LIMIT - 1)
      ensures r.Ok? ==>
        if IdOf(old(lastBytes[..])).random != RANDOM_LIMIT - 1 then CountedUp(old(lastBytes[..]), lastBytes[..])
        else Drawn(lastBytes[..], old(lastTimestamp).value + 1, random)
    {
      var nextBytes := CountUp(lastBytes);
      if nextBytes != null {
        lastBytes := nextBytes;
        return Ok(Canonical(nextBytes[..]));
      }
      if lastTimestamp.value == MAX_TIMESTAMP {
        GreatestOrdinal(lastBytes[..]);
        return Err(Exhausted);
      }
      r := Renew(lastTimestamp.value + 1, random);
    }

    /** The time is remembered before the random source is asked. */
    method Renew(timestamp: nat, random: seq<byte>) returns (r: Result<string, GenerateError>)
      requires Valid() && timestamp <= MAX_TIMESTAMP && (lastBytes != null ==> timestamp > lastTimestamp.value)
      modifies this
      ensures Valid()
      ensures var (position, outcome) := Draw(old(Position()), timestamp, random);
        && Position() == position
        && if outcome.Err? then r == Err(outcome.error) && lastBytes == old(lastBytes)
           else
             lastBytes != null && fresh(lastBytes) && IdOf(lastBytes[..]) == outcome.value
             && r == Ok(Canonical(lastBytes[..]))
      ensures r.Ok? && old(lastBytes) != null ==>
        && Ordinal(old(lastBytes[..])) < Ordinal(lastBytes[..])
        && TextBefore(Canonical(old(lastBytes[..])), r.value)
      ensures r.Ok? ==> Drawn(lastBytes[..], timestamp, random)
    {
      lastTimestamp := Some(timestamp);
      var bytes := NewUuidBytes(timestamp, random);
      if bytes == null {
        return Err(BadRandomSource);
      }
      if lastBytes != null {
        LaterTimeNext(lastBytes[..], bytes[..]);
      }
      lastBytes := bytes;
      r := Ok(Canonical(bytes[..]));
    }
  }

  lemma AllSetExactly(bs: seq<byte>)
    requires WellFormed(bs)
    ensures AllSet(bs) <==> IdOf(bs).random == RANDOM_LIMIT - 1
    ensures RandomOf(bs) < RANDOM_LIMIT && TimeOf(bs) <= MAX_TIMESTAMP
  {
    FieldBounds(bs);
  }

  lemma GreatestOrdinal(bs: seq<byte>)
    requires WellFormed(bs) && AllSet(bs)
    ensures TimeOf(bs) == MAX_TIMESTAMP <==> Ordinal(bs) == (MAX_TIMESTAMP + 1) * RANDOM_LIMIT - 1
  {
    assert Ordinal(bs) == (TimeOf(bs) + 1) * RANDOM_LIMIT - 1;
  }

  // ----- Any number of calls on the object -----

  const GREATEST_BYTES: seq<byte> := [255, 255, 255, 255, 255, 255, 127, 255, 191, 255, 255, 255, 255, 255, 255, 255]

  const GREATEST_TEXT: string := "ffffffff-ffff-7fff-bfff-ffffffffffff"

  lemma GreatestFields()
    ensures WellFormed(GREATEST_BYTES) && IdOf(GREATEST_BYTES) == GREATEST
  {
    TurnOver(GREATEST_BYTES[..6], [0, 0, 0, 0, 0, 0]);
    TurnOver(GREATEST_BYTES[9..], [0, 0, 0, 0, 0, 0, 0]);
    assert Power(6) == MAX_TIMESTAMP + 1 && Power(7) == TAIL_LIMIT by {
      assert Power(3) == 0x100_0000;
      assert Power(6) == 256 * (256 * (256 * Power(3)));
      assert Power(7) == 256 * Power(6);
    }
  }

  lemma GreatestSpelled()
    ensures Canonical(GREATEST_BYTES) == GREATEST_TEXT
  {
    var s, c := Canonical(GREATEST_BYTES), Compact(GREATEST_BYTES);
    forall i | 0 <= i < 16
      ensures c[2 * i] == (if i == 6 then '7' else if i == 8 then 'b' else 'f') && c[2 * i + 1] == 'f'
    {
      CompactAt(GREATEST_BYTES, i);
    }
    forall k | 0 <= k < 32 ensures c[k] == if k == 12 then '7' else if k == 16 then 'b' else 'f' {
      var i := k / 2;
      assert k == 2 * i || k == 2 * i + 1;
    }
    assert forall q | 0 <= q < 36 :: s[q] == GREATEST_TEXT[q];
  }

  /** The text spells an identifier with these fields. */
  ghost predicate Spells(text: string, id: Id) {
    exists bs :: WellFormed(bs) && IdOf(bs) == id && text == Canonical(bs)
  }

  lemma SpellsInOrder(a: string, x: Id, b: string, y: Id)
    requires Spells(a, x) && Spells(b, y)
    ensures x == y ==> a == b
    ensures x.Less(y) ==> TextBefore(a, b)
  {
    var p :| WellFormed(p) && IdOf(p) == x && a == Canonical(p);
    var q :| WellFormed(q) && IdOf(q) == y && b == Canonical(q);
    IdDetermines(p, q);
  }

  lemma SpellsGreatest(text: string)
    requires Spells(text, GREATEST)
    ensures text == GREATEST_TEXT
  {
    GreatestFields();
    GreatestSpelled();
    assert Spells(GREATEST_TEXT, GREATEST);
    SpellsInOrder(text, GREATEST, GREATEST_TEXT, GREATEST);
  }

  ghost predicate Reported(results: seq<Result<string, GenerateError>>, outcomes: seq<Result<Id, GenerateError>>) {
    && |results| == |outcomes|
    && forall i | 0 <= i < |results| ::
         if outcomes[i].Ok? then results[i].Ok? && Spells(results[i].value, outcomes[i].value)
         else results[i] == Err(outcomes[i].error)
  }

  lemma TextsAscend(calls: seq<Call>, results: seq<Result<string, GenerateError>>)
    requires Reported(results, Outcomes(calls))
    ensures forall i, j | 0 <= i < j < |results| && results[i].Ok? && results[j].Ok? ::
      TextBefore(results[i].value, results[j].value)
  {
    forall i, j | 0 <= i < j < |results| && results[i].Ok? && results[j].Ok?
      ensures TextBefore(results[i].value, results[j].value)
    {
      OutcomesAscend(calls, i, j);
      SpellsInOrder(results[i].value, Outcomes(calls)[i].value, results[j].value, Outcomes(calls)[j].value);
    }
  }

  lemma GreatestTextFirst(calls: seq<Call>, results: seq<Result<string, GenerateError>>)
    requires Reported(results, Outcomes(calls)) && NeverFails(calls)
    ensures forall i | 0 <= i < |results| && results[i] == Err(Exhausted) :: Ok(GREATEST_TEXT) in results[..i]
  {
    forall i | 0 <= i < |results| && results[i] == Err(Exhausted) ensures Ok(GREATEST_TEXT) in results[..i] {
      ExhaustedAfterGreatest(calls, i);
      var j :| 0 <= j < i && Outcomes(calls)[j] == Ok(GREATEST);
      SpellsGreatest(results[j].value);
      assert results[..i][j] == Ok(GREATEST_TEXT);
    }
  }

  /** Any number of calls on a new generator, with the clock standing still,
      advancing or rolled back, and with any random source, even one that fails
      at times: every result is the sequence's, and the texts ascend. If the
      random source never fails, exhaustion is reported only after the greatest
      identifier has come out. */
  method GenerateAll(calls: seq<Call>) returns (results: seq<Result<string, GenerateError>>)
    ensures Reported(results, Outcomes(calls))
    ensures NeverFails(calls) ==>
      forall i | 0 <= i < |results| && results[i] == Err(Exhausted) :: Ok(GREATEST_TEXT) in results[..i]
    ensures forall i, j | 0 <= i < j < |results| && results[i].Ok? && results[j].Ok? ::
      TextBefore(results[i].value, results[j].value)
  {
    var g := new UuidV7Generator();
    results := [];
    for i := 0 to |calls|
      invariant g.Valid() && fresh(g) && g.Position() == Reached(calls[..i])
      invariant Reported(results, Outcomes(calls[..i]))
    {
      assert calls[..i + 1][..i] == calls[..i];
      var r := g.Generate(calls[i].now, calls[i].random);
      assert r.Ok? ==> Spells(r.value, IdOf(g.lastBytes[..]));
      results := results + [r];
    }
    assert calls[..|calls|] == calls;
    TextsAscend(calls, results);
    if NeverFails(calls) {
      GreatestTextFirst(calls, results);
    }
  }

  /** A source that fails is enough to report exhaustion at time zero: it fails
      at the maximum time, which is then remembered without an identifier. */
  lemma FailingSourceExhaustsEarly()
    ensures var calls := [Call(0, ONES), Call(MAX_TIMESTAMP, []), Call(0, ONES)];
      Outcomes(calls) == [Ok(Id(0, RANDOM_LIMIT - 1)), Err(BadRandomSource), Err(Exhausted)]
  {
    OnesSetAll();
    var first, second, third := Call(0, ONES), Call(MAX_TIMESTAMP, []), Call(0, ONES);
    var one, two, three := [first], [first, second], [first, second, third];
    assert one[..0] == [] && two[..1] == one && three[..2] == two;
    assert Reached(one) == Position(Some(0), Some(Id(0, RANDOM_LIMIT - 1)));
    assert Reached(two) == Position(Some(MAX_TIMESTAMP), Some(Id(0, RANDOM_LIMIT - 1)));
    assert Outcomes(one) == [Ok(Id(0, RANDOM_LIMIT - 1))];
    assert Outcomes(two) == Outcomes(one) + [Err(BadRandomSource)];
    assert Outcomes(three) == Outcomes(two) + [Err(Exhausted)];
  }
}
