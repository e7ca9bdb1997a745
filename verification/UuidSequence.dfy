/** The generator's sequence on numbers: what one call does to the remembered
    time and the last identifier, for every clock reading and every answer of
    the random source; and when it may run out. */
module UuidSequence {
  import opened Prelude
  import opened UuidText
  import opened UuidV7

  datatype GenerateError = BadClock | BadRandomSource | Exhausted

  /** An identifier by its two free fields. */
  datatype Id = Id(time: nat, random: nat)
  {
    predicate Less(other: Id) {
      time < other.time || (time == other.time && random < other.random)
    }
  }

  /** The last identifier there is: maximum time, every random bit set. */
  const GREATEST: Id := Id(MAX_TIMESTAMP, RANDOM_LIMIT - 1)

  /** The remembered time and the last identifier. */
  datatype Position = Position(time: Option<nat>, last: Option<Id>)

  const START: Position := Position(None, None)

  /** One call: the clock reading, and what the random source would answer. */
  datatype Call = Call(now: int, random: seq<byte>)

  predicate InRange(c: Call) {
    0 <= c.now <= MAX_TIMESTAMP
  }

  /** The time is remembered before the random source is asked. */
  function Draw(p: Position, time: nat, random: seq<byte>): (Position, Result<Id, GenerateError>) {
    if |random| != 10 then (p.(time := Some(time)), Err(BadRandomSource))
    else (Position(Some(time), Some(Id(time, RandomIn(random)))), Ok(Id(time, RandomIn(random))))
  }

  function Advance(p: Position, c: Call): (Position, Result<Id, GenerateError>) {
    if !InRange(c) then (p, Err(BadClock))
    else if p.time.None? || p.last.None? || c.now > p.time.value then Draw(p, c.now, c.random)
    else if p.last.value.random != RANDOM_LIMIT - 1 then
      var next := Id(p.last.value.time, p.last.value.random + 1);
      (p.(last := Some(next)), Ok(next))
    else if p.time.value == MAX_TIMESTAMP then (p, Err(Exhausted))
    else Draw(p, p.time.value + 1, c.random)
  }

  /** Is the random source asked? */
  predicate Asks(p: Position, c: Call) {
    && InRange(c)
    && (p.time.None? || p.last.None? || c.now > p.time.value ||
        (p.last.value.random == RANDOM_LIMIT - 1 && p.time.value != MAX_TIMESTAMP))
  }

  /** The remembered time never lags behind the last identifier. */
  predicate Sane(p: Position) {
    && (p.time.Some? ==> p.time.value <= MAX_TIMESTAMP)
    && (p.last.Some? ==> p.time.Some? && p.last.value.time <= p.time.value && p.last.value.random < RANDOM_LIMIT)
  }

  predicate InStep(p: Position) {
    p.last.Some? ==> p.time.Some? && p.last.value.time == p.time.value
  }

  lemma RandomInBound(random: seq<byte>)
    requires |random| == 10
    ensures RandomIn(random) < RANDOM_LIMIT
  {
    NumberBound(random[3..]);
    assert Power(7) == TAIL_LIMIT by {
      assert Power(3) == 0x100_0000;
      assert Power(7) == 256 * (256 * (256 * (256 * Power(3))));
    }
  }

  /** Every call keeps the position sane, and a successful one goes up. */
  lemma AdvanceGoesUp(p: Position, c: Call)
    requires Sane(p)
    ensures var (next, r) := Advance(p, c);
      && Sane(next)
      && (r.Ok? ==> next.last == Some(r.value) && (p.last.Some? ==> p.last.value.Less(r.value)))
      && (r.Err? ==> next.last == p.last)
  {
    if |c.random| == 10 {
      RandomInBound(c.random);
    }
  }

  /** No identifier exceeds the greatest. */
  lemma GreatestIsLast(p: Position)
    requires Sane(p) && p.last.Some?
    ensures p.last.value == GREATEST || p.last.value.Less(GREATEST)
  {
  }

  /** What puts the remembered time and the last identifier out of step, and
      back in step: the latest answer of the random source. */
  lemma StepOfOneCall(p: Position, c: Call)
    requires Sane(p)
    ensures InStep(Advance(p, c).0) <==> if Asks(p, c) then |c.random| == 10 || p.last.None? else InStep(p)
  {
  }

  // ----- Any number of calls -----

  function Reached(calls: seq<Call>): Position {
    if calls == [] then START else Advance(Reached(calls[..|calls| - 1]), calls[|calls| - 1]).0
  }

  function Outcomes(calls: seq<Call>): (rs: seq<Result<Id, GenerateError>>)
    ensures |rs| == |calls|
  {
    if calls == [] then []
    else
      var front := calls[..|calls| - 1];
      Outcomes(front) + [Advance(Reached(front), calls[|calls| - 1]).1]
  }

  lemma {:induction false} OutcomeAt(calls: seq<Call>, i: nat)
    requires i < |calls|
    ensures Outcomes(calls)[i] == Advance(Reached(calls[..i]), calls[i]).1
  {
    var front := calls[..|calls| - 1];
    if i < |front| {
      OutcomeAt(front, i);
      assert front[..i] == calls[..i];
    }
  }

  lemma OutcomesOfPrefix(calls: seq<Call>, n: nat, i: nat)
    requires i < n <= |calls|
    ensures Outcomes(calls[..n])[i] == Outcomes(calls)[i]
  {
    OutcomeAt(calls, i);
    OutcomeAt(calls[..n], i);
    assert calls[..n][..i] == calls[..i];
  }

  lemma {:induction false} ReachedSane(calls: seq<Call>)
    ensures Sane(Reached(calls))
  {
    if calls != [] {
      ReachedSane(calls[..|calls| - 1]);
      AdvanceGoesUp(Reached(calls[..|calls| - 1]), calls[|calls| - 1]);
    }
  }

  /** Every identifier handed out so far is the last one or below it. */
  lemma {:induction false} LastIsGreatestSoFar(calls: seq<Call>, i: nat)
    requires i < |calls| && Outcomes(calls)[i].Ok?
    ensures var last := Reached(calls).last;
      last.Some? && (Outcomes(calls)[i].value == last.value || Outcomes(calls)[i].value.Less(last.value))
  {
    var front := calls[..|calls| - 1];
    ReachedSane(front);
    AdvanceGoesUp(Reached(front), calls[|calls| - 1]);
    if i < |front| {
      LastIsGreatestSoFar(front, i);
    }
  }

  /** Whatever the clock and the random source do, identifiers ascend. */
  lemma {:induction false} OutcomesAscend(calls: seq<Call>, i: nat, j: nat)
    requires i < j < |calls| && Outcomes(calls)[i].Ok? && Outcomes(calls)[j].Ok?
    ensures Outcomes(calls)[i].value.Less(Outcomes(calls)[j].value)
  {
    var before := calls[..j];
    OutcomesOfPrefix(calls, j, i);
    OutcomeAt(calls, j);
    LastIsGreatestSoFar(before, i);
    ReachedSane(before);
    AdvanceGoesUp(Reached(before), calls[j]);
  }

  /** The last identifier is one that was handed out. */
  lemma {:induction false} LastWasHandedOut(calls: seq<Call>)
    requires Reached(calls).last.Some?
    ensures exists j | 0 <= j < |calls| :: Outcomes(calls)[j] == Ok(Reached(calls).last.value)
  {
    var n := |calls| - 1;
    var front := calls[..n];
    ReachedSane(front);
    AdvanceGoesUp(Reached(front), calls[n]);
    if Outcomes(calls)[n].Ok? {
      assert Outcomes(calls)[n] == Ok(Reached(calls).last.value);
    } else {
      LastWasHandedOut(front);
      var j :| 0 <= j < n && Outcomes(front)[j] == Ok(Reached(front).last.value);
      assert Outcomes(calls)[j] == Outcomes(front)[j];
    }
  }

  // ----- Exhaustion -----

  /** Did the random source fail when it was last asked? */
  predicate LastDrawFailed(calls: seq<Call>) {
    if calls == [] then false
    else
      var front, c := calls[..|calls| - 1], calls[|calls| - 1];
      if Asks(Reached(front), c) then |c.random| != 10 else LastDrawFailed(front)
  }

  lemma {:induction false} InStepUnlessDrawFailed(calls: seq<Call>)
    ensures InStep(Reached(calls)) <==> !LastDrawFailed(calls) || Reached(calls).last.None?
  {
    if calls != [] {
      var front, c := calls[..|calls| - 1], calls[|calls| - 1];
      InStepUnlessDrawFailed(front);
      ReachedSane(front);
      StepOfOneCall(Reached(front), c);
    }
  }

  /** A call that reports exhaustion follows the greatest identifier if and only
      if the random source did not fail when it was last asked before it. */
  lemma ExhaustionExact(calls: seq<Call>, c: Call)
    requires Advance(Reached(calls), c).1 == Err(Exhausted)
    ensures Reached(calls).last == Some(GREATEST) <==> !LastDrawFailed(calls)
  {
    ReachedSane(calls);
    InStepUnlessDrawFailed(calls);
  }

  predicate NeverFails(calls: seq<Call>) {
    forall i | 0 <= i < |calls| :: |calls[i].random| == 10
  }

  lemma {:induction false} NoFailedDraw(calls: seq<Call>)
    requires NeverFails(calls)
    ensures !LastDrawFailed(calls)
  {
    if calls != [] {
      var front := calls[..|calls| - 1];
      assert forall i | 0 <= i < |front| :: front[i] == calls[i];
      NoFailedDraw(front);
    }
  }

  /** With a random source that never fails, a call with a valid clock reading
      is refused if and only if the greatest identifier has been handed out. */
  lemma HealthySourceExhaustion(calls: seq<Call>, c: Call)
    requires NeverFails(calls)
    ensures Advance(Reached(calls), c).1 == Err(Exhausted) <==> InRange(c) && Reached(calls).last == Some(GREATEST)
  {
    NoFailedDraw(calls);
    ReachedSane(calls);
    InStepUnlessDrawFailed(calls);
    if Advance(Reached(calls), c).1 == Err(Exhausted) {
      ExhaustionExact(calls, c);
    }
  }

  /** In a sequence of calls: the greatest identifier came out before any call
      that is refused as exhausted. */
  lemma {:induction false} ExhaustedAfterGreatest(calls: seq<Call>, i: nat)
    requires NeverFails(calls) && i < |calls| && Outcomes(calls)[i] == Err(Exhausted)
    ensures exists j | 0 <= j < i :: Outcomes(calls)[j] == Ok(GREATEST)
  {
    var before := calls[..i];
    OutcomeAt(calls, i);
    assert NeverFails(before) by {
      assert forall k | 0 <= k < i :: before[k] == calls[k];
    }
    HealthySourceExhaustion(before, calls[i]);
    LastWasHandedOut(before);
    var j :| 0 <= j < i && Outcomes(before)[j] == Ok(GREATEST);
    OutcomesOfPrefix(calls, i, j);
  }
}
