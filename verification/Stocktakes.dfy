/** Stocktakes of one product, arriving in any order. When does the final
    balance not depend on the order? An exact answer, for all arrivals. */
module Stocktakes {
  import opened Prelude
  import opened Ledger

  type Qty = n: int32 | 0 <= n

  /** One observation: when, under which movement id, and how many. */
  datatype Count = Count(at: Timestamp, id: Uuid, qty: Qty)

  /** What the policy reads of a product: its ledger balance and the canonical
      stocktake, if it has one. */
  datatype Shelf = Shelf(balance: int, canonical: Option<Count>)

  predicate Before(a: Count, b: Count) {
    KeyBefore(a.at, a.id, b.at, b.id)
  }

  /** A recomputed delta is accepted when it is not zero and fits in 32 bits. */
  predicate Moves(balance: int, qty: int) {
    qty != balance && FitsInt32(qty - balance)
  }

  /** One arrival. A rejected stocktake leaves no trace, not even its key. */
  function Arrive(s: Shelf, c: Count): Shelf {
    if s.canonical.Some? && !Before(s.canonical.value, c) then s
    else if !Moves(s.balance, c.qty) then s
    else Shelf(c.qty, Some(c))
  }

  function ArriveAll(s: Shelf, order: seq<Count>): Shelf {
    if order == [] then s else Arrive(ArriveAll(s, order[..|order| - 1]), order[|order| - 1])
  }

  predicate DistinctIds(counts: set<Count>) {
    forall a, b | a in counts && b in counts && a != b :: a.id != b.id
  }

  /** The order lists every count of the set once. */
  predicate IsArrival(order: seq<Count>, counts: set<Count>) {
    multiset(order) == multiset(counts)
  }

  predicate IsWinner(w: Count, counts: set<Count>) {
    w in counts && forall c | c in counts && c != w :: Before(c, w)
  }

  /** Every arrival order ends at the winner's count. */
  ghost predicate Confluent(start: int, counts: set<Count>, w: Count) {
    forall order | IsArrival(order, counts) :: ArriveAll(Shelf(start, None), order).balance == w.qty
  }

  /** The exact condition, on the counts alone: nothing can move a balance that
      already is the winner's; otherwise the winner is reachable from the start
      and no stocktake between an equal count and the winner differs from it. */
  ghost predicate Settles(start: int, counts: set<Count>, w: Count) {
    if w.qty == start then forall c | c in counts :: !Moves(start, c.qty)
    else FitsInt32(w.qty - start) && !exists y, x :: Reopens(counts, w, y, x)
  }

  predicate Reopens(counts: set<Count>, w: Count, y: Count, x: Count) {
    y in counts && x in counts && Before(y, x) && Before(x, w) && y.qty == w.qty && x.qty != w.qty
  }

  // ----- Sequencing helpers -----

  lemma ArriveOneMore(s: Shelf, order: seq<Count>, c: Count)
    ensures ArriveAll(s, order + [c]) == Arrive(ArriveAll(s, order), c)
  {
    assert (order + [c])[..|order|] == order;
  }

  lemma {:induction false} ArriveConcat(s: Shelf, a: seq<Count>, b: seq<Count>)
    ensures ArriveAll(s, a + b) == ArriveAll(ArriveAll(s, a), b)
  {
    if b == [] {
      assert a + b == a;
    } else {
      var front := b[..|b| - 1];
      ArriveConcat(s, a, front);
      assert a + b == (a + front) + [b[|b| - 1]];
      ArriveOneMore(s, a + front, b[|b| - 1]);
    }
  }

  /** Arrivals that change nothing one by one change nothing together. */
  lemma {:induction false} Unmoved(s: Shelf, order: seq<Count>)
    requires forall c | c in order :: Arrive(s, c) == s
    ensures ArriveAll(s, order) == s
  {
    if order != [] {
      Unmoved(s, order[..|order| - 1]);
    }
  }

  lemma {:induction false} List(counts: set<Count>) returns (order: seq<Count>)
    ensures IsArrival(order, counts) && forall c :: c in order <==> c in counts
    decreases |counts|
  {
    if counts == {} {
      order := [];
    } else {
      var c :| c in counts;
      var rest := List(counts - {c});
      order := rest + [c];
      assert counts == (counts - {c}) + {c};
      assert multiset(counts) == multiset(counts - {c}) + multiset{c};
    }
  }

  lemma {:induction false} Greatest(counts: set<Count>) returns (m: Count)
    requires counts != {} && DistinctIds(counts)
    ensures IsWinner(m, counts)
    decreases |counts|
  {
    var c :| c in counts;
    var rest := counts - {c};
    if rest == {} {
      m := c;
      assert counts == {c};
    } else {
      var best := Greatest(rest);
      m := if Before(best, c) then c else best;
      forall d | d in counts && d != m ensures Before(d, m) {
        assert d == c || d in rest;
        assert d == best || d == c || Before(d, best);
      }
    }
  }

  lemma ArrivalMembers(order: seq<Count>, counts: set<Count>)
    requires IsArrival(order, counts)
    ensures forall c :: c in order <==> c in counts
    ensures forall i, j | 0 <= i < j < |order| :: order[i] != order[j]
  {
    forall c: Count ensures c in order <==> c in counts {
      assert c in order <==> c in multiset(order);
      assert c in counts <==> c in multiset(counts);
    }
    forall i, j | 0 <= i < j < |order| ensures order[i] != order[j] {
      RepeatCountsTwice(order, i, j);
      assert multiset(counts)[order[i]] <= 1;
    }
  }

  lemma RepeatCountsTwice(order: seq<Count>, i: nat, j: nat)
    requires i < j < |order|
    ensures order[i] == order[j] ==> multiset(order)[order[i]] >= 2
  {
    var front, back := order[..j], order[j..];
    assert order == front + back;
    assert multiset(order) == multiset(front) + multiset(back);
    assert front[i] in multiset(front) && back[0] in multiset(back);
  }

  // ----- The condition is sufficient -----

  /** What holds of the shelf while stocktakes that settle arrive. */
  ghost predicate Settling(start: int, w: Count, seen: seq<Count>) {
    var s := ArriveAll(Shelf(start, None), seen);
    && (s.canonical.None? ==> s.balance == start)
    && (s.canonical.Some? ==> s.canonical.value in seen && s.balance == s.canonical.value.qty)
    && (w in seen ==> s.balance == w.qty)
  }

  lemma SettlingStep(start: int, counts: set<Count>, w: Count, seen: seq<Count>, c: Count)
    requires DistinctIds(counts) && IsWinner(w, counts) && Settles(start, counts, w) && w.qty != start
    requires c in counts && (forall k | k in seen :: k in counts) && Settling(start, w, seen)
    ensures Settling(start, w, seen + [c])
  {
    ArriveOneMore(Shelf(start, None), seen, c);
    var s := ArriveAll(Shelf(start, None), seen);
    if s.canonical.Some? {
      var k := s.canonical.value;
      if w in seen && k != w && Before(k, c) && c != w {
        assert !Reopens(counts, w, k, c);
      }
    }
  }

  lemma {:induction false} SettledPrefix(start: int, counts: set<Count>, w: Count, order: seq<Count>, n: nat)
    requires DistinctIds(counts) && IsWinner(w, counts) && Settles(start, counts, w) && w.qty != start
    requires IsArrival(order, counts) && n <= |order|
    ensures Settling(start, w, order[..n])
  {
    if n > 0 {
      ArrivalMembers(order, counts);
      SettledPrefix(start, counts, w, order, n - 1);
      assert order[..n] == order[..n - 1] + [order[n - 1]];
      SettlingStep(start, counts, w, order[..n - 1], order[n - 1]);
    }
  }

  lemma {:induction false} NothingMoves(start: int, counts: set<Count>, order: seq<Count>)
    requires forall c | c in order :: !Moves(start, c.qty)
    ensures ArriveAll(Shelf(start, None), order) == Shelf(start, None)
  {
    Unmoved(Shelf(start, None), order);
  }

  lemma SettlesIsSufficient(start: int, counts: set<Count>, w: Count)
    requires DistinctIds(counts) && IsWinner(w, counts) && Settles(start, counts, w)
    ensures Confluent(start, counts, w)
  {
    forall order | IsArrival(order, counts) ensures ArriveAll(Shelf(start, None), order).balance == w.qty {
      ArrivalMembers(order, counts);
      if w.qty == start {
        NothingMoves(start, counts, order);
      } else {
        SettledPrefix(start, counts, w, order, |order|);
        assert order[..|order|] == order;
      }
    }
  }

  // ----- The condition is necessary -----

  /** From any shelf, some order of the remaining counts ends at the greatest
      count that the shelf would accept now. */
  lemma Steer(s: Shelf, counts: set<Count>, m: Count) returns (order: seq<Count>)
    requires DistinctIds(counts)
    requires IsWinner(m, set c | c in counts && Arrive(s, c) != s)
    ensures IsArrival(order, counts) && ArriveAll(s, order) == Shelf(m.qty, Some(m))
  {
    var accepted := set c | c in counts && Arrive(s, c) != s;
    var idle := List(counts - accepted);
    var late := List(accepted - {m});
    order := idle + [m] + late;
    assert counts == (counts - accepted) + (accepted - {m}) + {m};
    assert multiset(counts) == multiset(counts - accepted) + multiset(accepted - {m}) + multiset{m};
    Unmoved(s, idle);
    ArriveOneMore(s, idle, m);
    Unmoved(Shelf(m.qty, Some(m)), late);
    ArriveConcat(s, idle + [m], late);
  }

  /** From the start, order the counts so that the outcome is not the winner's,
      when some count moves the start but the winner's does not. */
  lemma EscapeFromStart(start: int, counts: set<Count>, w: Count) returns (order: seq<Count>)
    requires DistinctIds(counts) && IsWinner(w, counts) && !Moves(start, w.qty)
    requires w.qty == start ==> exists c :: c in counts && Moves(start, c.qty)
    ensures IsArrival(order, counts) && ArriveAll(Shelf(start, None), order).balance != w.qty
  {
    var s := Shelf(start, None);
    var accepted := set c | c in counts && Arrive(s, c) != s;
    if accepted == {} {
      order := List(counts);
      forall c | c in order ensures Arrive(s, c) == s {
        assert c !in accepted;
      }
      Unmoved(s, order);
    } else {
      var m := Greatest(accepted);
      order := Steer(s, counts, m);
    }
  }

  /** Deliver the equal count first, the winner while the balance is already
      its own, and then the count that differs. */
  lemma EscapeByReopening(start: int, counts: set<Count>, w: Count, y: Count, x: Count) returns (order: seq<Count>)
    requires DistinctIds(counts) && IsWinner(w, counts) && Moves(start, w.qty) && Reopens(counts, w, y, x)
    ensures IsArrival(order, counts) && ArriveAll(Shelf(start, None), order).balance != w.qty
  {
    var s := Shelf(y.qty, Some(y));
    var rest := counts - {y};
    var accepted := set c | c in rest && Arrive(s, c) != s;
    assert Arrive(s, x) != s && x in accepted;
    var m := Greatest(accepted);
    var tail := Steer(s, rest, m);
    order := [y] + tail;
    assert counts == rest + {y};
    assert multiset(counts) == multiset(rest) + multiset{y};
    ArriveOneMore(Shelf(start, None), [], y);
    assert [] + [y] == [y];
    ArriveConcat(Shelf(start, None), [y], tail);
  }

  lemma UnsettledDiverges(start: int, counts: set<Count>, w: Count) returns (order: seq<Count>)
    requires DistinctIds(counts) && IsWinner(w, counts) && !Settles(start, counts, w)
    ensures IsArrival(order, counts) && ArriveAll(Shelf(start, None), order).balance != w.qty
  {
    if !Moves(start, w.qty) {
      order := EscapeFromStart(start, counts, w);
    } else {
      var y, x :| Reopens(counts, w, y, x);
      order := EscapeByReopening(start, counts, w, y, x);
    }
  }

  /** Arrival order is irrelevant exactly when the counts settle. */
  lemma ConfluentIffSettles(start: int, counts: set<Count>, w: Count)
    requires DistinctIds(counts) && IsWinner(w, counts)
    ensures Confluent(start, counts, w) <==> Settles(start, counts, w)
  {
    if Settles(start, counts, w) {
      SettlesIsSufficient(start, counts, w);
    } else {
      var order := UnsettledDiverges(start, counts, w);
    }
  }

  // ----- From a product that already has a canonical stocktake -----

  /** A count behind the canonical stocktake is displaced whenever it arrives. */
  predicate Live(s: Shelf, c: Count) {
    s.canonical.None? || Before(s.canonical.value, c)
  }

  function Contenders(s: Shelf, counts: set<Count>): set<Count> {
    set c | c in counts && Live(s, c)
  }

  /** The arrivals that are not displaced from the outset. */
  function Kept(s: Shelf, order: seq<Count>): seq<Count> {
    if order == [] then []
    else Kept(s, order[..|order| - 1]) + (if Live(s, order[|order| - 1]) then [order[|order| - 1]] else [])
  }

  /** With them the product moves as one without stocktakes would. */
  lemma {:induction false} OnlyKeptMatter(s: Shelf, order: seq<Count>)
    ensures var actual, plain := ArriveAll(s, order), ArriveAll(Shelf(s.balance, None), Kept(s, order));
      && actual.balance == plain.balance
      && actual.canonical == (if plain.canonical.None? then s.canonical else plain.canonical)
      && (plain.canonical.Some? ==> Live(s, plain.canonical.value))
  {
    if order != [] {
      var front, c := order[..|order| - 1], order[|order| - 1];
      OnlyKeptMatter(s, front);
      if Live(s, c) {
        ArriveOneMore(Shelf(s.balance, None), Kept(s, front), c);
      } else {
        assert Kept(s, front) + [] == Kept(s, front);
      }
    }
  }

  lemma {:induction false} KeptCount(s: Shelf, order: seq<Count>, c: Count)
    ensures multiset(Kept(s, order))[c] == if Live(s, c) then multiset(order)[c] else 0
  {
    if order != [] {
      var front, last := order[..|order| - 1], order[|order| - 1];
      KeptCount(s, front, c);
      assert order == front + [last];
    }
  }

  lemma {:induction false} KeptConcat(s: Shelf, a: seq<Count>, b: seq<Count>)
    ensures Kept(s, a + b) == Kept(s, a) + Kept(s, b)
  {
    if b == [] {
      assert a + b == a;
    } else {
      var front := b[..|b| - 1];
      KeptConcat(s, a, front);
      assert (a + b)[..|a + b| - 1] == a + front;
    }
  }

  lemma {:induction false} KeptAllOrNone(s: Shelf, order: seq<Count>)
    ensures (forall c | c in order :: Live(s, c)) ==> Kept(s, order) == order
    ensures (forall c | c in order :: !Live(s, c)) ==> Kept(s, order) == []
  {
    if order != [] {
      var front := order[..|order| - 1];
      assert order == front + [order[|order| - 1]];
      KeptAllOrNone(s, front);
    }
  }

  lemma KeptIsArrival(s: Shelf, order: seq<Count>, counts: set<Count>)
    requires IsArrival(order, counts)
    ensures IsArrival(Kept(s, order), Contenders(s, counts))
  {
    forall c: Count ensures multiset(Kept(s, order))[c] == multiset(Contenders(s, counts))[c] {
      KeptCount(s, order, c);
      assert multiset(order)[c] == multiset(counts)[c];
    }
  }

  /** Every order of the contenders is what remains of some order of all. */
  lemma ArrivalOfContenders(s: Shelf, live: seq<Count>, counts: set<Count>) returns (order: seq<Count>)
    requires IsArrival(live, Contenders(s, counts))
    ensures IsArrival(order, counts) && Kept(s, order) == live
  {
    var contenders := Contenders(s, counts);
    var rest := List(counts - contenders);
    order := live + rest;
    assert counts == contenders + (counts - contenders);
    assert multiset(counts) == multiset(contenders) + multiset(counts - contenders);
    KeptConcat(s, live, rest);
    ArrivalMembers(live, contenders);
    KeptAllOrNone(s, live);
    KeptAllOrNone(s, rest);
  }

  ghost predicate ConfluentFrom(s: Shelf, counts: set<Count>, w: Count) {
    forall order | IsArrival(order, counts) :: ArriveAll(s, order).balance == w.qty
  }

  /** From any shelf: arrival order is irrelevant exactly when the counts ahead
      of its canonical stocktake settle. */
  lemma ConfluentFromIffSettles(s: Shelf, counts: set<Count>, w: Count)
    requires DistinctIds(counts) && IsWinner(w, Contenders(s, counts))
    ensures ConfluentFrom(s, counts, w) <==> Settles(s.balance, Contenders(s, counts), w)
  {
    var contenders := Contenders(s, counts);
    ConfluentIffSettles(s.balance, contenders, w);
    if Confluent(s.balance, contenders, w) {
      forall order | IsArrival(order, counts) ensures ArriveAll(s, order).balance == w.qty {
        KeptIsArrival(s, order, counts);
        OnlyKeptMatter(s, order);
      }
    }
    if ConfluentFrom(s, counts, w) {
      forall live | IsArrival(live, contenders) ensures ArriveAll(Shelf(s.balance, None), live).balance == w.qty {
        var order := ArrivalOfContenders(s, live, counts);
        OnlyKeptMatter(s, order);
      }
    }
  }

  /** With no count ahead of the canonical stocktake nothing changes. */
  lemma NothingAhead(s: Shelf, order: seq<Count>)
    requires forall c | c in order :: !Live(s, c)
    ensures ArriveAll(s, order) == s
  {
    Unmoved(s, order);
  }

  /** The policy's claim that two stale stocktakes converge whatever the order
      is false as stated: a count equal to the balance is rejected without
      recording its key. */
  lemma TwoStocktakesMayDiverge()
    ensures var a, b := Count(10, 1, 7), Count(20, 2, 5);
      && ArriveAll(Shelf(5, None), [a, b]).balance == 5
      && ArriveAll(Shelf(5, None), [b, a]).balance == 7
      && IsWinner(b, {a, b}) && !Settles(5, {a, b}, b)
  {
    var a, b := Count(10, 1, 7), Count(20, 2, 5);
    var s := Shelf(5, None);
    ArriveOneMore(s, [], a);
    ArriveOneMore(s, [], b);
    ArriveOneMore(s, [a], b);
    ArriveOneMore(s, [b], a);
    assert [] + [a] == [a] && [] + [b] == [b] && [a] + [b] == [a, b] && [b] + [a] == [b, a];
    assert a in {a, b} && Moves(5, a.qty);
  }

  // ----- Which arrivals are applied -----

  /** The arrival at position i changes the shelf. */
  predicate AppliedAt(s: Shelf, order: seq<Count>, i: nat)
    requires i < |order|
  {
    Arrive(ArriveAll(s, order[..i]), order[i]) != ArriveAll(s, order[..i])
  }

  predicate RunningMaximum(order: seq<Count>, i: nat)
    requires i < |order|
  {
    forall j | 0 <= j < i :: Before(order[j], order[i])
  }

  /** The shelf holds the greatest arrival so far. */
  predicate HoldsMaximum(s: Shelf, seen: seq<Count>) {
    && s.canonical.Some? && s.canonical.value in seen && s.balance == s.canonical.value.qty
    && forall c | c in seen && c != s.canonical.value :: Before(c, s.canonical.value)
  }

  lemma MaximumStep(s: Shelf, seen: seq<Count>, c: Count)
    requires HoldsMaximum(s, seen) && c !in seen
    requires forall d | d in seen :: d.id != c.id && d.qty != c.qty
    ensures HoldsMaximum(Arrive(s, c), seen + [c])
    ensures Arrive(s, c) != s <==> forall d | d in seen :: Before(d, c)
  {
  }

  /** Counts that differ from each other and from the start are applied exactly
      when they are the greatest so far, whatever the order. */
  lemma {:induction false} AppliedAreRunningMaxima(start: int, counts: set<Count>, order: seq<Count>, i: nat)
    requires DistinctIds(counts) && IsArrival(order, counts) && i < |order|
    requires forall c | c in counts :: Moves(start, c.qty)
    requires forall a, b | a in counts && b in counts && a != b :: a.qty != b.qty
    ensures AppliedAt(Shelf(start, None), order, i) <==> RunningMaximum(order, i)
    ensures HoldsMaximum(ArriveAll(Shelf(start, None), order[..i + 1]), order[..i + 1])
  {
    ArrivalMembers(order, counts);
    var seen, c := order[..i], order[i];
    assert order[..i + 1] == seen + [c];
    ArriveOneMore(Shelf(start, None), seen, c);
    if i == 0 {
      assert seen == [];
    } else {
      AppliedAreRunningMaxima(start, counts, order, i - 1);
      MaximumStep(ArriveAll(Shelf(start, None), seen), seen, c);
      assert (forall d | d in seen :: Before(d, c)) <==> RunningMaximum(order, i) by {
        assert forall j | 0 <= j < i :: seen[j] == order[j];
      }
    }
  }
}
