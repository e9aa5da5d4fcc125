/**
 * The recurrence rule as the engine sees it: `get_rrule_object` pairs the
 * event's rule with `dtstart = event.start` and hands it to a foreign
 * recurrence library. Here that library is abstracted as a strictly
 * increasing sequence of instants that begins at (or `lead` seconds after)
 * `dtstart`; `count` bounds a rule with finitely many instants.
 */
module Recurrence {
  import opened Wrappers

  /** Instants are whole seconds on one implied time line. */
  type Instant = int

  /** A gap between two successive rule instants: at least one second. */
  type Gap = g: int | g >= 1 witness 1

  /**
   * A rule anchored at an event's start: its first instant is `dtstart + lead`,
   * each next one `gap(i)` seconds after instant `i`; with `count == Some(n)`
   * only instants `0 .. n-1` exist.
   */
  datatype Rule = Rule(lead: nat, gap: nat -> Gap, count: Option<nat>)

  /** Does the rule have an `i`-th instant? */
  predicate InRange(r: Rule, i: nat)
  {
    r.count.None? || i < r.count.value
  }

  /** The `i`-th instant of `r` when anchored at `dtstart`. */
  function At(dtstart: Instant, r: Rule, i: nat): Instant
    decreases i
  {
    if i == 0 then dtstart + r.lead else At(dtstart, r, i - 1) + r.gap(i - 1)
  }

  /** Instants grow by at least one second per step, from `dtstart` on. */
  lemma {:induction false} AtGrows(dtstart: Instant, r: Rule, i: nat)
    ensures At(dtstart, r, i) >= dtstart + i
  {
    if i > 0 {
      AtGrows(dtstart, r, i - 1);
    }
  }

  /** The instant sequence is strictly increasing. */
  lemma {:induction false} AtStrictlyIncreasing(dtstart: Instant, r: Rule, i: nat, j: nat)
    requires i < j
    ensures At(dtstart, r, i) < At(dtstart, r, j)
  {
    if i < j - 1 {
      AtStrictlyIncreasing(dtstart, r, i, j - 1);
    }
  }

  /** `xs` is strictly increasing. */
  predicate Increasing(xs: seq<Instant>)
  {
    forall p, q :: 0 <= p < q < |xs| ==> xs[p] < xs[q]
  }

  /**
   * `between(a, b, inc=True)` restricted to the instants with index `i` or
   * later: the instants in the closed interval `[a, b]`, in rule order.
   */
  function BetweenFrom(dtstart: Instant, r: Rule, i: nat, a: Instant, b: Instant): (xs: seq<Instant>)
    ensures Increasing(xs)
    ensures forall k :: 0 <= k < |xs| ==> a <= xs[k] <= b
    ensures forall k :: 0 <= k < |xs| ==> exists j: nat :: i <= j && InRange(r, j) && At(dtstart, r, j) == xs[k]
    ensures xs != [] ==> At(dtstart, r, i) <= xs[0]
    decreases if InRange(r, i) && At(dtstart, r, i) <= b then b - At(dtstart, r, i) + 1 else 0
  {
    if !InRange(r, i) || At(dtstart, r, i) > b then []
    else
      var x := At(dtstart, r, i);
      var rest := BetweenFrom(dtstart, r, i + 1, a, b);
      if a <= x then [x] + rest else rest
  }

  /** `between(a, b, inc=True)` of the rule anchored at `dtstart`. */
  function Between(dtstart: Instant, r: Rule, a: Instant, b: Instant): (xs: seq<Instant>)
  {
    BetweenFrom(dtstart, r, 0, a, b)
  }

  /** Every rule instant in `[a, b]` with index at least `i` is listed by `BetweenFrom`. */
  lemma {:induction false} BetweenFromComplete(dtstart: Instant, r: Rule, i: nat, j: nat, a: Instant, b: Instant)
    requires i <= j && InRange(r, j)
    requires a <= At(dtstart, r, j) <= b
    ensures At(dtstart, r, j) in BetweenFrom(dtstart, r, i, a, b)
    decreases j - i
  {
    if i < j {
      AtStrictlyIncreasing(dtstart, r, i, j);
      assert InRange(r, i);
      BetweenFromComplete(dtstart, r, i + 1, j, a, b);
    }
  }

  /**
   * `between` lists exactly the rule instants in `[a, b]`: an instant is in
   * the result if and only if it lies in the interval and the rule has it.
   */
  lemma BetweenExact(dtstart: Instant, r: Rule, a: Instant, b: Instant, x: Instant)
    ensures x in Between(dtstart, r, a, b) <==>
            a <= x <= b && exists j: nat :: InRange(r, j) && At(dtstart, r, j) == x
  {
    var xs := Between(dtstart, r, a, b);
    if a <= x <= b && exists j: nat :: InRange(r, j) && At(dtstart, r, j) == x {
      var j: nat :| InRange(r, j) && At(dtstart, r, j) == x;
      BetweenFromComplete(dtstart, r, 0, j, a, b);
    }
    if x in xs {
      var k :| 0 <= k < |xs| && xs[k] == x;
    }
  }

  /**
   * `after(date, inc=True)` from index `i` on: the index of the first rule
   * instant at or after `date`, or `None` when the rule runs out first.
   */
  function FirstAtOrAfter(dtstart: Instant, r: Rule, i: nat, date: Instant): (found: Option<nat>)
    ensures found.Some? ==> i <= found.value && InRange(r, found.value) && At(dtstart, r, found.value) >= date
    ensures found.Some? ==> forall j: nat :: i <= j < found.value ==> At(dtstart, r, j) < date
    ensures found.None? ==> forall j: nat :: i <= j && InRange(r, j) ==> At(dtstart, r, j) < date
    decreases if InRange(r, i) && At(dtstart, r, i) < date then date - At(dtstart, r, i) else 0
  {
    if !InRange(r, i) then
      assert forall j: nat :: i <= j ==> !InRange(r, j);
      None
    else if At(dtstart, r, i) >= date then Some(i)
    else FirstAtOrAfter(dtstart, r, i + 1, date)
  }
}
