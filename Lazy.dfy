/**
 * The open-ended mode of the engine: `_occurrences_after_generator` walks the
 * rule one instant at a time and yields the occurrences that end after a
 * given instant; `occurrences_after` passes each through the replacer.
 * Both generators become objects with a `Next` method that returns `None`
 * once the generator is exhausted.
 */
module LazyOccurrences {
  import opened Wrappers
  import opened Recurrence
  import opened Occurrences
  import opened Events

  /**
   * What the generator yields from rule index `i` on: the instants up to and
   * including `period` (it stops at the first one past it, or when the rule
   * runs out), keeping those whose occurrence ends strictly after `after`.
   */
  function AfterFrom(e: Event, r: Rule, i: nat, period: Instant, after: Instant): seq<Occurrence>
    decreases if InRange(r, i) && At(e.start, r, i) <= period then period - At(e.start, r, i) + 1 else 0
  {
    if !InRange(r, i) || At(e.start, r, i) > period then []
    else
      var oStart := At(e.start, r, i);
      var rest := AfterFrom(e, r, i + 1, period, after);
      if oStart + Duration(e) > after then [CreateOccurrence(e, oStart, Some(oStart + Duration(e)))] + rest
      else rest
  }

  /**
   * What the generator yields from index `i` on is unmoved and of the
   * event's duration; every start lies between instant `i` and `period`,
   * and every end is strictly after `after`.
   */
  lemma {:induction false} AfterFromBounds(e: Event, r: Rule, i: nat, period: Instant, after: Instant)
    ensures GeneratedBy(e, AfterFrom(e, r, i, period, after))
    ensures forall o :: o in AfterFrom(e, r, i, period, after) ==> At(e.start, r, i) <= o.start <= period && o.end > after
    decreases if InRange(r, i) && At(e.start, r, i) <= period then period - At(e.start, r, i) + 1 else 0
  {
    if InRange(r, i) && At(e.start, r, i) <= period {
      AfterFromBounds(e, r, i + 1, period, after);
      assert At(e.start, r, i) < At(e.start, r, i + 1);
    }
  }

  /** Every start the generator yields from index `i` on is a rule instant at index `i` or later. */
  lemma {:induction false} AfterFromInstants(e: Event, r: Rule, i: nat, period: Instant, after: Instant)
    ensures forall o :: o in AfterFrom(e, r, i, period, after) ==>
              exists j: nat :: i <= j && InRange(r, j) && At(e.start, r, j) == o.start
    decreases if InRange(r, i) && At(e.start, r, i) <= period then period - At(e.start, r, i) + 1 else 0
  {
    if InRange(r, i) && At(e.start, r, i) <= period {
      AfterFromInstants(e, r, i + 1, period, after);
    }
  }

  /** What the generator yields is in rule order: original starts strictly increase. */
  lemma {:induction false} AfterFromOrdered(e: Event, r: Rule, i: nat, period: Instant, after: Instant)
    ensures SlotsIncreasing(AfterFrom(e, r, i, period, after))
    decreases if InRange(r, i) && At(e.start, r, i) <= period then period - At(e.start, r, i) + 1 else 0
  {
    if InRange(r, i) && At(e.start, r, i) <= period {
      AfterFromOrdered(e, r, i + 1, period, after);
      AfterFromBounds(e, r, i + 1, period, after);
      var os := AfterFrom(e, r, i, period, after);
      var rest := AfterFrom(e, r, i + 1, period, after);
      var oStart := At(e.start, r, i);
      assert oStart < At(e.start, r, i + 1);
      if oStart + Duration(e) > after {
        var first := CreateOccurrence(e, oStart, Some(oStart + Duration(e)));
        assert os == [first] + rest;
        forall p, q | 0 <= p < q < |os| ensures os[p].originalStart < os[q].originalStart {
          if p == 0 {
            assert os[q] in rest;
          } else {
            assert os[p] == rest[p - 1] && os[q] == rest[q - 1];
          }
        }
      }
    }
  }

  /** One step of the rule cursor: the instant at `i` contributes at most one occurrence. */
  lemma AfterFromStep(e: Event, r: Rule, i: nat, period: Instant, after: Instant)
    requires InRange(r, i) && At(e.start, r, i) <= period
    ensures var oStart := At(e.start, r, i);
            AfterFrom(e, r, i, period, after) ==
            (if oStart + Duration(e) > after then [CreateOccurrence(e, oStart, Some(oStart + Duration(e)))] else []) +
            AfterFrom(e, r, i + 1, period, after)
  {
  }

  /**
   * Everything `_occurrences_after_generator(after)` yields. The rule branch
   * needs the end of the recurrence period.
   */
  function OccurrencesAfter(e: Event, after: Instant): seq<Occurrence>
    requires e.rule.Some? ==> e.endRecurringPeriod.Some?
  {
    if e.rule.None? then
      if e.end > after then [CreateOccurrence(e, e.start, Some(e.end))] else []
    else AfterFrom(e, e.rule.value, 0, e.endRecurringPeriod.value, after)
  }

  /** Without a rule the generator yields at most the event itself, and only if it ends after `after`. */
  lemma NoRuleAfter(e: Event, after: Instant)
    requires e.rule.None?
    ensures |OccurrencesAfter(e, after)| <= 1
    ensures OccurrencesAfter(e, after) != [] <==> e.end > after
    ensures forall o :: o in OccurrencesAfter(e, after) ==> o.start == e.start && o.end == e.end
  {
  }

  /**
   * Every rule instant up to the end of the recurrence period whose
   * occurrence ends after `after` is yielded; an instant equal to the end of
   * the period is still included.
   */
  lemma {:induction false} AfterFromComplete(e: Event, r: Rule, i: nat, j: nat, period: Instant, after: Instant)
    requires i <= j && InRange(r, j) && At(e.start, r, j) <= period
    requires At(e.start, r, j) + Duration(e) > after
    ensures exists o :: o in AfterFrom(e, r, i, period, after) && o.start == At(e.start, r, j)
    decreases j - i
  {
    if i == j {
      var o := CreateOccurrence(e, At(e.start, r, j), Some(At(e.start, r, j) + Duration(e)));
      assert o in AfterFrom(e, r, i, period, after);
    } else {
      AtStrictlyIncreasing(e.start, r, i, j);
      assert InRange(r, i);
      AfterFromComplete(e, r, i + 1, j, period, after);
      var o :| o in AfterFrom(e, r, i + 1, period, after) && o.start == At(e.start, r, j);
      assert o in AfterFrom(e, r, i, period, after);
    }
  }

  /**
   * With a rule, the generator yields exactly the occurrences at the rule
   * instants `s` with `s <= end_recurring_period` and `s + duration > after`,
   * in rule order.
   */
  lemma RuleAfterExact(e: Event, after: Instant, x: Instant)
    requires e.rule.Some? && e.endRecurringPeriod.Some?
    ensures (exists o :: o in OccurrencesAfter(e, after) && o.start == x) <==>
            x <= e.endRecurringPeriod.value && x + Duration(e) > after &&
            exists j: nat :: InRange(e.rule.value, j) && At(e.start, e.rule.value, j) == x
  {
    AfterFromBounds(e, e.rule.value, 0, e.endRecurringPeriod.value, after);
    AfterFromInstants(e, e.rule.value, 0, e.endRecurringPeriod.value, after);
    if j: nat :| InRange(e.rule.value, j) && At(e.start, e.rule.value, j) == x &&
                 x <= e.endRecurringPeriod.value && x + Duration(e) > after {
      AfterFromComplete(e, e.rule.value, 0, j, e.endRecurringPeriod.value, after);
    }
  }

  /** The lazy state of `_occurrences_after_generator`: a cursor into the rule. */
  class AfterGenerator {
    const event: Event
    const after: Instant
    const difference: int
    /** Index of the instant the rule cursor produces next. */
    var cursor: nat
    /** That instant. */
    var next: Instant
    /** Has the generator finished (returned or raised StopIteration)? */
    var stopped: bool

    ghost predicate Valid()
      reads this
    {
      difference == Duration(event) &&
      (event.rule.Some? ==> event.endRecurringPeriod.Some? && next == At(event.start, event.rule.value, cursor))
    }

    /** What the generator has still to yield. */
    ghost function Pending(): seq<Occurrence>
      reads this
      requires Valid()
    {
      if stopped then []
      else if event.rule.None? then OccurrencesAfter(event, after)
      else AfterFrom(event, event.rule.value, cursor, event.endRecurringPeriod.value, after)
    }

    constructor (e: Event, after: Instant)
      requires e.rule.Some? ==> e.endRecurringPeriod.Some?
      ensures Valid() && event == e && this.after == after
      ensures Pending() == OccurrencesAfter(e, after)
    {
      event, this.after := e, after;
      difference := e.end - e.start;
      cursor, next, stopped := 0, e.start + (if e.rule.Some? then e.rule.value.lead else 0), false;
    }

    /** One `next()` of the generator: the next pending occurrence, or `None` once it is done. */
    method Next() returns (o: Option<Occurrence>)
      requires Valid()
      modifies this
      ensures Valid()
      ensures old(Pending()) == [] ==> o == None && Pending() == []
      ensures old(Pending()) != [] ==> o == Some(old(Pending())[0]) && Pending() == old(Pending())[1..]
    {
      if stopped {
        return None;
      }
      if event.rule.None? {
        stopped := true;
        if event.end > after {
          return Some(CreateOccurrence(event, event.start, Some(event.end)));
        }
        return None;
      }
      o := Advance();
    }

    /** The `while True` loop of the rule branch: pull instants until one is yielded or the rule is done. */
    method Advance() returns (o: Option<Occurrence>)
      requires Valid() && !stopped && event.rule.Some?
      modifies this
      ensures Valid()
      ensures var rule, period := event.rule.value, event.endRecurringPeriod.value;
              var pending := old(AfterFrom(event, rule, cursor, period, after));
              (pending == [] ==> o == None && stopped) &&
              (pending != [] ==> o == Some(pending[0]) && !stopped && AfterFrom(event, rule, cursor, period, after) == pending[1..])
    {
      var rule, period := event.rule.value, event.endRecurringPeriod.value;
      ghost var pending := AfterFrom(event, rule, cursor, period, after);
      while true
        invariant Valid() && !stopped
        invariant AfterFrom(event, rule, cursor, period, after) == pending
        decreases if InRange(rule, cursor) && next <= period then period - next + 1 else 0
      {
        if !InRange(rule, cursor) {
          stopped := true;
          return None;
        }
        var oStart := next;
        next := next + rule.gap(cursor);
        cursor := cursor + 1;
        if oStart > period {
          stopped := true;
          return None;
        }
        AfterFromStep(event, rule, cursor - 1, period, after);
        var oEnd := oStart + difference;
        if oEnd > after {
          return Some(CreateOccurrence(event, oStart, Some(oEnd)));
        }
      }
    }
  }

  /** Each occurrence replaced by the persisted one filed under its slot, if any. */
  function Substitute(os: seq<Occurrence>, lookup: map<Slot, Occurrence>): (rs: seq<Occurrence>)
    ensures |rs| == |os|
    ensures forall k :: 0 <= k < |os| ==> rs[k] == if os[k].Key() in lookup then lookup[os[k].Key()] else os[k]
  {
    if os == [] then [] else
      [if os[0].Key() in lookup then lookup[os[0].Key()] else os[0]] + Substitute(os[1..], lookup)
  }

  /** Consuming an entry whose slot does not occur later changes nothing later. */
  lemma SubstituteWithout(os: seq<Occurrence>, lookup: map<Slot, Occurrence>, k: Slot)
    requires forall o :: o in os ==> o.Key() != k
    ensures Substitute(os, lookup - {k}) == Substitute(os, lookup)
  {
  }

  /** The lazy state of `occurrences_after`: the generator and the replacer it consults. */
  class OccurrenceStream {
    const generator: AfterGenerator
    /** The replacer's entries not yet consumed. */
    var unused: map<Slot, Occurrence>

    ghost predicate Valid()
      reads this, generator
    {
      generator.Valid()
    }

    /** What the stream has still to yield. */
    ghost function Pending(): seq<Occurrence>
      reads this, generator
      requires Valid()
    {
      Substitute(generator.Pending(), unused)
    }

    /** `persisted` is the event's own `occurrence_set`. */
    constructor (e: Event, after: Instant, persisted: seq<Occurrence>)
      requires e.rule.Some? ==> e.endRecurringPeriod.Some?
      requires forall o :: o in persisted ==> o.event == e.id
      ensures Valid() && fresh(generator)
      ensures Pending() == Substitute(OccurrencesAfter(e, after), Index(persisted))
    {
      unused := Index(persisted);
      generator := new AfterGenerator(e, after);
    }

    /** One `next()`: the generator's next occurrence, replaced by its persisted form if there is one. */
    method Next() returns (o: Option<Occurrence>)
      requires Valid()
      modifies this, generator
      ensures Valid()
      ensures old(Pending()) == [] ==> o == None && Pending() == []
      ensures old(Pending()) != [] ==> o == Some(old(Pending())[0]) && Pending() == old(Pending())[1..]
    {
      ghost var pending := generator.Pending();
      if !generator.stopped && generator.event.rule.Some? {
        AfterFromOrdered(generator.event, generator.event.rule.value, generator.cursor, generator.event.endRecurringPeriod.value, generator.after);
      }
      var next := generator.Next();
      match next
      case None =>
        o := None;
      case Some(v) =>
        assert SlotsIncreasing(pending) && pending[0] == v;
        assert forall q :: 0 < q < |pending| ==> pending[q].originalStart > v.originalStart;
        if v.Key() in unused {
          o := Some(unused[v.Key()]);
          SubstituteWithout(pending[1..], unused, v.Key());
          unused := unused - {v.Key()};
        } else {
          o := Some(v);
        }
    }
  }
}
