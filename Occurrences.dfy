/**
 * An occurrence of an event: its current span, the span it was generated
 * with (its identity), and whether it is cancelled. The engine passes
 * occurrences around as values; `OccurrenceRecord` is the persisted row whose
 * fields `move`, `cancel` and `uncancel` update in place.
 */
module Occurrences {
  import opened Recurrence

  /** Events are referred to by their identifier. */
  type EventId = int

  /** The key a persisted occurrence is matched by: its original start and end. */
  type Slot = (Instant, Instant)

  datatype Occurrence = Occurrence(
    event: EventId,
    start: Instant,
    end: Instant,
    cancelled: bool,
    originalStart: Instant,
    originalEnd: Instant)
  {
    /** The virtual slot this occurrence stands for. */
    function Key(): Slot
    {
      (originalStart, originalEnd)
    }

    /** The `moved` property: the current span differs from the original one. */
    predicate Moved()
    {
      originalStart != start || originalEnd != end
    }

    /** `__eq__`: two occurrences are equal when they fill the same slot of the same event. */
    predicate SameSlot(other: Occurrence)
    {
      event == other.event && originalStart == other.originalStart && originalEnd == other.originalEnd
    }

    /** `__cmp__`: compare by start, then by end, answering -1, 0 or 1. */
    function Compare(other: Occurrence): (rank: int)
      ensures rank == -1 || rank == 0 || rank == 1
      ensures rank < 0 <==> start < other.start || (start == other.start && end < other.end)
      ensures rank == 0 <==> start == other.start && end == other.end
    {
      var rank := Cmp(start, other.start);
      if rank == 0 then Cmp(end, other.end) else rank
    }
  }

  /** Python's `cmp` on two instants. */
  function Cmp(a: Instant, b: Instant): int
  {
    if a < b then -1 else if a == b then 0 else 1
  }

  /**
   * The window test used for occurrences throughout the engine: the span
   * starts strictly before `end` and ends at or after `start`.
   */
  predicate Meets(o: Occurrence, start: Instant, end: Instant)
  {
    o.start < end && o.end >= start
  }

  /** `__cmp__` is antisymmetric. */
  lemma CompareAntisymmetric(a: Occurrence, b: Occurrence)
    ensures a.Compare(b) == -b.Compare(a)
  {
  }

  /** `__cmp__` is transitive: it orders occurrences lexicographically by (start, end). */
  lemma CompareTransitive(a: Occurrence, b: Occurrence, c: Occurrence)
    requires a.Compare(b) <= 0 && b.Compare(c) <= 0
    ensures a.Compare(c) <= 0
  {
  }

  /** Ordering and identity are independent: equal occurrences may compare unequal. */
  lemma MovedStillSameSlot(o: Occurrence, newStart: Instant, newEnd: Instant)
    ensures o.(start := newStart, end := newEnd).SameSlot(o)
    ensures o.(cancelled := true).SameSlot(o) && o.(cancelled := false).SameSlot(o)
    ensures o.(start := newStart, end := newEnd).Moved() <==> newStart != o.originalStart || newEnd != o.originalEnd
  {
  }

  /** A persisted occurrence whose fields are updated in place. */
  class OccurrenceRecord {
    const event: EventId
    var start: Instant
    var end: Instant
    var cancelled: bool
    const originalStart: Instant
    const originalEnd: Instant

    /** The record's current contents as a value. */
    function Value(): (o: Occurrence)
      reads this
      ensures o.event == event && o.Key() == (originalStart, originalEnd)
    {
      Occurrence(event, start, end, cancelled, originalStart, originalEnd)
    }

    /** Persist an occurrence value as a record. */
    constructor (o: Occurrence)
      ensures Value() == o
    {
      event, start, end, cancelled := o.event, o.start, o.end, o.cancelled;
      originalStart, originalEnd := o.originalStart, o.originalEnd;
    }

    /** `move`: only the current span changes; the record keeps its slot. */
    method Move(newStart: Instant, newEnd: Instant)
      modifies this
      ensures Value() == old(Value()).(start := newStart, end := newEnd)
      ensures Value().SameSlot(old(Value()))
      ensures Value().Moved() <==> newStart != originalStart || newEnd != originalEnd
    {
      start := newStart;
      end := newEnd;
    }

    /** `cancel`: only the cancelled flag changes, to true. */
    method Cancel()
      modifies this
      ensures Value() == old(Value()).(cancelled := true)
      ensures Value().SameSlot(old(Value())) && Value().Moved() == old(Value().Moved())
    {
      cancelled := true;
    }

    /** `uncancel`: only the cancelled flag changes, to false. */
    method Uncancel()
      modifies this
      ensures Value() == old(Value()).(cancelled := false)
      ensures Value().SameSlot(old(Value())) && Value().Moved() == old(Value().Moved())
    {
      cancelled := false;
    }
  }
}
