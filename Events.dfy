/**
 * The occurrence engine of an event: expanding its rule over a window into
 * virtual occurrences, replacing them by their persisted counterparts, and
 * looking up the occurrence that starts at a given instant.
 */
module Events {
  import opened Wrappers
  import opened Recurrence
  import opened Occurrences

  /**
   * An event: a base span, an optional recurrence rule and an optional end
   * of the recurrence period (which is ignored when there is no rule).
   */
  datatype Event = Event(
    id: EventId,
    start: Instant,
    end: Instant,
    rule: Option<Rule>,
    endRecurringPeriod: Option<Instant>)

  /** `self.end - self.start`; not validated, so it may be zero or negative. */
  function Duration(e: Event): int
  {
    e.end - e.start
  }

  /**
   * `_create_occurrence(start, end)`: a fresh, uncancelled occurrence whose
   * original span is its current one; without `end`, it lasts as long as the event.
   */
  function CreateOccurrence(e: Event, start: Instant, end: Option<Instant>): (o: Occurrence)
    ensures o.event == e.id && o.start == start && !o.cancelled && !o.Moved()
    ensures o.Key() == (o.start, o.end)
    ensures end.Some? ==> o.end == end.value
    ensures end.None? ==> o.end - o.start == Duration(e)
  {
    var end := if end.None? then start + (e.end - e.start) else end.value;
    Occurrence(e.id, start, end, false, start, end)
  }

  /** The virtual occurrences of `e` that start at the given instants, in their order. */
  function Virtuals(e: Event, starts: seq<Instant>): (os: seq<Occurrence>)
    ensures |os| == |starts|
    ensures forall k :: 0 <= k < |os| ==>
              os[k].event == e.id && os[k].start == starts[k] && os[k].end == starts[k] + Duration(e) &&
              !os[k].cancelled && !os[k].Moved()
  {
    seq(|starts|, k requires 0 <= k < |starts| => CreateOccurrence(e, starts[k], Some(starts[k] + Duration(e))))
  }

  /** The end of the window a rule is expanded over: `end`, cut back to the end of the recurrence period. */
  function ClampedEnd(e: Event, end: Instant): Instant
  {
    if e.endRecurringPeriod.Some? && e.endRecurringPeriod.value < end then e.endRecurringPeriod.value else end
  }

  /** Original starts strictly increase along `os`: no slot occurs twice. */
  predicate SlotsIncreasing(os: seq<Occurrence>)
  {
    forall p, q :: 0 <= p < q < |os| ==> os[p].originalStart < os[q].originalStart
  }

  /** Every occurrence is unmoved, uncancelled, of `e`, and lasts as long as `e`. */
  predicate GeneratedBy(e: Event, os: seq<Occurrence>)
  {
    forall o :: o in os ==>
      o.event == e.id && !o.cancelled && o.end - o.start == Duration(e) &&
      o.originalStart == o.start && o.originalEnd == o.end
  }

  /** The rule instants `_get_occurrence_list` expands: those in `[start - duration, end']`. */
  function RuleStarts(e: Event, start: Instant, end: Instant): seq<Instant>
    requires e.rule.Some?
  {
    Between(e.start, e.rule.value, start - Duration(e), ClampedEnd(e, end))
  }

  /** `_get_occurrence_list(start, end)`: the virtual occurrences of `e` for the window. */
  function OccurrenceList(e: Event, start: Instant, end: Instant): seq<Occurrence>
  {
    if e.rule.Some? then Virtuals(e, RuleStarts(e, start, end))
    else if e.start < end && e.end >= start then [CreateOccurrence(e, e.start, None)]
    else []
  }

  /**
   * Every generated occurrence lasts as long as the event and is unmoved,
   * uncancelled and of this event; the list is in rule order.
   */
  lemma OccurrenceListShape(e: Event, start: Instant, end: Instant)
    ensures GeneratedBy(e, OccurrenceList(e, start, end))
    ensures SlotsIncreasing(OccurrenceList(e, start, end))
  {
  }

  /** Extending the instants by one extends the virtual occurrences by one. */
  lemma VirtualsSnoc(e: Event, starts: seq<Instant>, k: nat)
    requires k < |starts|
    ensures Virtuals(e, starts[..k + 1]) == Virtuals(e, starts[..k]) + [CreateOccurrence(e, starts[k], Some(starts[k] + Duration(e)))]
  {
    var lhs, rhs := Virtuals(e, starts[..k + 1]), Virtuals(e, starts[..k]) + [CreateOccurrence(e, starts[k], Some(starts[k] + Duration(e)))];
    assert forall m :: 0 <= m < k + 1 ==> lhs[m] == rhs[m];
  }

  /** The `for o_start in o_starts` loop of `_get_occurrence_list`. */
  method CreateAll(e: Event, oStarts: seq<Instant>) returns (occurrences: seq<Occurrence>)
    ensures occurrences == Virtuals(e, oStarts)
  {
    var difference := e.end - e.start;
    occurrences := [];
    for k := 0 to |oStarts|
      invariant occurrences == Virtuals(e, oStarts[..k])
    {
      var oStart := oStarts[k];
      var oEnd := oStart + difference;
      VirtualsSnoc(e, oStarts, k);
      occurrences := occurrences + [CreateOccurrence(e, oStart, Some(oEnd))];
    }
    assert oStarts[..|oStarts|] == oStarts;
  }

  /** `_get_occurrence_list(start, end)`, building the list one rule instant at a time. */
  method GetOccurrenceList(e: Event, start: Instant, end: Instant) returns (occurrences: seq<Occurrence>)
    ensures occurrences == OccurrenceList(e, start, end)
  {
    var difference := e.end - e.start;
    if e.rule.Some? {
      var windowEnd := end;
      if e.endRecurringPeriod.Some? && e.endRecurringPeriod.value < windowEnd {
        windowEnd := e.endRecurringPeriod.value;
      }
      var oStarts := Between(e.start, e.rule.value, start - difference, windowEnd);
      occurrences := CreateAll(e, oStarts);
    } else {
      if e.start < end && e.end >= start {
        occurrences := [CreateOccurrence(e, e.start, None)];
      } else {
        occurrences := [];
      }
    }
  }

  /**
   * Without a rule there is one occurrence, the event's own span, exactly when
   * it starts before `end` and ends at or after `start`.
   */
  lemma NoRuleSingleton(e: Event, start: Instant, end: Instant)
    requires e.rule.None?
    ensures |OccurrenceList(e, start, end)| <= 1
    ensures |OccurrenceList(e, start, end)| == 1 <==> e.start < end && e.end >= start
    ensures forall o :: o in OccurrenceList(e, start, end) ==> o.start == e.start && o.end == e.end
  {
  }

  /**
   * With a rule, the occurrences start exactly at the rule instants in
   * `[start - duration, end']`, where `end'` is `end` cut back to the end of
   * the recurrence period; `SlotsIncreasing` gives rule order.
   */
  lemma {:induction false} RuleWindow(e: Event, start: Instant, end: Instant, x: Instant)
    requires e.rule.Some?
    ensures (exists o :: o in OccurrenceList(e, start, end) && o.start == x) <==>
            start - Duration(e) <= x <= ClampedEnd(e, end) &&
            exists j: nat :: InRange(e.rule.value, j) && At(e.start, e.rule.value, j) == x
  {
    BetweenExact(e.start, e.rule.value, start - Duration(e), ClampedEnd(e, end), x);
    VirtualsStartAt(e, RuleStarts(e, start, end), x);
  }

  /** A virtual occurrence starts at `x` exactly when `x` is one of the instants. */
  lemma VirtualsStartAt(e: Event, starts: seq<Instant>, x: Instant)
    ensures (exists o :: o in Virtuals(e, starts) && o.start == x) <==> x in starts
  {
    var os := Virtuals(e, starts);
    if x in starts {
      var k :| 0 <= k < |starts| && starts[k] == x;
      assert os[k] in os && os[k].start == x;
    }
    if o :| o in os && o.start == x {
      var k :| 0 <= k < |os| && os[k] == o;
      assert starts[k] == x;
    }
  }

  /**
   * Every rule occurrence meets the window in the closed sense: it starts at
   * or before `end'` and ends at or after `start`.
   */
  lemma RuleOccurrencesMeetWindow(e: Event, start: Instant, end: Instant)
    requires e.rule.Some?
    ensures forall o :: o in OccurrenceList(e, start, end) ==> o.start <= ClampedEnd(e, end) && o.end >= start
  {
    var starts := RuleStarts(e, start, end);
    var os := OccurrenceList(e, start, end);
    forall o | o in os ensures o.start <= ClampedEnd(e, end) && o.end >= start {
      var k :| 0 <= k < |os| && os[k] == o;
      assert o.start == starts[k];
    }
  }

  /** A recurrence period that closes before the event starts yields no occurrences. */
  lemma ClosedRecurrenceIsEmpty(e: Event, start: Instant, end: Instant)
    requires e.rule.Some? && e.endRecurringPeriod.Some? && e.endRecurringPeriod.value < e.start
    ensures OccurrenceList(e, start, end) == []
  {
  }

  // ---- Replacing virtual occurrences by persisted ones ----

  /** Every entry of the lookup is filed under its own slot. */
  predicate KeyedBySlot(lookup: map<Slot, Occurrence>)
  {
    forall k :: k in lookup ==> lookup[k].Key() == k
  }

  /**
   * The replacer's lookup built from the persisted occurrences: each one
   * filed under its original (start, end); a later one wins a shared slot.
   */
  function Index(persisted: seq<Occurrence>): (lookup: map<Slot, Occurrence>)
    ensures KeyedBySlot(lookup)
    ensures forall k :: k in lookup ==> lookup[k] in persisted
    ensures forall o :: o in persisted ==> o.Key() in lookup
  {
    if persisted == [] then map[]
    else
      var last := persisted[|persisted| - 1];
      Index(persisted[..|persisted| - 1])[last.Key() := last]
  }

  /**
   * What one virtual occurrence contributes: itself when nothing is persisted
   * for its slot, else the persisted occurrence if its current span still
   * meets the window, else nothing.
   */
  function Replace(v: Occurrence, lookup: map<Slot, Occurrence>, start: Instant, end: Instant): seq<Occurrence>
  {
    if v.Key() !in lookup then [v]
    else if Meets(lookup[v.Key()], start, end) then [lookup[v.Key()]]
    else []
  }

  /** The first part of `get_occurrences`: every virtual occurrence replaced, in order. */
  function Merge(virtuals: seq<Occurrence>, lookup: map<Slot, Occurrence>, start: Instant, end: Instant): seq<Occurrence>
  {
    if virtuals == [] then []
    else
      var n := |virtuals| - 1;
      Merge(virtuals[..n], lookup, start, end) + Replace(virtuals[n], lookup, start, end)
  }

  /** The slots of a list of occurrences. */
  function Slots(os: seq<Occurrence>): set<Slot>
  {
    set o | o in os :: o.Key()
  }

  /** In a list whose slots strictly increase, no slot appears before its own position. */
  lemma SlotNotEarlier(os: seq<Occurrence>, i: int)
    requires SlotsIncreasing(os) && 0 <= i < |os|
    ensures os[i].Key() !in Slots(os[..i])
    ensures Slots(os[..i + 1]) == Slots(os[..i]) + {os[i].Key()}
  {
    assert os[..i + 1] == os[..i] + [os[i]];
  }

  /**
   * The loop of `get_occurrences`: each virtual occurrence is replaced through
   * the lookup, and each entry used is consumed.
   */
  method ReplaceAll(occurrences: seq<Occurrence>, lookup: map<Slot, Occurrence>, start: Instant, end: Instant)
    returns (finalOccurrences: seq<Occurrence>, unused: map<Slot, Occurrence>)
    requires SlotsIncreasing(occurrences)
    ensures finalOccurrences == Merge(occurrences, lookup, start, end)
    ensures unused == lookup - Slots(occurrences)
  {
    unused := lookup;
    finalOccurrences := [];
    for i := 0 to |occurrences|
      invariant finalOccurrences == Merge(occurrences[..i], lookup, start, end)
      invariant unused == lookup - Slots(occurrences[..i])
    {
      var occ := occurrences[i];
      SlotNotEarlier(occurrences, i);
      assert occurrences[..i + 1][..i] == occurrences[..i];
      if occ.Key() in unused {
        var pOcc := unused[occ.Key()];
        unused := unused - {occ.Key()};
        if pOcc.start < end && pOcc.end >= start {
          finalOccurrences := finalOccurrences + [pOcc];
        }
      } else {
        finalOccurrences := finalOccurrences + [occ];
      }
    }
    assert occurrences[..|occurrences|] == occurrences;
  }

  /**
   * `get_occurrences(start, end)`: the replaced virtual occurrences, then the
   * replacer's additional occurrences. `additional` stands for the replacer's
   * `get_additional_occurrences`, applied to the entries not consumed.
   * `persisted` is the event's own `occurrence_set`.
   */
  method GetOccurrences(
    e: Event, start: Instant, end: Instant, persisted: seq<Occurrence>,
    additional: (map<Slot, Occurrence>, Instant, Instant) -> seq<Occurrence>)
    returns (finalOccurrences: seq<Occurrence>)
    requires forall o :: o in persisted ==> o.event == e.id
    ensures finalOccurrences ==
            Merge(OccurrenceList(e, start, end), Index(persisted), start, end) +
            additional(Index(persisted) - Slots(OccurrenceList(e, start, end)), start, end)
  {
    var occReplacer := Index(persisted);
    var occurrences := GetOccurrenceList(e, start, end);
    OccurrenceListShape(e, start, end);
    var unused;
    finalOccurrences, unused := ReplaceAll(occurrences, occReplacer, start, end);
    finalOccurrences := finalOccurrences + additional(unused, start, end);
  }

  /**
   * Everything `Merge` returns is a virtual occurrence with nothing persisted
   * for its slot, or the persisted occurrence for a virtual slot whose current
   * span meets the window.
   */
  lemma {:induction false} MergeSources(virtuals: seq<Occurrence>, lookup: map<Slot, Occurrence>, start: Instant, end: Instant)
    requires KeyedBySlot(lookup)
    ensures forall o :: o in Merge(virtuals, lookup, start, end) ==>
              (o in virtuals && o.Key() !in lookup) ||
              (o.Key() in Slots(virtuals) && o.Key() in lookup && lookup[o.Key()] == o && Meets(o, start, end))
  {
    if virtuals != [] {
      var n := |virtuals| - 1;
      MergeSources(virtuals[..n], lookup, start, end);
      assert forall o :: o in virtuals[..n] ==> o in virtuals;
      assert virtuals[n] in virtuals;
    }
  }

  /**
   * A virtual occurrence with nothing persisted for its slot is kept as it is;
   * one whose persisted counterpart meets the window is replaced by it.
   */
  lemma {:induction false} MergeKeepsOrReplaces(virtuals: seq<Occurrence>, lookup: map<Slot, Occurrence>, start: Instant, end: Instant, v: Occurrence)
    requires v in virtuals
    ensures v.Key() !in lookup ==> v in Merge(virtuals, lookup, start, end)
    ensures v.Key() in lookup && Meets(lookup[v.Key()], start, end) ==> lookup[v.Key()] in Merge(virtuals, lookup, start, end)
  {
    var n := |virtuals| - 1;
    if virtuals[n] != v {
      assert v in virtuals[..n];
      MergeKeepsOrReplaces(virtuals[..n], lookup, start, end, v);
    }
  }

  /**
   * A slot whose persisted counterpart no longer meets the window is absent
   * from the result altogether: neither the virtual nor the persisted form.
   */
  lemma {:induction false} MergeDropsMovedAway(virtuals: seq<Occurrence>, lookup: map<Slot, Occurrence>, start: Instant, end: Instant, k: Slot)
    requires KeyedBySlot(lookup)
    requires k in lookup && !Meets(lookup[k], start, end)
    ensures forall o :: o in Merge(virtuals, lookup, start, end) ==> o.Key() != k
  {
    if virtuals != [] {
      MergeDropsMovedAway(virtuals[..|virtuals| - 1], lookup, start, end, k);
    }
  }

  /**
   * The merged list keeps virtual order: original starts still strictly
   * increase, so every slot appears at most once.
   */
  lemma {:induction false} MergeKeepsOrder(virtuals: seq<Occurrence>, lookup: map<Slot, Occurrence>, start: Instant, end: Instant)
    requires KeyedBySlot(lookup) && SlotsIncreasing(virtuals)
    ensures SlotsIncreasing(Merge(virtuals, lookup, start, end))
  {
    if virtuals != [] {
      var n := |virtuals| - 1;
      var front := Merge(virtuals[..n], lookup, start, end);
      MergeKeepsOrder(virtuals[..n], lookup, start, end);
      MergeSources(virtuals[..n], lookup, start, end);
      forall o | o in front ensures o.originalStart < virtuals[n].originalStart {
        var p :| 0 <= p < n && virtuals[p].Key() == o.Key();
      }
      var tail := Replace(virtuals[n], lookup, start, end);
      assert forall o :: o in tail ==> o.originalStart == virtuals[n].originalStart;
      var all := front + tail;
      forall p, q | 0 <= p < q < |all| ensures all[p].originalStart < all[q].originalStart {
        if q >= |front| {
          assert all[p] in front && all[q] in tail;
        }
      }
    }
  }

  /** With nothing persisted the merge is the identity. */
  lemma {:induction false} MergeNothingPersisted(virtuals: seq<Occurrence>, start: Instant, end: Instant)
    ensures Merge(virtuals, map[], start, end) == virtuals
  {
    if virtuals != [] {
      var n := |virtuals| - 1;
      MergeNothingPersisted(virtuals[..n], start, end);
      assert virtuals[..n] + [virtuals[n]] == virtuals;
    }
  }

  /**
   * The boundaries of the two window tests differ: a rule occurrence that
   * starts exactly at `end` is generated, but once persisted unchanged it is
   * dropped by the merge.
   */
  lemma UnmovedOverrideAtWindowEndDropped(e: Event, start: Instant, end: Instant, v: Occurrence)
    requires v in OccurrenceList(e, start, end) && v.start == end
    ensures v in Merge(OccurrenceList(e, start, end), map[], start, end)
    ensures forall o :: o in Merge(OccurrenceList(e, start, end), map[v.Key() := v], start, end) ==> o.Key() != v.Key()
  {
    MergeNothingPersisted(OccurrenceList(e, start, end), start, end);
    MergeDropsMovedAway(OccurrenceList(e, start, end), map[v.Key() := v], start, end, v.Key());
  }

  // ---- The occurrence that starts at a given instant ----

  /** `Occurrence.objects.get` finds several persisted occurrences for one start. */
  datatype LookupError = MultipleObjectsReturned

  /** Does the event have an occurrence starting at `date`? */
  ghost predicate StartsAt(e: Event, date: Instant)
  {
    if e.rule.Some? then exists j: nat :: InRange(e.rule.value, j) && At(e.start, e.rule.value, j) == date
    else date == e.start
  }

  /** The first occurrence start at or after `date`: `rule.after(date, inc=True)`, or the event's start. */
  function NextStart(e: Event, date: Instant): Option<Instant>
  {
    if e.rule.Some? then
      match FirstAtOrAfter(e.start, e.rule.value, 0, date)
      case Some(j) => Some(At(e.start, e.rule.value, j))
      case None => None
    else Some(e.start)
  }

  /** The persisted occurrences of `e` whose original start is `date`. */
  function PersistedAt(e: Event, date: Instant, persisted: seq<Occurrence>): (found: seq<Occurrence>)
    ensures forall o :: o in found <==> o in persisted && o.event == e.id && o.originalStart == date
  {
    if persisted == [] then []
    else
      var o := persisted[0];
      (if o.event == e.id && o.originalStart == date then [o] else []) + PersistedAt(e, date, persisted[1..])
  }

  /**
   * `get_occurrence(date)`: nothing unless an occurrence starts exactly at
   * `date`; then the one persisted occurrence for that start, or a new virtual
   * one, or an error when several are persisted.
   */
  function GetOccurrence(e: Event, date: Instant, persisted: seq<Occurrence>): (r: Result<Option<Occurrence>, LookupError>)
    ensures r.Ok? && r.value.Some? ==> r.value.value.originalStart == date
    ensures r.Ok? && r.value.Some? && !r.value.value.Moved() ==> r.value.value.start == date
  {
    if NextStart(e, date) != Some(date) then Ok(None)
    else
      var found := PersistedAt(e, date, persisted);
      if |found| == 0 then Ok(Some(CreateOccurrence(e, date, None)))
      else if |found| == 1 then (assert found[0] in found; Ok(Some(found[0])))
      else Err(MultipleObjectsReturned)
  }

  /**
   * `get_occurrence` answers for `date` exactly when an occurrence of the
   * event starts there; the answer is the stored occurrence when exactly one
   * is stored for it, a new virtual one when none is, and an error when
   * several are.
   */
  lemma {:induction false} GetOccurrenceExactlyAtStarts(e: Event, date: Instant, persisted: seq<Occurrence>)
    ensures GetOccurrence(e, date, persisted) != Ok(None) <==> StartsAt(e, date)
    ensures StartsAt(e, date) && (forall o :: o in persisted ==> !(o.event == e.id && o.originalStart == date)) ==>
            GetOccurrence(e, date, persisted) == Ok(Some(CreateOccurrence(e, date, None)))
    ensures StartsAt(e, date) && |PersistedAt(e, date, persisted)| == 1 ==>
            GetOccurrence(e, date, persisted) == Ok(Some(PersistedAt(e, date, persisted)[0]))
    ensures GetOccurrence(e, date, persisted).Err? <==> StartsAt(e, date) && |PersistedAt(e, date, persisted)| > 1
  {
    if e.rule.Some? {
      var r := e.rule.value;
      var found := FirstAtOrAfter(e.start, r, 0, date);
      if j: nat :| InRange(r, j) && At(e.start, r, j) == date {
        assert found.Some?;
        if found.value < j {
          AtStrictlyIncreasing(e.start, r, found.value, j);
        }
      }
    }
    var matches := PersistedAt(e, date, persisted);
    if matches != [] {
      assert matches[0] in matches;
    }
  }
}
