# ellaschedule occurrence engine in Dafny

This project models the occurrence engine of `ellaschedule` (a Django
scheduling application) and proves properties of it. An event has a start, an
end, an optional recurrence rule and an optional end of the recurrence period.
The engine:

- expands the event over a query window into *virtual* occurrences
  (`_get_occurrence_list`);
- replaces those by their *persisted* counterparts, the occurrences a user has
  moved or cancelled (`get_occurrences`);
- finds the occurrence that starts at a given instant (`get_occurrence`);
- produces occurrences lazily after a given instant
  (`_occurrences_after_generator`, `occurrences_after`);
- groups an event's child events into a day / time / place agenda
  (`get_structured_agenda`).

It also models the `Occurrence` record: `moved`, `move`, `cancel`,
`uncancel`, `__cmp__` and `__eq__`.

Layout, one module per file:

- `Wrappers.dfy`: `Option` and `Result`.
- `Recurrence.dfy`: the recurrence rule that `get_rrule_object` hands to
  `dateutil`. It is modelled as a strictly increasing sequence of instants
  that starts at the event's start, or `lead` seconds after it. Consecutive
  instants are separated by gaps of at least one second. An optional `count`
  makes the rule finite. `Between` models `rule.between(a, b, inc=True)`;
  `FirstAtOrAfter` models `rule.after(date, inc=True)`.
- `Occurrences.dfy`: the occurrence value (`Occurrence`) and the persisted
  record whose fields are updated in place (`OccurrenceRecord`).
- `Events.dfy`: the event, windowed expansion, the override merge and
  `get_occurrence`.
- `Lazy.dfy`: the two generators. Each is a class with a cursor and a `Next`
  method that returns `None` once the generator is exhausted.
- `Agenda.dfy`: `get_structured_agenda`.
- `Scenarios.dfy`: the two worked examples from the docstring of
  `get_occurrences`.

Instants are integers. Durations are differences of instants. The scenarios
count seconds since 1970-01-01 00:00. A day is `instant / 86400` and a time of
day is `instant % 86400`.

How the boundaries behave, as the code is written:

- Without a rule, an event is in the window when `start < end and end >= start`
  (events.py:143).
- With a rule, the expansion takes the rule instants in the closed interval
  `[start - duration, end']` (events.py:136). So an occurrence that starts
  exactly at the window's `end` is generated.
- The merge keeps a persisted occurrence only when `p.start < end`
  (events.py:93). So the same occurrence, once persisted and not moved, is
  dropped. `Events.UnmovedOverrideAtWindowEndDropped` states this.
- The lazy generator stops at the first instant *greater than*
  `end_recurring_period` (events.py:165). An instant equal to it is still
  yielded.

The replacer (`OccurrenceReplacer`, in `ellaschedule/utils.py`) is not part
of this model. It appears only through the calls made at events.py:84-99 and
181:

- a lookup from `(original_start, original_end)` to the persisted occurrence,
  built so that a later record wins a shared slot;
- `get_occurrence` consumes the entry it returns, and returns the virtual
  occurrence when there is no entry;
- `get_additional_occurrences` is a function supplied by the caller. It is
  applied to the entries not yet consumed and to the window.

## Model

| member | source | states |
|---|---|---|
| `Recurrence.AtGrows` | ellaschedule/models/events.py:102-106 | the rule anchored at `dtstart` never yields an instant before `dtstart`, and its `i`-th instant is at least `i` seconds later |
| `Recurrence.AtStrictlyIncreasing` | ellaschedule/models/events.py:102-106 | the rule's instants strictly increase with their index |
| `Recurrence.BetweenFrom` | ellaschedule/models/events.py:136 | `between` returns a strictly increasing list of rule instants (at index `i` or later), all inside `[a, b]` |
| `Recurrence.Between` | ellaschedule/models/events.py:136 | definition: `rule.between(a, b, inc=True)` is the `between` list taken from the rule's first instant |
| `Recurrence.BetweenFromComplete` | ellaschedule/models/events.py:136 | every rule instant inside `[a, b]` with index at least `i` is in the `between` list |
| `Recurrence.BetweenExact` | ellaschedule/models/events.py:136 | `x` is in `between(a, b, inc=True)` if and only if `a <= x <= b` and `x` is a rule instant |
| `Recurrence.FirstAtOrAfter` | ellaschedule/models/events.py:116 | `after(date, inc=True)` finds the first rule instant at or after `date`: all earlier instants are before `date`; `None` only when every remaining instant is before `date` |
| `Occurrences.Occurrence.Moved` | ellaschedule/models/events.py:440-442 | definition: `moved` holds when the current start or end differs from the original one |
| `Occurrences.Occurrence.SameSlot` | ellaschedule/models/events.py:511-512 | definition: `__eq__` holds when event, original start and original end all agree, whatever the current span |
| `Occurrences.Occurrence.Compare` | ellaschedule/models/events.py:505-509 | `__cmp__` returns -1, 0 or 1; it is negative exactly when `(start, end)` is lexicographically smaller and zero exactly when both are equal |
| `Occurrences.CompareAntisymmetric` | ellaschedule/models/events.py:505-509 | swapping the operands of `__cmp__` negates the result |
| `Occurrences.CompareTransitive` | ellaschedule/models/events.py:505-509 | `__cmp__` is transitive, so it is an ordering |
| `Occurrences.MovedStillSameSlot` | ellaschedule/models/events.py:440-455 | a moved or cancelled occurrence still equals (`__eq__`) its original slot; after a move, `moved` holds exactly when the new span differs from the original one |
| `Occurrences.OccurrenceRecord.Value` | ellaschedule/models/events.py:419-425 | the record's value carries its event and its original start and end as its slot |
| `Occurrences.OccurrenceRecord.constructor` | ellaschedule/models/events.py:419-425 | a record created from an occurrence holds exactly its fields |
| `Occurrences.OccurrenceRecord.Move` | ellaschedule/models/events.py:444-447 | `move` changes only `start` and `end`; the slot (`__eq__`) is kept; the result is `moved` exactly when the new span differs from the original one |
| `Occurrences.OccurrenceRecord.Cancel` | ellaschedule/models/events.py:449-451 | `cancel` sets only `cancelled` to true; slot and `moved` are unchanged |
| `Occurrences.OccurrenceRecord.Uncancel` | ellaschedule/models/events.py:453-455 | `uncancel` sets only `cancelled` to false; slot and `moved` are unchanged |
| `Events.CreateOccurrence` | ellaschedule/models/events.py:108-111 | `_create_occurrence` makes an uncancelled, unmoved occurrence of this event whose original span is its span; without `end` it lasts as long as the event |
| `Events.Virtuals` | ellaschedule/models/events.py:137-139 | one occurrence of the event per instant, in the same order, each starting at its instant, lasting as long as the event, uncancelled and unmoved |
| `Events.OccurrenceList` | ellaschedule/models/events.py:126-146 | definition: with a rule, the virtual occurrences of the rule instants in `[start - duration, end']`; without one, the event's own span when it meets the window, else nothing |
| `Events.OccurrenceListShape` | ellaschedule/models/events.py:126-146 | every occurrence `_get_occurrence_list` generates lasts as long as the event, is unmoved and uncancelled, and the list is in strictly increasing start order |
| `Events.VirtualsSnoc` | ellaschedule/models/events.py:137-139 | appending one instant appends exactly its occurrence |
| `Events.CreateAll` | ellaschedule/models/events.py:137-139 | the `for o_start in o_starts` loop builds exactly one occurrence per instant, in order |
| `Events.GetOccurrenceList` | ellaschedule/models/events.py:126-146 | the method computes the occurrence list of the window, clamping `end` to `end_recurring_period` when that is earlier |
| `Events.NoRuleSingleton` | ellaschedule/models/events.py:141-146 | without a rule, the list is the event's own span if `self.start < end and self.end >= start`, and empty otherwise |
| `Events.RuleWindow` | ellaschedule/models/events.py:130-140 | with a rule, an occurrence starts at `x` if and only if `x` is a rule instant in `[start - duration, end']`, where `end'` is `end` clamped to `end_recurring_period` |
| `Events.VirtualsStartAt` | ellaschedule/models/events.py:137-139 | an occurrence starts at `x` exactly when `x` is one of the expanded instants |
| `Events.RuleOccurrencesMeetWindow` | ellaschedule/models/events.py:131-140 | every rule occurrence starts at or before `end'` and ends at or after `start` |
| `Events.ClosedRecurrenceIsEmpty` | ellaschedule/models/events.py:133-136 | an `end_recurring_period` before the event's start leaves no occurrences |
| `Events.Index` | ellaschedule/models/events.py:84 | the replacer's lookup files each persisted occurrence under its own original slot; every persisted slot is present |
| `Events.Replace` | ellaschedule/models/events.py:89-96 | definition: one loop step; a virtual occurrence with nothing stored is kept, a stored counterpart is taken only if `p.start < end and p.end >= start`, otherwise nothing |
| `Events.Merge` | ellaschedule/models/events.py:86-96 | definition: the loop's `final_occurrences`, the replacement steps of the virtual occurrences concatenated in order |
| `Events.SlotNotEarlier` | ellaschedule/models/events.py:87-91 | in the virtual list no slot is looked up twice, so consuming an entry does not affect later lookups |
| `Events.ReplaceAll` | ellaschedule/models/events.py:87-96 | the loop yields the merge of the virtual list, and leaves unconsumed exactly the entries whose slots were not generated |
| `Events.GetOccurrences` | ellaschedule/models/events.py:64-100 | given the event's own stored occurrences, `get_occurrences` returns the merged virtual list followed by the replacer's additional occurrences, computed from the unconsumed entries |
| `Events.MergeSources` | ellaschedule/models/events.py:87-96 | every merged occurrence is either a virtual one with nothing persisted for its slot, or the persisted one for a generated slot whose current span meets the window |
| `Events.MergeKeepsOrReplaces` | ellaschedule/models/events.py:89-96 | a virtual occurrence with nothing persisted is kept; one whose persisted counterpart meets the window is replaced by it |
| `Events.MergeDropsMovedAway` | ellaschedule/models/events.py:92-94 | when the persisted counterpart no longer meets the window, that slot is absent from the result altogether |
| `Events.MergeKeepsOrder` | ellaschedule/models/events.py:86-96 | the merged part keeps virtual order: original starts strictly increase, so no slot appears twice |
| `Events.MergeNothingPersisted` | ellaschedule/models/events.py:95-96 | with nothing persisted, the merge returns the virtual list unchanged |
| `Events.UnmovedOverrideAtWindowEndDropped` | ellaschedule/models/events.py:93 | an occurrence starting exactly at `end` is generated, but once persisted unmoved it is dropped (`p.start < end`) |
| `Events.NextStart` | ellaschedule/models/events.py:114-118 | definition: with a rule, the first rule instant at or after `date` (`None` when there is none); without a rule, the event's start |
| `Events.PersistedAt` | ellaschedule/models/events.py:121 | the records `Occurrence.objects.get` considers are exactly the persisted occurrences of this event with that original start |
| `Events.GetOccurrence` | ellaschedule/models/events.py:113-123 | an occurrence that `get_occurrence` returns has the requested original start, and starts there unless it was moved |
| `Events.GetOccurrenceExactlyAtStarts` | ellaschedule/models/events.py:113-123 | `get_occurrence(date)` answers if and only if an occurrence of the event starts at `date`; then it returns the one stored occurrence for that start, creates the virtual occurrence when none is stored, and fails with `MultipleObjectsReturned` exactly when several are stored |
| `LazyOccurrences.AfterFrom` | ellaschedule/models/events.py:161-169 | definition: from rule index `i` on, until the first instant after `end_recurring_period` or the end of the rule, the occurrence of each instant whose end is after `after` |
| `LazyOccurrences.OccurrencesAfter` | ellaschedule/models/events.py:154-169 | definition: everything `_occurrences_after_generator` yields; without a rule, the event's span if `self.end > after`, else nothing |
| `LazyOccurrences.AfterFromBounds` | ellaschedule/models/events.py:161-169 | every yielded occurrence is unmoved and lasts as long as the event; it starts no later than `end_recurring_period` and ends strictly after `after` |
| `LazyOccurrences.AfterFromInstants` | ellaschedule/models/events.py:161-164 | every yielded start is an instant of the rule cursor |
| `LazyOccurrences.AfterFromOrdered` | ellaschedule/models/events.py:161-169 | yielded occurrences come in rule order (original starts strictly increase) |
| `LazyOccurrences.AfterFromStep` | ellaschedule/models/events.py:163-169 | one cursor step contributes the current instant's occurrence if it ends after `after`, and nothing otherwise |
| `LazyOccurrences.AfterFromComplete` | ellaschedule/models/events.py:163-169 | every rule instant `s <= end_recurring_period` with `s + duration > after` is yielded, including `s == end_recurring_period` |
| `LazyOccurrences.RuleAfterExact` | ellaschedule/models/events.py:156-169 | with a rule, an occurrence starting at `x` is yielded if and only if `x` is a rule instant, `x <= end_recurring_period` and `x + duration > after` |
| `LazyOccurrences.NoRuleAfter` | ellaschedule/models/events.py:157-160 | without a rule, at most one occurrence is yielded, the event itself, and only if `self.end > after` |
| `LazyOccurrences.AfterGenerator.constructor` | ellaschedule/models/events.py:148-162 | a new generator is about to yield exactly the after-sequence of the event |
| `LazyOccurrences.AfterGenerator.Next` | ellaschedule/models/events.py:148-169 | each `next()` returns the first pending occurrence and removes it; once nothing is pending it returns `None` for good |
| `LazyOccurrences.AfterGenerator.Advance` | ellaschedule/models/events.py:161-169 | the `while True` loop skips instants until it yields one or stops, advancing the rule cursor one instant per iteration |
| `LazyOccurrences.Substitute` | ellaschedule/models/events.py:181 | each occurrence is replaced by the persisted one for its slot when there is one, and kept otherwise |
| `LazyOccurrences.SubstituteWithout` | ellaschedule/models/events.py:181 | consuming an entry whose slot is not pending leaves the rest of the stream unchanged |
| `LazyOccurrences.OccurrenceStream.constructor` | ellaschedule/models/events.py:172-178 | `occurrences_after` is about to yield the after-sequence with each occurrence replaced through the lookup |
| `LazyOccurrences.OccurrenceStream.Next` | ellaschedule/models/events.py:179-181 | each `next()` returns the generator's next occurrence, in its persisted form when there is one, and `None` once the generator is done |
| `Agenda.TimeOf` | ellaschedule/models/events.py:229-232 | `start.time()` lies within one day |
| `Agenda.LastIndex` | ellaschedule/models/events.py:244-247 | the cell scan finds the last event matching day, time and place: it matches, and no later event does; -1 when none does |
| `Agenda.MinExists` | ellaschedule/models/events.py:235-236 | a set of start times has a least element, so they can be taken in ascending order |
| `Agenda.ListOf` | ellaschedule/models/events.py:234 | `list(places)` lists each place of the set exactly once |
| `Agenda.CollectDay` | ellaschedule/models/events.py:224-232 | the first scan collects exactly the places and the start times of the day's events |
| `Agenda.LastAt` | ellaschedule/models/events.py:243-248 | definition: a cell's content, the event at `LastIndex` or `None` when no event matches |
| `Agenda.FindCell` | ellaschedule/models/events.py:243-248 | a cell holds the last event of that day, time and place, or `None` |
| `Agenda.FillRow` | ellaschedule/models/events.py:241-248 | a row has one cell per place, in the order of the places list |
| `Agenda.DayEntry` | ellaschedule/models/events.py:219-249 | a day's entry lists its distinct places, has exactly its distinct start times as keys, and each row is filled as above |
| `Agenda.StructuredAgenda` | ellaschedule/models/events.py:200-250 | there is one entry per distinct start date of the child events, no date twice, and every entry is well formed |
| `Scenarios.MonthlyInstants` | ellaschedule/models/events.py:66-68 | the monthly rule from 2008-01-01 steps to the first of February, March and April |
| `Scenarios.MonthlyBetween` | ellaschedule/models/events.py:71 | between 2008-01-23 and 2008-03-02 the monthly rule yields Feb 1 and Mar 1 |
| `Scenarios.MonthlyEventInWindow` | ellaschedule/models/events.py:66-73 | the monthly event queried over 2008-01-24 to 2008-03-02 gives exactly Feb 1-2 and Mar 1-2 |
| `Scenarios.OneOffEventOutsideWindow` | ellaschedule/models/events.py:77-80 | the 2008-01-01 08:00-09:00 event without a rule gives nothing in that window |

## Left out

- Database queries (`occurrence_set.all()`, `Occurrence.objects.get`, `get_agenda`'s filter on `parent_event`): the persisted occurrences and the child events are inputs given as sequences.
- `EventManager`, `EventRelationManager`, `EventRelation`, `create_relation`, `get_user_authors`: relation bookkeeping done by database queries, not scheduling logic.
- The `.save()` calls in `move`, `cancel` and `uncancel`: persistence; only the field updates are modelled.
- `get_absolute_url`, `get_cancel_url`, `get_edit_url`, both `__unicode__` methods and the copying of title and description in `Occurrence.__init__`: URL routing, display and localisation.
- The recurrence library itself and the `eval` of the frequency name: the rule is the abstract increasing instant sequence described above. Frequencies, intervals and by-constraints are not interpreted.
- `datetime.datetime.now()` as the default for `after`: wall-clock input. `after` is a required argument.
- Events.GetOccurrences: `get_additional_occurrences` is a parameter because `ellaschedule/utils.py` is not part of this model. So it is not proved that a persisted occurrence that moved into the window appears exactly once.
- LazyOccurrences.AfterGenerator.constructor: with a rule, it requires `end_recurring_period` to be set. Without it, `o_start > self.end_recurring_period` (events.py:165) compares a datetime with `None` and raises `TypeError` on the first instant; that exception path is not modelled.
- Object identity: the engine returns occurrence values. Aliasing between a returned persisted occurrence and the stored record is not modelled.
- Agenda.StructuredAgenda: the order of days and of places is whatever Python's set iteration gives. The model leaves it open. The `agenda` dictionary is a map, so its key order is not modelled either.
- The per-time lists in `times` (events.py:223, 229-231) are built and never read, so they are not modelled. The test `not event.start in times` compares a datetime with time keys, so it is always true.
- `signals.py` (default calendar and category on save) and `setup.py` (packaging): database side effects and packaging metadata.
- Time zones, and microseconds as a separate field: an instant is a single integer.
- Null `start` or `end` of an event (events.py:31-32 allow them): the model's instants are never null. The paths left out are the `TypeError` from `self.end - self.start` (events.py:130, 162) and from `self.end > after` (events.py:158), the `AttributeError` from `event.start.date()` in the agenda (events.py:214), and a rule with a null start, which dateutil anchors at the current time (events.py:106).
