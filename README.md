# Machine tag action, modelled in Dafny

This project models the machine tag action of Zentral's inventory
(`zentral/contrib/inventory/actions/machine_tag.py`). When a probe fires, the action
works out a set of tag ids from its configuration or from the event payload. It then
adds those tags to, or removes them from, the machine that sent the event.

The database is replaced by plain state. The tag registry (the `Tag` table) is a
`set<int>` of existing tag ids. The `MachineTag` table is a `set<(string, int)>` of
(serial number, tag id) rows.

- `wrappers.dfy`, module `Wrappers`: `Option` and `Result`.
- `int_parsing.dfy`, module `IntParsing`: `ParseInt`, a stand-in for Python's
  `int(str)`. Its partner is `ShowInt`, the decimal spelling of an integer.
- `tag_resolver.dfy`, module `TagResolver`: `Action.get_tags` as pure functions.
  - `SelectRaw` picks the source.
  - `IsFalsy` is Python truthiness.
  - `Candidates` normalises the shape, using `ParseList` for lists.
  - `Lookup` filters against the registry.
  - `Resolve` and `GetTags` put these together.
  - The raw value is a tagged variant: `RNone | RInt | RStr | RList | RDict`.
  - Log calls become a `Diagnostic`: `Missing`, `BadShape`, `BadList`, `BadValue`
    or `SomeNotFound`.
  - `Resolution` is either `Rejected(reason)`, an early `return` whose reason is one of
    the four rejection diagnostics, or
    `Resolved(ids, someNotFound)`, the filtered queryset.
- `tag_mutator.dfy`, module `TagMutator`: `Action.trigger`.
  - Class `Inventory` holds the two tables. Its invariant `Valid()` is the foreign key:
    every `MachineTag` row names a tag of the registry.
  - `Trigger` has the source's loop over the resolved tags. The `action` is read
    inside the loop on each pass, as in the source.
  - `Trigger` is proved against the pure function `Effect`.
  - Lemmas prove the set algebra of `Effect`: union and difference, idempotence,
    untouched rows, failing before any change, and referential integrity.

Two behaviours of the code are easy to miss:
- The integer `0` is falsy, so it takes the "missing" path. A string that spells 0
  (`"0"`, `"00"`, `"-0"`) is truthy, so it is parsed and looked up as tag 0. A string
  spelling any other n resolves exactly as the integer n. See `StringLikeInt` and
  `ZeroStringIsNotZeroInt`.
- `action` is read inside the loop, on each pass. An unknown action fails on the first
  pass, before any row changes. When nothing is resolved, `action` is never read.

## Model

| member | source | states |
|---|---|---|
| `IntParsing.ParseInt` | zentral/contrib/inventory/actions/machine_tag.py:30-33 | `int(s)` succeeds exactly on an optional sign followed by one or more decimal digits |
| `IntParsing.ParseShowInt` | zentral/contrib/inventory/actions/machine_tag.py:32 | round trip: parsing the decimal spelling of any integer n gives back n |
| `IntParsing.ParseIntLeadingZero` | zentral/contrib/inventory/actions/machine_tag.py:32 | a leading zero does not change the parsed value (`"007"` is 7) |
| `IntParsing.ParseIntSign` | zentral/contrib/inventory/actions/machine_tag.py:32 | `-` in front of digits negates the value and `+` leaves it unchanged |
| `TagResolver.ParseList` | zentral/contrib/inventory/actions/machine_tag.py:23-29 | the list conversion succeeds iff every element converts; it then has one value per element, in order, each equal to that element's `int()` |
| `TagResolver.TagsTakePrecedence` | zentral/contrib/inventory/actions/machine_tag.py:10-12 | with `tags` present, the result is that value's resolution and depends on neither the payload nor `tags_from_event_payload_attr` |
| `TagResolver.PayloadAttrSource` | zentral/contrib/inventory/actions/machine_tag.py:13-18 | without `tags`, the named payload attribute is resolved; a payload without it counts as `[]` and so is Missing |
| `TagResolver.NoSourceIsMissing` | zentral/contrib/inventory/actions/machine_tag.py:10-18 | with neither key the action resolves to Missing |
| `TagResolver.MissingIffFalsy` | zentral/contrib/inventory/actions/machine_tag.py:15-18 | resolution is Missing iff the raw value is falsy (None, 0, "", [], {}) |
| `TagResolver.BadShapeIffDict` | zentral/contrib/inventory/actions/machine_tag.py:19-22 | resolution is BadShape iff the raw value is a non-empty dict |
| `TagResolver.ListAllOrNothing` | zentral/contrib/inventory/actions/machine_tag.py:23-29 | a non-empty list gives exactly its converted elements in order when all convert, and is rejected as BadList, never partially, when any fails |
| `TagResolver.Candidates` | zentral/contrib/inventory/actions/machine_tag.py:15-38 | shape normalisation either gives the candidate ids or stops with one of the four early-return diagnostics, never "some not found" |
| `TagResolver.StringLikeInt` | zentral/contrib/inventory/actions/machine_tag.py:30-38 | a string that parses to n gives the candidate list [n] and is looked up as [n]; for n ≠ 0 it resolves exactly as the integer n |
| `TagResolver.ZeroStringIsNotZeroInt` | zentral/contrib/inventory/actions/machine_tag.py:15-38 | every string spelling 0 is looked up as tag 0, while the integer 0 resolves to Missing, so the two differ |
| `TagResolver.BadValueIffUnparsable` | zentral/contrib/inventory/actions/machine_tag.py:30-36 | a string resolves to BadValue iff it is non-empty and `int()` rejects it |
| `TagResolver.LookupIsIntersection` | zentral/contrib/inventory/actions/machine_tag.py:39-43 | the found ids are exactly the candidates that exist in the registry |
| `TagResolver.NotFoundIff` | zentral/contrib/inventory/actions/machine_tag.py:39-42 | SomeNotFound is reported iff the candidates are not all distinct registry ids, i.e. iff fewer rows than candidates were found |
| `TagResolver.DuplicatesReportNotFound` | zentral/contrib/inventory/actions/machine_tag.py:39-43 | a repeated candidate id triggers SomeNotFound even when every id exists, and the result is still exactly registry ∩ candidates |
| `TagResolver.ResolvedWithinRegistry` | zentral/contrib/inventory/actions/machine_tag.py:15-43 | every resolved id is in the registry; resolution is rejected iff normalisation failed, and otherwise equals registry ∩ candidates |
| `TagResolver.PayloadExample` | zentral/contrib/inventory/actions/machine_tag.py:13-43 | payload `{"tag_ids": [1, 2, 999]}` with registry {1, 2} resolves to {1, 2} with SomeNotFound |
| `TagMutator.AddTags` | zentral/contrib/inventory/actions/machine_tag.py:50-53 | "add" gives old rows ∪ {(msn, t) : t resolved} |
| `TagMutator.RemoveTags` | zentral/contrib/inventory/actions/machine_tag.py:50-55 | "remove" gives old rows \ {(msn, t) : t resolved} |
| `TagMutator.EmptyNeverChecksAction` | zentral/contrib/inventory/actions/machine_tag.py:47-49 | with nothing resolved, trigger completes with no change whatever `action` says |
| `TagMutator.UnknownActionFailsClosed` | zentral/contrib/inventory/actions/machine_tag.py:50-58 | trigger fails iff something was resolved and the action is neither "add" nor "remove"; a failure leaves the table unchanged |
| `TagMutator.OthersUntouched` | zentral/contrib/inventory/actions/machine_tag.py:46-55 | rows for other serial numbers or unresolved tags are neither created nor deleted |
| `TagMutator.EffectOnResolved` | zentral/contrib/inventory/actions/machine_tag.py:52-55 | after "add" each resolved tag is on the machine; after "remove" none is |
| `TagMutator.EffectIdempotent` | zentral/contrib/inventory/actions/machine_tag.py:50-58 | running the same trigger a second time gives the same outcome and no further change |
| `TagMutator.AbsentRemoveNoop` | zentral/contrib/inventory/actions/machine_tag.py:55 | removing rows that do not exist changes nothing |
| `TagMutator.PresentAddNoop` | zentral/contrib/inventory/actions/machine_tag.py:53 | adding rows that already exist creates no new row |
| `TagMutator.AddRemoveCancel` | zentral/contrib/inventory/actions/machine_tag.py:52-55 | remove after add equals remove alone; add after remove equals add alone |
| `TagMutator.EffectKeepsRowsInRegistry` | zentral/contrib/inventory/actions/machine_tag.py:39-55 | with resolved ids from the registry, every row still names an existing tag afterwards |
| `TagMutator.Inventory.GetOrCreate` | zentral/contrib/inventory/actions/machine_tag.py:53 | for an existing tag, the row exists afterwards, nothing else changes, it was created iff it was absent, and referential integrity is kept |
| `TagMutator.Inventory.Delete` | zentral/contrib/inventory/actions/machine_tag.py:55 | the row is gone afterwards, nothing else changes, 1 or 0 rows were deleted as it was present or not, and referential integrity is kept |
| `TagMutator.Inventory.Trigger` | zentral/contrib/inventory/actions/machine_tag.py:45-58 | outcome and new table equal `Effect` of the old table, the serial number, the ids `GetTags` resolves against the registry, and the action; referential integrity is kept |
| `TagMutator.PayloadExampleTrigger` | zentral/contrib/inventory/actions/machine_tag.py:45-55 | the payload example adds (serial, 1) and (serial, 2) to an empty table and completes |

## Left out

- The Django ORM: querysets, transactions and database errors are not modelled. `Tag.objects.filter(pk__in=…)` and its `.count()` are a set intersection and its size. `get_or_create` and `filter(…).delete()` are a set insert and a set delete. A row of `MachineTag` is its (serial number, tag id) pair, so at most one row per pair is built into the state.
- The order in which the queryset yields tags: `Trigger` takes the resolved ids in an arbitrary order. The result does not depend on it.
- The `logging` calls and their message texts, including the action and probe names: each becomes a `Diagnostic` value in the result.
- The text of the `ValueError` at lines 57-58: only the failure itself (`UnknownAction`) is modelled.
- `BaseAction`, the event and probe objects and their metadata: the serial number, the payload and the action configuration are plain inputs.
- A dict's contents: a dict is always rejected, so only its size, which decides its truthiness, is kept.
- IntParsing.ParseInt: is an approximation of Python's `int(str)`. It accepts an optional `+` or `-` and then one or more ASCII digits. It does not model the surrounding whitespace, the `_` digit separators or the non-ASCII Unicode digits that Python also accepts. In the other direction, it does not model the limit on the number of digits that Python 3.11 and later (and security releases of 3.7 to 3.10) apply: `int()` raises `ValueError` on a decimal string of more than 4300 digits (the default `sys.int_max_str_digits`), which the source catches at lines 26 and 33, while `ParseInt` accepts it. The limit is configurable and differs across Python versions.
- Python `int()` on list elements other than ints and strings is not modelled. A float or bool would be converted. `None` or a nested list raises a `TypeError`, which the source does not catch.
- Tag values of other types (floats, bools, tuples) are not modelled. Line 37 would let them through unchanged into the query, and a bool would count as an integer.
- A missing `action` key, which raises `KeyError` at line 51 on the first pass, is not modelled: `action` is always present in `ActionConfig`.
- Concurrency: races between `get_or_create` calls are the database's concern and are not modelled.
