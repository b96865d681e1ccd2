# Feed aggregator reconciliation, modelled in Dafny

The model covers the `FeedAggregator` class of a JSON Feed aggregator that is backed by Deno KV.
The class keeps two lists of records:

- the **cached** records, loaded once from the store under a key prefix;
- the **added** records, the ones this instance accepted through `add`.

For each candidate passed to `add`, the class decides to do one of these:

- throw;
- skip the candidate because the cached copy matches;
- replace the cached copy, keeping its publish date when dates are approximated;
- append the candidate as new, stamping it with the current date when asked to.

`#clean` hides records whose expiry is at or before the instance's fixed current date.
`toJSON` writes every added record to the store, keyed by prefix and id, with a time-to-live when the record has an expiry.
It then emits the cached items followed by the added items.

Layout (one module per file):

- `types.dfy` (`FeedTypes`): items, records, instants, and JavaScript truthiness of the optional fields.
- `expiry.dfy` (`Expiry`): the expiry predicate and the filter `#clean` applies.
- `records.dfy` (`Records`): the by-id `some`, `find` and `filter` over a record list, plus id uniqueness.
- `reconcile.dfy` (`Reconcile`): `Step` is one iteration of the loop in `add`, and `Batch` is the whole loop.
  Both are specification functions, and the lemmas about them carry the properties.
- `persist.dfy` (`Persist`): the `set` mutations `toJSON` builds and their commit as a map update.
- `aggregator.dfy` (`Aggregator`): the class itself.
  Its fields are the store map, the prefix, the current date, the two lists and the initialized flag.
  Its methods are proved against `Step`, `Batch`, `Live`, `Mutations` and `Commit`.

The lists are kept consistent at all times, which the class's `Valid()` states:

- ids are unique among the added records;
- no added id is also a cached id;
- every record in both lists is live.

Ids are unique across the cached and added lists together whenever they were unique in the listing loaded from the store.
The model takes the current date as fixed once the instance is built (see "## Left out").
Under that reading, `#clean` changes something only right after the first load.

## Behaviour of the source worth knowing

- A candidate with an expiry at or before the current date makes `add` throw (`src/main.ts:104`, `src/main.ts:124-128`).
- The "identical, ignore" test at `src/main.ts:151` compares the whole cached record with the bare item, so it never holds.
  As a result, a non-approximated re-add of an identical item still moves it from the cached list to the added list (`Reconcile.IdenticalReAddIsReplaced`).
  This departs from the doc comment at `src/main.ts:96`.
  What a reader sees: re-adding item 1 unchanged on a fresh instance whose feed was `[1, 2, 3]` moves it after every cached item, so the feed becomes `[2, 3, 1]`.
- `add` changes the lists straight away; nothing reaches the store until `toJSON`.
  A throw part-way through a batch keeps the records appended before it (`Reconcile.BatchStopsAtThrow`).
- A repeated id throws when its earlier copy was appended, whether that happened in an earlier call or earlier in the same call (`Reconcile.BatchRejectsAddedId`, `Reconcile.BatchRejectsRepeat`).
  A repeat does not throw when its earlier copy was skipped as matching the cached record (`Reconcile.SkippedRepeatDoesNotThrow`).
- The record shape in `src/types.ts` has `subprefix` but no `shouldApproximateDate`.
  The model uses the fields `src/main.ts` reads: `item`, `expireAt` and `shouldApproximateDate`.
  The key is always the prefix followed by the id.

The members below are stated with these conditions:

- `Expiry.IsLive` is the filter test at `src/main.ts:65`.
- `FeedTypes.IsOn` is the truthiness of `shouldApproximateDate` at `src/main.ts:132`, `:156` and `:175`.
- `FeedTypes.HasDate` is the truthiness of the two date fields at `src/main.ts:132`.
- The truthiness of `expireAt` at `src/main.ts:65` and `:124` is written directly as `expireAt.None?` or `expireAt.Some?`.

## Model

| member | source | states |
|---|---|---|
| Expiry.Live | src/main.ts:63-68 | the cleaned list holds exactly the records of the input that have no expiry or expire strictly after now |
| Expiry.LiveAppend | src/main.ts:63-68 | cleaning distributes over concatenation, so kept records stay in their original order |
| Expiry.LiveIsIdentity | src/main.ts:63-68 | cleaning leaves a list unchanged exactly when all its records are live |
| Expiry.CleanIdempotent | src/main.ts:63-68 | cleaning twice equals cleaning once |
| Expiry.LiveKeepsUnique | src/main.ts:63-68 | cleaning keeps ids unique |
| Records.Find | src/main.ts:139-141 | finds a record with the id exactly when one exists, and the record found carries that id |
| Records.FindFirst | src/main.ts:139-141 | the record found is the earliest one with the id |
| Records.HasId | src/main.ts:120 | true exactly when some record of the list has that id, as `some` returns |
| Records.WithoutId | src/main.ts:171-173 | the filtered list is no longer than the input, holds exactly the records whose id differs, and none with the id |
| Records.WithoutIdAppend | src/main.ts:171-173 | filtering by id distributes over concatenation, so the kept records stay in their original order |
| Records.WithoutAbsentId | src/main.ts:171-173 | filtering out an id that is not present changes nothing |
| Reconcile.Stamped | src/main.ts:175-177 | the new item's publish date becomes the current date and no other field changes |
| Reconcile.Merged | src/main.ts:166-167 | the replacing item takes the cached publish date and is modified now; id and other fields unchanged |
| Reconcile.SameButPublished | src/main.ts:157-161 | two items count as the same exactly when id, modified date and every other field agree |
| Reconcile.Step | src/main.ts:116-181 | one iteration: a throw names the candidate's id; the cached list only loses records; at most the candidate is appended, with its id, expiry and flag |
| Reconcile.Batch | src/main.ts:116-181 | the whole loop only extends the added list, by at most one record per candidate, and only removes cached records |
| Reconcile.StepThrows | src/main.ts:120-148 | each of the four errors is thrown exactly under its condition, checked in source order, and names the candidate's id |
| Reconcile.NewIdAppended | src/main.ts:174-180 | a new id is appended; with approximation on, only its publish date changes, to the current date |
| Reconcile.ApproximatedSameIsSkipped | src/main.ts:156-164 | with approximation on and a cached item differing only in publish date, both lists are left unchanged |
| Reconcile.ChangedReplacesCached | src/main.ts:156-180 | otherwise every cached record with the id is dropped and the candidate is appended; with approximation on it takes the cached publish date and is modified now |
| Reconcile.IdenticalReAddIsReplaced | src/main.ts:150-154 | a non-approximated candidate identical to its cached record is still moved to the added list |
| Reconcile.StepAppendsOnly | src/main.ts:180 | a step only ever extends the added list, by at most one record |
| Reconcile.StepKeepsConsistent | src/main.ts:116-181 | one step keeps added ids unique and disjoint from cached ids, keeps all records live and keeps cached ids unique |
| Reconcile.BatchKeepsConsistent | src/main.ts:116-181 | a whole batch keeps the same invariants and only extends the added list |
| Reconcile.BatchStopsAtThrow | src/main.ts:116-181 | a batch that throws leaves exactly the lists built by the candidates before the one that threw |
| Reconcile.BatchRejectsAddedId | src/main.ts:120-122 | a candidate whose id is already among the added records makes the batch throw |
| Reconcile.BatchRejectsInvalid | src/main.ts:124-137 | a candidate anywhere in the call whose expiry is not in the future, or which asks for approximation while it has a date, makes the call throw |
| Reconcile.BatchRejectsThrowAt | src/main.ts:116-148 | a candidate that throws on the lists the earlier candidates built makes the call throw (covers a differing approximation flag) |
| Reconcile.BatchRejectsThrows | src/main.ts:116-148 | the quantified forms: every such candidate, and every invalid candidate, makes the call throw |
| Reconcile.BatchRejectsRepeat | src/main.ts:120-122 | a candidate whose id an earlier candidate of the same call appended makes the batch throw |
| Reconcile.BatchRejectsRepeats | src/main.ts:120-122 | every candidate repeating an id appended earlier in the call makes the batch throw |
| Reconcile.SkippedRepeatDoesNotThrow | src/main.ts:156-164 | a candidate skipped as matching the cached record is skipped again when repeated, without a throw |
| Reconcile.StepKeepsPresent | src/main.ts:139-180 | after a step that does not throw, the candidate's id is held by some record and no earlier id is lost |
| Reconcile.BatchKeepsPresent | src/main.ts:116-181 | a batch that does not throw loses no id that was held before |
| Reconcile.BatchCoversIds | src/main.ts:116-181 | after a batch that does not throw, every candidate's id is held by a cached or added record |
| Persist.KeyOf | src/main.ts:205 | the key is the prefix followed by the item's id |
| Persist.KeyOfInjective | src/main.ts:205 | two records share a key exactly when they share an id |
| Persist.ExpireIn | src/main.ts:208-209 | there is a time-to-live exactly when there is an expiry, and now plus it is the expiry |
| Persist.LiveHasPositiveExpireIn | src/main.ts:208-209 | a live record is written with a positive time-to-live or none |
| Persist.Mutations | src/main.ts:204-210 | one set per added record, in order, with its key, the record itself and its time-to-live |
| Persist.Commit | src/main.ts:202-211 | committing keeps every existing key and adds only keys some mutation sets |
| Persist.CommitLeavesOthers | src/main.ts:202-211 | a key no mutation sets keeps its value, or stays absent |
| Persist.CommitWritesEach | src/main.ts:202-211 | with unique ids, each added record ends up stored at its own key with its time-to-live |
| Persist.CommitKeepsOtherKeys | src/main.ts:202-211 | keys of no added record are untouched by the commit |
| Aggregator.Payloads | src/main.ts:216-217 | the feed receives the items of the records, one per record, in order |
| Aggregator.FeedAggregator.constructor | src/main.ts:44-54 | a new instance holds the store, prefix and date it was given, is not initialized and has empty lists |
| Aggregator.FeedAggregator.Clean | src/main.ts:63-68 | both lists become their live records |
| Aggregator.FeedAggregator.Init | src/main.ts:76-90 | the cached list becomes the listing, and the load count goes up by one |
| Aggregator.FeedAggregator.Prepare | src/main.ts:109-114 | loads at most once over the instance's life, then cleans; the added list is untouched |
| Aggregator.FeedAggregator.AddOne | src/main.ts:116-181 | one loop iteration does what `Reconcile.Step` says, and nothing when it throws |
| Aggregator.FeedAggregator.Add | src/main.ts:108-182 | the lists become the batch outcome; the added list only grows; ids end up unique; every candidate's id ends up held by a record; the call throws when an id was added earlier (in an earlier call or by an earlier candidate of this call), when some candidate's expiry is not in the future or it asks for approximation while dated, and when some candidate's flag differs from the cached record it meets |
| Aggregator.FeedAggregator.ToJson | src/main.ts:192-220 | every added record is stored at its key with its time-to-live, other keys are untouched, and the feed is the cached items followed by the added items |

## Left out

- Deno KV listing: `kv.list` with its batch size is not modelled (`src/main.ts:78-84`). What it yields is the `listed` parameter of `Add` and `ToJson`, used only on the first call. Its batches need not be consistent with each other, so it is not tied to the `kv` map.
- Because of that, the round trip "persist, then load into a fresh instance" is not stated, and neither is the key order of the listing.
- Atomic commit: the model treats `commit()` as never failing and as a total map update. The source ignores its result, whose `ok` is always true for a transaction without checks (`src/main.ts:201`). A rejected commit, for instance one over the store's per-transaction limits, is not modelled.
- Store-side expiry: the store's own deletion of expired keys is not modelled. The time-to-live is only recorded with each stored value.
- Feed rendering: the external `Feed` class, the feed info and JSON serialisation are not modelled. `ToJson` returns the ordered sequence of item payloads the feed would receive.
- Dates: `toISOString` is not modelled. The current date is an `Instant` that carries its millisecond time and its ISO text. Invalid dates (NaN time values) are not modelled.
- Wall clock: the constructor's default `new Date()` is a parameter.
- Date and array aliasing: the source stores the caller's `Date` (`src/main.ts:53`), the caller's prefix array (`src/main.ts:51`) and each candidate's `expireAt` (`src/main.ts:180`) by reference. A caller that mutates them afterwards moves `#now`, the keys or the expiries. The model holds them as values fixed at construction or at `add`, so it does not capture that. Nor does it capture records expiring between calls as the caller's date advances, which the comment at `src/main.ts:60` expects. `Valid()`'s claim that every record is live, and the claim that cleaning only matters right after the first load, rest on this reading.
- Item payloads: item fields other than `id`, `date_published` and `date_modified` are abstracted to a map from field name to serialized value.
- `structuredClone` and deep `equal`: these are Dafny value semantics and structural equality. The caller's items are values here, so they cannot be changed by `add`.
- Concurrency: `async`/`await` become sequential calls. Interleaved calls on one instance are not modelled.
- Logging: `src/log.ts` is a logging wrapper and is not part of this model.
- Newer API: `createFeedAggregator`, `get`, `has`, `getAll`, `remove`, `removeAll`, subprefix filtering and the shared-date option appear only in the tests. No source for them exists in `src/main.ts`.
- Time-dependent behaviour: the tests that wait for a real delay and rely on store-side expiry are not modelled.
