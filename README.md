# sway-ir metadata store, in Dafny

A model of the metadata store of the Sway compiler's intermediate representation
(`sway-ir/src/metadata.rs`). IR values carry optional annotations: source spans,
storage-slot state tokens and storage-effect tags. The annotations are records
(`Metadatum`) in one arena owned by the IR `Context`. Beside the arena the context
keeps two reverse caches:

- `metadata_reverse_map`, from the identity of a shared path allocation to its
  `FileLocation` record;
- `metadata_storage_indices`, from an effect tag to its `StorageAttribute` record.

The files:

- `metadata_model.dfy` (module `MetadataModel`): the records, the store as a value
  (`Store`), its invariant `Valid`, and each operation of `MetadataIndex` as a
  function on the store. `ToSpan`, `ToStateIdx` and `SimpleString` only read, as in
  the source.
- `metadata_properties.dfy` (module `MetadataProperties`): the lemmas. They cover
  which records each producer inserts, when a cached record is reused, the round
  trips, and exactly when decoding fails.
- `context.dfy` (module `Metadata`): class `Context` with the four fields the
  source updates in place: the arena map, its free-slot counter and the two caches.
  Its methods `FromSpan`, `FromStateIdx` and `GetStorageIndex` do the source's
  lookup-or-insert on those fields. Each one's `ensures` ties the new state and
  the result to the `MetadataModel` function of the same name. A reader calls
  `MetadataModel.ToSpan(ctx.State(), i)` or `MetadataModel.ToStateIdx(ctx.State(), i)`.

`Valid` is the store invariant. Every producer keeps it. It says:

- the next arena slot is free;
- the path cache maps each allocation identity to the `FileLocation` of that same
  allocation, and every `FileLocation` is in the cache, so there is one location per
  allocation;
- the effect cache holds exactly one `StorageAttribute(op)` per tag `op`;
- every `Span` record refers to a `FileLocation`.

## Model

| member | source | states |
|---|---|---|
| MetadataModel.SimpleString | sway-ir/src/metadata.rs:125-131 | Reads gives "read", Writes gives "write", ReadsWrites gives "readwrite", each label for that tag only |
| MetadataModel.Insert | sway-ir/src/metadata.rs:46-49 | arena insertion puts the record in a slot that was free, keeps every stored record at its slot and leaves both caches alone |
| MetadataModel.InternLocation | sway-ir/src/metadata.rs:41-55 | the path cache maps the allocation to the returned location index; on a hit nothing changes, on a miss exactly one fresh `FileLocation(path, src)` record and its cache entry are added |
| MetadataModel.FromSpan | sway-ir/src/metadata.rs:38-63 | `None` exactly for a pathless span, which changes nothing; otherwise a fresh handle holding `Span` with the span's offsets and the cached location of its path allocation, every earlier record kept and the effect cache untouched |
| MetadataModel.ToSpan | sway-ir/src/metadata.rs:65-79 | `Err` exactly when the record is not a span, its location is not a file location, or the span constructor rejects the offsets; otherwise the span over the location's text and path with the stored offsets |
| MetadataModel.FromStateIdx | sway-ir/src/metadata.rs:82-86 | always `Some` of a fresh handle; exactly `StateIndex(token)` is added and both caches are untouched |
| MetadataModel.ToStateIdx | sway-ir/src/metadata.rs:88-93 | `Ok` exactly on a `StateIndex` record, giving its token; `Err(InvalidMetadatum)` on every other record |
| MetadataModel.GetStorageIndex | sway-ir/src/metadata.rs:95-106 | the returned handle is the one cached for the tag; a cached tag changes nothing, a new tag adds exactly one fresh `StorageAttribute(op)` record and its cache entry |
| MetadataProperties.FromSpanPreservesValid | sway-ir/src/metadata.rs:38-63 | `from_span` keeps the store invariant: one location per path allocation, the cache points at it, every span refers to a file location |
| MetadataProperties.FromStateIdxPreservesValid | sway-ir/src/metadata.rs:82-86 | `from_state_idx` keeps the store invariant |
| MetadataProperties.GetStorageIndexPreservesValid | sway-ir/src/metadata.rs:95-106 | `get_storage_index` keeps the store invariant, including one attribute record per tag |
| MetadataProperties.OneLocationPerAllocation | sway-ir/src/metadata.rs:41-53 | in a valid store two `FileLocation` records for the same path allocation are the same record |
| MetadataProperties.OneAttributePerTag | sway-ir/src/metadata.rs:95-106 | in a valid store two `StorageAttribute(op)` records for the same tag are the same record |
| MetadataProperties.PathlessSpanNotRecorded | sway-ir/src/metadata.rs:40 | a span without a path gives `None` and leaves the arena and both caches unchanged |
| MetadataProperties.FromSpanRecordsSpan | sway-ir/src/metadata.rs:57-61 | a span with a path gives `Some(i)` for a fresh `i` holding `Span { loc_idx, start, end }` with the span's offsets and the location of its path allocation; every earlier record is kept and the effect cache is untouched |
| MetadataProperties.LocationReused | sway-ir/src/metadata.rs:41-42 | on a cache hit the cached location index is reused, the path cache is unchanged and the span record is the only record added |
| MetadataProperties.LocationInserted | sway-ir/src/metadata.rs:43-54 | on a cache miss exactly two records are added: `FileLocation(path, src)` and the span referring to it; the cache gains the allocation's entry and nothing else changes |
| MetadataProperties.SameAllocationSharesLocation | sway-ir/src/metadata.rs:41-55 | recorded back to back, the first time the allocation is seen, two spans over one path allocation get distinct span records sharing one location, which keeps the first span's path and source text |
| MetadataProperties.SameAllocationSharesLocationAcrossCalls | sway-ir/src/metadata.rs:41-61 | from any valid store and with any producer calls in between, two spans over one path allocation get distinct span records sharing one location record of that allocation |
| MetadataProperties.ToSpanOnValidStore | sway-ir/src/metadata.rs:65-79 | on a valid store any present handle can be decoded without a panic, and the only failures left are a kind mismatch or rejected offsets |
| MetadataProperties.SpanRoundTrip | sway-ir/src/metadata.rs:65-76 | decoding the handle `from_span` returned gives the same path allocation, start and end over the location's source text, or `Err` exactly when the constructor rejects those offsets |
| MetadataProperties.SpanRoundTripExact | sway-ir/src/metadata.rs:38-76 | when the stored location holds this span's path and text (always so on first sight) and the offsets slice the text, `to_span(from_span(span))` is `Ok(span)` |
| MetadataProperties.StateTokenRoundTrip | sway-ir/src/metadata.rs:82-92 | `from_state_idx` always gives `Some` of a fresh handle, adds only `StateIndex(token)`, and `to_state_idx` on it gives `Ok(token)` |
| MetadataProperties.StateTokensNotShared | sway-ir/src/metadata.rs:82-86 | recording the same token twice gives two distinct handles, both decoding to the token |
| MetadataProperties.StorageIndexIsNotState | sway-ir/src/metadata.rs:88-92 | `to_state_idx` on a handle from `get_storage_index` fails with `InvalidMetadatum` |
| MetadataProperties.SpanIndexIsNotState | sway-ir/src/metadata.rs:88-92 | `to_state_idx` on a handle from `from_span` fails with `InvalidMetadatum` |
| MetadataProperties.StorageIndexRecorded | sway-ir/src/metadata.rs:95-106 | the handle holds `StorageAttribute(op)` and is cached for `op`; a cached tag changes nothing, a new tag adds exactly that one record and cache entry |
| MetadataProperties.StorageIndexIdempotent | sway-ir/src/metadata.rs:95-106 | asking again for the same tag gives the same handle and leaves the store unchanged |
| MetadataProperties.StorageIndicesDistinct | sway-ir/src/metadata.rs:95-106 | different tags get different handles |
| MetadataProperties.Run | sway-ir/src/metadata.rs:38-106 | after any sequence of producer calls the arena's next slot is still free and never moves back |
| MetadataProperties.RunPreservesValid | sway-ir/src/metadata.rs:38-106 | the store invariant holds after any sequence of producer calls, so the effect cache holds at most one record per tag ever |
| MetadataProperties.RunKeepsRecords | sway-ir/src/metadata.rs:38-106 | records are never changed or dropped after insertion, and no entry of either cache is ever changed or dropped |
| MetadataProperties.SpanDecodesForever | sway-ir/src/metadata.rs:65-79 | `to_span` on a handle gives the same outcome after any later producer calls |
| MetadataProperties.StateDecodesForever | sway-ir/src/metadata.rs:88-93 | `to_state_idx` on a handle gives the same outcome after any later producer calls |
| MetadataProperties.StorageIndexForever | sway-ir/src/metadata.rs:95-106 | once a tag has a handle, a request for it after any later calls returns that handle and adds nothing |
| MetadataProperties.SimpleStringInjective | sway-ir/src/metadata.rs:125-131 | the labels "read", "write" and "readwrite" are pairwise distinct, so a label names its tag |
| MetadataProperties.ExampleSpan | sway-ir/src/metadata.rs:38-76 | path "/a.sw" over "fn main() {}" with offsets 0 and 2, recorded in an empty store, decodes to path "/a.sw", start 0, end 2 |
| MetadataProperties.ExampleStorage | sway-ir/src/metadata.rs:95-131 | `Reads` twice gives one handle k, `Writes` a handle m different from k, and their tags are labelled "read" and "write" |
| MetadataProperties.ExampleNonAscii | sway-ir/src/metadata.rs:65-76 | offsets are byte offsets: over "é" (two bytes) the range 0..2 decodes back to the recorded span and the range 0..1, which ends inside the character, gives `Err(InvalidMetadatum)` |
| Metadata.Context.Insert | sway-ir/src/metadata.rs:46-49 | the arena insert on the context's fields is the model's `Insert` |
| Metadata.Context.FromSpan | sway-ir/src/metadata.rs:38-63 | the in-place `from_span` keeps the invariant; its new state and result are the model's `FromSpan`: `None` and no change without a path, else a fresh span record with earlier records kept |
| Metadata.Context.FromStateIdx | sway-ir/src/metadata.rs:82-86 | the in-place `from_state_idx` keeps the invariant and adds exactly `StateIndex(token)` at a fresh handle |
| Metadata.Context.GetStorageIndex | sway-ir/src/metadata.rs:95-106 | the in-place `get_storage_index` keeps the invariant, returns the handle of `StorageAttribute(op)` cached for `op`, and changes nothing when the tag was cached |

## Left out

- Generational arena internals: the arena is a map with a counter for the next free slot. No record is ever removed here, so the generation of a handle never matters and is not modelled.
- Stale or absent handles: no record is ever removed, so no handle goes stale. An absent handle panics in the source, which indexes the arena directly (sway-ir/src/metadata.rs:66, 72, 89). `ToSpan` and `ToStateIdx` therefore require the handle to be present (`Resolvable`, `i in s.metadata`) rather than returning an error.
- The arena picks a free slot by itself. The model's functions instead require `ArenaOk` (every used slot lies below `next`), which the class keeps as part of its invariant, so that insertion at `next` is insertion into a free slot.
- `to_span` and `to_state_idx` only read the context. They are pure functions on the context's state (`ctx.State()`), not methods of the class.
- Reference counting and pointer identity of `Arc`: a shared path is a `SharedPath(id, buf)`, where `id` stands for the allocation's address. The path cache is keyed by `id`, not by the path text. Nothing ties `buf` to `id`, so where the model says "same path" (in `SpanRoundTrip`, `SameAllocationSharesLocation`) it means the same allocation; the path text recovered is the one stored with that allocation's first location.
- `Span::new` of `sway_types` is not part of this model. It is modelled as `NewSpan`, which accepts exactly when `src.get(start..end)` would give a slice: `start <= end` and both offsets are UTF-8 character boundaries of the text (0, the text's length, or an offset whose byte is not a continuation byte). Source text is modelled as its UTF-8 bytes (`Text`) and offsets count bytes; that the text is valid UTF-8 is not checked.
- Consistency of source text: the source never checks that later spans over one path allocation carry the same text, nor that `start <= end` when recording. The model keeps this behaviour: the first text is kept (`SameAllocationSharesLocation`), and bad offsets only surface when decoding (`MetadataModel.ToSpan`, whose `Err` condition includes `!SliceOk`, and `MetadataProperties.SpanRoundTrip`).
- `usize` offsets and state tokens are `nat`. No arithmetic is done on them, so width does not matter.
- The `Display` implementation of `StorageOperation` only writes `simple_string` to a formatter. It is I/O plumbing and is left out.
- The rest of `Context` and all `IrError` variants other than `InvalidMetadatum`.
