/**
 * What the metadata store promises: which records each producer inserts, when
 * a cached record is reused, that decoding recovers what was encoded, and
 * exactly when decoding fails.
 */
module MetadataProperties {
  import opened MetadataModel

  // ---------------------------------------------------------------------------
  // The invariant holds from the start and every producer keeps it.

  lemma EmptyIsValid()
    ensures Valid(Empty())
    ensures Empty().metadata == map[] && Empty().reverseMap == map[] && Empty().storageIndices == map[]
  {
  }

  lemma FromSpanPreservesValid(s: Store, span: SourceSpan)
    requires Valid(s)
    ensures Valid(FromSpan(s, span).0)
  {
  }

  lemma FromStateIdxPreservesValid(s: Store, token: nat)
    requires Valid(s)
    ensures Valid(FromStateIdx(s, token).0)
  {
  }

  lemma GetStorageIndexPreservesValid(s: Store, op: StorageOperation)
    requires Valid(s)
    ensures Valid(GetStorageIndex(s, op).0)
  {
  }

  // ---------------------------------------------------------------------------
  // Uniqueness that the invariant gives: one location per path allocation and
  // one attribute record per effect tag.

  lemma OneLocationPerAllocation(s: Store, i: Index, j: Index)
    requires Valid(s)
    requires i in s.metadata && s.metadata[i].FileLocation?
    requires j in s.metadata && s.metadata[j].FileLocation?
    requires s.metadata[i].path.id == s.metadata[j].path.id
    ensures i == j
  {
  }

  lemma OneAttributePerTag(s: Store, i: Index, j: Index, op: StorageOperation)
    requires Valid(s)
    requires i in s.metadata && s.metadata[i] == StorageAttribute(op)
    requires j in s.metadata && s.metadata[j] == StorageAttribute(op)
    ensures i == j
  {
  }

  // ---------------------------------------------------------------------------
  // from_span

  /** A span without a path records nothing and leaves the store as it was. */
  lemma PathlessSpanNotRecorded(s: Store, span: SourceSpan)
    requires ArenaOk(s)
    requires span.path.None?
    ensures FromSpan(s, span) == (s, None)
  {
  }

  /**
   * A span with a path gets a fresh record holding its offsets and the
   * location of its path allocation; every record stored before is kept.
   */
  lemma FromSpanRecordsSpan(s: Store, span: SourceSpan)
    requires Valid(s)
    requires span.path.Some?
    ensures var (t, r) := FromSpan(s, span);
      && r.Some? && r.value !in s.metadata && r.value in t.metadata
      && span.path.value.id in t.reverseMap
      && IsLocationOf(t, t.reverseMap[span.path.value.id], span.path.value.id)
      && t.metadata[r.value] == Span(t.reverseMap[span.path.value.id], span.start, span.end)
      && (forall j :: j in s.metadata ==> j in t.metadata && t.metadata[j] == s.metadata[j])
      && t.storageIndices == s.storageIndices
  {
  }

  /** A path allocation seen before: its location is reused and only the span record is added. */
  lemma LocationReused(s: Store, span: SourceSpan)
    requires Valid(s)
    requires span.path.Some? && span.path.value.id in s.reverseMap
    ensures var (t, r) := FromSpan(s, span);
      && r.Some?
      && t.reverseMap == s.reverseMap
      && t.metadata.Keys == s.metadata.Keys + {r.value}
      && t.metadata[r.value] == Span(s.reverseMap[span.path.value.id], span.start, span.end)
  {
  }

  /**
   * A path allocation seen for the first time: exactly one location record,
   * holding the path and this span's source text, and the span record are
   * added, and the path cache maps the allocation to the new location.
   */
  lemma LocationInserted(s: Store, span: SourceSpan)
    requires Valid(s)
    requires span.path.Some? && span.path.value.id !in s.reverseMap
    ensures var (t, r) := FromSpan(s, span);
      && r.Some?
      && span.path.value.id in t.reverseMap
      && var loc := t.reverseMap[span.path.value.id];
      && loc !in s.metadata && loc != r.value
      && t.reverseMap == s.reverseMap[span.path.value.id := loc]
      && t.metadata.Keys == s.metadata.Keys + {loc, r.value}
      && t.metadata[loc] == FileLocation(span.path.value, span.src)
      && t.metadata[r.value] == Span(loc, span.start, span.end)
  {
  }

  /**
   * Two spans over the same path allocation get two span records that share
   * one location record, and that location keeps the first span's source
   * text and path whatever the second span carries.
   */
  lemma SameAllocationSharesLocation(s: Store, a: SourceSpan, b: SourceSpan)
    requires Valid(s)
    requires a.path.Some? && b.path.Some? && a.path.value.id == b.path.value.id
    requires a.path.value.id !in s.reverseMap
    ensures var (t, ra) := FromSpan(s, a);
      Valid(t) &&
      var (u, rb) := FromSpan(t, b);
      && ra.Some? && rb.Some? && ra.value != rb.value
      && ra.value in u.metadata && rb.value in u.metadata
      && u.metadata[ra.value].Span? && u.metadata[rb.value].Span?
      && u.metadata[ra.value].locIdx == u.metadata[rb.value].locIdx
      && u.metadata[ra.value].locIdx in u.metadata
      && u.metadata[u.metadata[ra.value].locIdx] == FileLocation(a.path.value, a.src)
  {
    FromSpanPreservesValid(s, a);
    var (t, ra) := FromSpan(s, a);
    LocationInserted(s, a);
    LocationReused(t, b);
  }

  // ---------------------------------------------------------------------------
  // to_span

  /** In a valid store a span's location is always a file location, so only the other two failures remain. */
  lemma ToSpanOnValidStore(s: Store, i: Index)
    requires Valid(s) && i in s.metadata
    ensures Resolvable(s, i)
    ensures ToSpan(s, i).Err? <==>
      || !s.metadata[i].Span?
      || !SliceOk(s.metadata[s.metadata[i].locIdx].src, s.metadata[i].start, s.metadata[i].end)
  {
  }

  /**
   * Decoding a recorded span gives back the path allocation and the offsets
   * that were recorded, over the source text the location holds, unless the
   * span constructor rejects those offsets.
   */
  lemma SpanRoundTrip(s: Store, span: SourceSpan)
    requires Valid(s)
    requires span.path.Some?
    ensures var (t, r) := FromSpan(s, span);
      && r.Some? && Resolvable(t, r.value)
      && span.path.value.id in t.reverseMap
      && var loc := t.metadata[t.reverseMap[span.path.value.id]];
      && loc.FileLocation? && loc.path.id == span.path.value.id
      && ToSpan(t, r.value) ==
           if SliceOk(loc.src, span.start, span.end)
           then Ok(SourceSpan(loc.src, span.start, span.end, Some(loc.path)))
           else Err(InvalidMetadatum)
  {
    FromSpanRecordsSpan(s, span);
  }

  /**
   * When the location recorded for the span's path allocation holds this very
   * path and source text (always so on first sight), and the offsets slice
   * the text, decoding gives back exactly the span that was recorded.
   */
  lemma SpanRoundTripExact(s: Store, span: SourceSpan)
    requires Valid(s)
    requires span.path.Some?
    requires span.path.value.id in s.reverseMap ==>
      s.metadata[s.reverseMap[span.path.value.id]] == FileLocation(span.path.value, span.src)
    requires SliceOk(span.src, span.start, span.end)
    ensures var (t, r) := FromSpan(s, span);
      r.Some? && Resolvable(t, r.value) && ToSpan(t, r.value) == Ok(span)
  {
    SpanRoundTrip(s, span);
    if span.path.value.id !in s.reverseMap {
      LocationInserted(s, span);
    } else {
      LocationReused(s, span);
    }
  }

  // ---------------------------------------------------------------------------
  // State tokens

  /** `from_state_idx` always adds one fresh record holding the token, which `to_state_idx` gives back. */
  lemma StateTokenRoundTrip(s: Store, token: nat)
    requires Valid(s)
    ensures var (t, r) := FromStateIdx(s, token);
      && r.Some? && r.value !in s.metadata
      && t.metadata == s.metadata[r.value := StateIndex(token)]
      && t.reverseMap == s.reverseMap && t.storageIndices == s.storageIndices
      && ToStateIdx(t, r.value) == Ok(token)
  {
  }

  /** Tokens are never shared: recording the same token twice gives two handles, both decoding to it. */
  lemma StateTokensNotShared(s: Store, token: nat)
    requires Valid(s)
    ensures var (t, r1) := FromStateIdx(s, token);
      var (u, r2) := FromStateIdx(t, token);
      && r1.Some? && r2.Some? && r1.value != r2.value
      && r1.value in u.metadata && r2.value in u.metadata
      && ToStateIdx(u, r1.value) == Ok(token) && ToStateIdx(u, r2.value) == Ok(token)
  {
  }

  /** A storage-effect handle is not a state token. */
  lemma StorageIndexIsNotState(s: Store, op: StorageOperation)
    requires Valid(s)
    ensures var (t, i) := GetStorageIndex(s, op);
      i in t.metadata && ToStateIdx(t, i) == Err(InvalidMetadatum)
  {
  }

  /** A span handle is not a state token. */
  lemma SpanIndexIsNotState(s: Store, span: SourceSpan)
    requires Valid(s)
    requires span.path.Some?
    ensures var (t, r) := FromSpan(s, span);
      r.Some? && r.value in t.metadata && ToStateIdx(t, r.value) == Err(InvalidMetadatum)
  {
    FromSpanRecordsSpan(s, span);
  }

  // ---------------------------------------------------------------------------
  // Storage-effect tags

  /**
   * `get_storage_index` returns a handle to the tag's attribute record and
   * caches it; a cached tag changes nothing, a new tag adds exactly one record.
   */
  lemma StorageIndexRecorded(s: Store, op: StorageOperation)
    requires Valid(s)
    ensures var (t, i) := GetStorageIndex(s, op);
      && i in t.metadata && t.metadata[i] == StorageAttribute(op)
      && op in t.storageIndices && t.storageIndices[op] == i
      && (op in s.storageIndices ==> t == s)
      && (op !in s.storageIndices ==>
            && i !in s.metadata
            && t.metadata == s.metadata[i := StorageAttribute(op)]
            && t.storageIndices == s.storageIndices[op := i]
            && t.reverseMap == s.reverseMap)
  {
  }

  /** Asking twice for the same tag gives the same handle and leaves the store as it was. */
  lemma StorageIndexIdempotent(s: Store, op: StorageOperation)
    requires Valid(s)
    ensures var (t, i) := GetStorageIndex(s, op);
      GetStorageIndex(t, op) == (t, i)
  {
  }

  /** Different tags get different handles. */
  lemma StorageIndicesDistinct(s: Store, a: StorageOperation, b: StorageOperation)
    requires Valid(s)
    requires a != b
    ensures var (t, i) := GetStorageIndex(s, a);
      ArenaOk(t) && i != GetStorageIndex(t, b).1
  {
    var (t, i) := GetStorageIndex(s, a);
    StorageIndexRecorded(s, a);
    GetStorageIndexPreservesValid(s, a);
    StorageIndexRecorded(t, b);
  }

  /** The labels of the three tags are pairwise different, so a label names its tag. */
  lemma SimpleStringInjective(a: StorageOperation, b: StorageOperation)
    ensures SimpleString(a) == SimpleString(b) <==> a == b
  {
  }

  // ---------------------------------------------------------------------------
  // Any sequence of producer calls over one context's lifetime

  /** One call of a producer operation on the context. */
  datatype Call =
    | RecordSpan(span: SourceSpan)
    | RecordState(token: nat)
    | StorageIndexOf(op: StorageOperation)

  function Step(s: Store, c: Call): (t: Store)
    requires ArenaOk(s)
    ensures ArenaOk(t)
  {
    match c
    case RecordSpan(span) => FromSpan(s, span).0
    case RecordState(token) => FromStateIdx(s, token).0
    case StorageIndexOf(op) => GetStorageIndex(s, op).0
  }

  /** The store after the calls, in order. The arena never gives a used slot away. */
  function Run(s: Store, calls: seq<Call>): (t: Store)
    requires ArenaOk(s)
    ensures ArenaOk(t) && t.next >= s.next
    decreases |calls|
  {
    if calls == [] then s else Run(Step(s, calls[0]), calls[1..])
  }

  /** The store invariant holds after any sequence of calls. */
  lemma {:induction false} RunPreservesValid(s: Store, calls: seq<Call>)
    requires Valid(s)
    ensures Valid(Run(s, calls))
    decreases |calls|
  {
    if calls != [] {
      match calls[0] {
        case RecordSpan(span) => FromSpanPreservesValid(s, span);
        case RecordState(token) => FromStateIdxPreservesValid(s, token);
        case StorageIndexOf(op) => GetStorageIndexPreservesValid(s, op);
      }
      RunPreservesValid(Step(s, calls[0]), calls[1..]);
    }
  }

  /**
   * Records are never changed or dropped once inserted, and neither is an
   * entry of either cache: a handle stays valid for the context's lifetime.
   */
  lemma {:induction false} RunKeepsRecords(s: Store, calls: seq<Call>)
    requires ArenaOk(s)
    ensures var t := Run(s, calls);
      && (forall j :: j in s.metadata ==> j in t.metadata && t.metadata[j] == s.metadata[j])
      && (forall p :: p in s.reverseMap ==> p in t.reverseMap && t.reverseMap[p] == s.reverseMap[p])
      && (forall op :: op in s.storageIndices ==> op in t.storageIndices && t.storageIndices[op] == s.storageIndices[op])
    decreases |calls|
  {
    if calls != [] {
      RunKeepsRecords(Step(s, calls[0]), calls[1..]);
    }
  }

  /** A span handle decodes the same way after any later calls. */
  lemma SpanDecodesForever(s: Store, i: Index, calls: seq<Call>)
    requires Valid(s) && i in s.metadata
    ensures Resolvable(Run(s, calls), i) && ToSpan(Run(s, calls), i) == ToSpan(s, i)
  {
    RunKeepsRecords(s, calls);
  }

  /** A state-token handle decodes the same way after any later calls. */
  lemma StateDecodesForever(s: Store, i: Index, calls: seq<Call>)
    requires ArenaOk(s) && i in s.metadata
    ensures i in Run(s, calls).metadata && ToStateIdx(Run(s, calls), i) == ToStateIdx(s, i)
  {
    RunKeepsRecords(s, calls);
  }

  /**
   * Once a tag has a handle, every later request for that tag, after any
   * calls, gets the same handle and adds nothing.
   */
  lemma StorageIndexForever(s: Store, op: StorageOperation, calls: seq<Call>)
    requires Valid(s)
    ensures var (t, i) := GetStorageIndex(s, op);
      var u := Run(t, calls);
      GetStorageIndex(u, op) == (u, i)
  {
    var (t, i) := GetStorageIndex(s, op);
    RunKeepsRecords(t, calls);
  }

  /**
   * Two spans over one path allocation, recorded from any valid store with
   * any calls in between, get distinct span records that share one location
   * record of that allocation.
   */
  lemma SameAllocationSharesLocationAcrossCalls(s: Store, a: SourceSpan, calls: seq<Call>, b: SourceSpan)
    requires Valid(s)
    requires a.path.Some? && b.path.Some? && a.path.value.id == b.path.value.id
    ensures var (t, ra) := FromSpan(s, a);
      var u := Run(t, calls);
      var (v, rb) := FromSpan(u, b);
      && ra.Some? && rb.Some? && ra.value != rb.value
      && ra.value in v.metadata && rb.value in v.metadata
      && v.metadata[ra.value].Span? && v.metadata[rb.value].Span?
      && v.metadata[ra.value].locIdx == v.metadata[rb.value].locIdx
      && IsLocationOf(v, v.metadata[ra.value].locIdx, a.path.value.id)
  {
    var (t, ra) := FromSpan(s, a);
    FromSpanRecordsSpan(s, a);
    FromSpanPreservesValid(s, a);
    var u := Run(t, calls);
    RunKeepsRecords(t, calls);
    RunPreservesValid(t, calls);
    var (v, rb) := FromSpan(u, b);
    FromSpanRecordsSpan(u, b);
  }

  // ---------------------------------------------------------------------------
  // Worked examples

  /** The UTF-8 bytes of "fn main() {}". */
  const MainSource: Text := [0x66, 0x6E, 0x20, 0x6D, 0x61, 0x69, 0x6E, 0x28, 0x29, 0x20, 0x7B, 0x7D]

  /** Path "/a.sw" over "fn main() {}" with offsets 0 and 2 decodes back to path "/a.sw", 0, 2. */
  lemma ExampleSpan(id: PathId)
    ensures var span := SourceSpan(MainSource, 0, 2, Some(SharedPath(id, "/a.sw")));
      var (t, r) := FromSpan(Empty(), span);
      && r.Some? && Resolvable(t, r.value)
      && ToSpan(t, r.value).Ok?
      && ToSpan(t, r.value).value.path == Some(SharedPath(id, "/a.sw"))
      && ToSpan(t, r.value).value.start == 0 && ToSpan(t, r.value).value.end == 2
  {
    var span := SourceSpan(MainSource, 0, 2, Some(SharedPath(id, "/a.sw")));
    EmptyIsValid();
    SpanRoundTripExact(Empty(), span);
  }

  /** `Reads` twice gives one handle k, `Writes` another m != k, labelled "read" and "write". */
  lemma ExampleStorage()
    ensures var (s1, k) := GetStorageIndex(Empty(), Reads);
      var (s2, k') := GetStorageIndex(s1, Reads);
      var (s3, m) := GetStorageIndex(s2, Writes);
      && k' == k && m != k
      && s3.metadata[k] == StorageAttribute(Reads) && s3.metadata[m] == StorageAttribute(Writes)
      && SimpleString(s3.metadata[k].op) == "read" && SimpleString(s3.metadata[m].op) == "write"
  {
  }

  /**
   * Offsets are byte offsets: over "é" (bytes 0xC3 0xA9) the whole two-byte
   * range decodes, while a range ending inside the character is rejected.
   */
  lemma ExampleNonAscii(id: PathId)
    ensures var whole := SourceSpan([0xC3, 0xA9], 0, 2, Some(SharedPath(id, "/e.sw")));
      var (t, r) := FromSpan(Empty(), whole);
      r.Some? && Resolvable(t, r.value) && ToSpan(t, r.value) == Ok(whole)
    ensures var half := SourceSpan([0xC3, 0xA9], 0, 1, Some(SharedPath(id, "/e.sw")));
      var (t, r) := FromSpan(Empty(), half);
      r.Some? && Resolvable(t, r.value) && ToSpan(t, r.value) == Err(InvalidMetadatum)
  {
    EmptyIsValid();
    var whole := SourceSpan([0xC3, 0xA9], 0, 2, Some(SharedPath(id, "/e.sw")));
    SpanRoundTripExact(Empty(), whole);
    var half := SourceSpan([0xC3, 0xA9], 0, 1, Some(SharedPath(id, "/e.sw")));
    SpanRoundTrip(Empty(), half);
  }
}
