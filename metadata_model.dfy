/**
 * The IR metadata store of sway-ir, as values.
 *
 * The store is an arena of `Metadatum` records plus two reverse caches: one
 * from the identity of a shared path allocation to its `FileLocation` record,
 * one from a storage-effect tag to its `StorageAttribute` record. This module
 * describes the store as a value (`Store`) and each operation on it as a
 * function; the class `Metadata.Context` performs the same operations in place
 * and is specified by these functions.
 */
module MetadataModel {

  datatype Option<T> = None | Some(value: T)

  /** The only error kind this core raises: `IrError::InvalidMetadatum`. */
  datatype IrError = InvalidMetadatum

  datatype Result<T> = Ok(value: T) | Err(error: IrError)

  /**
   * A handle into the metadata arena. No record is ever removed from this
   * arena, so a slot number alone identifies a record: the generation part of
   * a `generational_arena::Index` never changes here and is left out.
   */
  type Index = nat

  /** The identity of a shared path allocation (the address of the `Arc`). */
  type PathId = nat

  /** A shared path: the identity of its allocation and the path it holds. */
  datatype SharedPath = SharedPath(id: PathId, buf: string)

  type Byte = b: int | 0 <= b < 0x100

  /** Source text: the UTF-8 encoding of a whole source file. */
  type Text = seq<Byte>

  /** A source span: the whole source text, byte offsets into it, and an optional path. */
  datatype SourceSpan = SourceSpan(src: Text, start: nat, end: nat, path: Option<SharedPath>)

  /**
   * Byte offset `i` of a UTF-8 text starts a character or is the end of the
   * text: it is not past the end and does not point at a continuation byte
   * (one of the form 0b10xxxxxx).
   */
  predicate IsCharBoundary(src: Text, i: nat) {
    i == 0 || i == |src| || (i < |src| && !(0x80 <= src[i] < 0xC0))
  }

  /**
   * The span constructor accepts its inputs exactly when `src[start..end]` is
   * a slice of the text: `start <= end` and both are character boundaries.
   */
  predicate SliceOk(src: Text, start: nat, end: nat) {
    start <= end && IsCharBoundary(src, start) && IsCharBoundary(src, end)
  }

  /** The span constructor: `None` when the offsets do not slice the source text. */
  function NewSpan(src: Text, start: nat, end: nat, path: Option<SharedPath>): Option<SourceSpan> {
    if SliceOk(src, start, end) then Some(SourceSpan(src, start, end, path)) else None
  }

  /** The storage effects a function may declare. */
  datatype StorageOperation = Reads | Writes | ReadsWrites

  /** The label of a storage effect, as diagnostics print it. */
  function SimpleString(op: StorageOperation): (r: string)
    ensures (r == "read") == (op == Reads)
    ensures (r == "write") == (op == Writes)
    ensures (r == "readwrite") == (op == ReadsWrites)
  {
    match op
    case Reads => "read"
    case Writes => "write"
    case ReadsWrites => "readwrite"
  }

  /** One record of the metadata arena. */
  datatype Metadatum =
    | FileLocation(path: SharedPath, src: Text)
    | Span(locIdx: Index, start: nat, end: nat)
    | StateIndex(token: nat)
    | StorageAttribute(op: StorageOperation)

  /**
   * The part of the IR context this core uses: the arena (`metadata`, with
   * `next` the slot the next insertion takes) and the two reverse caches.
   */
  datatype Store = Store(
    metadata: map<Index, Metadatum>,
    next: Index,
    reverseMap: map<PathId, Index>,
    storageIndices: map<StorageOperation, Index>)

  /** The store of a fresh context. */
  function Empty(): Store {
    Store(map[], 0, map[], map[])
  }

  /** Record `i` is the file location of the path allocation `p`. */
  predicate IsLocationOf(s: Store, i: Index, p: PathId) {
    i in s.metadata && s.metadata[i].FileLocation? && s.metadata[i].path.id == p
  }

  /** Every slot in use lies below `next`, so `next` is free. */
  predicate ArenaOk(s: Store) {
    forall i :: i in s.metadata ==> i < s.next
  }

  /**
   * The store's invariant: the arena's free slot is free, the path cache
   * points at the location of that very allocation and holds one entry per
   * location, the effect cache holds one record per tag and no other
   * attribute record exists, and every span refers to a file location.
   */
  predicate Valid(s: Store) {
    && ArenaOk(s)
    && (forall p :: p in s.reverseMap ==> IsLocationOf(s, s.reverseMap[p], p))
    && (forall i :: i in s.metadata && s.metadata[i].FileLocation? ==>
          s.metadata[i].path.id in s.reverseMap && s.reverseMap[s.metadata[i].path.id] == i)
    && (forall op :: op in s.storageIndices ==>
          s.storageIndices[op] in s.metadata && s.metadata[s.storageIndices[op]] == StorageAttribute(op))
    && (forall i :: i in s.metadata && s.metadata[i].StorageAttribute? ==>
          s.metadata[i].op in s.storageIndices && s.storageIndices[s.metadata[i].op] == i)
    && (forall i :: i in s.metadata && s.metadata[i].Span? ==>
          s.metadata[i].locIdx in s.metadata && s.metadata[s.metadata[i].locIdx].FileLocation?)
  }

  /**
   * Arena insertion: the record goes into a slot that was free, every record
   * already stored keeps its slot, and the caches are untouched.
   */
  function Insert(s: Store, m: Metadatum): (r: (Store, Index))
    requires ArenaOk(s)
    ensures r.1 !in s.metadata
    ensures r.0.metadata.Keys == s.metadata.Keys + {r.1}
    ensures r.1 in r.0.metadata && r.0.metadata[r.1] == m
    ensures forall j :: j in s.metadata ==> r.0.metadata[j] == s.metadata[j]
    ensures ArenaOk(r.0)
    ensures r.0.reverseMap == s.reverseMap && r.0.storageIndices == s.storageIndices
  {
    (s.(metadata := s.metadata[s.next := m], next := s.next + 1), s.next)
  }

  /**
   * The location interner: the location already recorded for this path
   * allocation, or a new `FileLocation` record holding the path and `src`.
   */
  function InternLocation(s: Store, p: SharedPath, src: Text): (r: (Store, Index))
    requires ArenaOk(s)
    ensures ArenaOk(r.0) && r.0.storageIndices == s.storageIndices
    ensures p.id in r.0.reverseMap && r.0.reverseMap[p.id] == r.1
    ensures p.id in s.reverseMap ==> r.0 == s
    ensures p.id !in s.reverseMap ==>
      && r.1 !in s.metadata
      && r.0.metadata == s.metadata[r.1 := FileLocation(p, src)]
      && r.0.reverseMap == s.reverseMap[p.id := r.1]
  {
    if p.id in s.reverseMap then
      (s, s.reverseMap[p.id])
    else
      var (t, loc) := Insert(s, FileLocation(p, src));
      (t.(reverseMap := t.reverseMap[p.id := loc]), loc)
  }

  /** `MetadataIndex::from_span`: pathless spans are not recorded. */
  function FromSpan(s: Store, span: SourceSpan): (r: (Store, Option<Index>))
    requires ArenaOk(s)
    ensures ArenaOk(r.0) && r.0.storageIndices == s.storageIndices
    ensures r.1.None? <==> span.path.None?
    ensures span.path.None? ==> r.0 == s
    ensures span.path.Some? ==>
      && r.1.value !in s.metadata && r.1.value in r.0.metadata
      && span.path.value.id in r.0.reverseMap
      && r.0.metadata[r.1.value] == Span(r.0.reverseMap[span.path.value.id], span.start, span.end)
      && (forall j :: j in s.metadata ==> j in r.0.metadata && r.0.metadata[j] == s.metadata[j])
  {
    match span.path
    case None => (s, None)
    case Some(p) =>
      var (s1, loc) := InternLocation(s, p, span.src);
      var (s2, i) := Insert(s1, Span(loc, span.start, span.end));
      (s2, Some(i))
  }

  /**
   * The handle can be resolved without a panic: it names a record, and a span
   * record names a record too. Indexing the arena with an absent handle
   * panics in the source rather than returning an error.
   */
  predicate Resolvable(s: Store, i: Index) {
    i in s.metadata && (s.metadata[i].Span? ==> s.metadata[i].locIdx in s.metadata)
  }

  /** `MetadataIndex::to_span`: rebuild the span from the record and its location. */
  function ToSpan(s: Store, i: Index): (r: Result<SourceSpan>)
    requires Resolvable(s, i)
    ensures r.Err? <==>
      || !s.metadata[i].Span?
      || !s.metadata[s.metadata[i].locIdx].FileLocation?
      || !SliceOk(s.metadata[s.metadata[i].locIdx].src, s.metadata[i].start, s.metadata[i].end)
    ensures r.Ok? ==>
      var loc := s.metadata[s.metadata[i].locIdx];
      r.value == SourceSpan(loc.src, s.metadata[i].start, s.metadata[i].end, Some(loc.path))
  {
    match s.metadata[i]
    case Span(loc, start, end) =>
      (match s.metadata[loc]
       case FileLocation(path, src) =>
         (match NewSpan(src, start, end, Some(path))
          case Some(span) => Ok(span)
          case None => Err(InvalidMetadatum))
       case _ => Err(InvalidMetadatum))
    case _ => Err(InvalidMetadatum)
  }

  /** `MetadataIndex::from_state_idx`: always a new record, never shared. */
  function FromStateIdx(s: Store, token: nat): (r: (Store, Option<Index>))
    requires ArenaOk(s)
    ensures ArenaOk(r.0)
    ensures r.1.Some? && r.1.value !in s.metadata
    ensures r.0.metadata == s.metadata[r.1.value := StateIndex(token)]
    ensures r.0.reverseMap == s.reverseMap && r.0.storageIndices == s.storageIndices
  {
    var (t, i) := Insert(s, StateIndex(token));
    (t, Some(i))
  }

  /** `MetadataIndex::to_state_idx`. */
  function ToStateIdx(s: Store, i: Index): (r: Result<nat>)
    requires i in s.metadata
    ensures r.Ok? <==> s.metadata[i].StateIndex?
    ensures r.Ok? ==> r.value == s.metadata[i].token
    ensures r.Err? ==> r.error == InvalidMetadatum
  {
    match s.metadata[i]
    case StateIndex(token) => Ok(token)
    case _ => Err(InvalidMetadatum)
  }

  /** `MetadataIndex::get_storage_index`: the cached record for the tag, or a new one. */
  function GetStorageIndex(s: Store, op: StorageOperation): (r: (Store, Index))
    requires ArenaOk(s)
    ensures ArenaOk(r.0) && r.0.reverseMap == s.reverseMap
    ensures op in r.0.storageIndices && r.0.storageIndices[op] == r.1
    ensures op in s.storageIndices ==> r.0 == s
    ensures op !in s.storageIndices ==>
      && r.1 !in s.metadata
      && r.0.metadata == s.metadata[r.1 := StorageAttribute(op)]
      && r.0.storageIndices == s.storageIndices[op := r.1]
  {
    if op in s.storageIndices then
      (s, s.storageIndices[op])
    else
      var (t, i) := Insert(s, StorageAttribute(op));
      (t.(storageIndices := t.storageIndices[op := i]), i)
  }
}
