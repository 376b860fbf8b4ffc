/**
 * The metadata part of the IR context, updated in place. The three producer
 * operations of `MetadataIndex` (`from_span`, `from_state_idx`,
 * `get_storage_index`) are methods here; each is specified by the function of
 * the same name in `MetadataModel`, about which `MetadataProperties` proves
 * what the store promises. The two consumers (`to_span`, `to_state_idx`) only
 * read the context and are the functions `MetadataModel.ToSpan` and
 * `MetadataModel.ToStateIdx` applied to `State()`.
 */
module Metadata {
  import opened MetadataModel
  import MetadataProperties

  class Context {
    /** The metadata arena, with `next` the slot its next insertion takes. */
    var metadata: map<Index, Metadatum>
    var next: Index
    /** Path allocation identity to the index of its `FileLocation` record. */
    var reverseMap: map<PathId, Index>
    /** Effect tag to the index of its `StorageAttribute` record. */
    var storageIndices: map<StorageOperation, Index>

    /** The context's metadata as a value. */
    function State(): Store
      reads this
    {
      Store(metadata, next, reverseMap, storageIndices)
    }

    ghost predicate Valid()
      reads this
    {
      MetadataModel.Valid(State())
    }

    constructor ()
      ensures Valid() && State() == Empty()
    {
      metadata, next, reverseMap, storageIndices := map[], 0, map[], map[];
    }

    /** Arena insertion: the record takes the free slot `next`. */
    method Insert(m: Metadatum) returns (i: Index)
      requires ArenaOk(State())
      modifies this
      ensures (State(), i) == MetadataModel.Insert(old(State()), m)
    {
      i := next;
      metadata := metadata[i := m];
      next := next + 1;
    }

    /**
     * `MetadataIndex::from_span`: look the span's path allocation up in the
     * path cache, insert its location on a miss, then insert the span record.
     */
    method FromSpan(span: SourceSpan) returns (r: Option<Index>)
      requires Valid()
      modifies this
      ensures Valid()
      ensures (State(), r) == MetadataModel.FromSpan(old(State()), span)
      ensures span.path.None? ==> r == None && State() == old(State())
      ensures span.path.Some? ==>
        && r.Some? && r.value !in old(metadata) && r.value in metadata
        && metadata[r.value] == Span(reverseMap[span.path.value.id], span.start, span.end)
        && (forall j :: j in old(metadata) ==> j in metadata && metadata[j] == old(metadata)[j])
    {
      ghost var s := State();
      MetadataProperties.FromSpanPreservesValid(s, span);
      match span.path {
        case None =>
          r := None;
        case Some(p) =>
          MetadataProperties.FromSpanRecordsSpan(s, span);
          var loc: Index;
          if p.id in reverseMap {
            loc := reverseMap[p.id];
          } else {
            loc := Insert(FileLocation(p, span.src));
            reverseMap := reverseMap[p.id := loc];
          }
          var i := Insert(Span(loc, span.start, span.end));
          r := Some(i);
      }
    }

    /** `MetadataIndex::from_state_idx`: always a fresh record holding the token. */
    method FromStateIdx(token: nat) returns (r: Option<Index>)
      requires Valid()
      modifies this
      ensures Valid()
      ensures (State(), r) == MetadataModel.FromStateIdx(old(State()), token)
      ensures r.Some? && r.value !in old(metadata)
      ensures metadata == old(metadata)[r.value := StateIndex(token)]
      ensures reverseMap == old(reverseMap) && storageIndices == old(storageIndices)
    {
      MetadataProperties.FromStateIdxPreservesValid(State(), token);
      var i := Insert(StateIndex(token));
      r := Some(i);
    }

    /** `MetadataIndex::get_storage_index`: the cached record for the tag, inserted on a miss. */
    method GetStorageIndex(op: StorageOperation) returns (i: Index)
      requires Valid()
      modifies this
      ensures Valid()
      ensures (State(), i) == MetadataModel.GetStorageIndex(old(State()), op)
      ensures i in metadata && metadata[i] == StorageAttribute(op) && storageIndices[op] == i
      ensures op in old(storageIndices) ==> State() == old(State())
    {
      MetadataProperties.GetStorageIndexPreservesValid(State(), op);
      MetadataProperties.StorageIndexRecorded(State(), op);
      if op in storageIndices {
        i := storageIndices[op];
      } else {
        i := Insert(StorageAttribute(op));
        storageIndices := storageIndices[op := i];
      }
    }
  }

  /**
   * A client over one context: two spans over one path allocation share a
   * location record, and the effect cache hands out one handle per tag.
   */
  method Example(id: PathId)
  {
    var ctx := new Context();
    var a := SourceSpan(MetadataProperties.MainSource, 0, 2, Some(SharedPath(id, "/a.sw")));
    var b := SourceSpan(MetadataProperties.MainSource, 3, 7, Some(SharedPath(id, "/a.sw")));
    MetadataProperties.SameAllocationSharesLocation(ctx.State(), a, b);
    var ia := ctx.FromSpan(a);
    var ib := ctx.FromSpan(b);
    assert ia.value != ib.value;
    assert ctx.metadata[ia.value].locIdx == ctx.metadata[ib.value].locIdx;

    var k := ctx.GetStorageIndex(Reads);
    var k' := ctx.GetStorageIndex(Reads);
    var m := ctx.GetStorageIndex(Writes);
    assert k' == k && m != k;
  }
}
