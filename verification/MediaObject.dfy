/** The media registry in place: its entries, its files, and the loops that copy and digest
    a file in bounded chunks. */
module MediaObject {
  import opened Wrappers
  import opened Bytes
  import opened Media
  import M = Media

  /** A file as a reader sees it: non-empty reads of at most one chunk, then end of file. */
  predicate Readings(chunks: seq<ByteSeq>) {
    forall i | 0 <= i < |chunks| :: 0 < |chunks[i]| <= READ_CHUNK_BYTES
  }

  function Concat(chunks: seq<ByteSeq>): ByteSeq
    decreases |chunks|
  {
    if chunks == [] then [] else Concat(chunks[..|chunks| - 1]) + chunks[|chunks| - 1]
  }

  lemma {:induction false} ConcatPrefix(chunks: seq<ByteSeq>, i: nat)
    requires i <= |chunks|
    ensures |Concat(chunks[..i])| <= |Concat(chunks)|
    decreases |chunks| - i
  {
    if i == |chunks| {
      assert chunks[..i] == chunks;
    } else {
      assert chunks[..i + 1][..i] == chunks[..i];
      ConcatPrefix(chunks, i + 1);
    }
  }

  /** The bytes read before the copy ends or is refused: whole reads, up to the first that goes
      over the ceiling. */
  function BytesRead(chunks: seq<ByteSeq>, i: nat): nat
    requires i <= |chunks|
    decreases |chunks| - i
  {
    var total := |Concat(chunks[..i])|;
    if i == |chunks| || total > MAX_FILE_BYTES then total else BytesRead(chunks, i + 1)
  }

  /** Not one byte past the ceiling: a longer file that fills every read is read a whole chunk
      past it. */
  lemma OverreadsByAChunk(chunks: seq<ByteSeq>)
    requires |chunks| > MAX_FILE_BYTES / READ_CHUNK_BYTES && (forall k | 0 <= k < |chunks| :: |chunks[k]| == READ_CHUNK_BYTES)
    ensures Readings(chunks) && BytesRead(chunks, 0) == MAX_FILE_BYTES + READ_CHUNK_BYTES > MAX_FILE_BYTES + 1
  {
    FullChunksOverread(chunks, 0);
  }

  /** A file that fills every read is read on, chunk by chunk, to the first past the ceiling. */
  lemma {:induction false} FullChunksOverread(chunks: seq<ByteSeq>, i: nat)
    requires |chunks| > MAX_FILE_BYTES / READ_CHUNK_BYTES && (forall k | 0 <= k < |chunks| :: |chunks[k]| == READ_CHUNK_BYTES)
    requires i <= MAX_FILE_BYTES / READ_CHUNK_BYTES + 1 && |Concat(chunks[..i])| == i * READ_CHUNK_BYTES
    ensures BytesRead(chunks, i) == MAX_FILE_BYTES + READ_CHUNK_BYTES
    decreases |chunks| - i
  {
    if i <= MAX_FILE_BYTES / READ_CHUNK_BYTES {
      assert chunks[..i + 1][..i] == chunks[..i];
      FullChunksOverread(chunks, i + 1);
    }
  }

  /** Streams the staged file into the owner's temporary copy. Never more than the ceiling
      is written, and never more than one chunk beyond it is read. */
  method AcquireBoundedCopy(chunks: seq<ByteSeq>) returns (copy: Option<ByteSeq>, bytesRead: nat, bytesWritten: nat)
    requires Readings(chunks)
    ensures copy.Some? <==> |Concat(chunks)| <= MAX_FILE_BYTES
    ensures copy.Some? ==> copy.value == Concat(chunks) && bytesWritten == |copy.value|
    ensures bytesWritten <= MAX_FILE_BYTES && bytesRead <= MAX_FILE_BYTES + READ_CHUNK_BYTES
    ensures bytesRead == BytesRead(chunks, 0)
  {
    var written: ByteSeq := [];
    var i, total := 0, 0;
    while i < |chunks|
      invariant i <= |chunks| && written == Concat(chunks[..i]) && total == |written| <= MAX_FILE_BYTES
      invariant BytesRead(chunks, 0) == BytesRead(chunks, i)
    {
      var chunk := chunks[i];
      assert chunks[..i + 1][..i] == chunks[..i];
      total := total + |chunk|;
      if total > MAX_FILE_BYTES {
        ConcatPrefix(chunks, i + 1);
        return None, total, |written|;
      }
      written, i := written + chunk, i + 1;
    }
    assert chunks[..i] == chunks;
    return Some(written), total, |written|;
  }

  /** Digests the owner's copy in the same bounded way: the digest of the whole file, or a
      refusal exactly when it is over the ceiling. */
  method BoundedDigest(chunks: seq<ByteSeq>) returns (digest: Option<Digest>, bytesRead: nat)
    requires Readings(chunks)
    ensures digest == if |Concat(chunks)| <= MAX_FILE_BYTES then Some(Sha256(Concat(chunks))) else None
    ensures bytesRead <= MAX_FILE_BYTES + READ_CHUNK_BYTES
  {
    var fed: ByteSeq := [];
    var i, total := 0, 0;
    while i < |chunks|
      invariant i <= |chunks| && fed == Concat(chunks[..i]) && total == |fed| <= MAX_FILE_BYTES
    {
      assert chunks[..i + 1][..i] == chunks[..i];
      total := total + |chunks[i]|;
      if total > MAX_FILE_BYTES {
        ConcatPrefix(chunks, i + 1);
        return None, total;
      }
      fed, i := fed + chunks[i], i + 1;
    }
    assert chunks[..i] == chunks;
    return Some(Sha256(fed)), total;
  }

  class MediaArtifactRegistry {
    const maxArtifacts: nat
    var entries: map<Ref, Entry>
    var store: map<Digest, ByteSeq>

    constructor (maxArtifacts: nat)
      ensures Value() == Registry(map[], map[], maxArtifacts)
    {
      this.maxArtifacts := maxArtifacts;
      entries, store := map[], map[];
    }

    function Value(): Registry
      reads this
    {
      Registry(entries, store, maxArtifacts)
    }

    /** One staged artifact: `acquired` are the reads of the confined descriptor, or None when
        it could not be opened or read; `valid` and `publishes` are the outcomes of the
        validation pipeline and of the atomic publish. */
    method Ingest(acquired: Option<seq<ByteSeq>>, valid: bool, publishes: bool, ref: Ref) returns (r: Result<Digest, Code>)
      requires acquired.Some? ==> Readings(acquired.value)
      modifies this
      ensures (Value(), r) ==
        M.Ingest(old(Value()), if acquired.Some? then Readable(Concat(acquired.value), valid, publishes) else Unreadable, ref)
      ensures r.Ok? <==> |old(entries)| < maxArtifacts && acquired.Some? && |Concat(acquired.value)| <= MAX_FILE_BYTES && valid && publishes
      ensures r.Ok? ==> entries == old(entries)[ref := Entry(r.value, {})] && r.value == Sha256(Concat(acquired.value))
      ensures r.Err? ==> entries == old(entries) && store == old(store)
    {
      if |entries| >= maxArtifacts { return Err(RegistryFull); }
      if acquired.None? { return Err(AcquisitionFailed); }
      var copy, _, _ := AcquireBoundedCopy(acquired.value);
      if copy.None? || !valid { return Err(ValidationFailed); }
      if !publishes { return Err(PublishFailed); }
      store := store[Sha256(copy.value) := copy.value];
      entries := entries[ref := Entry(Sha256(copy.value), {})];
      return Ok(Sha256(copy.value));
    }

    method Release(ref: Ref, unlinks: bool) returns (code: Option<Code>)
      modifies this
      ensures (Value(), code) == M.Release(old(Value()), ref, unlinks)
    {
      if ref !in entries { return Some(UnknownArtifact); }
      if entries[ref].pins != {} { return Some(ArtifactPinned); }
      var digest := entries[ref].digest;
      var tokens, shared := entries.Keys, false;
      while tokens != {}
        invariant tokens <= entries.Keys
        invariant shared <==> exists x :: x in entries.Keys - tokens && x != ref && entries[x].digest == digest
        decreases tokens
      {
        var token :| token in tokens;
        if token != ref && entries[token].digest == digest {
          assert token in entries.Keys - (tokens - {token});
          shared := true;
        }
        tokens := tokens - {token};
      }
      if shared { entries := entries - {ref}; return None; }
      if digest in store {
        if !unlinks { return Some(ReleaseFailed); }
        store := store - {digest};
      }
      entries := entries - {ref};
      return None;
    }

    /** Until it is unpinned, release refuses the ref and cleanup keeps it. */
    method Pin(ref: Ref, pin: PinId) returns (code: Option<Code>)
      requires Intact(Value())
      modifies this`entries
      ensures Intact(Value()) && (Value(), code) == M.Pin(old(Value()), ref, pin)
      ensures code.None? <==> ref in entries
      ensures code.None? ==> forall unlinks :: M.Release(Value(), ref, unlinks) == (Value(), Some(ArtifactPinned))
      ensures code.None? ==> forall stuck :: ref in M.Cleanup(Value(), stuck).entries && FileIntact(M.Cleanup(Value(), stuck), ref)
    {
      if ref !in entries { return Some(UnknownArtifact); }
      StepIntact(Value(), DoPin(ref, pin));
      entries := entries[ref := entries[ref].(pins := entries[ref].pins + {pin})];
      forall stuck ensures ref in M.Cleanup(Value(), stuck).entries && FileIntact(M.Cleanup(Value(), stuck), ref) {
        StepIntact(Value(), DoCleanup(stuck));
        assert FileIntact(M.Step(Value(), DoCleanup(stuck)), ref);
      }
      return None;
    }

    /** The other pins stay; without any the ref can be released. */
    method Unpin(ref: Ref, pin: PinId)
      requires Intact(Value())
      modifies this`entries
      ensures Intact(Value()) && Value() == M.Unpin(old(Value()), ref, pin)
      ensures old(ref in entries && entries[ref].pins <= {pin}) ==> M.Release(Value(), ref, true).1.None?
    {
      StepIntact(Value(), DoUnpin(ref, pin));
      if ref in entries {
        entries := entries[ref := entries[ref].(pins := entries[ref].pins - {pin})];
      }
    }

    method CleanupUnpinned(stuck: set<Digest>) returns (removed: nat)
      modifies this
      ensures Value() == M.Cleanup(old(Value()), stuck)
      ensures removed == |old(entries)| - |entries|
    {
      var survivors;
      survivors, removed := PartitionPinned();
      entries := survivors;
      SweepFiles(stuck);
    }

    method PartitionPinned() returns (survivors: map<Ref, Entry>, removed: nat)
      ensures survivors == Survivors(entries) && removed == |entries| - |survivors|
    {
      survivors, removed := map[], 0;
      var tokens := entries.Keys;
      while tokens != {}
        invariant tokens <= entries.Keys
        invariant survivors.Keys <= entries.Keys - tokens
        invariant forall x | x in survivors :: survivors[x] == entries[x] && entries[x].pins != {}
        invariant forall x | x in entries && x !in tokens && entries[x].pins != {} :: x in survivors
        invariant removed + |survivors| + |tokens| == |entries|
        decreases tokens
      {
        var token :| token in tokens;
        if entries[token].pins != {} {
          assert (survivors[token := entries[token]]).Keys == survivors.Keys + {token};
          survivors := survivors[token := entries[token]];
        } else {
          removed := removed + 1;
        }
        tokens := tokens - {token};
      }
    }

    method SweepFiles(stuck: set<Digest>)
      modifies this`store
      ensures store == map d | d in old(store) && (d in Referenced(entries) || d in stuck) :: old(store)[d]
    {
      var used := Referenced(entries);
      var files := store.Keys;
      while files != {}
        invariant store.Keys <= old(store).Keys
        invariant forall d | d in store :: store[d] == old(store)[d] && (d in files || d in used || d in stuck)
        invariant forall d | d in old(store) && (d in files || d in used || d in stuck) :: d in store
        decreases files
      {
        var file :| file in files;
        if file !in used && file !in stuck {
          store := store - {file};
        }
        files := files - {file};
      }
    }
  }
}
