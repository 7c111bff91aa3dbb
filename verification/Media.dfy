/** The content-addressed media registry as a value: opaque refs, pins, and the files named
    by digest that refs may share. */
module Media {
  import opened Wrappers
  import opened Bytes

  /** SHA-256 as an uninterpreted injective function. */
  datatype Digest = Sha256(of: ByteSeq)

  type Ref = nat
  type PinId = nat

  const MAX_FILE_BYTES: nat := 5 * 1024 * 1024
  const READ_CHUNK_BYTES: nat := 65536

  datatype Entry = Entry(digest: Digest, pins: set<PinId>)

  /** `store` is the artifact root: for each `<digest>.bin` present, its bytes. */
  datatype Registry = Registry(entries: map<Ref, Entry>, store: map<Digest, ByteSeq>, maxArtifacts: nat)

  datatype Code =
    | RegistryFull | AcquisitionFailed | ValidationFailed | PublishFailed
    | UnknownArtifact | ArtifactDeleted | ArtifactUnreadable | ArtifactOversize | DigestMismatch
    | ArtifactPinned | ReleaseFailed

  /** What the filesystem and the validation pipeline do with one staged file. */
  datatype Staged = Unreadable | Readable(bytes: ByteSeq, valid: bool, publishes: bool)

  function Ingest(g: Registry, staged: Staged, ref: Ref): (Registry, Result<Digest, Code>) {
    if |g.entries| >= g.maxArtifacts then (g, Err(RegistryFull))
    else match staged
         case Unreadable => (g, Err(AcquisitionFailed))
         case Readable(bytes, valid, publishes) =>
           if |bytes| > MAX_FILE_BYTES || !valid then (g, Err(ValidationFailed))
           else if !publishes then (g, Err(PublishFailed))
           else (g.(entries := g.entries[ref := Entry(Sha256(bytes), {})], store := g.store[Sha256(bytes) := bytes]),
                 Ok(Sha256(bytes)))
  }

  /** Re-verification of the owner copy before a ref is honoured. */
  function Resolve(g: Registry, ref: Ref, expected: Option<Digest>, readable: bool): Result<Digest, Code> {
    if ref !in g.entries then Err(UnknownArtifact)
    else
      var d := g.entries[ref].digest;
      if d !in g.store then Err(ArtifactDeleted)
      else if !readable then Err(ArtifactUnreadable)
      else if |g.store[d]| > MAX_FILE_BYTES then Err(ArtifactOversize)
      else if Sha256(g.store[d]) != d then Err(DigestMismatch)
      else if expected.Some? && expected.value != d then Err(DigestMismatch)
      else Ok(d)
  }

  /** Each item with whether its file can be read; the first that fails fails the list. */
  function ResolveOrdered(g: Registry, refs: seq<(Ref, bool)>): Result<seq<Digest>, Code>
    decreases |refs|
  {
    if refs == [] then Ok([])
    else match Resolve(g, refs[0].0, None, refs[0].1)
         case Err(e) => Err(e)
         case Ok(d) =>
           match ResolveOrdered(g, refs[1..])
           case Err(e) => Err(e)
           case Ok(ds) => Ok([d] + ds)
  }

  predicate Shared(g: Registry, ref: Ref)
    requires ref in g.entries
  {
    exists other :: other in g.entries && other != ref && g.entries[other].digest == g.entries[ref].digest
  }

  function Release(g: Registry, ref: Ref, unlinks: bool): (Registry, Option<Code>) {
    if ref !in g.entries then (g, Some(UnknownArtifact))
    else if g.entries[ref].pins != {} then (g, Some(ArtifactPinned))
    else if Shared(g, ref) || g.entries[ref].digest !in g.store then (g.(entries := g.entries - {ref}), None)
    else if !unlinks then (g, Some(ReleaseFailed))
    else (g.(entries := g.entries - {ref}, store := g.store - {g.entries[ref].digest}), None)
  }

  function Pin(g: Registry, ref: Ref, pin: PinId): (Registry, Option<Code>) {
    if ref !in g.entries then (g, Some(UnknownArtifact))
    else (g.(entries := g.entries[ref := g.entries[ref].(pins := g.entries[ref].pins + {pin})]), None)
  }

  function Unpin(g: Registry, ref: Ref, pin: PinId): Registry {
    if ref !in g.entries then g
    else g.(entries := g.entries[ref := g.entries[ref].(pins := g.entries[ref].pins - {pin})])
  }

  /** The pin loop of one request: it stops at the first pin that fails, and what it pinned
      before stays pinned. */
  function PinEach(g: Registry, refs: seq<Ref>, pin: PinId): (Registry, Option<Code>)
    decreases |refs|
  {
    if refs == [] then (g, None)
    else
      var (n, code) := Pin(g, refs[0], pin);
      if code.Some? then (g, code) else PinEach(n, refs[1..], pin)
  }

  /** The unpin loop of its `finally`. */
  function UnpinEach(g: Registry, refs: seq<Ref>, pin: PinId): Registry
    decreases |refs|
  {
    if refs == [] then g else UnpinEach(Unpin(g, refs[0], pin), refs[1..], pin)
  }

  function Survivors(entries: map<Ref, Entry>): map<Ref, Entry> {
    map ref | ref in entries && entries[ref].pins != {} :: entries[ref]
  }

  function Referenced(entries: map<Ref, Entry>): set<Digest> {
    set ref | ref in entries :: entries[ref].digest
  }

  /** `stuck` are the files whose unlink fails. */
  function Cleanup(g: Registry, stuck: set<Digest>): Registry {
    var kept := Survivors(g.entries);
    g.(entries := kept, store := map d | d in g.store && (d in Referenced(kept) || d in stuck) :: g.store[d])
  }

  // ---- what every run keeps --------------------------------------------------------------

  predicate FileIntact(g: Registry, ref: Ref)
    requires ref in g.entries
  {
    g.entries[ref].digest in g.store && Sha256(g.store[g.entries[ref].digest]) == g.entries[ref].digest
  }

  /** Every registered ref's file exists and hashes to its bound digest. */
  ghost predicate Intact(g: Registry) {
    && (forall ref | ref in g.entries :: FileIntact(g, ref))
    && (forall d | d in g.store :: Sha256(g.store[d]) == d && |g.store[d]| <= MAX_FILE_BYTES)
  }

  datatype Op =
    | DoIngest(staged: Staged, ref: Ref)
    | DoRelease(ref: Ref, unlinks: bool)
    | DoPin(ref: Ref, pin: PinId)
    | DoUnpin(ref: Ref, pin: PinId)
    | DoCleanup(stuck: set<Digest>)

  function Step(g: Registry, op: Op): Registry {
    match op
    case DoIngest(staged, ref) => Ingest(g, staged, ref).0
    case DoRelease(ref, unlinks) => Release(g, ref, unlinks).0
    case DoPin(ref, pin) => Pin(g, ref, pin).0
    case DoUnpin(ref, pin) => Unpin(g, ref, pin)
    case DoCleanup(stuck) => Cleanup(g, stuck)
  }

  /** A minted ref is new: 128 random bits never repeat a live token. */
  predicate FreshRefs(g: Registry, op: Op) {
    op.DoIngest? ==> op.ref !in g.entries
  }

  lemma StepIntact(g: Registry, op: Op)
    requires Intact(g)
    ensures Intact(Step(g, op))
  {
    var n := Step(g, op);
    if op.DoRelease? {
      forall ref | ref in n.entries ensures FileIntact(n, ref) { assert FileIntact(g, ref); }
    } else if op.DoCleanup? {
      forall ref | ref in n.entries ensures FileIntact(n, ref) {
        assert FileIntact(g, ref);
        assert n.entries[ref].digest in Referenced(n.entries);
      }
    } else {
      forall ref | ref in n.entries ensures FileIntact(n, ref) { assert ref in g.entries ==> FileIntact(g, ref); }
    }
  }

  /** A pinned ref keeps its binding and its file through every operation, and stays pinned
      but for its own unpin. */
  lemma PinnedSurvives(g: Registry, op: Op, ref: Ref, pin: PinId)
    requires Intact(g) && FreshRefs(g, op) && ref in g.entries && pin in g.entries[ref].pins
    ensures var n := Step(g, op);
            && ref in n.entries && n.entries[ref].digest == g.entries[ref].digest
            && n.entries[ref].digest in n.store && n.store[n.entries[ref].digest] == g.store[g.entries[ref].digest]
            && (op != DoUnpin(ref, pin) ==> pin in n.entries[ref].pins)
  {
    assert FileIntact(g, ref);
    var n := Step(g, op);
    if op.DoRelease? && op.ref in g.entries && op.ref != ref && n != g {
      if g.entries[op.ref].digest == g.entries[ref].digest { assert Shared(g, op.ref); }
    }
    if op.DoCleanup? {
      assert g.entries[ref].digest in Referenced(Survivors(g.entries)) by { assert ref in Survivors(g.entries); }
    }
  }

  /** A release tells the truth: success means the ref is gone and its file is gone or still
      in use; a failed delete leaves both; a pinned or unknown ref changes nothing. */
  lemma ReleaseTruthful(g: Registry, ref: Ref, unlinks: bool)
    requires Intact(g)
    ensures var (n, code) := Release(g, ref, unlinks);
            && (code.Some? ==> n == g)
            && (code.None? ==> ref in g.entries && g.entries[ref].pins == {} && n.entries == g.entries - {ref}
                               && (g.entries[ref].digest in n.store <==> g.entries[ref].digest in Referenced(n.entries))
                               && forall d | d in g.store && d != g.entries[ref].digest :: d in n.store && n.store[d] == g.store[d])
            && (code == Some(ReleaseFailed) ==> ref in n.entries && FileIntact(n, ref) && !unlinks)
            && (code.None? <==> ref in g.entries && g.entries[ref].pins == {} && (unlinks || Shared(g, ref)))
  {
    if ref in g.entries {
      assert FileIntact(g, ref);
      var (n, code) := Release(g, ref, unlinks);
      var d := g.entries[ref].digest;
      if code.None? && Shared(g, ref) {
        var other :| other in g.entries && other != ref && g.entries[other].digest == d;
        assert other in n.entries && n.entries[other].digest in Referenced(n.entries);
      }
      if code.None? && d in Referenced(n.entries) {
        var other :| other in n.entries && n.entries[other].digest == d;
        assert Shared(g, ref);
      }
    }
  }

  /** The file is one the validator can accept by its size. */
  predicate WithinBound(bytes: ByteSeq) {
    |bytes| <= MAX_FILE_BYTES
  }

  /** An ingest works exactly with room in the registry, a readable file within the bound that is
      valid, and a publish that works; what fails first decides the code. */
  lemma IngestOutcomes(g: Registry, staged: Staged, ref: Ref)
    ensures var r, room := Ingest(g, staged, ref).1, |g.entries| < g.maxArtifacts;
            && (r.Ok? <==> room && staged.Readable? && WithinBound(staged.bytes) && staged.valid && staged.publishes)
            && (r == Err(RegistryFull) <==> !room)
            && (r == Err(AcquisitionFailed) <==> room && staged.Unreadable?)
            && (r == Err(ValidationFailed) <==> room && staged.Readable? && (!WithinBound(staged.bytes) || !staged.valid))
            && (r == Err(PublishFailed) <==> room && staged.Readable? && WithinBound(staged.bytes) && staged.valid && !staged.publishes)
  {
  }

  /** A ref resolves exactly if it is registered, its file is there, readable, within the bound
      and unchanged, and the caller expects no other digest; what fails first decides the code. */
  lemma ResolveOutcomes(g: Registry, ref: Ref, expected: Option<Digest>, readable: bool)
    ensures var r := Resolve(g, ref, expected, readable);
            && (r == Err(UnknownArtifact) <==> ref !in g.entries)
            && (ref in g.entries ==>
                  var d := g.entries[ref].digest;
                  && (r == Err(ArtifactDeleted) <==> d !in g.store)
                  && (r == Err(ArtifactUnreadable) <==> d in g.store && !readable)
                  && (r == Err(ArtifactOversize) <==> d in g.store && readable && !WithinBound(g.store[d]))
                  && (r == Err(DigestMismatch) <==>
                        d in g.store && readable && WithinBound(g.store[d]) && !(Sha256(g.store[d]) == d && (expected == None || expected == Some(d))))
                  && (r.Ok? <==>
                        d in g.store && readable && WithinBound(g.store[d]) && Sha256(g.store[d]) == d && (expected == None || expected == Some(d)))
                  && (r.Ok? ==> r.value == d))
  {
  }

  /** A release is refused for an unknown or a pinned ref, and for a file of its own that cannot
      be deleted; a file already gone, or still in use, is no obstacle. */
  lemma ReleaseOutcomes(g: Registry, ref: Ref, unlinks: bool)
    ensures var code := Release(g, ref, unlinks).1;
            && (code == Some(UnknownArtifact) <==> ref !in g.entries)
            && (ref in g.entries ==>
                  var stuck := g.entries[ref].digest in g.store && !Shared(g, ref) && !unlinks;
                  && (code == Some(ArtifactPinned) <==> g.entries[ref].pins != {})
                  && (code == Some(ReleaseFailed) <==> g.entries[ref].pins == {} && stuck)
                  && (code == None <==> g.entries[ref].pins == {} && !stuck))
  {
  }

  /** An ingest either changes nothing, or adds exactly one unpinned ref bound to the bytes. */
  lemma IngestExact(g: Registry, staged: Staged, ref: Ref)
    requires Intact(g) && ref !in g.entries
    ensures var (n, r) := Ingest(g, staged, ref);
            && (r.Err? ==> n == g)
            && (r.Ok? ==> staged.Readable? && r.value == Sha256(staged.bytes)
                          && n.entries == g.entries[ref := Entry(r.value, {})]
                          && Resolve(n, ref, Some(r.value), true) == r
                          && forall d | d in g.store :: d in n.store && n.store[d] == g.store[d])
  {
  }

  /** Whatever happened to the files, a ref that resolves stands for exactly the bytes it was
      bound to, and an intact readable one does resolve. */
  lemma ResolveSound(g: Registry, ref: Ref, expected: Option<Digest>)
    ensures Resolve(g, ref, expected, true).Ok? ==>
              ref in g.entries && g.store[g.entries[ref].digest] == g.entries[ref].digest.of
              && (expected.Some? ==> expected.value == g.entries[ref].digest)
    ensures Intact(g) && ref in g.entries && expected.None? ==> Resolve(g, ref, expected, true) == Ok(g.entries[ref].digest)
  {
    if ref in g.entries && Intact(g) { assert FileIntact(g, ref); }
  }

  /** All or nothing, in order. */
  lemma {:induction false} ResolveOrderedExact(g: Registry, refs: seq<(Ref, bool)>)
    ensures var r := ResolveOrdered(g, refs);
            && (r.Ok? <==> forall i | 0 <= i < |refs| :: Resolve(g, refs[i].0, None, refs[i].1).Ok?)
            && (r.Ok? ==> |r.value| == |refs|
                          && forall i | 0 <= i < |refs| :: Resolve(g, refs[i].0, None, refs[i].1) == Ok(r.value[i]))
    decreases |refs|
  {
    if refs != [] {
      ResolveOrderedExact(g, refs[1..]);
      assert forall i | 1 <= i < |refs| :: refs[i] == refs[1..][i - 1];
      if ResolveOrdered(g, refs).Ok? { assert forall i | 0 <= i < |refs[1..]| :: refs[1..][i] == refs[i + 1]; }
    }
  }

  /** Two registries that differ in pins only. */
  ghost predicate SameButPins(g: Registry, n: Registry) {
    && n.store == g.store && n.maxArtifacts == g.maxArtifacts && n.entries.Keys == g.entries.Keys
    && forall ref | ref in g.entries :: n.entries[ref].digest == g.entries[ref].digest
  }

  /** The pin loop works exactly when every ref is registered, and pins exactly those. */
  lemma {:induction false} PinEachExact(g: Registry, refs: seq<Ref>, pin: PinId)
    ensures var (n, code) := PinEach(g, refs, pin);
            && SameButPins(g, n)
            && (code.None? <==> forall ref | ref in refs :: ref in g.entries)
            && (code.None? ==> forall ref | ref in g.entries ::
                  n.entries[ref].pins == g.entries[ref].pins + if ref in refs then {pin} else {})
    decreases |refs|
  {
    if refs != [] && refs[0] in g.entries { PinEachExact(Pin(g, refs[0], pin).0, refs[1..], pin); }
  }

  lemma {:induction false} UnpinEachExact(g: Registry, refs: seq<Ref>, pin: PinId)
    ensures var n := UnpinEach(g, refs, pin);
            && SameButPins(g, n)
            && forall ref | ref in g.entries ::
                 n.entries[ref].pins == g.entries[ref].pins - if ref in refs then {pin} else {}
    decreases |refs|
  {
    if refs != [] { UnpinEachExact(Unpin(g, refs[0], pin), refs[1..], pin); }
  }

  /** With nothing in between, the `finally` undoes the pin loop. */
  lemma UnpinUndoesPin(g: Registry, refs: seq<Ref>, pin: PinId)
    requires forall ref | ref in g.entries :: pin !in g.entries[ref].pins
    ensures PinEach(g, refs, pin).1.None? ==> UnpinEach(PinEach(g, refs, pin).0, refs, pin) == g
  {
    var (n, code) := PinEach(g, refs, pin);
    PinEachExact(g, refs, pin);
    UnpinEachExact(n, refs, pin);
    if code.None? {
      var back := UnpinEach(n, refs, pin);
      forall ref | ref in g.entries ensures back.entries[ref] == g.entries[ref] {
        assert back.entries[ref].pins == g.entries[ref].pins;
      }
      assert back.entries == g.entries;
    }
  }

  function Refs(items: seq<(Ref, bool)>): (refs: seq<Ref>)
    ensures |refs| == |items| && forall i | 0 <= i < |items| :: refs[i] == items[i].0
  {
    seq(|items|, i requires 0 <= i < |items| => items[i].0)
  }

  /** What has been resolved can be pinned, as long as nothing comes in between. */
  lemma ResolvedCanBePinned(g: Registry, items: seq<(Ref, bool)>, pin: PinId)
    requires ResolveOrdered(g, items).Ok?
    ensures PinEach(g, Refs(items), pin).1.None?
  {
    ResolveOrderedExact(g, items);
    PinEachExact(g, Refs(items), pin);
    forall ref | ref in Refs(items) ensures ref in g.entries {
      var i :| 0 <= i < |items| && Refs(items)[i] == ref;
      assert Resolve(g, items[i].0, None, items[i].1).Ok?;
    }
  }

  /** Cleanup keeps exactly the pinned refs and, of the files, those they use and those that
      could not be deleted. */
  lemma CleanupExact(g: Registry, stuck: set<Digest>)
    requires Intact(g)
    ensures var n := Cleanup(g, stuck);
            && (forall ref :: ref in n.entries <==> ref in g.entries && g.entries[ref].pins != {})
            && (forall d :: d in n.store <==> d in g.store && (d in Referenced(n.entries) || d in stuck))
            && ((forall ref | ref in g.entries :: g.entries[ref].pins == {}) ==>
                  n.entries == map[] && n.store.Keys == g.store.Keys * stuck)
  {
    var n := Cleanup(g, stuck);
    if forall ref | ref in g.entries :: g.entries[ref].pins == {} {
      assert n.entries == map[];
      assert Referenced(n.entries) == {};
    }
  }

  function Run(g: Registry, ops: seq<Op>): Registry
    decreases |ops|
  {
    if ops == [] then g else Run(Step(g, ops[0]), ops[1..])
  }

  /** From an empty registry, through any run, every registered ref's file is intact. */
  lemma {:induction false} RunIntact(g: Registry, ops: seq<Op>)
    requires Intact(g)
    ensures Intact(Run(g, ops))
    decreases |ops|
  {
    if ops != [] { StepIntact(g, ops[0]); RunIntact(Step(g, ops[0]), ops[1..]); }
  }

  ghost predicate RunKeepsPin(g: Registry, ops: seq<Op>, ref: Ref, pin: PinId)
    decreases |ops|
  {
    ops == [] || (FreshRefs(g, ops[0]) && ops[0] != DoUnpin(ref, pin) && RunKeepsPin(Step(g, ops[0]), ops[1..], ref, pin))
  }

  /** A pin holds the bytes through any run that does not take it off. */
  lemma {:induction false} PinnedThroughRun(g: Registry, ops: seq<Op>, ref: Ref, pin: PinId)
    requires Intact(g) && ref in g.entries && pin in g.entries[ref].pins && RunKeepsPin(g, ops, ref, pin)
    ensures var n := Run(g, ops);
            ref in n.entries && n.entries[ref].digest == g.entries[ref].digest && FileIntact(n, ref) && pin in n.entries[ref].pins
    decreases |ops|
  {
    if ops == [] {
      assert FileIntact(g, ref);
    } else {
      StepIntact(g, ops[0]);
      PinnedSurvives(g, ops[0], ref, pin);
      PinnedThroughRun(Step(g, ops[0]), ops[1..], ref, pin);
    }
  }
}
