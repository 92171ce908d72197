/** Streams over whole runs of commands from any number of connections: ownership and
    reassembly of a body from its chunks. */
module PortableIoRuns {
  import opened Wrappers
  import opened Machine
  import opened Base64
  import opened IoStreams
  import opened PortableIo

  datatype IoOp =
    | Insertion(owner: Connection, bytes: seq<Byte>)
    | Disconnect(owner: Connection)
    | Command(request: Request, owner: Connection)

  function IoStep(io: Io, op: IoOp): Io
  {
    match op
    case Insertion(owner, bytes) => AfterIoInsert(io, owner, bytes)
    case Disconnect(owner) => AfterClose(io, owner)
    case Command(request, owner) => AfterDispatch(io, request, owner)
  }

  function IoRun(io: Io, ops: seq<IoOp>): Io
    decreases |ops|
  {
    if ops == [] then io else IoRun(IoStep(io, ops[0]), ops[1..])
  }

  /** Every live stream has an owner; on an exact table nothing else has one. */
  ghost predicate Owned(io: Io)
  {
    Sound(io.store) && forall h :: Live(io.store.entries, h) ==> h in io.owners
  }

  ghost predicate ExactlyOwned(io: Io)
  {
    Owned(io) && forall h :: h in io.owners ==> Live(io.store.entries, h)
  }

  // ---------- one stream through one step ----------

  lemma {:induction false} LookupWithout(entries: seq<Entry>, gone: string, handle: string)
    ensures Lookup(Without(entries, gone), handle) == if handle == gone then None else Lookup(entries, handle)
  {
    if entries != [] {
      LookupWithout(entries[1..], gone, handle);
    }
  }

  lemma {:induction false} LookupWithoutAll(entries: seq<Entry>, gone: set<string>, handle: string)
    ensures Lookup(WithoutAll(entries, gone), handle) == if handle in gone then None else Lookup(entries, handle)
  {
    if entries != [] {
      LookupWithoutAll(entries[1..], gone, handle);
    }
  }

  lemma {:induction false} LookupSetCursor(entries: seq<Entry>, moved: string, cursor: nat, handle: string)
    ensures Lookup(SetCursor(entries, moved, cursor), handle)
         == if handle == moved && Lookup(entries, handle).Some?
            then Some(Lookup(entries, handle).value.(cursor := cursor))
            else Lookup(entries, handle)
  {
    if entries != [] {
      LookupSetCursor(entries[1..], moved, cursor, handle);
    }
  }

  lemma {:induction false} LookupConcat(s: seq<Entry>, t: seq<Entry>, handle: string)
    ensures Lookup(s + t, handle) == if Lookup(s, handle).Some? then Lookup(s, handle) else Lookup(t, handle)
  {
    if s == [] {
      assert s + t == t;
    } else {
      assert (s + t)[1..] == s[1..] + t;
      LookupConcat(s[1..], t, handle);
    }
  }

  lemma LookupInSuffix(entries: seq<Entry>, k: nat, handle: string)
    requires k <= |entries| && DistinctHandles(entries)
    ensures Lookup(LastOf(entries, k), handle).Some? ==> Lookup(LastOf(entries, k), handle) == Lookup(entries, handle)
  {
    var cut := |entries| - k;
    assert entries == entries[..cut] + LastOf(entries, k);
    LookupConcat(entries[..cut], LastOf(entries, k), handle);
    LookupMeaning(entries[..cut], handle);
    LookupMeaning(LastOf(entries, k), handle);
  }

  /** An insertion keeps a stream as it is or evicts it; the new stream has a new handle. */
  lemma InsertionOnEntry(io: Io, owner: Connection, bytes: seq<Byte>, handle: string)
    requires Sound(io.store) && Issued(handle, io.store.counter)
    ensures var after := AfterIoInsert(io, owner, bytes);
      && Issued(handle, after.store.counter)
      && (Lookup(after.store.entries, handle).Some? ==>
            && Lookup(after.store.entries, handle) == Lookup(io.store.entries, handle)
            && (handle in after.owners <==> handle in io.owners)
            && (handle in io.owners ==> after.owners[handle] == io.owners[handle]))
  {
    var s := io.store;
    if |bytes| <= s.maxBytes {
      KeptIsLongest(s.entries, s, |bytes|);
      var kept := Kept(s.entries, s, |bytes|);
      LookupInSuffix(s.entries, |kept|, handle);
      LookupConcat(kept, [Entry(Handle(s.counter), bytes, 0)], handle);
      if handle == Handle(s.counter) {
        IssuedMeansBelow(s.counter, s.counter);
      }
      LookupMeaning(AfterIoInsert(io, owner, bytes).store.entries, handle);
    }
  }

  ghost predicate Reads(op: IoOp, io: Io, handle: string)
  {
    op.Command? && IsRead(op.request) && op.request.handle == Some(handle) && Reply(io, op.request, op.owner).Chunk?
  }

  /** A command moves or frees a stream only for its owner, and frees it in both tables. */
  lemma CommandOnEntry(io: Io, request: Request, owner: Connection, handle: string)
    ensures var after := AfterDispatch(io, request, owner);
      var before, now := Lookup(io.store.entries, handle), Lookup(after.store.entries, handle);
      && after.store.counter == io.store.counter
      && (now.Some? ==> before.Some?)
      && (now.Some? && !Reads(Command(request, owner), io, handle) ==> now == before)
      && (handle in after.owners ==> handle in io.owners && after.owners[handle] == io.owners[handle])
      && (handle in io.owners && handle !in after.owners ==> now.None? && Owns(io, owner, handle))
      && (before.Some? && now.None? ==> handle !in after.owners)
    ensures Reads(Command(request, owner), io, handle) ==> Owns(io, owner, handle)
  {
    if request.handle.Some? {
      LookupWithout(io.store.entries, request.handle.value, handle);
      var e := Lookup(io.store.entries, request.handle.value);
      if e.Some? {
        LookupSetCursor(io.store.entries, request.handle.value,
                        ReadEnd(e.value, UsableOffset(io, request), ChunkSize(io, request)), handle);
      }
    }
  }

  /** Only its owner's commands, an eviction or the owner's disconnect touch a stream. */
  lemma StepOnEntry(io: Io, op: IoOp, handle: string)
    requires Owned(io) && Live(io.store.entries, handle)
    requires Issued(handle, io.store.counter)
    ensures var after := IoStep(io, op);
      && Issued(handle, after.store.counter)
      && (Live(after.store.entries, handle) && !Reads(op, io, handle) ==>
            && Lookup(after.store.entries, handle) == Lookup(io.store.entries, handle)
            && handle in after.owners && after.owners[handle] == io.owners[handle])
    ensures Reads(op, io, handle) ==> op.owner == io.owners[handle]
    ensures op.owner != io.owners[handle] && !Live(IoStep(io, op).store.entries, handle) ==> op.Insertion?
  {
    var after := IoStep(io, op);
    LookupMeaning(io.store.entries, handle);
    LookupMeaning(after.store.entries, handle);
    match op {
      case Insertion(owner, bytes) => InsertionOnEntry(io, owner, bytes, handle);
      case Disconnect(owner) => LookupWithoutAll(io.store.entries, OwnedBy(io.owners, owner), handle);
      case Command(request, owner) => CommandOnEntry(io, request, owner, handle);
    }
  }

  /** A connection that does not own a stream cannot read, free or advance it. */
  lemma StrangersAreIsolated(io: Io, op: IoOp, handle: string)
    requires Owned(io) && Live(io.store.entries, handle) && Issued(handle, io.store.counter)
    requires op.owner != io.owners[handle] && !op.Insertion?
    ensures Lookup(IoStep(io, op).store.entries, handle) == Lookup(io.store.entries, handle)
    ensures op.Command? && op.request.handle == Some(handle) ==> !Reply(io, op.request, op.owner).Chunk?
  {
    StepOnEntry(io, op, handle);
    LookupMeaning(io.store.entries, handle);
    LookupMeaning(IoStep(io, op).store.entries, handle);
  }

  // ---------- the owner table ----------

  lemma LiveAfter(entries: seq<Entry>, handle: string)
    ensures Live(entries, handle) <==> Lookup(entries, handle).Some?
  {
    LookupMeaning(entries, handle);
  }

  lemma SoundStep(io: Io, op: IoOp)
    requires Owned(io)
    ensures Sound(IoStep(io, op).store)
  {
    match op {
      case Insertion(owner, bytes) => InsertKeepsSound(io.store, bytes);
      case Disconnect(owner) => SoundWithoutAll(io.store, OwnedBy(io.owners, owner));
      case Command(request, owner) =>
        if request.handle.Some? {
          var handle := request.handle.value;
          StepKeepsSound(io.store, RemoveOp(handle));
          StepKeepsSound(io.store, ReadOp(handle, UsableOffset(io, request), ChunkSize(io, request)));
        }
    }
  }

  lemma {:induction false} SoundWithoutAll(s: Store, gone: set<string>)
    requires Sound(s)
    ensures Sound(s.(entries := WithoutAll(s.entries, gone)))
    decreases gone
  {
    if gone == {} {
      NothingWithoutAll(s.entries);
    } else {
      var h :| h in gone;
      SoundWithoutAll(s, gone - {h});
      RemoveKeepsSound(s.(entries := WithoutAll(s.entries, gone - {h})), h);
      WithoutOneMore(s.entries, gone - {h}, h);
      assert gone - {h} + {h} == gone;
    }
  }

  lemma OwnedStep(io: Io, op: IoOp)
    requires Owned(io)
    ensures Owned(IoStep(io, op))
  {
    SoundStep(io, op);
    var after := IoStep(io, op);
    forall h | Live(after.store.entries, h) ensures h in after.owners {
      LiveAfter(after.store.entries, h);
      LiveAfter(io.store.entries, h);
      match op {
        case Insertion(owner, bytes) =>
          if |bytes| <= io.store.maxBytes {
            KeptIsLongest(io.store.entries, io.store, |bytes|);
            var kept := Kept(io.store.entries, io.store, |bytes|);
            LookupInSuffix(io.store.entries, |kept|, h);
            LookupConcat(kept, [Entry(Handle(io.store.counter), bytes, 0)], h);
          }
        case Disconnect(owner) => LookupWithoutAll(io.store.entries, OwnedBy(io.owners, owner), h);
        case Command(request, owner) => CommandOnEntry(io, request, owner, h);
      }
    }
  }

  /** Handle exhaustion is the one way to lose exactness: the insertion has evicted streams
      and fails before it prunes the owner table. */
  ghost predicate LosesTrack(io: Io, op: IoOp)
  {
    && op.Insertion? && |op.bytes| <= io.store.maxBytes && io.store.counter == U64_MAX
    && !HasRoom(io.store.entries, io.store, |op.bytes|)
  }

  lemma OwnersMatchStreams(io: Io, op: IoOp)
    requires ExactlyOwned(io)
    ensures ExactlyOwned(IoStep(io, op)) <==> !LosesTrack(io, op)
  {
    OwnedStep(io, op);
    var after := IoStep(io, op);
    match op {
      case Insertion(owner, bytes) =>
        if |bytes| <= io.store.maxBytes {
          KeptIsLongest(io.store.entries, io.store, |bytes|);
          var kept := Kept(io.store.entries, io.store, |bytes|);
          if io.store.counter < U64_MAX {
            var handle := Handle(io.store.counter);
            assert after.store.entries[|kept|].handle == handle;
          } else if !HasRoom(io.store.entries, io.store, |bytes|) {
            var first := io.store.entries[0];
            assert LastOf(io.store.entries, |io.store.entries|) == io.store.entries;
            assert !Live(after.store.entries, first.handle) by {
              assert forall i :: 0 <= i < |kept| ==> kept[i] == io.store.entries[|io.store.entries| - |kept| + i];
            }
            assert Live(io.store.entries, first.handle);
          }
        }
      case Disconnect(owner) =>
        forall h | h in after.owners ensures Live(after.store.entries, h) {
          LookupWithoutAll(io.store.entries, OwnedBy(io.owners, owner), h);
          LiveAfter(after.store.entries, h);
          LiveAfter(io.store.entries, h);
        }
      case Command(request, owner) =>
        forall h | h in after.owners ensures Live(after.store.entries, h) {
          LiveAfter(after.store.entries, h);
          LiveAfter(io.store.entries, h);
          CommandOnEntry(io, request, owner, h);
        }
    }
  }

  /** No run leaves a live stream without an owner. */
  lemma {:induction false} OwnedRun(io: Io, ops: seq<IoOp>)
    requires Owned(io)
    ensures Owned(IoRun(io, ops))
    decreases |ops|
  {
    if ops != [] {
      OwnedStep(io, ops[0]);
      OwnedRun(IoStep(io, ops[0]), ops[1..]);
    }
  }

  /** No step of the run is the one that loses track. */
  ghost predicate KeepsTrack(io: Io, ops: seq<IoOp>)
    decreases |ops|
  {
    ops == [] || (!LosesTrack(io, ops[0]) && KeepsTrack(IoStep(io, ops[0]), ops[1..]))
  }

  /** Every state of the run is exactly owned. */
  ghost predicate ExactThroughout(io: Io, ops: seq<IoOp>)
    decreases |ops|
  {
    ExactlyOwned(io) && (ops == [] || ExactThroughout(IoStep(io, ops[0]), ops[1..]))
  }

  /** A run from an exactly owned state stays exact throughout exactly when no step loses track. */
  lemma {:induction false} RunStaysExact(io: Io, ops: seq<IoOp>)
    requires ExactlyOwned(io)
    ensures ExactThroughout(io, ops) <==> KeepsTrack(io, ops)
    decreases |ops|
  {
    if ops != [] {
      OwnersMatchStreams(io, ops[0]);
      if !LosesTrack(io, ops[0]) {
        RunStaysExact(IoStep(io, ops[0]), ops[1..]);
      } else {
        assert !ExactThroughout(IoStep(io, ops[0]), ops[1..]);
      }
    }
  }

  function InsertionCount(ops: seq<IoOp>): nat
  {
    if ops == [] then 0 else (if ops[0].Insertion? then 1 else 0) + InsertionCount(ops[1..])
  }

  /** So does every run with no more insertions than there are handles left. */
  lemma {:induction false} FewInsertionsKeepTrack(io: Io, ops: seq<IoOp>)
    requires io.store.counter + InsertionCount(ops) <= U64_MAX
    ensures KeepsTrack(io, ops)
    decreases |ops|
  {
    if ops != [] {
      assert IoStep(io, ops[0]).store.counter <= io.store.counter + if ops[0].Insertion? then 1 else 0;
      FewInsertionsKeepTrack(IoStep(io, ops[0]), ops[1..]);
    }
  }

  // ---------- handle exhaustion ----------

  /** A store with room for one stream, and that stream empty, after `k` insertions. */
  function Worn(k: nat): Io
    requires k > 0
  {
    Io(Store([Entry(Handle(k - 1), [], 0)], k, 1, 0), map[Handle(k - 1) := 0], MAX_IO_READ_CHUNK)
  }

  const UNUSED := Io(Store([], 0, 1, 0), map[], MAX_IO_READ_CHUNK)
  const EMPTY_BODY := Insertion(0, [])

  function Insertions(n: nat): seq<IoOp>
  {
    if n == 0 then [] else [EMPTY_BODY] + Insertions(n - 1)
  }

  lemma {:induction false} InsertionsWear(k: nat, n: nat)
    requires k > 0 && k + n <= U64_MAX
    ensures IoRun(Worn(k), Insertions(n)) == Worn(k + n)
    decreases n
  {
    if n > 0 {
      InsertionWears(k);
      InsertionsWear(k + 1, n - 1);
    }
  }

  lemma InsertionWears(k: nat)
    requires 0 < k < U64_MAX
    ensures IoStep(Worn(k), EMPTY_BODY) == Worn(k + 1)
  {
    var entries := Worn(k).store.entries;
    assert entries[1..] == [];
    assert Kept(entries, Worn(k).store, 0) == [];
    assert IoStep(Worn(k), EMPTY_BODY).store == Worn(k + 1).store;
    assert LiveOwners(Worn(k).owners, Worn(k + 1).store.entries)[Handle(k) := 0] == map[Handle(k) := 0] by {
      forall h | h in Worn(k).owners && Live(Worn(k + 1).store.entries, h) ensures h == Handle(k) {
      }
    }
  }

  lemma WornLosesTrack(k: nat)
    requires k == U64_MAX
    ensures ExactlyOwned(Worn(k)) && LosesTrack(Worn(k), EMPTY_BODY) && !ExactlyOwned(IoStep(Worn(k), EMPTY_BODY))
  {
    var io := Worn(k);
    assert io.store.entries[0].handle == Handle(k - 1);
    IssuedMeansBelow(k - 1, k);
    OwnersMatchStreams(io, EMPTY_BODY);
  }

  /** A run that comes to losing track: 2^64 - 1 insertions use up the handles, and the next
      evicts the one stream before it fails, leaving its owner behind. */
  lemma TrackLost(n: nat)
    requires n == U64_MAX
    ensures var io := IoRun(UNUSED, Insertions(n));
      ExactlyOwned(io) && LosesTrack(io, EMPTY_BODY) && !ExactlyOwned(IoStep(io, EMPTY_BODY))
  {
    FirstInsertion();
    InsertionsWear(1, n - 1);
    WornLosesTrack(n);
  }

  lemma FirstInsertion()
    ensures IoStep(UNUSED, EMPTY_BODY) == Worn(1)
  {
    assert Kept([], UNUSED.store, 0) == [];
  }

  // ---------- reassembly ----------

  datatype Progress = Progress(received: seq<Byte>, ended: bool)

  /** What the successful reads of `handle` in a run add up to, as a client decodes them. */
  function Collect(io: Io, ops: seq<IoOp>, handle: string): Progress
    decreases |ops|
  {
    if ops == [] then Progress([], false)
    else
      var rest := Collect(IoStep(io, ops[0]), ops[1..], handle);
      match ops[0]
      case Command(request, owner) =>
        if IsRead(request) && request.handle == Some(handle) then
          match Reply(io, request, owner)
          case Chunk(data, eof) => Progress(Decoded(data) + rest.received, eof || rest.ended)
          case _ => rest
        else rest
      case _ => rest
  }

  ghost predicate OffsetFree(ops: seq<IoOp>, handle: string)
  {
    forall i :: 0 <= i < |ops| && ops[i].Command? && ops[i].request.handle == Some(handle) ==>
      ops[i].request.offset.None?
  }

  /** A chunk is exactly as long as asked for, up to one MiB and the end of the body, and
      says eof exactly when it reaches that end. */
  lemma ChunkIsBounded(io: Io, request: Request, owner: Connection, e: Entry)
    requires IsRead(request) && request.handle == Some(e.handle) && request.offset.None?
    requires Lookup(io.store.entries, e.handle) == Some(e) && e.cursor <= |e.bytes|
    requires Reply(io, request, owner).Chunk?
    ensures var chunk := Reply(io, request, owner);
      var n := Min(ChunkSize(io, request), |e.bytes| - e.cursor);
      && Decoded(chunk.data) == e.bytes[e.cursor..e.cursor + n]
      && n <= MAX_IO_READ_CHUNK
      && (io.usizeMax >= 1 && e.cursor < |e.bytes| ==> n > 0)
      && (chunk.eof <==> e.cursor + n == |e.bytes|)
  {
    var end := ReadEnd(e, None, ChunkSize(io, request));
    DecodeEncode(e.bytes[e.cursor..end]);
  }

  /** A handle that was issued and is dead stays dead and yields nothing more. */
  lemma {:induction false} DeadStaysDead(io: Io, ops: seq<IoOp>, handle: string)
    requires Owned(io) && Issued(handle, io.store.counter) && !Live(io.store.entries, handle)
    ensures !Live(IoRun(io, ops).store.entries, handle)
    ensures Collect(io, ops, handle) == Progress([], false)
    decreases |ops|
  {
    if ops != [] {
      var after := IoStep(io, ops[0]);
      OwnedStep(io, ops[0]);
      DeadAfterStep(io, ops[0], handle);
      DeadStaysDead(after, ops[1..], handle);
      LiveAfter(io.store.entries, handle);
    }
  }

  lemma DeadAfterStep(io: Io, op: IoOp, handle: string)
    requires Owned(io) && Issued(handle, io.store.counter) && !Live(io.store.entries, handle)
    ensures !Live(IoStep(io, op).store.entries, handle)
    ensures Issued(handle, IoStep(io, op).store.counter)
  {
    LiveAfter(io.store.entries, handle);
    LiveAfter(IoStep(io, op).store.entries, handle);
    match op {
      case Insertion(owner, bytes) => InsertionOnEntry(io, owner, bytes, handle);
      case Disconnect(owner) => LookupWithoutAll(io.store.entries, OwnedBy(io.owners, owner), handle);
      case Command(request, owner) => CommandOnEntry(io, request, owner, handle);
    }
  }

  /** What a run has delivered of a stream that had `e` at its start. */
  ghost predicate Delivered(e: Entry, final: Io, progress: Progress)
    requires e.cursor <= |e.bytes|
  {
    && progress.received <= e.bytes[e.cursor..]
    && (progress.ended ==> progress.received == e.bytes[e.cursor..] && !Live(final.store.entries, e.handle))
    && (Live(final.store.entries, e.handle) ==>
          !progress.ended && Lookup(final.store.entries, e.handle)
            == Some(e.(cursor := e.cursor + |progress.received|)))
  }

  lemma ReadOnEntry(io: Io, op: IoOp, e: Entry)
    requires Owned(io) && e.cursor <= |e.bytes| && Lookup(io.store.entries, e.handle) == Some(e)
    requires Reads(op, io, e.handle) && op.request.offset.None?
    ensures var end := ReadEnd(e, None, ChunkSize(io, op.request));
      var chunk := Reply(io, op.request, op.owner);
      && Decoded(chunk.data) == e.bytes[e.cursor..end]
      && (chunk.eof <==> end == |e.bytes|)
      && (chunk.eof ==> !Live(IoStep(io, op).store.entries, e.handle))
      && (!chunk.eof ==> Lookup(IoStep(io, op).store.entries, e.handle) == Some(e.(cursor := end)))
      && IoStep(io, op).store.counter == io.store.counter
  {
    var end := ReadEnd(e, None, ChunkSize(io, op.request));
    DecodeEncode(e.bytes[e.cursor..end]);
    LookupWithout(io.store.entries, e.handle, e.handle);
    LookupSetCursor(io.store.entries, e.handle, end, e.handle);
    LiveAfter(IoStep(io, op).store.entries, e.handle);
  }

  /** Reassembly: whatever else happens, the offset-free reads of a stream deliver consecutive
      pieces of its body; once one says eof they add up to the whole body and the handle
      is dead, and while the stream lives none has said eof. */
  lemma {:induction false} ChunksReassemble(io: Io, ops: seq<IoOp>, e: Entry)
    requires Owned(io) && e.cursor <= |e.bytes| && Lookup(io.store.entries, e.handle) == Some(e)
    requires Issued(e.handle, io.store.counter)
    requires OffsetFree(ops, e.handle)
    ensures Delivered(e, IoRun(io, ops), Collect(io, ops, e.handle))
    decreases |ops|
  {
    LiveAfter(io.store.entries, e.handle);
    if ops != [] {
      var op, after := ops[0], IoStep(io, ops[0]);
      OwnedStep(io, op);
      StepOnEntry(io, op, e.handle);
      if Reads(op, io, e.handle) {
        ReadOnEntry(io, op, e);
        ReadThenRest(io, ops, e);
      } else if Live(after.store.entries, e.handle) {
        ChunksReassemble(after, ops[1..], e);
      } else {
        DeadStaysDead(after, ops[1..], e.handle);
      }
    }
  }

  lemma CollectRead(io: Io, ops: seq<IoOp>, e: Entry)
    requires Owned(io) && e.cursor <= |e.bytes| && Lookup(io.store.entries, e.handle) == Some(e)
    requires ops != [] && Reads(ops[0], io, e.handle) && ops[0].request.offset.None?
    ensures var rest := Collect(IoStep(io, ops[0]), ops[1..], e.handle);
      var end := ReadEnd(e, None, ChunkSize(io, ops[0].request));
      Collect(io, ops, e.handle) == Progress(e.bytes[e.cursor..end] + rest.received, end == |e.bytes| || rest.ended)
  {
    ReadOnEntry(io, ops[0], e);
  }

  lemma DeliveredMore(e: Entry, end: nat, final: Io, rest: Progress)
    requires e.cursor <= end <= |e.bytes| && Delivered(e.(cursor := end), final, rest)
    ensures Delivered(e, final, Progress(e.bytes[e.cursor..end] + rest.received, rest.ended))
  {
    var received := e.bytes[e.cursor..end] + rest.received;
    assert e.bytes[e.cursor..] == e.bytes[e.cursor..end] + e.bytes[end..];
    assert received <= e.bytes[e.cursor..] by {
      assert rest.received == e.bytes[end..][..|rest.received|];
    }
    assert e.(cursor := end).(cursor := end + |rest.received|) == e.(cursor := e.cursor + |received|);
  }

  lemma {:induction false} ReadThenRest(io: Io, ops: seq<IoOp>, e: Entry)
    requires Owned(io) && e.cursor <= |e.bytes| && Lookup(io.store.entries, e.handle) == Some(e)
    requires Issued(e.handle, io.store.counter)
    requires ops != [] && OffsetFree(ops, e.handle) && Reads(ops[0], io, e.handle)
    ensures Delivered(e, IoRun(io, ops), Collect(io, ops, e.handle))
    decreases |ops|, 0
  {
    var op, after := ops[0], IoStep(io, ops[0]);
    var end := ReadEnd(e, None, ChunkSize(io, op.request));
    OwnedStep(io, op);
    ReadOnEntry(io, op, e);
    CollectRead(io, ops, e);
    if end == |e.bytes| {
      DeadStaysDead(after, ops[1..], e.handle);
      assert e.bytes[e.cursor..end] + [] == e.bytes[e.cursor..];
    } else {
      ChunksReassemble(after, ops[1..], e.(cursor := end));
      DeliveredMore(e, end, IoRun(io, ops), Collect(after, ops[1..], e.handle));
    }
  }

  // ---------- reading to the end ----------

  /** A read by the owner of a positive number of bytes. */
  predicate IsOwnerRead(io: Io, op: IoOp, handle: string)
  {
    op.Command? && IsRead(op.request) && op.request.handle == Some(handle) && Owns(io, op.owner, handle)
      && op.request.size != Some(0)
  }

  function OwnerReads(io: Io, ops: seq<IoOp>, handle: string): nat
    decreases |ops|
  {
    if ops == [] then 0
    else (if IsOwnerRead(io, ops[0], handle) then 1 else 0) + OwnerReads(IoStep(io, ops[0]), ops[1..], handle)
  }

  /** Nothing but reading it takes the stream away: no eviction, close or disconnect. */
  ghost predicate Undisturbed(io: Io, ops: seq<IoOp>, handle: string)
    decreases |ops|
  {
    ops == [] ||
    (&& (Live(io.store.entries, handle) && !IsOwnerRead(io, ops[0], handle) ==>
           Live(IoStep(io, ops[0]).store.entries, handle))
     && Undisturbed(IoStep(io, ops[0]), ops[1..], handle))
  }

  lemma OwnerReadReads(io: Io, op: IoOp, e: Entry)
    requires Lookup(io.store.entries, e.handle) == Some(e)
    requires op.Command? && op.request.handle == Some(e.handle) ==> op.request.offset.None?
    ensures IsOwnerRead(io, op, e.handle) <==> Reads(op, io, e.handle)
    ensures IsOwnerRead(io, op, e.handle) ==> ChunkSize(io, op.request) > 0
  {
  }

  /** Reading finishes: in any run that does not take the stream away, more owner's reads than
      there are bytes left, of any positive sizes, deliver all of them, and the last says eof. */
  lemma {:induction false} ReadingFinishes(io: Io, ops: seq<IoOp>, e: Entry)
    requires Owned(io) && e.cursor <= |e.bytes| && Lookup(io.store.entries, e.handle) == Some(e)
    requires Issued(e.handle, io.store.counter)
    requires OffsetFree(ops, e.handle) && Undisturbed(io, ops, e.handle)
    requires OwnerReads(io, ops, e.handle) > |e.bytes| - e.cursor
    ensures Collect(io, ops, e.handle) == Progress(e.bytes[e.cursor..], true)
    ensures !Live(IoRun(io, ops).store.entries, e.handle)
    decreases |ops|
  {
    var op, after := ops[0], IoStep(io, ops[0]);
    LiveAfter(io.store.entries, e.handle);
    OwnedStep(io, op);
    StepOnEntry(io, op, e.handle);
    OwnerReadReads(io, op, e);
    if Reads(op, io, e.handle) {
      var end := ReadEnd(e, None, ChunkSize(io, op.request));
      ReadOnEntry(io, op, e);
      if end == |e.bytes| {
        DeadStaysDead(after, ops[1..], e.handle);
      } else {
        ReadingFinishes(after, ops[1..], e.(cursor := end));
      }
      CollectRead(io, ops, e);
      ReadThenFinish(e, end, Collect(after, ops[1..], e.handle));
    } else {
      ReadingFinishes(after, ops[1..], e);
    }
  }

  /** The bytes of one read and those of the later ones are all that was left. */
  lemma ReadThenFinish(e: Entry, end: nat, rest: Progress)
    requires e.cursor <= end <= |e.bytes|
    requires rest == if end == |e.bytes| then Progress([], false) else Progress(e.bytes[end..], true)
    ensures Progress(e.bytes[e.cursor..end] + rest.received, end == |e.bytes| || rest.ended)
         == Progress(e.bytes[e.cursor..], true)
  {
    assert e.bytes[e.cursor..end] + e.bytes[end..] == e.bytes[e.cursor..];
  }
}
