/** What each IO operation replies and leaves, said of the streams and their owners alone. */
module PortableIoLaws {
  import opened Wrappers
  import opened Machine
  import opened Text
  import opened Base64
  import opened IoStreams
  import opened PortableIo
  import opened PortableIoRuns

  predicate OwnedHandle(io: Io, owner: Connection, handle: string)
  {
    handle in io.owners && io.owners[handle] == owner
  }

  /** Nothing but the stream `handle` may differ, in either table. */
  ghost predicate OthersStay(io: Io, after: Io, handle: string)
  {
    && after.store.counter == io.store.counter && after.usizeMax == io.usizeMax
    && after.store.maxEntries == io.store.maxEntries && after.store.maxBytes == io.store.maxBytes
    && (forall e: Entry :: e.handle != handle ==> (e in after.store.entries <==> e in io.store.entries))
    && (forall h :: h != handle ==>
          (h in after.owners <==> h in io.owners) && (h in io.owners ==> after.owners[h] == io.owners[h]))
  }

  /** The stream is neither stored nor owned. */
  ghost predicate Freed(io: Io, handle: string)
  {
    handle !in io.owners && forall e :: e in io.store.entries ==> e.handle != handle
  }

  lemma {:induction false} WithoutMembers(entries: seq<Entry>, handle: string)
    ensures forall e :: e in Without(entries, handle) <==> e in entries && e.handle != handle
  {
    if entries != [] {
      WithoutMembers(entries[1..], handle);
    }
  }

  lemma {:induction false} SetCursorMembers(entries: seq<Entry>, handle: string, cursor: nat)
    ensures forall e: Entry :: e.handle != handle ==> (e in SetCursor(entries, handle, cursor) <==> e in entries)
  {
    if entries != [] {
      SetCursorMembers(entries[1..], handle, cursor);
    }
  }

  lemma ForgetFrees(io: Io, handle: string)
    ensures Freed(Forget(io, handle), handle) && OthersStay(io, Forget(io, handle), handle)
  {
    WithoutMembers(io.store.entries, handle);
  }

  /** `IO.close` is answered whoever sends it, frees the stream of its owner, and changes nothing for
      anyone else. */
  lemma CloseFrees(io: Io, request: Request, owner: Connection, handle: string)
    requires request.command == "IO.close" && request.handle == Some(handle)
    ensures Reply(io, request, owner) == Closed
    ensures var after := AfterDispatch(io, request, owner);
      if OwnedHandle(io, owner, handle) then Freed(after, handle) && OthersStay(io, after, handle) else after == io
  {
    ForgetFrees(io, handle);
  }

  /** And nothing is read of it in any run that follows. */
  lemma ClosedYieldsNothing(io: Io, request: Request, owner: Connection, handle: string, ops: seq<IoOp>)
    requires Owned(io) && Issued(handle, io.store.counter)
    requires request.command == "IO.close" && request.handle == Some(handle) && OwnedHandle(io, owner, handle)
    ensures var after := AfterDispatch(io, request, owner);
      Collect(after, ops, handle) == Progress([], false) && !Live(IoRun(after, ops).store.entries, handle)
  {
    var after := AfterDispatch(io, request, owner);
    CloseFrees(io, request, owner, handle);
    OwnedStep(io, Command(request, owner));
    assert forall i :: 0 <= i < |after.store.entries| ==> after.store.entries[i] in after.store.entries;
    DeadStaysDead(after, ops, handle);
  }

  /** Requests for other commands are left to others; one without a handle fails; neither changes
      anything. */
  lemma OtherRequests(io: Io, request: Request, owner: Connection)
    ensures request.command != "IO.read" && request.command != "IO.close" ==>
      Reply(io, request, owner) == NotHandled && AfterDispatch(io, request, owner) == io
    ensures (request.command == "IO.read" || request.command == "IO.close") && request.handle.None? ==>
      Reply(io, request, owner) == Failed(-32602) && AfterDispatch(io, request, owner) == io
  {
  }

  /** Which reads fail, and how: another's handle, no bytes asked for, or an offset behind the end;
      a failing read changes nothing. */
  ghost predicate ReadFails(io: Io, request: Request, owner: Connection, handle: string, code: int)
  {
    var offset := if request.offset.Some? && request.offset.value <= io.usizeMax then request.offset else None;
    if !OwnedHandle(io, owner, handle) then code == -32000
    else if request.size == Some(0) then code == -32602
    else
      match Lookup(io.store.entries, handle)
      case None => code == if offset.Some? then -32602 else -32000
      case Some(e) => code == -32602 && offset.Some? && offset.value > |e.bytes|
  }

  lemma ReadFailsExactly(io: Io, request: Request, owner: Connection, handle: string, code: int)
    requires request.command == "IO.read" && request.handle == Some(handle)
    ensures Reply(io, request, owner) == Failed(code) <==> ReadFails(io, request, owner, handle, code)
    ensures ReadFails(io, request, owner, handle, code) ==> AfterDispatch(io, request, owner) == io
  {
  }

  /** Where a read starts: at an offset the host can hold, else at the cursor. */
  function SpanStart(io: Io, request: Request, e: Entry): nat
  {
    if request.offset.Some? && request.offset.value <= io.usizeMax then request.offset.value
    else if e.cursor <= |e.bytes| then e.cursor else |e.bytes|
  }

  /** Where it ends: after as many bytes as asked for, up to one MiB and the end of the body. */
  function SpanEnd(io: Io, request: Request, e: Entry): nat
  {
    var most := 1024 * 1024;
    var size := if request.size.Some? && request.size.value <= io.usizeMax && request.size.value < most
                then request.size.value else most;
    if SpanStart(io, request, e) + size < |e.bytes| then SpanStart(io, request, e) + size else |e.bytes|
  }

  /** A read that is not refused for its offset. */
  predicate GoodRead(io: Io, request: Request, owner: Connection, e: Entry)
  {
    && OwnedHandle(io, owner, e.handle) && request.command == "IO.read" && request.handle == Some(e.handle)
    && request.size != Some(0) && SpanStart(io, request, e) <= |e.bytes|
  }

  lemma SpanIs(io: Io, request: Request, e: Entry)
    requires SpanStart(io, request, e) <= |e.bytes|
    ensures var offset, size := UsableOffset(io, request), ChunkSize(io, request);
      && (offset.Some? ==> offset.value <= |e.bytes|)
      && ReadStart(e, offset) == SpanStart(io, request, e) && ReadEnd(e, offset, size) == SpanEnd(io, request, e)
  {
  }

  /** What a read gives: the bytes of its span, and whether that reaches the end. */
  lemma ReadGives(io: Io, request: Request, owner: Connection, e: Entry)
    requires Lookup(io.store.entries, e.handle) == Some(e) && GoodRead(io, request, owner, e)
    ensures var start, end, reply := SpanStart(io, request, e), SpanEnd(io, request, e), Reply(io, request, owner);
      && start <= end <= |e.bytes| && reply.Chunk?
      && Decoded(reply.data) == e.bytes[start..end] && (reply.eof <==> end == |e.bytes|)
  {
    SpanIs(io, request, e);
    DecodeEncode(e.bytes[SpanStart(io, request, e)..SpanEnd(io, request, e)]);
  }

  /** What it leaves: at the end the stream is freed, else only its cursor moves. */
  lemma ReadLeaves(io: Io, request: Request, owner: Connection, e: Entry)
    requires Lookup(io.store.entries, e.handle) == Some(e) && GoodRead(io, request, owner, e)
    ensures var end, after := SpanEnd(io, request, e), AfterDispatch(io, request, owner);
      && OthersStay(io, after, e.handle)
      && if end == |e.bytes| then Freed(after, e.handle)
         else after.owners == io.owners && Lookup(after.store.entries, e.handle) == Some(e.(cursor := end))
  {
    var end := SpanEnd(io, request, e);
    SpanIs(io, request, e);
    ForgetFrees(io, e.handle);
    SetCursorMembers(io.store.entries, e.handle, end);
    LookupSetCursor(io.store.entries, e.handle, end, e.handle);
  }

  /** A body that fits is stored last under a new handle for its inserter; what is left of the others
      is the longest end of the insertion order with room for it, and only their owners are known. */
  lemma InsertStores(io: Io, owner: Connection, bytes: seq<Byte>) returns (k: nat)
    requires Sound(io.store) && |bytes| <= io.store.maxBytes && io.store.counter < U64_MAX
    ensures k <= |io.store.entries|
    ensures var all, after := io.store.entries, AfterIoInsert(io, owner, bytes);
      var handle := "stream-" + Decimal(io.store.counter);
      && InsertResult(io.store, bytes) == Ok(handle)
      && after.store.entries == all[|all| - k..] + [Entry(handle, bytes, 0)]
      && k < io.store.maxEntries && Sum(all[|all| - k..]) + |bytes| <= io.store.maxBytes
      && (forall m :: k < m <= |all| ==>
            m >= io.store.maxEntries || Sum(LastOf(all, m)) + |bytes| > io.store.maxBytes)
      && after.store.counter == io.store.counter + 1
      && OwnedHandle(after, owner, handle)
      && (forall h :: h != handle ==>
            && (h in after.owners <==> h in io.owners && Live(all[|all| - k..], h))
            && (h in after.owners ==> after.owners[h] == io.owners[h]))
  {
    var all, handle := io.store.entries, Handle(io.store.counter);
    KeptIsLongest(all, io.store, |bytes|);
    var kept := Kept(all, io.store, |bytes|);
    k := |kept|;
    var stored := kept + [Entry(handle, bytes, 0)];
    forall h | h != handle ensures Live(stored, h) <==> Live(kept, h) {
      if Live(kept, h) {
        var i :| 0 <= i < |kept| && kept[i].handle == h;
        assert stored[i].handle == h;
      }
    }
    forall m | k < m <= |all| ensures m >= io.store.maxEntries || Sum(LastOf(all, m)) + |bytes| > io.store.maxBytes {
      assert !HasRoom(LastOf(all, m), io.store, |bytes|);
    }
  }

  /** One that does not fit, or finds the handles used up, is refused and owned by nobody. */
  lemma InsertRefused(io: Io, owner: Connection, bytes: seq<Byte>)
    ensures InsertResult(io.store, bytes).Err? <==> |bytes| > io.store.maxBytes || io.store.counter == U64_MAX
    ensures InsertResult(io.store, bytes).Err? ==> AfterIoInsert(io, owner, bytes).owners == io.owners
    ensures |bytes| > io.store.maxBytes ==> AfterIoInsert(io, owner, bytes) == io
  {
  }

  lemma {:induction false} WithoutAllMembers(entries: seq<Entry>, handles: set<string>)
    ensures forall e :: e in WithoutAll(entries, handles) <==> e in entries && e.handle !in handles
  {
    if entries != [] {
      WithoutAllMembers(entries[1..], handles);
    }
  }

  /** A disconnect frees every stream of the connection and no other. */
  lemma DisconnectFrees(io: Io, owner: Connection)
    ensures var after := AfterClose(io, owner);
      && (forall e :: e in after.store.entries <==> e in io.store.entries && !OwnedHandle(io, owner, e.handle))
      && (forall h :: h in after.owners <==> h in io.owners && io.owners[h] != owner)
      && (forall h :: h in after.owners ==> after.owners[h] == io.owners[h])
      && after.store.counter == io.store.counter
  {
    WithoutAllMembers(io.store.entries, OwnedBy(io.owners, owner));
  }
}
