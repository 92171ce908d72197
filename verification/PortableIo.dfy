/** Stream ownership and the IO.read / IO.close commands. */
module PortableIo {
  import opened Wrappers
  import opened Machine
  import opened Base64
  import opened IoStreams

  const MAX_IO_READ_CHUNK: nat := 1024 * 1024

  type Connection = nat

  // The parsed parameters; None stands for an absent or ill-typed one.
  datatype Request = Request(command: string, handle: Option<string>, size: Option<nat>, offset: Option<nat>)

  datatype Response =
    | NotHandled
    | Closed
    | Chunk(data: seq<Byte>, eof: bool)
    | Failed(code: int)

  datatype Io = Io(store: Store, owners: map<string, Connection>, usizeMax: nat)

  // ---------- the specification ----------

  function LiveOwners(owners: map<string, Connection>, entries: seq<Entry>): map<string, Connection>
  {
    map h | h in owners && Live(entries, h) :: owners[h]
  }

  function AfterIoInsert(io: Io, owner: Connection, bytes: seq<Byte>): Io
  {
    var store := AfterInsert(io.store, bytes);
    if InsertResult(io.store, bytes).Err? then io.(store := store)
    else
      var handle := InsertResult(io.store, bytes).value;
      io.(store := store, owners := LiveOwners(io.owners, store.entries)[handle := owner])
  }

  function Forget(io: Io, handle: string): Io
  {
    io.(store := AfterRemove(io.store, handle), owners := io.owners - {handle})
  }

  function WithoutAll(entries: seq<Entry>, handles: set<string>): seq<Entry>
  {
    if entries == [] then []
    else if entries[0].handle in handles then WithoutAll(entries[1..], handles)
    else [entries[0]] + WithoutAll(entries[1..], handles)
  }

  function OwnedBy(owners: map<string, Connection>, owner: Connection): set<string>
  {
    set h | h in owners && owners[h] == owner
  }

  function AfterClose(io: Io, owner: Connection): Io
  {
    var owned := OwnedBy(io.owners, owner);
    io.(store := io.store.(entries := WithoutAll(io.store.entries, owned)), owners := io.owners - owned)
  }

  function Owns(io: Io, owner: Connection, handle: string): bool
  {
    handle in io.owners && io.owners[handle] == owner
  }

  /** `usize::try_from` of the requested size, capped. */
  function ChunkSize(io: Io, request: Request): nat
  {
    var requested := if request.size.Some? then request.size.value else MAX_IO_READ_CHUNK;
    Min(if requested <= io.usizeMax then requested else MAX_IO_READ_CHUNK, MAX_IO_READ_CHUNK)
  }

  /** An offset too wide for the host is treated as absent. */
  function UsableOffset(io: Io, request: Request): Option<nat>
  {
    if request.offset.Some? && request.offset.value <= io.usizeMax then request.offset else None
  }

  predicate IsRead(request: Request) { request.command == "IO.read" }

  predicate IsClose(request: Request) { request.command == "IO.close" }

  /** The reply to a read of at most `size` bytes from `offset`, or else from the cursor. */
  function ChunkReply(store: Store, handle: string, offset: Option<nat>, size: nat): Response
  {
    match Lookup(store.entries, handle)
    case None => if offset.Some? then Failed(-32602) else Failed(-32000)
    case Some(e) =>
      if offset.Some? && offset.value > |e.bytes| then Failed(-32602)
      else Chunk(Encode(e.bytes[ReadStart(e, offset)..ReadEnd(e, offset, size)]), ReadEnd(e, offset, size) == |e.bytes|)
  }

  function AfterChunk(io: Io, handle: string, offset: Option<nat>, size: nat): Io
  {
    match ChunkReply(io.store, handle, offset, size)
    case Chunk(_, true) => Forget(io, handle)
    case Chunk(_, false) => io.(store := AfterRead(io.store, handle, offset, size))
    case _ => io
  }

  function ReadReply(io: Io, request: Request, handle: string): Response
  {
    if request.size == Some(0) then Failed(-32602)
    else ChunkReply(io.store, handle, UsableOffset(io, request), ChunkSize(io, request))
  }

  function Reply(io: Io, request: Request, owner: Connection): Response
  {
    if !IsRead(request) && !IsClose(request) then NotHandled
    else if request.handle.None? then Failed(-32602)
    else if IsClose(request) then Closed
    else if !Owns(io, owner, request.handle.value) then Failed(-32000)
    else ReadReply(io, request, request.handle.value)
  }

  function AfterDispatch(io: Io, request: Request, owner: Connection): Io
  {
    if (!IsRead(request) && !IsClose(request)) || request.handle.None? || !Owns(io, owner, request.handle.value) then io
    else
      var handle := request.handle.value;
      if IsClose(request) then Forget(io, handle)
      else if request.size == Some(0) then io
      else AfterChunk(io, handle, UsableOffset(io, request), ChunkSize(io, request))
  }

  // ---------- the state object ----------

  class IoState {
    const streams: IoStreamStore
    var owners: map<string, Connection>

    ghost predicate Valid()
      reads this, streams
    {
      streams.Valid() && streams.usizeMax >= MAX_IO_READ_CHUNK
    }

    ghost function Contents(): Io
      reads this, streams
    {
      Io(streams.store, owners, streams.usizeMax)
    }

    constructor (maxEntries: nat, maxBytes: nat, usizeMax: nat)
      requires maxBytes <= usizeMax && usizeMax >= MAX_IO_READ_CHUNK
      ensures Valid() && fresh(streams)
      ensures Contents() == Io(Store([], 0, if maxEntries > 1 then maxEntries else 1, maxBytes), map[], usizeMax)
    {
      streams := new IoStreamStore(maxEntries, maxBytes, usizeMax);
      owners := map[];
    }

    method Insert(owner: Connection, bytes: seq<Byte>) returns (r: Result<string, InsertError>)
      requires Valid()
      modifies this, streams
      ensures Valid() && Contents() == AfterIoInsert(old(Contents()), owner, bytes)
      ensures r == InsertResult(old(streams.store), bytes)
    {
      r := streams.Insert(bytes);
      if r.Err? {
        return;
      }
      OwnersOfLive(streams, owners);
      owners := Retain(owners, streams.streams.Keys);
      owners := owners[r.value := owner];
    }

    method CloseConnection(owner: Connection)
      requires Valid()
      modifies this, streams
      ensures Valid() && Contents() == AfterClose(old(Contents()), owner)
    {
      var handles := OwnedBy(owners, owner);
      ghost var all, start := handles, streams.store;
      ghost var gone: set<string> := {};
      NothingWithoutAll(start.entries);
      while handles != {}
        invariant Valid() && handles !! gone && handles + gone == all
        invariant owners == old(owners) - gone
        invariant streams.store == start.(entries := WithoutAll(start.entries, gone))
        decreases handles
      {
        var handle :| handle in handles;
        owners := owners - {handle};
        streams.Remove(handle);
        WithoutOneMore(start.entries, gone, handle);
        handles, gone := handles - {handle}, gone + {handle};
      }
      assert gone == all;
    }

    method Dispatch(request: Request, owner: Connection) returns (r: Response)
      requires Valid()
      modifies this, streams
      ensures Valid() && Contents() == AfterDispatch(old(Contents()), request, owner)
      ensures r == Reply(old(Contents()), request, owner)
    {
      if request.command != "IO.read" && request.command != "IO.close" {
        return NotHandled;
      }
      if request.handle.None? {
        return Failed(-32602);
      }
      var handle := request.handle.value;
      if request.command == "IO.close" {
        if handle in owners && owners[handle] == owner {
          Drop(handle);
        }
        return Closed;
      }
      if !(handle in owners && owners[handle] == owner) {
        return Failed(-32000);
      }
      r := ReadOwned(request, handle);
    }

    /** The rest of IO.read, once ownership is established. */
    method ReadOwned(request: Request, handle: string) returns (r: Response)
      requires Valid()
      modifies this, streams
      ensures Valid()
      ensures r == ReadReply(old(Contents()), request, handle)
      ensures Contents() == if request.size == Some(0) then old(Contents())
        else AfterChunk(old(Contents()), handle, UsableOffset(old(Contents()), request),
          ChunkSize(old(Contents()), request))
    {
      var requested := if request.size.Some? then request.size.value else MAX_IO_READ_CHUNK;
      if requested == 0 {
        return Failed(-32602);
      }
      var size := Min(if requested <= streams.usizeMax then requested else MAX_IO_READ_CHUNK, MAX_IO_READ_CHUNK);
      var offset := if request.offset.Some? && request.offset.value <= streams.usizeMax then request.offset else None;
      r := ReadChunk(handle, offset, size);
    }

    method ReadChunk(handle: string, offset: Option<nat>, size: nat) returns (r: Response)
      requires Valid()
      modifies this, streams
      ensures Valid() && r == ChunkReply(old(streams.store), handle, offset, size)
      ensures Contents() == AfterChunk(old(Contents()), handle, offset, size)
    {
      var length := streams.ByteLen(handle);
      if offset.Some? && (length.None? || offset.value > length.value) {
        return Failed(-32602);
      }
      var chunk := streams.Read(handle, offset, size);
      if chunk.None? {
        return Failed(-32000);
      }
      if chunk.value.1 {
        ForgetAfterRead(old(Contents()), handle, offset, size);
        Drop(handle);
      }
      return Chunk(chunk.value.0, chunk.value.1);
    }

    method Drop(handle: string)
      requires Valid()
      modifies this, streams
      ensures Valid() && Contents() == Forget(old(Contents()), handle)
    {
      owners := owners - {handle};
      streams.Remove(handle);
    }
  }

  lemma ForgetAfterRead(io: Io, handle: string, offset: Option<nat>, size: nat)
    ensures Forget(io.(store := AfterRead(io.store, handle, offset, size)), handle) == Forget(io, handle)
  {
    var e := Lookup(io.store.entries, handle);
    if e.Some? {
      WithoutIgnoresCursor(io.store.entries, handle, ReadEnd(e.value, offset, size));
    }
  }

  function Retain(owners: map<string, Connection>, handles: set<string>): map<string, Connection>
  {
    map h | h in owners && h in handles :: owners[h]
  }

  lemma OwnersOfLive(streams: IoStreamStore, owners: map<string, Connection>)
    requires streams.Valid()
    ensures Retain(owners, streams.streams.Keys) == LiveOwners(owners, streams.store.entries)
  {
    forall h ensures h in streams.streams <==> Live(streams.store.entries, h) {
      MatchesLookup(streams.order, streams.streams, streams.store.entries, h);
      LookupMeaning(streams.store.entries, h);
    }
  }

  lemma {:induction false} NothingWithoutAll(entries: seq<Entry>)
    ensures WithoutAll(entries, {}) == entries
  {
    if entries != [] {
      NothingWithoutAll(entries[1..]);
    }
  }

  lemma {:induction false} WithoutOneMore(entries: seq<Entry>, handles: set<string>, handle: string)
    ensures Without(WithoutAll(entries, handles), handle) == WithoutAll(entries, handles + {handle})
  {
    if entries != [] {
      WithoutOneMore(entries[1..], handles, handle);
    }
  }

  lemma {:induction false} WithoutIgnoresCursor(entries: seq<Entry>, handle: string, cursor: nat)
    ensures Without(SetCursor(entries, handle, cursor), handle) == Without(entries, handle)
  {
    if entries != [] {
      WithoutIgnoresCursor(entries[1..], handle, cursor);
    }
  }
}
