/** The byte-budgeted store of response bodies: a hash map, a deque and a running total,
    refined to one list of entries in insertion order. */
module IoStreams {
  import opened Wrappers
  import opened Machine
  import opened Text
  import opened Base64

  const MAX_READ_CHUNK: nat := 4 * 1024 * 1024

  datatype Entry = Entry(handle: string, bytes: seq<Byte>, cursor: nat)

  datatype InsertError = BodyTooLarge | HandlesExhausted | ByteAccountingOverflow

  /** Entries in insertion order, the next handle number and the two limits. */
  datatype Store = Store(entries: seq<Entry>, counter: nat, maxEntries: nat, maxBytes: nat)

  function Handle(n: nat): string
  {
    "stream-" + Decimal(n)
  }

  lemma HandleInjective(m: nat, n: nat)
    requires Handle(m) == Handle(n)
    ensures m == n
  {
    assert Handle(m)[7..] == Decimal(m) && Handle(n)[7..] == Decimal(n);
    DecimalInjective(m, n);
  }

  function Sum(entries: seq<Entry>): nat
  {
    if entries == [] then 0 else |entries[0].bytes| + Sum(entries[1..])
  }

  predicate Live(entries: seq<Entry>, handle: string)
  {
    exists i :: 0 <= i < |entries| && entries[i].handle == handle
  }

  ghost predicate DistinctHandles(entries: seq<Entry>)
  {
    forall i, j :: 0 <= i < j < |entries| ==> entries[i].handle != entries[j].handle
  }

  /** `handle` is one of the first `counter` handles. */
  predicate Issued(handle: string, counter: nat)
  {
    counter > 0 && (handle == Handle(counter - 1) || Issued(handle, counter - 1))
  }

  lemma {:induction false} IssuedMeansBelow(n: nat, counter: nat)
    requires Issued(Handle(n), counter)
    ensures n < counter
  {
    if Handle(n) == Handle(counter - 1) {
      HandleInjective(n, counter - 1);
    } else {
      IssuedMeansBelow(n, counter - 1);
    }
  }

  ghost predicate IssuedBelow(entries: seq<Entry>, counter: nat)
  {
    forall i :: 0 <= i < |entries| ==> Issued(entries[i].handle, counter)
  }

  /** The accounting of every reachable store. */
  ghost predicate Sound(s: Store)
  {
    && DistinctHandles(s.entries)
    && IssuedBelow(s.entries, s.counter)
    && s.counter <= U64_MAX
    && Sum(s.entries) <= s.maxBytes
    && |s.entries| <= s.maxEntries
    && s.maxEntries >= 1
  }

  // ---------- the specification of the operations ----------

  predicate HasRoom(entries: seq<Entry>, s: Store, len: nat)
  {
    |entries| < s.maxEntries && Sum(entries) + len <= s.maxBytes
  }

  /** What is left after evicting from the front until there is room. */
  function Kept(entries: seq<Entry>, s: Store, len: nat): seq<Entry>
  {
    if entries == [] || HasRoom(entries, s, len) then entries else Kept(entries[1..], s, len)
  }

  function AfterInsert(s: Store, bytes: seq<Byte>): Store
  {
    if |bytes| > s.maxBytes then s
    else
      var kept := Kept(s.entries, s, |bytes|);
      if s.counter == U64_MAX then s.(entries := kept)
      else s.(entries := kept + [Entry(Handle(s.counter), bytes, 0)], counter := s.counter + 1)
  }

  function InsertResult(s: Store, bytes: seq<Byte>): Result<string, InsertError>
  {
    if |bytes| > s.maxBytes then Err(BodyTooLarge)
    else if s.counter == U64_MAX then Err(HandlesExhausted)
    else Ok(Handle(s.counter))
  }

  function Without(entries: seq<Entry>, handle: string): seq<Entry>
  {
    if entries == [] then []
    else if entries[0].handle == handle then Without(entries[1..], handle)
    else [entries[0]] + Without(entries[1..], handle)
  }

  function Lookup(entries: seq<Entry>, handle: string): Option<Entry>
  {
    if entries == [] then None
    else if entries[0].handle == handle then Some(entries[0])
    else Lookup(entries[1..], handle)
  }

  /** The bytes a read covers, from the given offset or the cursor. */
  function ReadStart(e: Entry, offset: Option<nat>): (start: nat)
    ensures start <= |e.bytes|
  {
    Min(if offset.Some? then offset.value else e.cursor, |e.bytes|)
  }

  function ReadEnd(e: Entry, offset: Option<nat>, size: nat): (end: nat)
    ensures ReadStart(e, offset) <= end <= |e.bytes|
  {
    Min(ReadStart(e, offset) + Min(size, MAX_READ_CHUNK), |e.bytes|)
  }

  function SetCursor(entries: seq<Entry>, handle: string, cursor: nat): seq<Entry>
  {
    if entries == [] then []
    else if entries[0].handle == handle then [entries[0].(cursor := cursor)] + entries[1..]
    else [entries[0]] + SetCursor(entries[1..], handle, cursor)
  }

  // ---------- what the operations keep ----------

  lemma {:induction false} SumConcat(s: seq<Entry>, t: seq<Entry>)
    ensures Sum(s + t) == Sum(s) + Sum(t)
  {
    if s == [] {
      assert s + t == t;
    } else {
      assert (s + t)[1..] == s[1..] + t;
      SumConcat(s[1..], t);
    }
  }

  function LastOf(entries: seq<Entry>, k: nat): seq<Entry>
    requires k <= |entries|
  {
    entries[|entries| - k..]
  }

  /** Eviction keeps exactly the longest suffix of insertion order that leaves room: it is a
      suffix, it leaves room, and every longer suffix does not. */
  lemma {:induction false} KeptIsLongest(entries: seq<Entry>, s: Store, len: nat)
    requires len <= s.maxBytes && s.maxEntries >= 1
    ensures var kept := Kept(entries, s, len);
      && |kept| <= |entries| && kept == LastOf(entries, |kept|)
      && HasRoom(kept, s, len)
      && forall k :: |kept| < k <= |entries| ==> !HasRoom(LastOf(entries, k), s, len)
  {
    if entries != [] && !HasRoom(entries, s, len) {
      KeptIsLongest(entries[1..], s, len);
      var kept := Kept(entries, s, len);
      assert LastOf(entries[1..], |kept|) == LastOf(entries, |kept|);
      forall k | |kept| < k <= |entries| ensures !HasRoom(LastOf(entries, k), s, len) {
        if k < |entries| {
          assert LastOf(entries[1..], k) == LastOf(entries, k);
        } else {
          assert LastOf(entries, k) == entries;
        }
      }
    }
  }

  lemma FreshHandle(s: Store)
    requires Sound(s)
    ensures forall i :: 0 <= i < |s.entries| ==> s.entries[i].handle != Handle(s.counter)
  {
    forall i | 0 <= i < |s.entries| ensures s.entries[i].handle != Handle(s.counter) {
      if s.entries[i].handle == Handle(s.counter) {
        IssuedMeansBelow(s.counter, s.counter);
      }
    }
  }

  lemma SuffixKeepsSound(s: Store, k: nat)
    requires Sound(s) && k <= |s.entries|
    ensures Sound(s.(entries := LastOf(s.entries, k)))
  {
    SumConcat(s.entries[..|s.entries| - k], LastOf(s.entries, k));
    assert s.entries == s.entries[..|s.entries| - k] + LastOf(s.entries, k);
  }

  lemma AppendKeepsSound(s: Store, bytes: seq<Byte>)
    requires Sound(s) && HasRoom(s.entries, s, |bytes|) && s.counter < U64_MAX
    ensures Sound(s.(entries := s.entries + [Entry(Handle(s.counter), bytes, 0)], counter := s.counter + 1))
  {
    FreshHandle(s);
    SumConcat(s.entries, [Entry(Handle(s.counter), bytes, 0)]);
    assert forall i :: 0 <= i < |s.entries| ==> Issued(s.entries[i].handle, s.counter);
  }

  lemma InsertKeepsSound(s: Store, bytes: seq<Byte>)
    requires Sound(s)
    ensures Sound(AfterInsert(s, bytes))
    ensures |bytes| <= s.maxBytes ==> Sound(s.(entries := Kept(s.entries, s, |bytes|)))
  {
    if |bytes| <= s.maxBytes {
      KeptIsLongest(s.entries, s, |bytes|);
      var kept := Kept(s.entries, s, |bytes|);
      SuffixKeepsSound(s, |kept|);
      if s.counter < U64_MAX {
        AppendKeepsSound(s.(entries := kept), bytes);
      }
    }
  }

  lemma {:induction false} WithoutFacts(entries: seq<Entry>, handle: string)
    ensures var rest := Without(entries, handle);
      && Sum(rest) <= Sum(entries) && |rest| <= |entries|
      && (forall e :: e in rest <==> e in entries && e.handle != handle)
      && (DistinctHandles(entries) ==> DistinctHandles(rest))
      && (DistinctHandles(entries) ==>
            Sum(rest)
            == Sum(entries) - (if Lookup(entries, handle).Some? then |Lookup(entries, handle).value.bytes| else 0))
  {
    if entries != [] {
      WithoutFacts(entries[1..], handle);
      var rest := Without(entries[1..], handle);
      assert forall e :: e in entries <==> e == entries[0] || e in entries[1..];
      if DistinctHandles(entries) {
        forall i | 0 <= i < |rest| ensures rest[i].handle != entries[0].handle {
          assert rest[i] in entries[1..];
        }
        LookupMeaning(entries[1..], handle);
      }
    }
  }

  lemma {:induction false} LookupMeaning(entries: seq<Entry>, handle: string)
    ensures Lookup(entries, handle).Some? <==> Live(entries, handle)
    ensures Lookup(entries, handle).Some? ==>
      Lookup(entries, handle).value in entries && Lookup(entries, handle).value.handle == handle
  {
    if entries != [] {
      LookupMeaning(entries[1..], handle);
      assert Live(entries, handle) <==> entries[0].handle == handle || Live(entries[1..], handle) by {
        if Live(entries[1..], handle) {
          var i :| 0 <= i < |entries[1..]| && entries[1..][i].handle == handle;
          assert entries[i + 1].handle == handle;
        }
        if Live(entries, handle) && entries[0].handle != handle {
          var i :| 0 <= i < |entries| && entries[i].handle == handle;
          assert entries[1..][i - 1].handle == handle;
        }
      }
    }
  }

  lemma {:induction false} SetCursorFacts(entries: seq<Entry>, handle: string, cursor: nat)
    requires DistinctHandles(entries)
    ensures var t := SetCursor(entries, handle, cursor);
      && Sum(t) == Sum(entries) && |t| == |entries|
      && forall i :: 0 <= i < |t| ==>
        t[i] == (if entries[i].handle == handle then entries[i].(cursor := cursor) else entries[i])
  {
    if entries != [] {
      if entries[0].handle != handle {
        SetCursorFacts(entries[1..], handle, cursor);
      } else {
        assert forall i :: 1 <= i < |entries| ==> entries[i].handle != handle;
      }
    }
  }

  lemma RemoveKeepsSound(s: Store, handle: string)
    requires Sound(s)
    ensures Sound(s.(entries := Without(s.entries, handle)))
  {
    WithoutFacts(s.entries, handle);
    var rest := Without(s.entries, handle);
    forall i | 0 <= i < |rest| ensures Issued(rest[i].handle, s.counter) {
      assert rest[i] in s.entries;
    }
  }

  lemma ReadKeepsSound(s: Store, handle: string, cursor: nat)
    requires Sound(s)
    ensures Sound(s.(entries := SetCursor(s.entries, handle, cursor)))
  {
    SetCursorFacts(s.entries, handle, cursor);
  }

  // ---------- whole runs ----------

  datatype StoreOp =
    | InsertOp(bytes: seq<Byte>)
    | ReadOp(handle: string, offset: Option<nat>, size: nat)
    | RemoveOp(handle: string)

  function AfterRead(s: Store, handle: string, offset: Option<nat>, size: nat): Store
  {
    match Lookup(s.entries, handle)
    case None => s
    case Some(e) => s.(entries := SetCursor(s.entries, handle, ReadEnd(e, offset, size)))
  }

  function AfterRemove(s: Store, handle: string): Store
  {
    s.(entries := Without(s.entries, handle))
  }

  function StoreStep(s: Store, op: StoreOp): Store
  {
    match op
    case InsertOp(bytes) => AfterInsert(s, bytes)
    case ReadOp(handle, offset, size) => AfterRead(s, handle, offset, size)
    case RemoveOp(handle) => AfterRemove(s, handle)
  }

  function StoreRun(s: Store, ops: seq<StoreOp>): Store
    decreases |ops|
  {
    if ops == [] then s else StoreRun(StoreStep(s, ops[0]), ops[1..])
  }

  /** The handles a run of operations hands out. */
  function HandedOut(s: Store, ops: seq<StoreOp>): seq<string>
    decreases |ops|
  {
    if ops == [] then []
    else
      var rest := HandedOut(StoreStep(s, ops[0]), ops[1..]);
      if ops[0].InsertOp? && InsertResult(s, ops[0].bytes).Ok?
      then [InsertResult(s, ops[0].bytes).value] + rest
      else rest
  }

  /** One more operation at the end of a run acts on what the run left, and hands out one more handle when it
      is an insertion that succeeds there. */
  lemma {:induction false} RunGoesOn(s: Store, ops: seq<StoreOp>, op: StoreOp)
    ensures StoreRun(s, ops + [op]) == StoreStep(StoreRun(s, ops), op)
    ensures HandedOut(s, ops + [op]) == HandedOut(s, ops) +
      match op
      case InsertOp(bytes) =>
        var r := InsertResult(StoreRun(s, ops), bytes);
        if r.Ok? then [r.value] else []
      case _ => []
    decreases |ops|
  {
    if ops == [] {
      assert [op][1..] == [] && [] + [op] == [op];
    } else {
      assert (ops + [op])[1..] == ops[1..] + [op];
      RunGoesOn(StoreStep(s, ops[0]), ops[1..], op);
    }
  }

  lemma StepKeepsSound(s: Store, op: StoreOp)
    requires Sound(s)
    ensures Sound(StoreStep(s, op))
  {
    match op {
      case InsertOp(bytes) => InsertKeepsSound(s, bytes);
      case ReadOp(handle, offset, size) =>
        var e := Lookup(s.entries, handle);
        if e.Some? {
          ReadKeepsSound(s, handle, ReadEnd(e.value, offset, size));
        }
      case RemoveOp(handle) => RemoveKeepsSound(s, handle);
    }
  }

  /** Every reachable store is sound, and handles are numbered on without ever repeating. */
  lemma {:induction false} RunKeepsSound(s: Store, ops: seq<StoreOp>)
    requires Sound(s)
    ensures Sound(StoreRun(s, ops))
    ensures forall i :: 0 <= i < |HandedOut(s, ops)| ==> HandedOut(s, ops)[i] == Handle(s.counter + i)
    decreases |ops|
  {
    if ops != [] {
      StepKeepsSound(s, ops[0]);
      RunKeepsSound(StoreStep(s, ops[0]), ops[1..]);
    }
  }

  lemma HandlesNeverReused(s: Store, ops: seq<StoreOp>, i: nat, j: nat)
    requires Sound(s) && i < j < |HandedOut(s, ops)|
    ensures HandedOut(s, ops)[i] != HandedOut(s, ops)[j]
  {
    RunKeepsSound(s, ops);
    if HandedOut(s, ops)[i] == HandedOut(s, ops)[j] {
      HandleInjective(s.counter + i, s.counter + j);
    }
  }

  // ---------- the deque and the map as one list ----------

  ghost predicate Matches(order: seq<string>, streams: map<string, (seq<Byte>, nat)>, entries: seq<Entry>)
  {
    && |order| == |entries|
    && (forall h :: h in streams <==> h in order)
    && forall i :: 0 <= i < |order| ==>
         && order[i] == entries[i].handle
         && order[i] in streams
         && streams[order[i]] == (entries[i].bytes, entries[i].cursor)
  }

  function Retained(order: seq<string>, handle: string): seq<string>
  {
    if order == [] then []
    else if order[0] == handle then Retained(order[1..], handle)
    else [order[0]] + Retained(order[1..], handle)
  }

  lemma MatchesPopFront(order: seq<string>, streams: map<string, (seq<Byte>, nat)>, entries: seq<Entry>)
    requires order != [] && Matches(order, streams, entries) && DistinctHandles(entries)
    ensures Matches(order[1..], streams - {order[0]}, entries[1..])
  {
    forall i | 1 <= i < |order| ensures order[i] != order[0] {
      assert entries[i].handle != entries[0].handle;
    }
    assert forall h :: h in order <==> h == order[0] || h in order[1..];
  }

  lemma {:induction false} LookupInOrder(entries: seq<Entry>, i: nat)
    requires DistinctHandles(entries) && i < |entries|
    ensures Lookup(entries, entries[i].handle) == Some(entries[i])
  {
    if i > 0 {
      assert entries[0].handle != entries[i].handle;
      LookupInOrder(entries[1..], i - 1);
    }
  }

  lemma MatchesLookup(order: seq<string>, streams: map<string, (seq<Byte>, nat)>, entries: seq<Entry>, handle: string)
    requires Matches(order, streams, entries) && DistinctHandles(entries)
    ensures Lookup(entries, handle)
      == if handle in streams then Some(Entry(handle, streams[handle].0, streams[handle].1)) else None
  {
    LookupMeaning(entries, handle);
    if handle in streams {
      var i :| 0 <= i < |order| && order[i] == handle;
      LookupInOrder(entries, i);
    } else {
      assert forall i :: 0 <= i < |entries| ==> entries[i].handle == order[i];
    }
  }

  lemma MatchesCursor(order: seq<string>, streams: map<string, (seq<Byte>, nat)>, entries: seq<Entry>, handle: string,
                      end: nat)
    requires Matches(order, streams, entries) && DistinctHandles(entries) && handle in streams
    ensures Matches(order, streams[handle := (streams[handle].0, end)], SetCursor(entries, handle, end))
  {
    SetCursorFacts(entries, handle, end);
    var moved, after := SetCursor(entries, handle, end), streams[handle := (streams[handle].0, end)];
    KeysStay(streams, handle, (streams[handle].0, end));
    forall i | 0 <= i < |order|
      ensures order[i] == moved[i].handle && order[i] in after && after[order[i]] == (moved[i].bytes, moved[i].cursor)
    {
      MovedEntry(order, streams, entries, handle, end, i);
    }
  }

  lemma KeysStay(streams: map<string, (seq<Byte>, nat)>, handle: string, stream: (seq<Byte>, nat))
    requires handle in streams
    ensures forall h :: h in streams[handle := stream] <==> h in streams
  {
  }

  lemma MovedEntry(order: seq<string>, streams: map<string, (seq<Byte>, nat)>, entries: seq<Entry>, handle: string,
                   end: nat, i: nat)
    requires Matches(order, streams, entries) && DistinctHandles(entries) && handle in streams && i < |order|
    ensures var moved, after := SetCursor(entries, handle, end), streams[handle := (streams[handle].0, end)];
      |moved| == |entries| && order[i] == moved[i].handle && after[order[i]] == (moved[i].bytes, moved[i].cursor)
  {
    SetCursorFacts(entries, handle, end);
    assert order[i] == entries[i].handle && streams[order[i]] == (entries[i].bytes, entries[i].cursor);
  }

  lemma {:induction false} RetainedFacts(order: seq<string>, entries: seq<Entry>, handle: string)
    requires |order| == |entries| && forall i :: 0 <= i < |order| ==> order[i] == entries[i].handle
    ensures var o, e := Retained(order, handle), Without(entries, handle);
      && |o| == |e|
      && (forall i :: 0 <= i < |o| ==> o[i] == e[i].handle)
      && (forall h :: h in o <==> h in order && h != handle)
  {
    if order != [] {
      RetainedFacts(order[1..], entries[1..], handle);
      assert forall h :: h in order <==> h == order[0] || h in order[1..];
    }
  }

  lemma MatchesRemove(order: seq<string>, streams: map<string, (seq<Byte>, nat)>, entries: seq<Entry>, handle: string)
    requires Matches(order, streams, entries)
    ensures Matches(Retained(order, handle), streams - {handle}, Without(entries, handle))
  {
    RetainedFacts(order, entries, handle);
    WithoutFacts(entries, handle);
    var o, e := Retained(order, handle), Without(entries, handle);
    forall i | 0 <= i < |o|
      ensures o[i] in streams - {handle} && streams[o[i]] == (e[i].bytes, e[i].cursor)
    {
      assert e[i] in entries;
      var j :| 0 <= j < |entries| && entries[j] == e[i];
      assert order[j] == o[i];
    }
  }

  ghost predicate Represents(order: seq<string>, streams: map<string, (seq<Byte>, nat)>, totalBytes: nat, store: Store)
  {
    Matches(order, streams, store.entries) && Sound(store) && totalBytes == Sum(store.entries)
  }

  lemma RepresentsPopped(order: seq<string>, streams: map<string, (seq<Byte>, nat)>, total: nat, store: Store)
    requires order != [] && Represents(order, streams, total, store)
    ensures Represents(order[1..], streams - {order[0]}, SaturatingSub(total, |streams[order[0]].0|),
                       store.(entries := store.entries[1..]))
  {
    MatchesPopFront(order, streams, store.entries);
    SuffixKeepsSound(store, |store.entries| - 1);
  }

  lemma RepresentsAppended(order: seq<string>, streams: map<string, (seq<Byte>, nat)>, total: nat, store: Store,
                           bytes: seq<Byte>)
    requires Represents(order, streams, total, store)
    requires HasRoom(store.entries, store, |bytes|) && store.counter < U64_MAX
    ensures var handle := Handle(store.counter);
      Represents(order + [handle], streams[handle := (bytes, 0)], total + |bytes|,
                 store.(entries := store.entries + [Entry(handle, bytes, 0)], counter := store.counter + 1))
  {
    AppendKeepsSound(store, bytes);
    FreshHandle(store);
    SumConcat(store.entries, [Entry(Handle(store.counter), bytes, 0)]);
  }

  lemma RepresentsCursor(order: seq<string>, streams: map<string, (seq<Byte>, nat)>, total: nat, store: Store,
                         handle: string, cursor: nat)
    requires Represents(order, streams, total, store) && handle in streams && cursor <= |streams[handle].0|
    ensures Represents(order, streams[handle := (streams[handle].0, cursor)], total,
                       store.(entries := SetCursor(store.entries, handle, cursor)))
  {
    MatchesLookup(order, streams, store.entries, handle);
    MatchesCursor(order, streams, store.entries, handle, cursor);
    ReadKeepsSound(store, handle, cursor);
    SetCursorFacts(store.entries, handle, cursor);
  }

  lemma RepresentsRemoved(order: seq<string>, streams: map<string, (seq<Byte>, nat)>, total: nat, store: Store,
                          handle: string)
    requires Represents(order, streams, total, store)
    ensures var rest := store.(entries := Without(store.entries, handle));
      if handle in streams then
        Represents(Retained(order, handle), streams - {handle}, SaturatingSub(total, |streams[handle].0|), rest)
      else rest == store
  {
    MatchesLookup(order, streams, store.entries, handle);
    MatchesRemove(order, streams, store.entries, handle);
    WithoutFacts(store.entries, handle);
    RemoveKeepsSound(store, handle);
    if handle !in streams {
      LookupMeaning(store.entries, handle);
      NothingWithout(store.entries, handle);
    }
  }

  lemma {:induction false} NothingWithout(entries: seq<Entry>, handle: string)
    requires Lookup(entries, handle).None?
    ensures Without(entries, handle) == entries
  {
    if entries != [] {
      NothingWithout(entries[1..], handle);
    }
  }

  /** The span of a body of `len` bytes that a read covers. */
  function Span(len: nat, cursor: nat, offset: Option<nat>, size: nat): (span: (nat, nat))
    ensures span.0 <= span.1 <= len
    ensures forall e: Entry :: |e.bytes| == len && e.cursor == cursor ==>
      span.0 == ReadStart(e, offset) && span.1 == ReadEnd(e, offset, size)
  {
    var start := Min(if offset.Some? then Min(offset.value, len) else cursor, len);
    (start, Min(start + Min(size, MAX_READ_CHUNK), len))
  }

  // ---------- the store ----------

  class IoStreamStore {
    var streams: map<string, (seq<Byte>, nat)>
    var order: seq<string>
    var totalBytes: nat
    var counter: nat
    const maxEntries: nat
    const maxBytes: nat
    const usizeMax: nat
    ghost var store: Store

    /** `order` lists the live handles, the total is the sum of their lengths, and the
        store they make up is sound. */
    ghost predicate Valid()
      reads this
    {
      && Represents(order, streams, totalBytes, store)
      && counter == store.counter && maxEntries == store.maxEntries && maxBytes == store.maxBytes
      && maxBytes <= usizeMax
    }

    constructor (entries: nat, bytes: nat, usizeMax: nat)
      requires bytes <= usizeMax
      ensures Valid() && store == Store([], 0, if entries > 1 then entries else 1, bytes)
      ensures this.usizeMax == usizeMax
    {
      streams, order, totalBytes, counter := map[], [], 0, 0;
      maxEntries := if entries > 1 then entries else 1;
      maxBytes := bytes;
      this.usizeMax := usizeMax;
      store := Store([], 0, if entries > 1 then entries else 1, bytes);
    }

    method Insert(bytes: seq<Byte>) returns (r: Result<string, InsertError>)
      requires Valid()
      modifies this
      ensures Valid() && store == AfterInsert(old(store), bytes)
      ensures r == InsertResult(old(store), bytes)
    {
      if |bytes| > maxBytes {
        return Err(BodyTooLarge);
      }
      KeptIsLongest(store.entries, store, |bytes|);
      EvictFor(|bytes|);
      r := Append(bytes);
    }

    /** The eviction loop of `insert`. */
    method EvictFor(len: nat)
      requires Valid() && len <= maxBytes
      modifies this
      ensures Valid()
      ensures store == old(store).(entries := Kept(old(store).entries, old(store), len))
    {
      while order != [] && (|order| >= maxEntries || match CheckedAdd(usizeMax, totalBytes, len)
                                                        case None => true
                                                        case Some(total) => total > maxBytes)
        invariant Valid() && store == old(store).(entries := store.entries)
        invariant Kept(store.entries, old(store), len) == Kept(old(store).entries, old(store), len)
        decreases |order|
      {
        PopOldest();
      }
    }

    method PopOldest()
      requires Valid() && order != []
      modifies this
      ensures Valid() && store == old(store).(entries := old(store).entries[1..]) && order == old(order)[1..]
    {
      RepresentsPopped(order, streams, totalBytes, store);
      var oldest := order[0];
      var body := streams[oldest].0;
      order := order[1..];
      streams := streams - {oldest};
      totalBytes := SaturatingSub(totalBytes, |body|);
      store := store.(entries := store.entries[1..]);
    }

    /** The rest of `insert`, once there is room. */
    method Append(bytes: seq<Byte>) returns (r: Result<string, InsertError>)
      requires Valid() && HasRoom(store.entries, store, |bytes|)
      modifies this
      ensures Valid()
      ensures old(store).counter == U64_MAX ==> r == Err(HandlesExhausted) && store == old(store)
      ensures old(store).counter < U64_MAX ==>
        && r == Ok(Handle(old(store).counter))
        && store == old(store).(entries := old(store).entries + [Entry(Handle(old(store).counter), bytes, 0)],
                                counter := old(store).counter + 1)
    {
      var handle := Handle(counter);
      var next := CheckedAdd(U64_MAX, counter, 1);
      if next.None? {
        return Err(HandlesExhausted);
      }
      RepresentsAppended(order, streams, totalBytes, store, bytes);
      counter := next.value;
      var total := CheckedAdd(usizeMax, totalBytes, |bytes|);
      if total.None? {
        return Err(ByteAccountingOverflow);
      }
      totalBytes := total.value;
      streams := streams[handle := (bytes, 0)];
      order := order + [handle];
      store := store.(entries := store.entries + [Entry(handle, bytes, 0)], counter := counter);
      r := Ok(handle);
    }

    method ByteLen(handle: string) returns (length: Option<nat>)
      requires Valid()
      ensures length == match Lookup(store.entries, handle)
        case None => None
        case Some(e) => Some(|e.bytes|)
    {
      MatchesLookup(order, streams, store.entries, handle);
      length := if handle in streams then Some(|streams[handle].0|) else None;
    }

    method Read(handle: string, offset: Option<nat>, size: nat) returns (r: Option<(seq<Byte>, bool)>)
      requires Valid()
      modifies this
      ensures Valid()
      ensures match Lookup(old(store).entries, handle)
        case None => r == None && store == old(store)
        case Some(e) =>
          && r == Some((Encode(e.bytes[ReadStart(e, offset)..ReadEnd(e, offset, size)]),
            ReadEnd(e, offset, size) == |e.bytes|))
          && store == old(store).(entries := SetCursor(old(store).entries, handle, ReadEnd(e, offset, size)))
    {
      MatchesLookup(order, streams, store.entries, handle);
      if handle !in streams {
        return None;
      }
      var (bytes, cursor) := streams[handle];
      var (start, end) := Span(|bytes|, cursor, offset, size);
      MoveCursor(handle, end);
      r := Some((Encode(bytes[start..end]), end >= |bytes|));
    }

    method MoveCursor(handle: string, cursor: nat)
      requires Valid() && handle in streams && cursor <= |streams[handle].0|
      modifies this
      ensures Valid() && store == old(store).(entries := SetCursor(old(store).entries, handle, cursor))
    {
      RepresentsCursor(order, streams, totalBytes, store, handle, cursor);
      streams := streams[handle := (streams[handle].0, cursor)];
      store := store.(entries := SetCursor(store.entries, handle, cursor));
    }

    method Remove(handle: string)
      requires Valid()
      modifies this
      ensures Valid() && store == old(store).(entries := Without(old(store).entries, handle))
    {
      RepresentsRemoved(order, streams, totalBytes, store, handle);
      if handle in streams {
        totalBytes := SaturatingSub(totalBytes, |streams[handle].0|);
        streams := streams - {handle};
        order := Retained(order, handle);
      }
      store := store.(entries := Without(store.entries, handle));
    }
  }
}
