/** The bounded one-shot host-action queue: generation-checked completions, resets and
    cancellations, over whole runs. */
module Actions {
  import opened Wrappers
  import opened Machine
  import opened Text
  import opened Ordering

  const MAX_ACTIONS: nat := 512
  const MAX_ACTION_BYTES: nat := 8 * 1024 * 1024

  // A payload's JSON text; None when it cannot be serialized.
  type Payload = Option<string>

  datatype HostAction = HostAction(id: nat, generation: nat, kind: string, payload: Payload)

  datatype Completion = Completion(id: nat, generation: nat)

  datatype ActionError = QueueFull | PayloadTooLarge | UnknownAction | StaleGeneration | IdExhausted

  datatype Queue = Queue(nextId: nat, generation: nat, pending: map<nat, nat>, ready: seq<HostAction>)

  // ---------- the specification ----------

  predicate TooLarge(kind: string, payload: Payload)
  {
    payload.None? || Utf8Len(kind) + Utf8Len(payload.value) > MAX_ACTION_BYTES
  }

  function EnqueueResult(q: Queue, kind: string, payload: Payload): Result<nat, ActionError>
  {
    if |q.ready| + |q.pending| >= MAX_ACTIONS then Err(QueueFull)
    else if TooLarge(kind, payload) then Err(PayloadTooLarge)
    else if q.nextId >= U32_MAX then Err(IdExhausted)
    else Ok(q.nextId)
  }

  function AfterEnqueue(q: Queue, kind: string, payload: Payload): Queue
  {
    if EnqueueResult(q, kind, payload).Err? then q
    else Queue(q.nextId + 1, q.generation, q.pending[q.nextId := q.generation],
               q.ready + [HostAction(q.nextId, q.generation, kind, payload)])
  }

  function DrainCount(q: Queue, limit: nat): (n: nat)
    ensures n <= |q.ready| && n <= MAX_ACTIONS
  {
    Min(|q.ready|, Min(limit, MAX_ACTIONS))
  }

  predicate Accepts(q: Queue, result: Completion)
  {
    result.id in q.pending && q.pending[result.id] == q.generation == result.generation
  }

  function CompleteResult(q: Queue, result: Completion): Result<(), ActionError>
  {
    if result.id !in q.pending then Err(UnknownAction)
    else if Accepts(q, result) then Ok(())
    else Err(StaleGeneration)
  }

  function WithoutAction(ready: seq<HostAction>, id: nat): seq<HostAction>
  {
    if ready == [] then []
    else if ready[|ready| - 1].id == id then WithoutAction(ready[..|ready| - 1], id)
    else WithoutAction(ready[..|ready| - 1], id) + [ready[|ready| - 1]]
  }

  // ---------- the queue ----------

  class ActionQueue {
    var nextId: nat
    var generation: nat
    var pending: map<nat, nat>
    var ready: seq<HostAction>

    ghost function Contents(): Queue
      reads this
    {
      Queue(nextId, generation, pending, ready)
    }

    constructor (generation: nat)
      ensures Contents() == Queue(1, generation, map[], [])
    {
      this.nextId, this.generation, pending, ready := 1, generation, map[], [];
    }

    method Reset(generation: nat)
      modifies this
      ensures Contents() == Step(old(Contents()), ResetOp(generation))
    {
      this.generation := generation;
      pending, ready := map[], [];
    }

    method Enqueue(kind: string, payload: Payload) returns (r: Result<nat, ActionError>)
      modifies this
      ensures r == EnqueueResult(old(Contents()), kind, payload)
      ensures Contents() == Step(old(Contents()), EnqueueOp(kind, payload))
    {
      if |ready| + |pending| >= MAX_ACTIONS {
        return Err(QueueFull);
      }
      if payload.None? || Utf8Len(kind) + Utf8Len(payload.value) > MAX_ACTION_BYTES {
        return Err(PayloadTooLarge);
      }
      var id := nextId;
      var next := CheckedAdd(U32_MAX, nextId, 1);
      if next.None? {
        return Err(IdExhausted);
      }
      nextId := next.value;
      pending := pending[id := generation];
      ready := ready + [HostAction(id, generation, kind, payload)];
      return Ok(id);
    }

    method Drain(limit: nat) returns (drained: seq<HostAction>)
      modifies `ready
      ensures Contents() == Step(old(Contents()), DrainOp(limit))
      ensures drained + ready == old(ready)
    {
      var n := Min(|ready|, Min(limit, MAX_ACTIONS));
      drained := ready[..n];
      ready := ready[n..];
    }

    method Complete(result: Completion) returns (r: Result<(), ActionError>)
      modifies `pending
      ensures r == CompleteResult(old(Contents()), result)
      ensures Contents() == Step(old(Contents()), CompleteOp(result))
    {
      if result.id !in pending {
        assert pending - {result.id} == pending;
        return Err(UnknownAction);
      }
      var recorded := pending[result.id];
      pending := pending - {result.id};
      if recorded != generation || result.generation != generation {
        return Err(StaleGeneration);
      }
      return Ok(());
    }

    method Cancel(id: nat) returns (r: Result<(), ActionError>)
      modifies `pending, `ready
      ensures r == if id in old(pending) then Ok(()) else Err(UnknownAction)
      ensures Contents() == Step(old(Contents()), CancelOp(id))
    {
      if id !in pending {
        return Err(UnknownAction);
      }
      pending := pending - {id};
      ready := WithoutAction(ready, id);
      return Ok(());
    }
  }

  // ---------- whole runs ----------

  datatype Operation =
    | EnqueueOp(kind: string, payload: Payload)
    | DrainOp(limit: nat)
    | CompleteOp(result: Completion)
    | CancelOp(id: nat)
    | ResetOp(generation: nat)

  function Step(q: Queue, op: Operation): Queue
  {
    match op
    case EnqueueOp(kind, payload) => AfterEnqueue(q, kind, payload)
    case DrainOp(limit) => q.(ready := q.ready[DrainCount(q, limit)..])
    case CompleteOp(result) => q.(pending := q.pending - {result.id})
    case CancelOp(id) =>
      if id in q.pending then q.(pending := q.pending - {id}, ready := WithoutAction(q.ready, id)) else q
    case ResetOp(generation) => Queue(q.nextId, generation, map[], [])
  }

  function Run(q: Queue, ops: seq<Operation>): Queue
    decreases |ops|
  {
    if ops == [] then q else Run(Step(q, ops[0]), ops[1..])
  }

  function Ids(actions: seq<HostAction>): seq<nat>
  {
    seq(|actions|, i requires 0 <= i < |actions| => actions[i].id)
  }

  /** Ids issued, drained and accepted by one operation. */
  function IssuedBy(q: Queue, op: Operation): seq<nat>
  {
    if op.EnqueueOp? && EnqueueResult(q, op.kind, op.payload).Ok? then [q.nextId] else []
  }

  function DrainedBy(q: Queue, op: Operation): seq<nat>
  {
    if op.DrainOp? then Ids(q.ready[..DrainCount(q, op.limit)]) else []
  }

  function AcceptedBy(q: Queue, op: Operation): seq<nat>
  {
    if op.CompleteOp? && CompleteResult(q, op.result).Ok? then [op.result.id] else []
  }

  function AllIssued(q: Queue, ops: seq<Operation>): seq<nat>
    decreases |ops|
  {
    if ops == [] then [] else IssuedBy(q, ops[0]) + AllIssued(Step(q, ops[0]), ops[1..])
  }

  function AllDrained(q: Queue, ops: seq<Operation>): seq<nat>
    decreases |ops|
  {
    if ops == [] then [] else DrainedBy(q, ops[0]) + AllDrained(Step(q, ops[0]), ops[1..])
  }

  function AllAccepted(q: Queue, ops: seq<Operation>): seq<nat>
    decreases |ops|
  {
    if ops == [] then [] else AcceptedBy(q, ops[0]) + AllAccepted(Step(q, ops[0]), ops[1..])
  }

  predicate Increasing(ids: seq<nat>)
  {
    forall i, j :: 0 <= i < j < |ids| ==> ids[i] < ids[j]
  }

  ghost predicate IdsIncrease(actions: seq<HostAction>)
  {
    forall i, j :: 0 <= i < j < |actions| ==> actions[i].id < actions[j].id
  }

  ghost predicate Sound(q: Queue)
  {
    && q.nextId <= U32_MAX
    && (forall id :: id in q.pending ==> id < q.nextId && q.pending[id] == q.generation)
    && (forall i :: 0 <= i < |q.ready| ==> q.ready[i].id < q.nextId && q.ready[i].generation == q.generation)
    && IdsIncrease(q.ready)
    && |q.ready| + |q.pending| <= MAX_ACTIONS + 1
  }

  lemma {:induction false} WithoutActionMembers(ready: seq<HostAction>, id: nat)
    ensures forall a :: a in WithoutAction(ready, id) <==> a in ready && a.id != id
    ensures |WithoutAction(ready, id)| <= |ready|
  {
    if ready != [] {
      var init, last := ready[..|ready| - 1], ready[|ready| - 1];
      WithoutActionMembers(init, id);
      assert forall a :: a in ready <==> a in init || a == last;
    }
  }

  lemma {:induction false} WithoutActionFacts(ready: seq<HostAction>, id: nat)
    ensures var rest := WithoutAction(ready, id);
      && |rest| <= |ready|
      && (forall a :: a in rest <==> a in ready && a.id != id)
      && (IdsIncrease(ready) ==> IdsIncrease(rest))
  {
    WithoutActionMembers(ready, id);
    if ready != [] {
      var init, last := ready[..|ready| - 1], ready[|ready| - 1];
      WithoutActionFacts(init, id);
      var rest := WithoutAction(init, id);
      if IdsIncrease(ready) {
        forall i | 0 <= i < |rest| ensures rest[i].id < last.id {
          assert rest[i] in init;
        }
      }
    }
  }

  /** Every operation keeps the queue sound: all pending and ready entries carry the current
      generation, ready ids increase, and the two never hold more than 513 entries. */
  lemma StepKeepsSound(q: Queue, op: Operation)
    requires Sound(q)
    ensures Sound(Step(q, op)) && q.nextId <= Step(q, op).nextId
  {
    match op {
      case EnqueueOp(kind, payload) => EnqueueKeepsSound(q, kind, payload);
      case DrainOp(_) =>
      case CompleteOp(result) => SmallerMap(q.pending, result.id);
      case CancelOp(id) => CancelKeepsSound(q, id);
      case ResetOp(_) =>
    }
  }

  lemma EnqueueKeepsSound(q: Queue, kind: string, payload: Payload)
    requires Sound(q)
    ensures Sound(AfterEnqueue(q, kind, payload)) && q.nextId <= AfterEnqueue(q, kind, payload).nextId
  {
  }

  lemma CancelKeepsSound(q: Queue, id: nat)
    requires Sound(q)
    ensures Sound(Step(q, CancelOp(id)))
  {
    SmallerMap(q.pending, id);
    WithoutActionFacts(q.ready, id);
    var rest := WithoutAction(q.ready, id);
    assert forall i :: 0 <= i < |rest| ==> rest[i] in q.ready;
  }

  lemma SmallerMap(m: map<nat, nat>, k: nat)
    ensures |m - {k}| <= |m|
  {
    assert (m - {k}).Keys <= m.Keys;
    assert |(m - {k}).Keys| <= |m.Keys| by {
      SmallerSet((m - {k}).Keys, m.Keys);
    }
  }

  lemma {:induction false} RunKeepsSound(q: Queue, ops: seq<Operation>)
    requires Sound(q)
    ensures Sound(Run(q, ops)) && q.nextId <= Run(q, ops).nextId
    decreases |ops|
  {
    if ops != [] {
      StepKeepsSound(q, ops[0]);
      RunKeepsSound(Step(q, ops[0]), ops[1..]);
    }
  }

  // ---------- the limit ----------

  function Held(q: Queue): nat
  {
    |q.ready| + |q.pending|
  }

  /** An operation takes a queue within its limit of 512 beyond it exactly when it is a
      successful enqueue into a queue that holds 511 entries: both tables get one more. */
  lemma LimitExceededExactly(q: Queue, op: Operation)
    requires Sound(q) && Held(q) <= MAX_ACTIONS
    ensures Held(Step(q, op)) > MAX_ACTIONS <==>
      op.EnqueueOp? && EnqueueResult(q, op.kind, op.payload).Ok? && Held(q) == MAX_ACTIONS - 1
  {
    match op
    case CompleteOp(result) => SmallerMap(q.pending, result.id);
    case CancelOp(id) =>
      SmallerMap(q.pending, id);
      WithoutActionFacts(q.ready, id);
    case _ =>
  }

  const SMALL := EnqueueOp("", Some("null"))

  function Enqueues(n: nat): seq<Operation>
  {
    if n == 0 then [] else [SMALL] + Enqueues(n - 1)
  }

  /** Enqueueing into a sound queue with room and ids left adds one entry to each table. */
  lemma SmallEnqueue(q: Queue)
    requires Sound(q) && Held(q) < MAX_ACTIONS && q.nextId < U32_MAX
    ensures var t := Step(q, SMALL);
      Sound(t) && |t.ready| == |q.ready| + 1 && |t.pending| == |q.pending| + 1 && t.nextId == q.nextId + 1
  {
    StepKeepsSound(q, SMALL);
    assert q.nextId !in q.pending;
  }

  lemma {:induction false} EnqueuesFill(q: Queue, n: nat, rest: seq<Operation>) returns (t: Queue)
    requires Sound(q) && Held(q) + 2 * n <= MAX_ACTIONS && q.nextId + n <= U32_MAX
    ensures Sound(t) && Run(q, Enqueues(n) + rest) == Run(t, rest)
    ensures |t.ready| == |q.ready| + n && |t.pending| == |q.pending| + n && t.nextId == q.nextId + n
    decreases n
  {
    if n == 0 {
      assert Enqueues(n) + rest == rest;
      t := q;
    } else {
      SmallEnqueue(q);
      assert Enqueues(n) + rest == [SMALL] + (Enqueues(n - 1) + rest);
      t := EnqueuesFill(Step(q, SMALL), n - 1, rest);
    }
  }

  /** A new queue reaches 513: fill it with 256 actions, drain one, enqueue one more. */
  lemma LimitExceeded(generation: nat)
    ensures Held(Run(Queue(1, generation, map[], []), Enqueues(256) + [DrainOp(1), SMALL])) == MAX_ACTIONS + 1
  {
    var rest := [DrainOp(1), SMALL];
    var full := EnqueuesFill(Queue(1, generation, map[], []), 256, rest);
    var drained := Step(full, DrainOp(1));
    StepKeepsSound(full, DrainOp(1));
    SmallEnqueue(drained);
    assert rest[1..] == [SMALL] && [SMALL][1..] == [];
    assert Run(drained, [SMALL]) == Step(drained, SMALL);
  }

  /** Issued ids are numbered on, across resets too. */
  lemma {:induction false} IssuedIdsIncrease(q: Queue, ops: seq<Operation>)
    requires Sound(q)
    ensures forall i :: 0 <= i < |AllIssued(q, ops)| ==> AllIssued(q, ops)[i] == q.nextId + i
    ensures Increasing(AllIssued(q, ops))
    decreases |ops|
  {
    if ops != [] {
      StepKeepsSound(q, ops[0]);
      IssuedIdsIncrease(Step(q, ops[0]), ops[1..]);
    }
  }

  /** `id` is among the ready actions from position `from` on. */
  ghost predicate ReadyFrom(ready: seq<HostAction>, from: nat, id: nat)
  {
    exists k :: from <= k < |ready| && ready[k].id == id
  }

  lemma ReadyBefore(q: Queue, op: Operation, id: nat)
    requires Sound(q) && ReadyFrom(Step(q, op).ready, 0, id)
    ensures id >= q.nextId || ReadyFrom(q.ready, |DrainedBy(q, op)|, id)
  {
    var t := Step(q, op);
    var k :| 0 <= k < |t.ready| && t.ready[k].id == id;
    match op {
      case EnqueueOp(_, _) =>
        assert k < |q.ready| ==> q.ready[k].id == id;
      case DrainOp(limit) =>
        assert q.ready[k + DrainCount(q, limit)].id == id;
      case CompleteOp(_) =>
        assert q.ready[k].id == id;
      case CancelOp(cancelled) =>
        WithoutActionFacts(q.ready, cancelled);
        assert t.ready[k] in q.ready;
      case ResetOp(_) =>
    }
  }

  lemma PrependDrained(q: Queue, op: Operation, later: seq<nat>)
    requires Sound(q) && Increasing(later)
    requires forall i :: 0 <= i < |later| ==> later[i] >= q.nextId || ReadyFrom(q.ready, |DrainedBy(q, op)|, later[i])
    ensures Increasing(DrainedBy(q, op) + later)
    ensures forall i :: 0 <= i < |DrainedBy(q, op) + later| ==>
      (DrainedBy(q, op) + later)[i] >= q.nextId || ReadyFrom(q.ready, 0, (DrainedBy(q, op) + later)[i])
  {
    var now := DrainedBy(q, op);
    assert forall i :: 0 <= i < |now| ==> now[i] == q.ready[i].id;
  }

  /** Drained ids come out in order and never twice; what a run drains was ready before or is new. */
  lemma {:induction false} DrainedInOrderOnce(q: Queue, ops: seq<Operation>)
    requires Sound(q)
    ensures Increasing(AllDrained(q, ops))
    ensures forall i :: 0 <= i < |AllDrained(q, ops)| ==>
      AllDrained(q, ops)[i] >= q.nextId || ReadyFrom(q.ready, 0, AllDrained(q, ops)[i])
    decreases |ops|
  {
    if ops != [] {
      var t := Step(q, ops[0]);
      var later := AllDrained(t, ops[1..]);
      StepKeepsSound(q, ops[0]);
      DrainedInOrderOnce(t, ops[1..]);
      forall i | 0 <= i < |later|
        ensures later[i] >= q.nextId || ReadyFrom(q.ready, |DrainedBy(q, ops[0])|, later[i])
      {
        if later[i] < t.nextId {
          ReadyBefore(q, ops[0], later[i]);
        }
      }
      PrependDrained(q, ops[0], later);
    }
  }

  ghost predicate NoRepeats(ids: seq<nat>)
  {
    forall i, j :: 0 <= i < j < |ids| ==> ids[i] != ids[j]
  }

  /** A run accepts only what is pending at its start or issued during it, and nothing twice. */
  lemma {:induction false} AcceptedOnce(q: Queue, ops: seq<Operation>)
    requires Sound(q)
    ensures NoRepeats(AllAccepted(q, ops))
    ensures forall i :: 0 <= i < |AllAccepted(q, ops)| ==>
      AllAccepted(q, ops)[i] in q.pending || AllAccepted(q, ops)[i] >= q.nextId
    decreases |ops|
  {
    if ops != [] {
      var t := Step(q, ops[0]);
      StepKeepsSound(q, ops[0]);
      AcceptedOnce(t, ops[1..]);
      var now, later := AcceptedBy(q, ops[0]), AllAccepted(t, ops[1..]);
      forall i | 0 <= i < |later|
        ensures later[i] in q.pending || later[i] >= q.nextId
        ensures now != [] ==> later[i] != now[0]
      {
      }
    }
  }

  /** Nothing issued before a reset is accepted after it. */
  lemma ResetForgets(q: Queue, generation: nat, ops: seq<Operation>)
    requires Sound(q)
    ensures forall i :: 0 <= i < |AllAccepted(Step(q, ResetOp(generation)), ops)| ==>
      AllAccepted(Step(q, ResetOp(generation)), ops)[i] >= q.nextId
  {
    StepKeepsSound(q, ResetOp(generation));
    AcceptedOnce(Step(q, ResetOp(generation)), ops);
  }

  /** A cancelled action is never accepted or drained again. */
  lemma CancelIsFinal(q: Queue, id: nat, ops: seq<Operation>)
    requires Sound(q) && id in q.pending
    ensures id !in AllAccepted(Step(q, CancelOp(id)), ops)
    ensures id !in AllDrained(Step(q, CancelOp(id)), ops)
  {
    var t := Step(q, CancelOp(id));
    StepKeepsSound(q, CancelOp(id));
    AcceptedOnce(t, ops);
    DrainedInOrderOnce(t, ops);
    WithoutActionFacts(q.ready, id);
    assert forall k :: 0 <= k < |t.ready| ==> t.ready[k] in WithoutAction(q.ready, id);
  }

  // ---------- what each operation answers and leaves ----------

  /** An action is refused when 512 are held, when it is over eight MiB or cannot be written down, or
      when ids run out, in that order; else it gets the next id, and goes last. */
  lemma EnqueueAnswers(q: Queue, kind: string, payload: Payload)
    ensures var r, t := EnqueueResult(q, kind, payload), Step(q, EnqueueOp(kind, payload));
      if |q.ready| + |q.pending| >= 512 then r == Err(QueueFull) && t == q
      else if payload.None? || Utf8Len(kind) + Utf8Len(payload.value) > 8 * 1024 * 1024 then
        r == Err(PayloadTooLarge) && t == q
      else if q.nextId >= 0xFFFF_FFFF then r == Err(IdExhausted) && t == q
      else
        && r == Ok(q.nextId) && t.nextId == q.nextId + 1 && t.generation == q.generation
        && t.ready == q.ready + [HostAction(q.nextId, q.generation, kind, payload)]
        && t.pending == q.pending[q.nextId := q.generation]
  {
  }

  /** A completion is accepted exactly when its action is pending and both carry the generation of the
      queue; one of an action that is not pending is unknown, any other stale. The entry is used up
      whatever the answer, and nothing else changes. */
  lemma CompletionAnswers(q: Queue, result: Completion)
    ensures CompleteResult(q, result) ==
      if result.id !in q.pending then Err(UnknownAction)
      else if q.pending[result.id] == q.generation && result.generation == q.generation then Ok(())
      else Err(StaleGeneration)
    ensures var t := Step(q, CompleteOp(result));
      && t == q.(pending := t.pending) && result.id !in t.pending
      && forall id :: id != result.id ==>
           (id in t.pending <==> id in q.pending) && (id in q.pending ==> t.pending[id] == q.pending[id])
  {
  }

  /** On every sound queue it is the completion's own generation that decides. */
  lemma OtherGenerationIsStale(q: Queue, result: Completion)
    requires Sound(q) && result.id in q.pending
    ensures CompleteResult(q, result) == if result.generation == q.generation then Ok(()) else Err(StaleGeneration)
  {
  }

  /** Draining takes the first actions, as many as asked for, at most 512 and all there are. */
  lemma DrainTakes(q: Queue, limit: nat)
    ensures var n := |DrainedBy(q, DrainOp(limit))|;
      && n == (if limit <= 512 && limit <= |q.ready| then limit else if |q.ready| <= 512 then |q.ready| else 512)
      && Step(q, DrainOp(limit)) == q.(ready := q.ready[n..])
      && forall i :: 0 <= i < n ==> DrainedBy(q, DrainOp(limit))[i] == q.ready[i].id
  {
  }

  /** Cancelling a pending action takes it from both tables; another changes nothing. A reset forgets
      everything but the next id. */
  lemma CancelAndResetLeave(q: Queue, id: nat, generation: nat)
    ensures var t := Step(q, CancelOp(id));
      if id in q.pending then
        && t == q.(pending := q.pending - {id}, ready := t.ready)
        && (forall a :: a in t.ready <==> a in q.ready && a.id != id)
      else t == q
    ensures Step(q, ResetOp(generation)) == Queue(q.nextId, generation, map[], [])
  {
    WithoutActionMembers(q.ready, id);
  }

  lemma OneMore(ops: seq<Operation>, op: Operation)
    ensures ops != [] ==> (ops + [op])[0] == ops[0] && (ops + [op])[1..] == ops[1..] + [op]
    ensures ops == [] ==> ops + [op] == [op] && [op][1..] == []
  {
  }

  /** One more operation at the end of a run acts on what the run left. */
  lemma {:induction false} RunGoesOn(q: Queue, ops: seq<Operation>, op: Operation)
    ensures Run(q, ops + [op]) == Step(Run(q, ops), op)
    decreases |ops|
  {
    OneMore(ops, op);
    if ops != [] {
      RunGoesOn(Step(q, ops[0]), ops[1..], op);
    }
  }

  /** It issues an id exactly when it is a successful enqueue, after all that the run issued. */
  lemma {:induction false} IssuesGoOn(q: Queue, ops: seq<Operation>, op: Operation)
    ensures var t := Run(q, ops);
      AllIssued(q, ops + [op]) == AllIssued(q, ops) +
        if op.EnqueueOp? && EnqueueResult(t, op.kind, op.payload).Ok? then [t.nextId] else []
    decreases |ops|
  {
    OneMore(ops, op);
    if ops != [] {
      IssuesGoOn(Step(q, ops[0]), ops[1..], op);
    }
  }

  /** What it drains comes after all that the run drained. */
  lemma {:induction false} DrainsGoOn(q: Queue, ops: seq<Operation>, op: Operation)
    ensures AllDrained(q, ops + [op]) == AllDrained(q, ops) + DrainedBy(Run(q, ops), op)
    decreases |ops|
  {
    OneMore(ops, op);
    if ops != [] {
      DrainsGoOn(Step(q, ops[0]), ops[1..], op);
    }
  }

  /** It accepts a completion exactly when that is what it is and succeeds, after all that the run accepted. */
  lemma {:induction false} AcceptsGoOn(q: Queue, ops: seq<Operation>, op: Operation)
    ensures AllAccepted(q, ops + [op]) == AllAccepted(q, ops) +
      if op.CompleteOp? && CompleteResult(Run(q, ops), op.result).Ok? then [op.result.id] else []
    decreases |ops|
  {
    OneMore(ops, op);
    if ops != [] {
      AcceptsGoOn(Step(q, ops[0]), ops[1..], op);
    }
  }
}
