/** The shared V8 watchdog: connection threads arm and disarm slots under one mutex while
    a worker fires overrun slots and sleeps until the nearest deadline. */
module Watchdog {
  import opened Wrappers

  datatype Slot = Slot(deadline: nat, handle: nat)

  type Slots = map<nat, Slot>

  function Expired(slots: Slots, now: nat): set<nat>
  {
    set g | g in slots && slots[g].deadline <= now
  }

  function Remaining(slots: Slots, now: nat): Slots
  {
    map g | g in slots && slots[g].deadline > now :: slots[g]
  }

  /** `d` is the nearest deadline of a nonempty table. */
  ghost predicate IsNearest(slots: Slots, d: nat)
  {
    && (exists g :: g in slots && slots[g].deadline == d)
    && forall g :: g in slots ==> d <= slots[g].deadline
  }

  /** How long the worker sleeps after a scan at `now`: to the nearest deadline, or without limit. */
  ghost predicate IsSleep(slots: Slots, now: nat, sleep: Option<nat>)
  {
    match sleep
    case None => slots == map[]
    case Some(d) => slots != map[] && IsNearest(slots, now + d)
  }

  /** Each of `gens` has had its own isolate terminated once since `before`, and nothing else. */
  ghost predicate TerminatedEach(before: seq<(nat, nat)>, after: seq<(nat, nat)>, slots: Slots, gens: set<nat>)
  {
    && before <= after && |after| == |before| + |gens|
    && (forall i :: |before| <= i < |after| ==>
          after[i].0 in gens && after[i].0 in slots && after[i].1 == slots[after[i].0].handle)
    && (forall i, j :: |before| <= i < j < |after| ==> after[i].0 != after[j].0)
  }

  lemma TerminateOneMore(before: seq<(nat, nat)>, after: seq<(nat, nat)>, slots: Slots, gens: set<nat>, g: nat)
    requires TerminatedEach(before, after, slots, gens) && g in slots && g !in gens
    ensures TerminatedEach(before, after + [(g, slots[g].handle)], slots, gens + {g})
  {
    var longer := after + [(g, slots[g].handle)];
    assert forall i :: 0 <= i < |after| ==> longer[i] == after[i];
  }

  /** The three tables once the slots `gens` have fired. */
  datatype Tables = Tables(slots: Slots, fired: set<nat>, terminated: seq<(nat, nat)>)

  ghost predicate FiredEach(before: Tables, after: Tables, gens: set<nat>)
  {
    && after.slots == before.slots - gens && after.fired == before.fired + gens
    && TerminatedEach(before.terminated, after.terminated, before.slots, gens)
  }

  lemma NoneFired(tables: Tables)
    ensures FiredEach(tables, tables, {})
  {
    assert tables.slots - {} == tables.slots;
  }

  lemma FireOneMore(before: Tables, after: Tables, gens: set<nat>, g: nat)
    requires FiredEach(before, after, gens) && g in after.slots
    ensures FiredEach(before, Tables(after.slots - {g}, after.fired + {g},
                                     after.terminated + [(g, after.slots[g].handle)]), gens + {g})
  {
    TerminateOneMore(before.terminated, after.terminated, before.slots, gens, g);
    assert before.slots - gens - {g} == before.slots - (gens + {g});
    assert before.fired + gens + {g} == before.fired + (gens + {g});
  }

  lemma OneLess(all: set<nat>, left: set<nat>, g: nat)
    requires g in left && left <= all
    ensures all - (left - {g}) == all - left + {g}
  {
  }

  lemma FiredAll(before: Tables, after: Tables, now: nat)
    requires FiredEach(before, after, Expired(before.slots, now))
    requires forall g :: g in before.slots ==> g !in before.fired
    ensures after.slots == Remaining(before.slots, now)
    ensures forall g :: g in after.slots ==> g in before.slots && g !in after.fired
  {
  }

  // ---------- the mutex-guarded critical sections ----------

  class Shared {
    var slots: Slots
    var generation: nat
    // Generations whose `fired` flag is set, and the isolates terminated so far with
    // the generation of the slot.
    var fired: set<nat>
    var terminated: seq<(nat, nat)>

    ghost predicate Valid()
      reads this
    {
      && (forall g :: g in slots ==> g <= generation && g !in fired)
      && (forall g :: g in fired ==> g <= generation)
    }

    constructor ()
      ensures Valid() && slots == map[] && generation == 0 && fired == {} && terminated == []
    {
      slots, generation, fired, terminated := map[], 0, {}, [];
    }

    /** One pass of the worker from its clock reading to its wait. */
    method Scan(now: nat) returns (sleep: Option<nat>)
      requires Valid()
      modifies this
      ensures Valid() && generation == old(generation)
      ensures slots == Remaining(old(slots), now)
      ensures fired == old(fired) + Expired(old(slots), now)
      ensures TerminatedEach(old(terminated), terminated, old(slots), Expired(old(slots), now))
      ensures IsSleep(slots, now, sleep)
    {
      FireExpired(now);
      sleep := NearestDuration(now);
    }

    method FireExpired(now: nat)
      requires Valid()
      modifies this
      ensures Valid() && generation == old(generation)
      ensures slots == Remaining(old(slots), now)
      ensures fired == old(fired) + Expired(old(slots), now)
      ensures TerminatedEach(old(terminated), terminated, old(slots), Expired(old(slots), now))
    {
      ghost var before := Tables(slots, fired, terminated);
      FireEach(Expired(slots, now), before);
      FiredAll(before, Tables(slots, fired, terminated), now);
    }

    /** The loop over the expired generations. */
    method FireEach(gens: set<nat>, ghost before: Tables)
      requires before == Tables(slots, fired, terminated) && gens <= slots.Keys
      modifies this
      ensures FiredEach(before, Tables(slots, fired, terminated), gens)
      ensures generation == old(generation)
    {
      NoneFired(before);
      var rest := gens;
      assert gens - rest == {};
      while rest != {}
        invariant FiredEach(before, Tables(slots, fired, terminated), gens - rest)
        invariant rest <= gens && rest <= slots.Keys
        invariant generation == old(generation)
        decreases rest
      {
        var g :| g in rest;
        FireOne(g, before, gens - rest);
        OneLess(gens, rest, g);
        rest := rest - {g};
      }
      assert gens - rest == gens;
    }

    method FireOne(g: nat, ghost before: Tables, ghost done: set<nat>)
      requires g in slots && FiredEach(before, Tables(slots, fired, terminated), done)
      modifies this
      ensures FiredEach(before, Tables(slots, fired, terminated), done + {g})
      ensures slots == old(slots) - {g} && generation == old(generation)
    {
      FireOneMore(before, Tables(slots, fired, terminated), done, g);
      fired, terminated := fired + {g}, terminated + [(g, slots[g].handle)];
      slots := slots - {g};
    }

    method NearestDuration(now: nat) returns (sleep: Option<nat>)
      requires forall g :: g in slots ==> slots[g].deadline > now
      ensures IsSleep(slots, now, sleep)
    {
      sleep := None;
      var rest := slots.Keys;
      while rest != {}
        invariant rest <= slots.Keys
        invariant sleep.None? ==> rest == slots.Keys
        invariant sleep.Some? ==> exists g :: g in slots && slots[g].deadline == now + sleep.value
        invariant sleep.Some? ==> forall g :: g in slots && g !in rest ==> now + sleep.value <= slots[g].deadline
        decreases rest
      {
        var g :| g in rest;
        var duration := slots[g].deadline - now;
        if sleep.None? || duration < sleep.value {
          sleep := Some(duration);
        }
        rest := rest - {g};
      }
    }

    method Arm(handle: nat, budget: nat, now: nat) returns (armed: nat)
      requires Valid()
      modifies this
      ensures Valid() && armed == generation == old(generation) + 1
      ensures armed !in old(slots) && armed !in old(fired)
      ensures slots == old(slots)[armed := Slot(now + budget, handle)]
      ensures fired == old(fired) && terminated == old(terminated)
    {
      generation := generation + 1;
      armed := generation;
      slots := slots[armed := Slot(now + budget, handle)];
    }

    method Disarm(armed: nat) returns (hadFired: bool)
      requires Valid()
      modifies `slots
      ensures Valid() && slots == old(slots) - {armed}
      ensures hadFired <==> armed in fired
    {
      slots := slots - {armed};
      hadFired := armed in fired;
    }
  }

  // ---------- all interleavings ----------

  datatype Event =
    | Armed(gen: nat, handle: nat, deadline: nat)
    | Fired(gen: nat, handle: nat, time: nat)
    | Disarmed(gen: nat, result: bool)

  /** Ready wants the lock; Firing holds it, with the clock reading of the scan and the
      expired slots still to fire; Waiting has released it until notified or `wake`. */
  datatype Worker =
    | Ready
    | Firing(scan: nat, expired: set<nat>)
    | Waiting(scan: nat, start: nat, wake: Option<nat>)

  /** `tokens` are the `Armed` handles not yet passed to `disarm`, which consumes them. */
  datatype State = State(now: nat, slots: Slots, generation: nat, fired: set<nat>, tokens: set<nat>,
                         worker: Worker, log: seq<Event>)

  ghost predicate Init(s: State)
  {
    && s.slots == map[] && s.generation == 0 && s.fired == {} && s.tokens == {}
    && s.worker == Ready && s.log == []
  }

  predicate LockFree(s: State)
  {
    !s.worker.Firing?
  }

  /** `notify_one` reaches the worker only while it waits. */
  function Notified(worker: Worker): Worker
  {
    if worker.Waiting? then Ready else worker
  }

  ghost predicate Tick(s: State, t: State)
  {
    t == s.(now := t.now) && s.now <= t.now
  }

  ghost predicate ArmStep(s: State, t: State, handle: nat, budget: nat)
  {
    && LockFree(s)
    && var g, deadline := s.generation + 1, s.now + budget;
       t == s.(slots := s.slots[g := Slot(deadline, handle)], generation := g, tokens := s.tokens + {g},
               worker := Notified(s.worker), log := s.log + [Armed(g, handle, deadline)])
  }

  ghost predicate DisarmStep(s: State, t: State, g: nat)
  {
    && LockFree(s) && g in s.tokens
    && t == s.(slots := s.slots - {g}, tokens := s.tokens - {g},
               worker := Notified(s.worker), log := s.log + [Disarmed(g, g in s.fired)])
  }

  ghost predicate LockStep(s: State, t: State)
  {
    s.worker.Ready? && t == s.(worker := Firing(s.now, Expired(s.slots, s.now)))
  }

  ghost predicate FireStep(s: State, t: State, g: nat)
  {
    && s.worker.Firing? && g in s.worker.expired && g in s.slots
    && t == s.(slots := s.slots - {g}, fired := s.fired + {g},
               worker := s.worker.(expired := s.worker.expired - {g}),
               log := s.log + [Fired(g, s.slots[g].handle, s.now)])
  }

  ghost predicate SleepStep(s: State, t: State)
  {
    && s.worker.Firing? && s.worker.expired == {} && t.worker.Waiting?
    && t == s.(worker := Waiting(s.worker.scan, s.now, t.worker.wake))
    && (match t.worker.wake
        case None => IsSleep(s.slots, s.worker.scan, None)
        case Some(w) => w >= s.now && IsSleep(s.slots, s.worker.scan, Some(w - s.now)))
  }

  /** A timeout, or a spurious wake-up, which a condition variable may give at any time. */
  ghost predicate WakeStep(s: State, t: State)
  {
    s.worker.Waiting? && t == s.(worker := Ready)
  }

  ghost predicate WorkerStep(s: State, t: State)
  {
    LockStep(s, t) || SleepStep(s, t) || WakeStep(s, t) || exists g :: FireStep(s, t, g)
  }

  ghost predicate Next(s: State, t: State)
  {
    || Tick(s, t)
    || WorkerStep(s, t)
    || (exists handle, budget :: ArmStep(s, t, handle, budget))
    || (exists g :: DisarmStep(s, t, g))
  }

  ghost predicate IsRun(run: seq<State>)
  {
    && |run| > 0 && Init(run[0])
    && forall i :: 0 <= i < |run| - 1 ==> Next(run[i], run[i + 1])
  }

  // ---------- the invariant ----------

  ghost predicate ArmedAt(log: seq<Event>, i: int, g: nat)
  {
    0 <= i < |log| && log[i].Armed? && log[i].gen == g
  }

  ghost predicate FiredAt(log: seq<Event>, i: int, g: nat)
  {
    0 <= i < |log| && log[i].Fired? && log[i].gen == g
  }

  ghost predicate DisarmedAt(log: seq<Event>, i: int, g: nat)
  {
    0 <= i < |log| && log[i].Disarmed? && log[i].gen == g
  }

  /** The history and the tables agree. */
  ghost predicate TablesMatchLog(s: State)
  {
    && (forall i, g: nat :: ArmedAt(s.log, i, g) ==> 1 <= g <= s.generation)
    && (forall g :: g in s.fired <==> exists i :: FiredAt(s.log, i, g))
    && (forall g :: g in s.tokens ==> g <= s.generation)
    && (forall i, g: nat :: DisarmedAt(s.log, i, g) ==> g <= s.generation && g !in s.tokens)
    && (forall g :: g in s.slots <==> g in s.tokens && g !in s.fired)
    && (forall g :: g in s.slots ==>
          exists i :: ArmedAt(s.log, i, g) && s.log[i] == Armed(g, s.slots[g].handle, s.slots[g].deadline))
    && (forall g :: g in s.fired ==> g <= s.generation)
  }

  ghost predicate OneArming(log: seq<Event>)
  {
    forall i, j, g: nat :: ArmedAt(log, i, g) && ArmedAt(log, j, g) ==> i == j
  }

  ghost predicate OneFiring(log: seq<Event>)
  {
    forall i, j, g: nat :: FiredAt(log, i, g) && FiredAt(log, j, g) ==> i == j
  }

  /** A firing comes after the arming of that very slot and not before its deadline. */
  ghost predicate FiringsDue(log: seq<Event>)
  {
    forall i, g: nat :: FiredAt(log, i, g) ==>
      exists j :: j < i && ArmedAt(log, j, g) && log[j].handle == log[i].handle && log[j].deadline <= log[i].time
  }

  /** A disarm reports exactly the firings before it, and none of that slot follows. */
  ghost predicate DisarmsFinal(log: seq<Event>)
  {
    forall i, g: nat :: DisarmedAt(log, i, g) ==>
      && (log[i].result <==> exists j :: j < i && FiredAt(log, j, g))
      && forall j :: FiredAt(log, j, g) ==> j < i
  }

  ghost predicate WorkerSound(s: State)
  {
    match s.worker
    case Ready => true
    case Firing(scan, expired) =>
      scan <= s.now && expired <= s.slots.Keys
      && (forall g :: g in s.slots ==> (g in expired <==> s.slots[g].deadline <= scan))
    case Waiting(scan, start, wake) =>
      && scan <= start <= s.now
      && (forall g :: g in s.slots ==> scan < s.slots[g].deadline)
      && (wake.None? ==> s.slots == map[])
      && (wake.Some? ==> wake.value >= start && IsNearest(s.slots, wake.value - (start - scan)))
  }

  ghost predicate Inv(s: State)
  {
    && TablesMatchLog(s) && WorkerSound(s)
    && OneArming(s.log) && OneFiring(s.log) && FiringsDue(s.log) && DisarmsFinal(s.log)
  }

  ghost predicate Extends(s: State, t: State, e: Event)
  {
    && |t.log| == |s.log| + 1 && t.log[|s.log|] == e
    && forall i :: 0 <= i < |s.log| ==> t.log[i] == s.log[i]
  }

  lemma ArmKeepsInv(s: State, t: State, handle: nat, budget: nat)
    requires Inv(s) && ArmStep(s, t, handle, budget)
    ensures Inv(t) && t.generation !in s.slots
  {
    var n := |s.log|;
    var g := t.generation;
    assert Extends(s, t, Armed(g, handle, s.now + budget));
    assert forall i, x: nat :: ArmedAt(s.log, i, x) ==> ArmedAt(t.log, i, x);
    assert forall i, x: nat :: FiredAt(s.log, i, x) <==> FiredAt(t.log, i, x);
    assert forall i, x: nat :: DisarmedAt(s.log, i, x) <==> DisarmedAt(t.log, i, x);
    assert ArmedAt(t.log, n, g);
    assert forall i, x: nat :: ArmedAt(t.log, i, x) ==> ArmedAt(s.log, i, x) || (i == n && x == g);
  }

  lemma DisarmKeepsInv(s: State, t: State, g: nat)
    requires Inv(s) && DisarmStep(s, t, g)
    ensures Inv(t)
  {
    var n := |s.log|;
    assert Extends(s, t, Disarmed(g, g in s.fired));
    assert forall i, x: nat :: ArmedAt(s.log, i, x) <==> ArmedAt(t.log, i, x);
    assert forall i, x: nat :: FiredAt(s.log, i, x) <==> FiredAt(t.log, i, x);
    assert forall i, x: nat :: DisarmedAt(t.log, i, x) ==> DisarmedAt(s.log, i, x) || (i == n && x == g);
  }

  lemma FireKeepsInv(s: State, t: State, g: nat)
    requires Inv(s) && FireStep(s, t, g)
    ensures Inv(t)
  {
    var n := |s.log|;
    assert Extends(s, t, Fired(g, s.slots[g].handle, s.now));
    assert forall i, x: nat :: ArmedAt(s.log, i, x) <==> ArmedAt(t.log, i, x);
    assert forall i, x: nat :: FiredAt(s.log, i, x) ==> FiredAt(t.log, i, x);
    assert forall i, x: nat :: DisarmedAt(s.log, i, x) <==> DisarmedAt(t.log, i, x);
    assert FiredAt(t.log, n, g);
    assert forall i, x: nat :: FiredAt(t.log, i, x) ==> FiredAt(s.log, i, x) || (i == n && x == g);
  }

  lemma NextKeepsInv(s: State, t: State)
    requires Inv(s) && Next(s, t)
    ensures Inv(t)
  {
    if handle: nat, budget: nat :| ArmStep(s, t, handle, budget) {
      ArmKeepsInv(s, t, handle, budget);
    } else if g: nat :| DisarmStep(s, t, g) {
      DisarmKeepsInv(s, t, g);
    } else if g: nat :| FireStep(s, t, g) {
      FireKeepsInv(s, t, g);
    }
  }

  lemma {:induction false} RunKeepsInv(run: seq<State>, i: nat)
    requires IsRun(run) && i < |run|
    ensures Inv(run[i])
  {
    if i > 0 {
      RunKeepsInv(run, i - 1);
      NextKeepsInv(run[i - 1], run[i]);
    }
  }

  // ---------- what every run guarantees ----------

  /** A slot fires at most once, not before its deadline and not after its disarm. */
  lemma FiresOnceOnTime(run: seq<State>, k: nat, i: nat, g: nat)
    requires IsRun(run) && k < |run| && FiredAt(run[k].log, i, g)
    ensures exists j :: j < i && ArmedAt(run[k].log, j, g) && run[k].log[j].deadline <= run[k].log[i].time
    ensures forall j :: FiredAt(run[k].log, j, g) ==> j == i
    ensures forall j :: DisarmedAt(run[k].log, j, g) ==> i < j && run[k].log[j].result
  {
    RunKeepsInv(run, k);
  }

  /** `disarm` returns true exactly when that slot was terminated, and settles it for good. */
  lemma DisarmTellsTheTruth(run: seq<State>, k: nat, i: nat, g: nat)
    requires IsRun(run) && k < |run| && DisarmedAt(run[k].log, i, g)
    ensures run[k].log[i].result <==> exists j :: FiredAt(run[k].log, j, g)
    ensures g !in run[k].slots
  {
    RunKeepsInv(run, k);
  }

  /** Arming takes a generation no other thread ever had and leaves every other slot alone. */
  lemma ArmsNeverCollide(run: seq<State>, k: nat, t: State, handle: nat, budget: nat)
    requires IsRun(run) && k < |run| && ArmStep(run[k], t, handle, budget)
    ensures forall j: nat :: !ArmedAt(run[k].log, j, t.generation)
    ensures t.generation in t.slots && t.slots[t.generation] == Slot(run[k].now + budget, handle)
    ensures forall g :: g in run[k].slots ==> g in t.slots && t.slots[g] == run[k].slots[g]
  {
    RunKeepsInv(run, k);
  }

  /** No deadline is lost: while a slot is armed, either the worker is about to scan again, or
      it sleeps with a timeout later than the deadline by no more than the time it took
      from reading the clock to starting to wait. */
  lemma NoDeadlineLost(run: seq<State>, k: nat, g: nat)
    requires IsRun(run) && k < |run| && g in run[k].slots
    ensures var worker := run[k].worker;
      worker.Waiting? ==>
        worker.wake.Some? && worker.wake.value <= run[k].slots[g].deadline + (worker.start - worker.scan)
  {
    RunKeepsInv(run, k);
  }

  /** The timeout is not idle: some armed slot is due at it, up to the same slack. */
  lemma SleepsOnlyAsNeeded(run: seq<State>, k: nat)
    requires IsRun(run) && k < |run| && run[k].worker.Waiting? && run[k].worker.wake.Some?
    ensures var s := run[k];
      exists g :: g in s.slots && s.worker.wake.value == s.slots[g].deadline + (s.worker.start - s.worker.scan)
  {
    RunKeepsInv(run, k);
  }

  predicate Due(worker: Worker, now: nat)
  {
    worker.Waiting? && worker.wake.Some? && worker.wake.value <= now
  }

  /** A step of the worker that needs no notification and no luck: it wakes at its timeout only. */
  ghost predicate OwnStep(s: State, t: State)
  {
    LockStep(s, t) || SleepStep(s, t) || (Due(s.worker, s.now) && WakeStep(s, t)) || exists g :: FireStep(s, t, g)
  }

  ghost predicate IsWorkerPath(path: seq<State>, s: State)
  {
    && |path| > 0 && path[0] == s
    && forall i :: 0 <= i < |path| - 1 ==> OwnStep(path[i], path[i + 1])
  }

  lemma ExtendPath(path: seq<State>, s: State, t: State)
    requires IsWorkerPath(path, s) && OwnStep(path[|path| - 1], t)
    ensures IsWorkerPath(path + [t], s)
  {
  }

  lemma JoinPaths(p: seq<State>, q: seq<State>, s: State, t: State)
    requires IsWorkerPath(p, s) && IsWorkerPath(q, t) && OwnStep(p[|p| - 1], t)
    ensures IsWorkerPath(p + q, s)
  {
  }

  lemma {:induction false} FireAll(s: State) returns (path: seq<State>)
    requires s.worker.Firing? && s.worker.expired <= s.slots.Keys
    ensures IsWorkerPath(path, s)
    ensures var t := path[|path| - 1];
      && t.worker == Firing(s.worker.scan, {}) && t.now == s.now
      && t.slots == s.slots - s.worker.expired && t.fired == s.fired + s.worker.expired
    decreases s.worker.expired
  {
    path := [s];
    if s.worker.expired != {} {
      var g :| g in s.worker.expired;
      var t := s.(slots := s.slots - {g}, fired := s.fired + {g},
                  worker := s.worker.(expired := s.worker.expired - {g}),
                  log := s.log + [Fired(g, s.slots[g].handle, s.now)]);
      assert FireStep(s, t, g);
      var rest := FireAll(t);
      JoinPaths(path, rest, s, t);
      path := path + rest;
      assert s.slots - {g} - (s.worker.expired - {g}) == s.slots - s.worker.expired;
      assert s.fired + {g} + (s.worker.expired - {g}) == s.fired + s.worker.expired;
    } else {
      assert s.slots - {} == s.slots;
    }
  }

  lemma {:induction false} NearestExists(slots: Slots) returns (d: nat)
    requires slots != map[]
    ensures IsNearest(slots, d)
    decreases |slots|
  {
    var g :| g in slots;
    var rest := slots - {g};
    if rest == map[] {
      d := slots[g].deadline;
      assert forall h :: h in slots ==> h == g by {
        forall h | h in slots ensures h == g { assert h != g ==> h in rest; }
      }
    } else {
      var e := NearestExists(rest);
      assert forall h :: h in slots ==> h == g || h in rest;
      d := if e < slots[g].deadline then e else slots[g].deadline;
    }
  }

  /** When nothing is left to fire the worker can go to sleep until the nearest deadline. */
  lemma FallsAsleep(s: State) returns (t: State)
    requires s.worker.Firing? && s.worker.expired == {} && s.worker.scan <= s.now
    requires forall g :: g in s.slots ==> s.worker.scan < s.slots[g].deadline
    ensures SleepStep(s, t)
  {
    var wake: Option<nat> := None;
    if s.slots != map[] {
      var nearest := NearestExists(s.slots);
      wake := Some(s.now + (nearest - s.worker.scan));
    }
    t := s.(worker := Waiting(s.worker.scan, s.now, wake));
  }

  /** A worker in the middle of firing fires what its scan found expired and goes to sleep. */
  lemma WorkerFinishes(s: State) returns (path: seq<State>)
    requires s.worker.Firing? && WorkerSound(s)
    ensures IsWorkerPath(path, s)
    ensures var t := path[|path| - 1];
      && t.worker.Waiting? && t.worker.scan == s.worker.scan && t.worker.start == t.now == s.now
      && WorkerSound(t)
      && t.slots == Remaining(s.slots, s.worker.scan)
      && t.fired == s.fired + Expired(s.slots, s.worker.scan)
  {
    path := FireAll(s);
    var done := path[|path| - 1];
    assert s.worker.expired == Expired(s.slots, s.worker.scan);
    assert done.slots == Remaining(s.slots, s.worker.scan);
    var asleep := FallsAsleep(done);
    ExtendPath(path, s, asleep);
    path := path + [asleep];
  }

  /** The worker alone, awake or with its timeout passed, fires exactly the expired slots with the
      clock standing still, and sleeps on the rest. */
  lemma WorkerCatchesUp(s: State) returns (path: seq<State>)
    requires s.worker.Ready? || Due(s.worker, s.now)
    ensures IsWorkerPath(path, s)
    ensures var t := path[|path| - 1];
      && t.worker.Waiting? && t.now == s.now && FiredUpTo(s, t)
      && t.slots == Remaining(s.slots, s.now)
      && t.fired == s.fired + Expired(s.slots, s.now)
  {
    path := [s];
    var ready := s.(worker := Ready);
    if s.worker.Waiting? {
      assert WakeStep(s, ready);
      ExtendPath(path, s, ready);
      path := path + [ready];
    }
    var locked := ready.(worker := Firing(s.now, Expired(s.slots, s.now)));
    assert LockStep(ready, locked);
    var firings := WorkerFinishes(locked);
    JoinPaths(path, firings, s, locked);
    path := path + firings;
  }

  /** How long after reading the clock the worker began, or begins, to wait. */
  function Delay(s: State): nat
    requires WorkerSound(s)
  {
    match s.worker
    case Ready => 0
    case Firing(scan, _) => s.now - scan
    case Waiting(scan, start, _) => start - scan
  }

  predicate Overdue(s: State, g: nat)
  {
    g in s.slots && s.slots[g].deadline <= s.now
  }

  /** Exactly the slots whose deadline is not after the time of `t` have fired since `s`. */
  ghost predicate FiredUpTo(s: State, t: State)
  {
    && (forall g :: g in t.slots <==> g in s.slots && t.now < s.slots[g].deadline)
    && (forall g :: g in t.slots ==> t.slots[g] == s.slots[g])
    && (forall g :: g in t.fired <==> g in s.fired || (g in s.slots && s.slots[g].deadline <= t.now))
  }

  /** `t` is `s` once exactly the slots due by its time have fired; the clock moves on only if a
      slot is overdue, and no further than that slot's deadline and the worker's delay. */
  ghost predicate AllFired(s: State, t: State)
    requires WorkerSound(s)
  {
    && t.worker.Waiting? && s.now <= t.now
    && FiredUpTo(s, t)
    && (s.now < t.now ==> exists g :: Overdue(s, g) && t.now <= s.slots[g].deadline + Delay(s))
  }

  /** From every reachable state every overdue slot fires, without any notification: the worker's
      own steps, and waiting out its timeout once at most, lead to a state where all have. */
  lemma OverdueFires(run: seq<State>, k: nat) returns (path: seq<State>, rest: seq<State>)
    requires IsRun(run) && k < |run|
    ensures IsWorkerPath(path, run[k])
    ensures rest != [] ==> Tick(path[|path| - 1], rest[0]) && IsWorkerPath(rest, rest[0])
    ensures WorkerSound(run[k]) && AllFired(run[k], if rest == [] then path[|path| - 1] else rest[|rest| - 1])
  {
    var s := run[k];
    RunKeepsInv(run, k);
    rest := [];
    if s.worker.Ready? || Due(s.worker, s.now) {
      path := WorkerCatchesUp(s);
    } else {
      if s.worker.Firing? {
        path := WorkerFinishes(s);
      } else {
        path := [s];
        assert Remaining(s.slots, s.worker.scan) == s.slots && Expired(s.slots, s.worker.scan) == {};
      }
      rest := WaitsOut(s, path[|path| - 1]);
    }
  }

  lemma FiredAtOnce(s: State, t: State)
    requires t.slots == Remaining(s.slots, t.now) && t.fired == s.fired + Expired(s.slots, t.now)
    ensures FiredUpTo(s, t)
  {
  }

  /** Two scans, one after the other, fire what one at the second time would. */
  lemma FiredAfter(s: State, asleep: State, t: State)
    requires asleep.worker.Waiting? && asleep.worker.scan <= t.now
    requires asleep.slots == Remaining(s.slots, asleep.worker.scan)
    requires asleep.fired == s.fired + Expired(s.slots, asleep.worker.scan)
    requires FiredUpTo(asleep, t)
    ensures FiredUpTo(s, t)
  {
  }

  /** Asleep since the scan that `s` is in, the worker fires the overdue slots of `s` at its timeout. */
  lemma WaitsOut(s: State, asleep: State) returns (rest: seq<State>)
    requires WorkerSound(s) && WorkerSound(asleep) && asleep.now == s.now
    requires asleep.worker.Waiting? && asleep.worker.start - asleep.worker.scan == Delay(s)
    requires asleep.slots == Remaining(s.slots, asleep.worker.scan)
    requires asleep.fired == s.fired + Expired(s.slots, asleep.worker.scan)
    ensures rest != [] ==> Tick(asleep, rest[0]) && IsWorkerPath(rest, rest[0])
    ensures AllFired(s, if rest == [] then asleep else rest[|rest| - 1])
  {
    rest := [];
    var scan := asleep.worker.scan;
    if g :| Overdue(asleep, g) {
      var wake := asleep.worker.wake.value;
      assert wake <= s.slots[g].deadline + Delay(s);
      var later := asleep.(now := if wake < s.now then s.now else wake);
      rest := WorkerCatchesUp(later);
      FiredAfter(s, asleep, rest[|rest| - 1]);
    } else {
      assert forall g :: g in asleep.slots ==> !Overdue(asleep, g);
      NothingSince(s, asleep.slots, scan);
      FiredAtOnce(s, asleep);
    }
  }

  /** Between two readings of the clock that no remaining deadline lies in, nothing expires. */
  lemma NothingSince(s: State, left: Slots, scan: nat)
    requires left == Remaining(s.slots, scan) && scan <= s.now
    requires forall g :: g in left ==> s.now < left[g].deadline
    ensures left == Remaining(s.slots, s.now) && Expired(s.slots, scan) == Expired(s.slots, s.now)
  {
    forall g | g in s.slots ensures s.slots[g].deadline <= scan <==> s.slots[g].deadline <= s.now {
      assert s.slots[g].deadline > scan ==> g in left && left[g] == s.slots[g];
    }
  }

  // ---------- the object and the machine ----------

  /** A round of the worker: it takes the lock, fires while the clock may move, and waits. */
  ghost predicate IsRound(path: seq<State>)
  {
    && |path| >= 3 && LockStep(path[0], path[1])
    && (forall i :: 1 <= i < |path| - 2 ==> InsideRound(path, i))
    && SleepStep(path[|path| - 2], path[|path| - 1])
  }

  ghost predicate InsideRound(path: seq<State>, i: nat)
    requires i + 1 < |path|
  {
    RoundStep(path[i], path[i + 1])
  }

  ghost predicate RoundStep(s: State, t: State)
  {
    Tick(s, t) || exists g :: FireStep(s, t, g)
  }

  /** What has been done of the round that began in `s`. */
  ghost predicate InRound(s: State, t: State)
  {
    && t.worker.Firing? && t.worker.scan == s.now && t.worker.expired <= Expired(s.slots, s.now)
    && t.slots == s.slots - (Expired(s.slots, s.now) - t.worker.expired)
    && t.fired == s.fired + (Expired(s.slots, s.now) - t.worker.expired)
  }

  lemma {:induction false} RoundProgress(path: seq<State>, i: nat)
    requires IsRound(path) && 1 <= i <= |path| - 2
    ensures InRound(path[0], path[i])
  {
    if i > 1 {
      RoundProgress(path, i - 1);
      assert InsideRound(path, i - 1);
      RoundStepProgress(path[0], path[i - 1], path[i]);
    }
  }

  lemma RoundStepProgress(start: State, s: State, t: State)
    requires InRound(start, s) && RoundStep(s, t)
    ensures InRound(start, t)
  {
    if g :| FireStep(s, t, g) {
      var expired := Expired(start.slots, start.now);
      assert expired - t.worker.expired == expired - s.worker.expired + {g};
    }
  }

  /** Every round of the machine does what `Scan` does to the table, and sleeps as long. */
  lemma RoundIsScan(path: seq<State>)
    requires IsRound(path)
    ensures var s, t := path[0], path[|path| - 1];
      && t.slots == Remaining(s.slots, s.now)
      && t.fired == s.fired + Expired(s.slots, s.now)
      && t.generation == s.generation && t.worker.Waiting? && t.worker.scan == s.now
      && IsSleep(t.slots, s.now, if t.worker.wake.Some? then Some(t.worker.wake.value - t.worker.start) else None)
  {
    RoundProgress(path, |path| - 2);
    RoundKeepsGeneration(path, |path| - 2);
    assert path[|path| - 2].slots == Remaining(path[0].slots, path[0].now);
  }

  lemma {:induction false} RoundKeepsGeneration(path: seq<State>, i: nat)
    requires IsRound(path) && i <= |path| - 2
    ensures path[i].generation == path[0].generation
  {
    if i > 1 {
      RoundKeepsGeneration(path, i - 1);
      assert InsideRound(path, i - 1);
    }
  }
}
