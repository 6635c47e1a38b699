/** The stream manager as a step machine: the start loop, one goroutine per stream, the
    counting semaphore between them, and Stop.

    A run is a sequence of actions in the order in which they take effect.
 */
module StreamManagers {
  import opened Sets

  /** A stream's goroutine. `Finished` is between the return of startStream and the
      deferred release of the semaphore slot. */
  datatype Phase = Preparing | Running | Finished | Released

  datatype Manager = Manager(
    slots: nat,                 // occupied slots of the semaphore
    holding: bool,              // a slot is taken, its goroutine not yet started
    phases: seq<Phase>,         // the goroutines started so far, in order
    registered: set<nat>,       // the streams whose worker was registered
    workers: map<string, nat>,  // the registry: stream identity to stream
    stopped: set<nat>,          // the workers Stop has cancelled
    contextDone: bool,
    startReturned: bool)

  datatype Setup = Setup(streams: seq<string>, maxConcurrentStarts: nat)

  const IDLE := Manager(0, false, [], {}, map[], {}, false, false)

  datatype Action =
    | Acquire              // the select of the start loop takes a slot
    | Spawn                // the goroutine of the next stream starts
    | StartReturns         // all streams are launched, or the context is done
    | Fails(i: nat)        // startStream fails before a worker exists
    | Register(i: nat)     // startStream registers its worker and runs it
    | RunReturns(i: nat)   // the worker's Run returns, and startStream with it
    | Release(i: nat)      // the deferred receive frees the slot
    | Stop                 // Stop takes the lock and cancels the registered workers
    | ContextEnds

  predicate InPhase(m: Manager, i: nat, p: Phase) {
    i < |m.phases| && m.phases[i] == p
  }

  /** When an action can take effect. A channel without capacity never accepts, since
      nobody receives before a goroutine runs. */
  predicate Enabled(c: Setup, m: Manager, a: Action) {
    match a
    case Acquire =>
      !m.startReturned && !m.holding && |m.phases| < |c.streams| && m.slots < c.maxConcurrentStarts
    case Spawn => m.holding && |m.phases| < |c.streams|
    case StartReturns => !m.startReturned && !m.holding && (|m.phases| == |c.streams| || m.contextDone)
    case Fails(i) => InPhase(m, i, Preparing)
    case Register(i) => InPhase(m, i, Preparing) && i < |c.streams|
    case RunReturns(i) => InPhase(m, i, Running)
    case Release(i) => InPhase(m, i, Finished) && m.slots > 0
    case Stop => true
    case ContextEnds => true
  }

  function Effect(c: Setup, m: Manager, a: Action): Manager
    requires Enabled(c, m, a)
  {
    match a
    case Acquire => m.(slots := m.slots + 1, holding := true)
    case Spawn => m.(holding := false, phases := m.phases + [Preparing])
    case StartReturns => m.(startReturned := true)
    case Fails(i) => m.(phases := m.phases[i := Finished])
    case Register(i) =>
      m.(phases := m.phases[i := Running], registered := m.registered + {i}, workers := m.workers[c.streams[i] := i])
    case RunReturns(i) => m.(phases := m.phases[i := Finished])
    case Release(i) => m.(phases := m.phases[i := Released], slots := m.slots - 1)
    case Stop => m.(stopped := m.stopped + m.workers.Values)
    case ContextEnds => m.(contextDone := true)
  }

  /** The state after a run; an action that cannot take effect changes nothing. */
  function After(c: Setup, run: seq<Action>): Manager {
    if run == [] then IDLE
    else
      var m, a := After(c, run[..|run| - 1]), run[|run| - 1];
      if Enabled(c, m, a) then Effect(c, m, a) else m
  }

  // ---------- the semaphore ----------

  /** The goroutines that still occupy a slot. */
  function Occupying(phases: seq<Phase>): nat {
    if phases == [] then 0
    else Occupying(phases[..|phases| - 1]) + if phases[|phases| - 1] == Released then 0 else 1
  }

  function Workers(phases: seq<Phase>): nat {
    if phases == [] then 0
    else Workers(phases[..|phases| - 1]) + if phases[|phases| - 1] == Running then 1 else 0
  }

  lemma {:induction false} OccupyingUpdate(phases: seq<Phase>, i: nat, p: Phase)
    requires i < |phases|
    ensures Occupying(phases[i := p]) ==
            Occupying(phases) - (if phases[i] == Released then 0 else 1) + (if p == Released then 0 else 1)
  {
    var n := |phases| - 1;
    if i < n {
      OccupyingUpdate(phases[..n], i, p);
      assert phases[i := p][..n] == phases[..n][i := p];
    } else {
      assert phases[i := p][..n] == phases[..n];
    }
  }

  lemma OccupyingSnoc(phases: seq<Phase>, p: Phase)
    ensures Occupying(phases + [p]) == Occupying(phases) + if p == Released then 0 else 1
  {
    assert (phases + [p])[..|phases|] == phases;
  }

  lemma {:induction false} WorkersOccupy(phases: seq<Phase>)
    ensures Workers(phases) <= Occupying(phases) <= |phases|
    ensures Released !in phases ==> Occupying(phases) == |phases|
  {
    if phases != [] {
      WorkersOccupy(phases[..|phases| - 1]);
    }
  }

  /** Slots in use are the goroutines that have not released theirs, plus the one being
      handed over; they never exceed the capacity, and launched streams are a prefix of
      the configured ones. */
  predicate SemaphoreInv(c: Setup, m: Manager) {
    && m.slots == Occupying(m.phases) + (if m.holding then 1 else 0)
    && m.slots <= c.maxConcurrentStarts
    && |m.phases| + (if m.holding then 1 else 0) <= |c.streams|
  }

  lemma SemaphoreStep(c: Setup, m: Manager, a: Action)
    requires SemaphoreInv(c, m) && Enabled(c, m, a)
    ensures SemaphoreInv(c, Effect(c, m, a))
  {
    match a {
      case Spawn => OccupyingSnoc(m.phases, Preparing);
      case Fails(i) => OccupyingUpdate(m.phases, i, Finished);
      case Register(i) => OccupyingUpdate(m.phases, i, Running);
      case RunReturns(i) => OccupyingUpdate(m.phases, i, Finished);
      case Release(i) => OccupyingUpdate(m.phases, i, Released);
      case _ =>
    }
  }

  lemma {:induction false} SemaphoreAlways(c: Setup, run: seq<Action>)
    ensures SemaphoreInv(c, After(c, run))
  {
    if run != [] {
      var m, a := After(c, run[..|run| - 1]), run[|run| - 1];
      SemaphoreAlways(c, run[..|run| - 1]);
      if Enabled(c, m, a) {
        SemaphoreStep(c, m, a);
      }
    }
  }

  /** The limit on concurrent starts in fact bounds the running workers; and as long as
      no worker has ended, it bounds the streams that are launched at all. */
  lemma LimitBoundsRunning(c: Setup, run: seq<Action>)
    ensures var m := After(c, run);
      && Workers(m.phases) <= c.maxConcurrentStarts
      && (Released !in m.phases ==> |m.phases| <= c.maxConcurrentStarts)
  {
    SemaphoreAlways(c, run);
    WorkersOccupy(After(c, run).phases);
  }

  lemma AfterSnoc(c: Setup, run: seq<Action>, a: Action)
    requires Enabled(c, After(c, run), a)
    ensures After(c, run + [a]) == Effect(c, After(c, run), a)
  {
    assert (run + [a])[..|run|] == run;
  }

  /** One more action of a run that has led to m. */
  lemma Go(c: Setup, run: seq<Action>, m: Manager, a: Action) returns (run': seq<Action>, m': Manager)
    requires After(c, run) == m && Enabled(c, m, a)
    ensures After(c, run') == m' == Effect(c, m, a)
  {
    AfterSnoc(c, run, a);
    run', m' := run + [a], Effect(c, m, a);
  }

  ghost predicate AllRunning(m: Manager, n: nat) {
    && !m.holding && !m.startReturned && m.slots == n == |m.phases|
    && forall i :: 0 <= i < n ==> m.phases[i] == Running
  }

  /** The first n streams started one after the other. */
  lemma {:induction false} StartAll(c: Setup, n: nat) returns (run: seq<Action>, m: Manager)
    requires n <= |c.streams| && n <= c.maxConcurrentStarts
    ensures After(c, run) == m && AllRunning(m, n)
  {
    if n == 0 {
      run, m := [], IDLE;
    } else {
      run, m := StartAll(c, n - 1);
      run, m := Go(c, run, m, Acquire);
      run, m := Go(c, run, m, Spawn);
      run, m := Go(c, run, m, Register(n - 1));
    }
  }

  lemma {:induction false} AllAreWorkers(phases: seq<Phase>)
    ensures Workers(phases) == |phases| <==> forall i :: 0 <= i < |phases| ==> phases[i] == Running
    ensures Workers(phases) <= |phases|
  {
    if phases != [] {
      AllAreWorkers(phases[..|phases| - 1]);
    }
  }

  /** All configured streams can run at the same time exactly if the limit on concurrent
      starts is no smaller than their number. */
  lemma AllRunIffLimitSuffices(c: Setup)
    ensures (exists run :: Workers(After(c, run).phases) == |c.streams|) <==> |c.streams| <= c.maxConcurrentStarts
  {
    forall run
      ensures Workers(After(c, run).phases) <= c.maxConcurrentStarts
    {
      LimitBoundsRunning(c, run);
    }
    if |c.streams| <= c.maxConcurrentStarts {
      var run, m := StartAll(c, |c.streams|);
      AllAreWorkers(m.phases);
      assert Workers(After(c, run).phases) == |c.streams|;
    }
  }

  // ---------- slots are used again ----------

  lemma {:induction false} OneOccupies(phases: seq<Phase>, i: nat)
    requires i < |phases| && phases[i] != Released
    ensures Occupying(phases) >= 1
  {
    var n := |phases| - 1;
    if i < n {
      OneOccupies(phases[..n], i);
    }
  }

  /** When a worker ends, its slot lets the next stream start. */
  lemma FreedSlotStartsNext(c: Setup, run: seq<Action>, i: nat) returns (run': seq<Action>)
    requires var m := After(c, run);
      InPhase(m, i, Running) && !m.startReturned && !m.holding && |m.phases| < |c.streams|
    ensures var m, m' := After(c, run), After(c, run');
      m'.phases == m.phases[i := Released] + [Preparing] && m'.slots == m.slots
  {
    var m := After(c, run);
    SemaphoreAlways(c, run);
    OneOccupies(m.phases, i);
    run', m := Go(c, run, m, RunReturns(i));
    run', m := Go(c, run', m, Release(i));
    run', m := Go(c, run', m, Acquire);
    run', m := Go(c, run', m, Spawn);
  }

  ghost predicate RanOneByOne(m: Manager, n: nat) {
    && !m.holding && !m.startReturned && m.slots == 0 && |m.phases| == n
    && forall i: nat :: i < n ==> i in m.registered
  }

  /** The next stream runs from its start to the release of its slot. */
  lemma OneTurn(c: Setup, run: seq<Action>, n: nat) returns (run': seq<Action>, m': Manager)
    requires n < |c.streams| && 1 <= c.maxConcurrentStarts && RanOneByOne(After(c, run), n)
    ensures After(c, run') == m' && RanOneByOne(m', n + 1)
  {
    m' := After(c, run);
    run', m' := Go(c, run, m', Acquire);
    run', m' := Go(c, run', m', Spawn);
    run', m' := Go(c, run', m', Register(n));
    run', m' := Go(c, run', m', RunReturns(n));
    run', m' := Go(c, run', m', Release(n));
  }

  lemma {:induction false} OneByOne(c: Setup, n: nat) returns (run: seq<Action>)
    requires n <= |c.streams| && 1 <= c.maxConcurrentStarts
    ensures RanOneByOne(After(c, run), n)
  {
    run := [];
    if n > 0 {
      run := OneByOne(c, n - 1);
      var m;
      run, m := OneTurn(c, run, n - 1);
    }
  }

  lemma {:induction false} NothingLaunched(c: Setup, run: seq<Action>)
    requires c.maxConcurrentStarts == 0
    ensures After(c, run).phases == [] && After(c, run).registered == {}
  {
    if run != [] {
      NothingLaunched(c, run[..|run| - 1]);
      SemaphoreAlways(c, run[..|run| - 1]);
    }
  }

  /** Every configured stream had its worker registered. */
  ghost predicate AllHadTheirTurn(c: Setup, m: Manager) {
    forall i: nat :: i < |c.streams| ==> i in m.registered
  }

  ghost predicate TurnsIn(c: Setup, run: seq<Action>) {
    AllHadTheirTurn(c, After(c, run))
  }

  lemma SomeTurns(c: Setup) returns (run: seq<Action>)
    requires c.streams == [] || 1 <= c.maxConcurrentStarts
    ensures TurnsIn(c, run)
  {
    if c.streams == [] {
      run := [];
    } else {
      run := OneByOne(c, |c.streams|);
    }
  }

  /** Every configured stream gets its turn in some run exactly if the limit admits one. */
  lemma AllGetTheirTurnIff(c: Setup)
    ensures (exists run :: TurnsIn(c, run)) <==> c.streams == [] || 1 <= c.maxConcurrentStarts
  {
    if c.streams == [] || 1 <= c.maxConcurrentStarts {
      var run := SomeTurns(c);
    } else {
      forall run
        ensures !TurnsIn(c, run)
      {
        NothingLaunched(c, run);
        assert 0 !in After(c, run).registered;
      }
    }
  }

  /** Start returns only when all streams are launched or the context is done. */
  lemma {:induction false} StartReturnsWhenDone(c: Setup, run: seq<Action>)
    ensures var m := After(c, run); m.startReturned ==> |m.phases| == |c.streams| || m.contextDone
  {
    if run != [] {
      StartReturnsWhenDone(c, run[..|run| - 1]);
    }
  }

  // ---------- the registry ----------

  /** The registry files some registered stream under every registered identity. */
  ghost predicate RegistryInv(c: Setup, m: Manager) {
    && (forall i :: i in m.registered ==> i < |c.streams| && c.streams[i] in m.workers)
    && (forall id :: id in m.workers ==>
          var i := m.workers[id]; i in m.registered && i < |c.streams| && c.streams[i] == id)
    && (forall i :: InPhase(m, i, Running) ==> i in m.registered)
  }

  lemma RegistryStep(c: Setup, m: Manager, a: Action)
    requires RegistryInv(c, m) && Enabled(c, m, a)
    ensures RegistryInv(c, Effect(c, m, a))
  {
  }

  lemma {:induction false} RegistryAlways(c: Setup, run: seq<Action>)
    ensures RegistryInv(c, After(c, run))
  {
    if run != [] {
      var m, a := After(c, run[..|run| - 1]), run[|run| - 1];
      RegistryAlways(c, run[..|run| - 1]);
      if Enabled(c, m, a) {
        RegistryStep(c, m, a);
      }
    }
  }

  /** No two registered streams share an identity. */
  ghost predicate Distinct(c: Setup, m: Manager) {
    forall i, j | i in m.registered && j in m.registered && i < |c.streams| && j < |c.streams| ::
      c.streams[i] == c.streams[j] ==> i == j
  }

  lemma FiledUnderOwnName(c: Setup, m: Manager, i: nat)
    requires RegistryInv(c, m) && i in m.workers.Values
    ensures i < |c.streams| && c.streams[i] in m.workers && m.workers[c.streams[i]] == i
  {
  }

  /** Stop reaches every worker registered so far exactly when no two of them share a
      stream identity: of two that do, the registry has forgotten one. */
  lemma StopReachesAllIffDistinct(c: Setup, run: seq<Action>)
    ensures var m := After(c, run);
      m.registered <= m.workers.Values <==> Distinct(c, m)
  {
    var m := After(c, run);
    RegistryAlways(c, run);
    if Distinct(c, m) {
      forall i | i in m.registered
        ensures i in m.workers.Values
      {
        assert m.workers[c.streams[i]] == i;
      }
    }
    if m.registered <= m.workers.Values {
      forall i, j | i in m.registered && j in m.registered && i < |c.streams| && j < |c.streams| &&
                    c.streams[i] == c.streams[j]
        ensures i == j
      {
        FiledUnderOwnName(c, m, i);
        FiledUnderOwnName(c, m, j);
      }
    }
  }

  /** No two configured streams share an identity. */
  ghost predicate AllDistinct(c: Setup) {
    forall j, k :: 0 <= j < k < |c.streams| ==> c.streams[j] != c.streams[k]
  }

  // ---------- which running workers Stop cancels ----------

  /** The workers that run are on file. */
  ghost predicate RunningOnFile(m: Manager) {
    forall i: nat :: InPhase(m, i, Running) ==> i in m.workers.Values
  }

  lemma {:induction false} TwoOccupy(phases: seq<Phase>, i: nat, j: nat)
    requires i < j < |phases| && phases[i] != Released && phases[j] != Released
    ensures Occupying(phases) >= 2
  {
    var n := |phases| - 1;
    if j < n {
      TwoOccupy(phases[..n], i, j);
    } else {
      OneOccupies(phases[..n], i);
    }
  }

  /** With room for one stream, no worker runs while another stream is prepared. */
  lemma PreparedAlone(c: Setup, m: Manager, i: nat, j: nat)
    requires SemaphoreInv(c, m) && c.maxConcurrentStarts <= 1 && InPhase(m, i, Preparing)
    ensures !InPhase(m, j, Running)
  {
    if InPhase(m, j, Running) {
      if i < j {
        TwoOccupy(m.phases, i, j);
      } else {
        TwoOccupy(m.phases, j, i);
      }
    }
  }

  lemma RunningOnFileStep(c: Setup, m: Manager, a: Action)
    requires SemaphoreInv(c, m) && c.maxConcurrentStarts <= 1 && RunningOnFile(m) && Enabled(c, m, a)
    ensures RunningOnFile(Effect(c, m, a))
  {
    var m' := Effect(c, m, a);
    forall j: nat | InPhase(m', j, Running)
      ensures j in m'.workers.Values
    {
      if a == Register(j) {
        assert m'.workers[c.streams[j]] == j;
      } else {
        assert InPhase(m, j, Running);
        if a.Register? {
          PreparedAlone(c, m, a.i, j);
        }
      }
    }
  }

  lemma {:induction false} RunningOnFileAlways(c: Setup, run: seq<Action>)
    requires c.maxConcurrentStarts <= 1
    ensures RunningOnFile(After(c, run))
  {
    if run != [] {
      var m, a := After(c, run[..|run| - 1]), run[|run| - 1];
      RunningOnFileAlways(c, run[..|run| - 1]);
      SemaphoreAlways(c, run[..|run| - 1]);
      if Enabled(c, m, a) {
        RunningOnFileStep(c, m, a);
      }
    }
  }

  /** Stop cancels every worker that is running when it takes the lock, if identities are
      distinct or there is room for one stream only. */
  lemma StopCancelsRunning(c: Setup, run: seq<Action>, i: nat)
    requires AllDistinct(c) || c.maxConcurrentStarts <= 1
    requires InPhase(After(c, run), i, Running)
    ensures i in Effect(c, After(c, run), Stop).stopped
  {
    if AllDistinct(c) {
      RegistryAlways(c, run);
      StopReachesAllIffDistinct(c, run);
    } else {
      RunningOnFileAlways(c, run);
    }
  }

  /** The first n streams were launched; stream j runs, the others failed. */
  ghost predicate OnlyRuns(c: Setup, m: Manager, j: nat, n: nat) {
    && n <= |c.streams| && !m.holding && !m.startReturned && |m.phases| == n && m.stopped == {}
    && (forall i :: 0 <= i < n ==> m.phases[i] == if i == j then Running else Released)
    && m.slots == (if j < n then 1 else 0)
    && m.workers == if j < n then map[c.streams[j] := j] else map[]
  }

  lemma {:induction false} RunOnly(c: Setup, j: nat, n: nat) returns (run: seq<Action>, m: Manager)
    requires n <= |c.streams| && c.maxConcurrentStarts >= 2
    ensures After(c, run) == m && OnlyRuns(c, m, j, n)
  {
    if n == 0 {
      run, m := [], IDLE;
    } else {
      run, m := RunOnly(c, j, n - 1);
      run, m := Go(c, run, m, Acquire);
      run, m := Go(c, run, m, Spawn);
      if n - 1 == j {
        run, m := Go(c, run, m, Register(j));
      } else {
        run, m := Go(c, run, m, Fails(n - 1));
        run, m := Go(c, run, m, Release(n - 1));
      }
    }
  }

  /** A shared identity defeats Stop as soon as two streams can run at once: the first
      of the two workers keeps running. */
  lemma SharedIdentityEscapes(c: Setup, j: nat, k: nat) returns (run: seq<Action>)
    requires j < k < |c.streams| && c.streams[j] == c.streams[k] && c.maxConcurrentStarts >= 2
    ensures InPhase(After(c, run), j, Running) && j !in Effect(c, After(c, run), Stop).stopped
  {
    var m;
    run, m := RunOnly(c, j, k);
    run, m := Go(c, run, m, Acquire);
    run, m := Go(c, run, m, Spawn);
    run, m := Go(c, run, m, Register(k));
    assert m.workers == map[c.streams[k] := k];
  }

  /** Stop is sure to cancel every running worker exactly if no two streams share an
      identity or no two streams can run at once. */
  lemma StopCancelsRunningIff(c: Setup)
    ensures (forall run, i: nat :: InPhase(After(c, run), i, Running) ==> i in Effect(c, After(c, run), Stop).stopped)
            <==> AllDistinct(c) || c.maxConcurrentStarts <= 1
  {
    if AllDistinct(c) || c.maxConcurrentStarts <= 1 {
      forall run, i: nat | InPhase(After(c, run), i, Running)
        ensures i in Effect(c, After(c, run), Stop).stopped
      {
        StopCancelsRunning(c, run, i);
      }
    } else {
      var j, k :| 0 <= j < k < |c.streams| && c.streams[j] == c.streams[k];
      var run := SharedIdentityEscapes(c, j, k);
    }
  }

  // ---------- who is cancelled in a whole run ----------

  /** The j-th action of the run is `a`, and it took effect. */
  predicate Happens(c: Setup, run: seq<Action>, j: nat, a: Action) {
    j < |run| && run[j] == a && Enabled(c, After(c, run[..j]), a)
  }

  lemma HappensInit(c: Setup, run: seq<Action>, j: nat, a: Action)
    requires j < |run| - 1
    ensures Happens(c, run, j, a) <==> Happens(c, run[..|run| - 1], j, a)
  {
    assert run[..|run| - 1][..j] == run[..j];
  }

  /** The action registers a worker under the identity of stream i. */
  predicate TakesPlace(c: Setup, a: Action, i: nat) {
    a.Register? && a.i < |c.streams| && i < |c.streams| && c.streams[a.i] == c.streams[i]
  }

  /** Stream i is registered by the j-th action, and its identity by no other action
      before the k-th. */
  ghost predicate FiledFrom(c: Setup, run: seq<Action>, i: nat, j: nat, k: nat) {
    && j < k && Happens(c, run, j, Register(i))
    && forall l: nat, a | j < l < k && TakesPlace(c, a, i) :: !Happens(c, run, l, a)
  }

  lemma FiledFromInit(c: Setup, run: seq<Action>, i: nat, j: nat, k: nat)
    requires run != [] && k <= |run| - 1
    ensures FiledFrom(c, run, i, j, k) <==> FiledFrom(c, run[..|run| - 1], i, j, k)
  {
    var init := run[..|run| - 1];
    if j < k {
      HappensInit(c, run, j, Register(i));
      forall l: nat, a: Action | l < k
        ensures Happens(c, run, l, a) <==> Happens(c, init, l, a)
      {
        HappensInit(c, run, l, a);
      }
      forall l: nat, a: Action | l < k
        ensures Happens(c, init, l, a) <==> Happens(c, run, l, a)
      {
      }
    }
  }

  lemma FileStep(c: Setup, m: Manager, a: Action, i: nat)
    requires RegistryInv(c, m) && Enabled(c, m, a) && i < |c.streams|
    ensures i in Effect(c, m, a).workers.Values <==> a == Register(i) || (i in m.workers.Values && !TakesPlace(c, a, i))
  {
    var m' := Effect(c, m, a);
    if a.Register? {
      assert m'.workers[c.streams[a.i]] == a.i;
      if i in m.workers.Values {
        FiledUnderOwnName(c, m, i);
        assert !TakesPlace(c, a, i) ==> m'.workers[c.streams[i]] == i;
      }
      RegistryStep(c, m, a);
      if i in m'.workers.Values {
        FiledUnderOwnName(c, m', i);
      }
    }
  }

  /** The last action, seen from the file of stream i. */
  lemma LastFiles(c: Setup, run: seq<Action>, i: nat)
    requires run != [] && i < |c.streams|
    ensures var n, a := |run| - 1, run[|run| - 1];
      i in After(c, run).workers.Values <==>
      Happens(c, run, n, Register(i)) ||
      (i in After(c, run[..n]).workers.Values && !(TakesPlace(c, a, i) && Happens(c, run, n, a)))
  {
    var m, a := After(c, run[..|run| - 1]), run[|run| - 1];
    RegistryAlways(c, run[..|run| - 1]);
    if Enabled(c, m, a) {
      FileStep(c, m, a, i);
    }
  }

  lemma {:induction false} FiledHappened(c: Setup, run: seq<Action>, i: nat) returns (j: nat)
    requires i < |c.streams| && i in After(c, run).workers.Values
    ensures FiledFrom(c, run, i, j, |run|)
  {
    var n := |run| - 1;
    LastFiles(c, run, i);
    if Happens(c, run, n, Register(i)) {
      j := n;
    } else {
      j := FiledHappened(c, run[..n], i);
      FiledFromInit(c, run, i, j, n);
    }
  }

  lemma {:induction false} HappenedFiled(c: Setup, run: seq<Action>, i: nat, j: nat)
    requires i < |c.streams| && FiledFrom(c, run, i, j, |run|)
    ensures i in After(c, run).workers.Values
  {
    var n := |run| - 1;
    LastFiles(c, run, i);
    if j < n {
      FiledFromInit(c, run, i, j, n);
      HappenedFiled(c, run[..n], i, j);
    }
  }

  /** A worker is on file exactly if it was registered and none after it under its
      identity. */
  lemma OnFileIffNotReplaced(c: Setup, run: seq<Action>, i: nat)
    requires i < |c.streams|
    ensures i in After(c, run).workers.Values <==> exists j: nat :: FiledFrom(c, run, i, j, |run|)
  {
    if i in After(c, run).workers.Values {
      var j := FiledHappened(c, run, i);
    }
    forall j: nat | FiledFrom(c, run, i, j, |run|)
      ensures i in After(c, run).workers.Values
    {
      HappenedFiled(c, run, i, j);
    }
  }

  /** The last action, seen from the cancelled workers. */
  lemma LastStops(c: Setup, run: seq<Action>, i: nat)
    requires run != []
    ensures var n := |run| - 1; var m := After(c, run[..n]);
      i in After(c, run).stopped <==> i in m.stopped || (Happens(c, run, n, Stop) && i in m.workers.Values)
  {
    var m, a := After(c, run[..|run| - 1]), run[|run| - 1];
    if Enabled(c, m, a) {
      StopStep(c, m, a);
    }
  }

  lemma StopStep(c: Setup, m: Manager, a: Action)
    requires Enabled(c, m, a)
    ensures Effect(c, m, a).stopped == if a == Stop then m.stopped + m.workers.Values else m.stopped
  {
  }

  lemma {:induction false} StoppedHappened(c: Setup, run: seq<Action>, i: nat) returns (j: nat, k: nat)
    requires i < |c.streams| && i in After(c, run).stopped
    ensures FiledFrom(c, run, i, j, k) && Happens(c, run, k, Stop)
  {
    var n := |run| - 1;
    LastStops(c, run, i);
    if i in After(c, run[..n]).stopped {
      j, k := StoppedHappened(c, run[..n], i);
      HappensInit(c, run, k, Stop);
    } else {
      j := FiledHappened(c, run[..n], i);
      k := n;
    }
    FiledFromInit(c, run, i, j, k);
  }

  lemma {:induction false} HappenedStopped(c: Setup, run: seq<Action>, i: nat, j: nat, k: nat)
    requires i < |c.streams| && FiledFrom(c, run, i, j, k) && Happens(c, run, k, Stop)
    ensures i in After(c, run).stopped
  {
    var n := |run| - 1;
    LastStops(c, run, i);
    FiledFromInit(c, run, i, j, k);
    if k < n {
      HappensInit(c, run, k, Stop);
      HappenedStopped(c, run[..n], i, j, k);
    } else {
      HappenedFiled(c, run[..n], i, j);
    }
  }

  /** Whole runs of any configuration: a worker is cancelled by Stop exactly if some Stop
      came after its registration, and no registration under its identity in between. */
  lemma CancelledIff(c: Setup, run: seq<Action>, i: nat)
    requires i < |c.streams|
    ensures i in After(c, run).stopped <==>
            exists j: nat, k: nat :: FiledFrom(c, run, i, j, k) && Happens(c, run, k, Stop)
  {
    if i in After(c, run).stopped {
      var j, k := StoppedHappened(c, run, i);
    }
    forall j: nat, k: nat | FiledFrom(c, run, i, j, k) && Happens(c, run, k, Stop)
      ensures i in After(c, run).stopped
    {
      HappenedStopped(c, run, i, j, k);
    }
  }

  /** A stream is registered only once its preparation is over; only registered streams
      are on file and can be stopped. */
  ghost predicate RegisteredFirst(m: Manager) {
    && (forall i :: i in m.registered ==> i < |m.phases| && m.phases[i] != Preparing)
    && (forall id :: id in m.workers ==> m.workers[id] in m.registered)
    && m.stopped <= m.registered
  }

  lemma RegisteredFirstStep(c: Setup, m: Manager, a: Action)
    requires RegisteredFirst(m) && Enabled(c, m, a)
    ensures RegisteredFirst(Effect(c, m, a)) && m.registered <= Effect(c, m, a).registered
  {
  }

  lemma {:induction false} RegisteredFirstAlways(c: Setup, run: seq<Action>)
    ensures RegisteredFirst(After(c, run))
    ensures run != [] ==> After(c, run[..|run| - 1]).registered <= After(c, run).registered
  {
    if run != [] {
      var m, a := After(c, run[..|run| - 1]), run[|run| - 1];
      RegisteredFirstAlways(c, run[..|run| - 1]);
      if Enabled(c, m, a) {
        RegisteredFirstStep(c, m, a);
      }
    }
  }

  lemma {:induction false} HappenedRegistered(c: Setup, run: seq<Action>, i: nat, j: nat)
    requires Happens(c, run, j, Register(i))
    ensures i in After(c, run).registered
  {
    var n := |run| - 1;
    if j < n {
      HappensInit(c, run, j, Register(i));
      HappenedRegistered(c, run[..n], i, j);
      RegisteredFirstAlways(c, run);
    }
  }

  /** No stream is registered twice. */
  lemma RegistersOnce(c: Setup, run: seq<Action>, i: nat, j: nat, l: nat)
    requires j < l && Happens(c, run, j, Register(i))
    ensures !Happens(c, run, l, Register(i))
  {
    if l < |run| {
      assert run[..l][..j] == run[..j];
      HappenedRegistered(c, run[..l], i, j);
      RegisteredFirstAlways(c, run[..l]);
    }
  }

  /** With distinct identities in the configuration, a worker is cancelled by Stop exactly
      if some Stop came after its registration. */
  lemma CancelledIffStoppedLater(c: Setup, run: seq<Action>, i: nat)
    requires AllDistinct(c)
    ensures i in After(c, run).stopped <==>
            exists j: nat, k: nat :: j < k && Happens(c, run, j, Register(i)) && Happens(c, run, k, Stop)
  {
    if i < |c.streams| {
      if i in After(c, run).stopped {
        var j, k := StoppedHappened(c, run, i);
        assert j < k && Happens(c, run, j, Register(i));
      }
      forall j: nat, k: nat | j < k && Happens(c, run, j, Register(i)) && Happens(c, run, k, Stop)
        ensures i in After(c, run).stopped
      {
        DistinctStaysFiled(c, run, i, j, k);
        HappenedStopped(c, run, i, j, k);
      }
    } else {
      RegisteredFirstAlways(c, run);
      RegistryAlways(c, run);
    }
  }

  lemma DistinctStaysFiled(c: Setup, run: seq<Action>, i: nat, j: nat, k: nat)
    requires AllDistinct(c) && j < k && Happens(c, run, j, Register(i))
    ensures FiledFrom(c, run, i, j, k)
  {
    forall l: nat, a | j < l < k && TakesPlace(c, a, i)
      ensures !Happens(c, run, l, a)
    {
      RegistersOnce(c, run, i, j, l);
    }
  }

  /** Even with distinct identities a worker can escape: Stop takes the lock while its
      stream is still being prepared; afterwards it is registered and runs. */
  lemma LateWorkerEscapes(id: string) returns (run: seq<Action>)
    ensures var m := After(Setup([id], 1), run + [Stop] + [Register(0)]);
      InPhase(m, 0, Running) && 0 !in m.stopped && m.contextDone
  {
    var c := Setup([id], 1);
    var m := IDLE;
    run := [];
    run, m := Go(c, run, m, Acquire);
    run, m := Go(c, run, m, Spawn);
    run, m := Go(c, run, m, ContextEnds);
    AfterSnoc(c, run, Stop);
    AfterSnoc(c, run + [Stop], Register(0));
  }

  // ---------- the registry object ----------

  class StreamWorker {
    var cancelled: bool  // by Stop

    constructor ()
      ensures !cancelled
    {
      cancelled := false;
    }
  }

  /** `made` holds a worker of its own for each registered stream, and the registry those
      workers that the step machine has on file. */
  ghost predicate OnFile(m: Manager, made: map<nat, StreamWorker>, workers: map<string, StreamWorker>) {
    && made.Keys == m.registered
    && (forall i, j :: i in made && j in made && made[i] == made[j] ==> i == j)
    && workers.Keys == m.workers.Keys
    && (forall id :: id in workers ==> m.workers[id] in made && workers[id] == made[m.workers[id]])
  }

  lemma OnFileRegister(c: Setup, m: Manager, i: nat, made: map<nat, StreamWorker>, workers: map<string, StreamWorker>,
                       worker: StreamWorker)
    requires RegisteredFirst(m) && OnFile(m, made, workers) && Enabled(c, m, Register(i)) && worker !in made.Values
    ensures i !in made && i !in m.stopped
    ensures OnFile(Effect(c, m, Register(i)), made[i := worker], workers[c.streams[i] := worker])
  {
  }

  lemma OnFileWorkers(m: Manager, i: nat, made: map<nat, StreamWorker>, workers: map<string, StreamWorker>)
    requires OnFile(m, made, workers) && i in made
    ensures made[i] in workers.Values <==> i in m.workers.Values
  {
    if made[i] in workers.Values {
      var id :| id in workers && workers[id] == made[i];
      assert m.workers[id] == i;
    }
    if i in m.workers.Values {
      var id :| id in m.workers && m.workers[id] == i;
      assert workers[id] == made[i];
    }
  }

  /** The registry goes along with the step machine. */
  ghost predicate Follows(m: Manager, made: map<nat, StreamWorker>, workers: map<string, StreamWorker>) {
    RegisteredFirst(m) && OnFile(m, made, workers)
  }

  lemma FollowsRegister(c: Setup, m: Manager, i: nat, made: map<nat, StreamWorker>, workers: map<string, StreamWorker>,
                        worker: StreamWorker)
    requires Follows(m, made, workers) && Enabled(c, m, Register(i)) && worker !in made.Values
    ensures i !in made && i !in m.stopped && Effect(c, m, Register(i)).stopped == m.stopped
    ensures Follows(Effect(c, m, Register(i)), made[i := worker], workers[c.streams[i] := worker])
  {
    RegisteredFirstStep(c, m, Register(i));
    OnFileRegister(c, m, i, made, workers, worker);
  }

  lemma FollowsOther(c: Setup, m: Manager, a: Action, made: map<nat, StreamWorker>, workers: map<string, StreamWorker>)
    requires Follows(m, made, workers) && Enabled(c, m, a) && !a.Register?
    ensures Follows(Effect(c, m, a), made, workers)
  {
    RegisteredFirstStep(c, m, a);
  }

  /** Cancelled are the workers of the given streams. */
  ghost predicate Marked(made: map<nat, StreamWorker>, stopped: set<nat>)
    reads made.Values
  {
    forall i :: i in made ==> (made[i].cancelled <==> i in stopped)
  }

  lemma MarkNew(made: map<nat, StreamWorker>, stopped: set<nat>, i: nat, worker: StreamWorker)
    requires Marked(made, stopped) && i !in stopped && !worker.cancelled
    ensures Marked(made[i := worker], stopped)
  {
  }

  /** The workers of `among` that are cancelled. */
  ghost function Cancelled(among: set<StreamWorker>): set<StreamWorker>
    reads among
  {
    set w | w in among && w.cancelled
  }

  lemma MarkStopped(c: Setup, m: Manager, made: map<nat, StreamWorker>, workers: map<string, StreamWorker>,
                    before: set<StreamWorker>)
    requires Follows(m, made, workers)
    requires forall i :: i in made ==> (made[i] in before <==> i in m.stopped)
    requires Cancelled(made.Values) == before + made.Values * workers.Values
    ensures Marked(made, Effect(c, m, Stop).stopped)
  {
    forall i | i in made
      ensures made[i].cancelled <==> i in Effect(c, m, Stop).stopped
    {
      assert made[i].cancelled <==> made[i] in Cancelled(made.Values);
      OnFileWorkers(m, i, made, workers);
    }
  }

  /** The workers the manager knows, by stream identity. The object goes along with the
      step machine: `machine` is the state it has reached, `made` holds the worker of
      every registered stream. */
  class StreamRegistry {
    ghost const setup: Setup
    ghost var machine: Manager
    ghost var made: map<nat, StreamWorker>
    var workers: map<string, StreamWorker>

    constructor (ghost setup: Setup)
      ensures Valid() && this.setup == setup && machine == IDLE
    {
      this.setup := setup;
      machine := IDLE;
      made := map[];
      workers := map[];
    }

    /** The cancelled workers are those the step machine has stopped. */
    ghost predicate Valid()
      reads this, made.Values
    {
      Follows(machine, made, workers) && Marked(made, machine.stopped)
    }

    /** The steps that leave the registry alone. */
    ghost method Proceed(a: Action)
      requires Valid() && Enabled(setup, machine, a) && !a.Register? && !a.Stop?
      modifies this`machine
      ensures Valid() && machine == Effect(setup, old(machine), a)
    {
      FollowsOther(setup, machine, a, made, workers);
      machine := Effect(setup, machine, a);
    }

    /** A worker registered under a known identity takes the place of the other. */
    method Register(ghost i: nat, id: string, worker: StreamWorker)
      requires Valid() && Enabled(setup, machine, Action.Register(i)) && id == setup.streams[i]
      requires worker !in made.Values && !worker.cancelled
      modifies this
      ensures Valid() && machine == Effect(setup, old(machine), Action.Register(i))
      ensures workers == old(workers)[id := worker] && made == old(made)[i := worker]
    {
      ghost var registered := Effect(setup, machine, Action.Register(i));
      FollowsRegister(setup, machine, i, made, workers, worker);
      MarkNew(made, machine.stopped, i, worker);
      workers, made, machine := workers[id := worker], made[i := worker], registered;
    }

    /** Cancel every worker in the registry and, among all workers, no other. */
    method CancelAll(ghost among: set<StreamWorker>)
      modifies workers.Values
      ensures forall w :: w in workers.Values ==> w.cancelled
      ensures Cancelled(among) == old(Cancelled(among)) + among * workers.Values
    {
      var remaining := workers.Keys;
      while remaining != {}
        invariant remaining <= workers.Keys
        invariant forall id :: id in workers && id !in remaining ==> workers[id].cancelled
        decreases remaining
      {
        var id := PickAny(remaining);
        workers[id].cancelled := true;
        remaining := remaining - {id};
      }
    }

    method CancelRegistered()
      requires Valid()
      modifies workers.Values
      ensures Marked(made, Effect(setup, machine, Action.Stop).stopped)
      ensures forall w :: w in workers.Values ==> w.cancelled
    {
      ghost var before := Cancelled(made.Values);
      CancelAll(made.Values);
      MarkStopped(setup, machine, made, workers, before);
    }

    /** Stop cancels the workers in the registry, which is the step of the machine. */
    method Stop()
      requires Valid()
      modifies this`machine, workers.Values
      ensures Valid() && machine == Effect(setup, old(machine), Action.Stop)
      ensures forall w :: w in workers.Values ==> w.cancelled
    {
      FollowsOther(setup, machine, Action.Stop, made, workers);
      CancelRegistered();
      machine := Effect(setup, machine, Action.Stop);
    }
  }
}
