/**
 Several instances start at once and must agree on one configuration value (a tree or a key identifier) through a
 store that offers only Get and Put.  Each runs getOrInit: read; if nothing is there, create a value, put it and start
 again; otherwise sleep for the sync timeout, read again, and return only if nothing changed.
 */
module StartupAgreement {
  import opened Bytes

  type Value = bytes

  /** Where a call of getOrInit stands. */
  datatype Phase =
    | Idle                           // about to read
    | Creating(readAt: real)         // read nothing at that time, and will put a value
    | Asleep(src: Value, at: real)   // read a value at that time, and sleeps
    | Done(v: Value)                 // returned successfully
    | Failed                         // returned an error

  /** mark and hasPut are bookkeeping: no step depends on them. */
  datatype Proc = Proc(phase: Phase, mark: nat, hasPut: bool)

  /** puts and firstPut are bookkeeping as well. */
  datatype State = State(now: real, store: Option<Value>, procs: seq<Proc>, puts: nat, firstPut: real)

  datatype Action =
    | Tick(time: real)
    | FirstGet(p: nat)
    | Put(p: nat, v: Value)
    | SecondGet(p: nat)
    | Fail(p: nat)

  function Initial(n: nat): (s: State) {
    State(0.0, None, seq(n, i => Proc(Idle, 0, false)), 0, 0.0)
  }

  function Set(s: State, p: nat, q: Proc): (r: State)
    requires p < |s.procs|
  {
    s.(procs := s.procs[p := q])
  }

  /**
   One step.  timeout is how long a sleeping call sleeps at least; a put happens less than delay after the read that
   found nothing.
   */
  function Step(timeout: real, delay: real, s: State, a: Action): (r: Option<State>) {
    match a
    case Tick(time) =>
      if time >= s.now then Some(s.(now := time)) else None
    case FirstGet(p) =>
      if p < |s.procs| && s.procs[p].phase.Idle? then
        var q := s.procs[p];
        if s.store.None? then Some(Set(s, p, q.(phase := Creating(s.now))))
        else Some(Set(s, p, q.(phase := Asleep(s.store.value, s.now), mark := s.puts)))
      else None
    case Put(p, v) =>
      if p < |s.procs| && s.procs[p].phase.Creating? && s.now < s.procs[p].phase.readAt + delay then
        var first := if s.store.None? then s.now else s.firstPut;
        Some(Set(s, p, Proc(Idle, s.puts + 1, true)).(store := Some(v), puts := s.puts + 1, firstPut := first))
      else None
    case SecondGet(p) =>
      if p < |s.procs| && s.procs[p].phase.Asleep? && s.now >= s.procs[p].phase.at + timeout then
        var q := s.procs[p];
        if s.store == Some(q.phase.src) then Some(Set(s, p, q.(phase := Done(q.phase.src))))
        else Some(Set(s, p, q.(phase := Idle, mark := q.mark + 1)))
      else None
    case Fail(p) =>
      if p < |s.procs| && !s.procs[p].phase.Done? && !s.procs[p].phase.Failed? then
        Some(Set(s, p, s.procs[p].(phase := Failed)))
      else None
  }

  datatype Run = Begin(n: nat) | Then(before: Run, a: Action)

  /** The state a run ends in, if every step of it was possible. */
  function After(timeout: real, delay: real, r: Run): (s: Option<State>) {
    match r
    case Begin(n) => Some(Initial(n))
    case Then(r', a) =>
      var s := After(timeout, delay, r');
      if s.None? then None else Step(timeout, delay, s.value, a)
  }

  function Processes(r: Run): (n: nat) {
    match r
    case Begin(n) => n
    case Then(r', _) => Processes(r')
  }

  // ----- agreement -----

  predicate Agreed(s: State) {
    forall p, q :: 0 <= p < |s.procs| && 0 <= q < |s.procs| && s.procs[p].phase.Done? && s.procs[q].phase.Done? ==>
      s.procs[p].phase.v == s.procs[q].phase.v
  }

  ghost predicate AlwaysAgreed(timeout: real, delay: real) {
    forall r :: After(timeout, delay, r).Some? ==> Agreed(After(timeout, delay, r).value)
  }

  /** What a process knows, relative to the first put. */
  predicate Timely(timeout: real, s: State, q: Proc) {
    match q.phase
    case Creating(t) => t <= s.now && (s.store.Some? ==> t <= s.firstPut)
    case Asleep(_, t) => s.store.Some? && s.firstPut <= t <= s.now
    case Done(v) => s.store == Some(v) && s.firstPut + timeout <= s.now
    case _ => true
  }

  predicate TimelyAll(timeout: real, s: State) {
    && (s.store.Some? ==> s.firstPut <= s.now)
    && forall p :: 0 <= p < |s.procs| ==> Timely(timeout, s, s.procs[p])
  }

  lemma {:induction false} StepTimely(timeout: real, delay: real, s: State, a: Action)
    requires 0.0 <= timeout && delay <= timeout
    requires TimelyAll(timeout, s) && Step(timeout, delay, s, a).Some?
    ensures TimelyAll(timeout, Step(timeout, delay, s, a).value)
  {
    var s' := Step(timeout, delay, s, a).value;
    forall p | 0 <= p < |s'.procs|
      ensures Timely(timeout, s', s'.procs[p])
    {
      assert Timely(timeout, s, s.procs[p]);
      if a.Put? {
        assert Timely(timeout, s, s.procs[a.p]);
      }
    }
  }

  lemma {:induction false} RunTimely(timeout: real, delay: real, r: Run)
    requires 0.0 <= timeout && delay <= timeout
    requires After(timeout, delay, r).Some?
    ensures TimelyAll(timeout, After(timeout, delay, r).value)
  {
    if r.Then? {
      RunTimely(timeout, delay, r.before);
      StepTimely(timeout, delay, After(timeout, delay, r.before).value, r.a);
    }
  }

  /** When a put may come as late as the timeout, two calls can return different values. */
  lemma {:induction false} LatePutDisagrees(timeout: real, delay: real) returns (r: Run)
    requires 0.0 <= timeout < delay
    ensures After(timeout, delay, r).Some? && !Agreed(After(timeout, delay, r).value)
  {
    var creating := Proc(Creating(0.0), 0, false);
    var won := Proc(Done([0]), 1, true);
    var r0 := Begin(2);
    assert Initial(2).procs == [Proc(Idle, 0, false), Proc(Idle, 0, false)];
    var r1 := Extend(timeout, delay, r0, FirstGet(0), [creating, Proc(Idle, 0, false)]);
    var r2 := Extend(timeout, delay, r1, FirstGet(1), [creating, creating]);
    var r3 := Extend(timeout, delay, r2, Put(0, [0]), [Proc(Idle, 1, true), creating]);
    var r4 := Extend(timeout, delay, r3, FirstGet(0), [Proc(Asleep([0], 0.0), 1, true), creating]);
    var r5 := Extend(timeout, delay, r4, Tick(timeout), [Proc(Asleep([0], 0.0), 1, true), creating]);
    var r6 := Extend(timeout, delay, r5, SecondGet(0), [won, creating]);
    var r7 := Extend(timeout, delay, r6, Put(1, [1]), [won, Proc(Idle, 2, true)]);
    var r8 := Extend(timeout, delay, r7, FirstGet(1), [won, Proc(Asleep([1], timeout), 2, true)]);
    var r9 := Extend(timeout, delay, r8, Tick(timeout + timeout), [won, Proc(Asleep([1], timeout), 2, true)]);
    r := Extend(timeout, delay, r9, SecondGet(1), [won, Proc(Done([1]), 2, true)]);
    var ps := After(timeout, delay, r).value.procs;
    assert ps[0].phase == Done([0]) && ps[1].phase == Done([1]);
    assert ps[0].phase.v[0] != ps[1].phase.v[0];
  }

  lemma {:induction false} Extend(timeout: real, delay: real, r: Run, a: Action, procs: seq<Proc>) returns (r': Run)
    requires After(timeout, delay, r).Some?
    requires var s := Step(timeout, delay, After(timeout, delay, r).value, a); s.Some? && s.value.procs == procs
    ensures r' == Then(r, a) && After(timeout, delay, r') == Step(timeout, delay, After(timeout, delay, r).value, a)
    ensures After(timeout, delay, r').Some? && After(timeout, delay, r').value.procs == procs
  {
    r' := Then(r, a);
  }

  /** All successful calls return one value, in every run, exactly when puts come within the sync timeout. */
  lemma {:induction false} AgreementExactly(timeout: real, delay: real)
    requires 0.0 <= timeout
    ensures AlwaysAgreed(timeout, delay) <==> delay <= timeout
  {
    if delay <= timeout {
      forall r | After(timeout, delay, r).Some?
        ensures Agreed(After(timeout, delay, r).value)
      {
        RunTimely(timeout, delay, r);
      }
    } else {
      var r := LatePutDisagrees(timeout, delay);
    }
  }

  // ----- termination -----

  function CountPuts(procs: seq<Proc>): (n: nat)
    ensures n <= |procs|
  {
    if procs == [] then 0 else (if procs[0].hasPut then 1 else 0) + CountPuts(procs[1..])
  }

  lemma {:induction false} CountUpdate(procs: seq<Proc>, p: nat, q: Proc)
    requires p < |procs|
    ensures CountPuts(procs[p := q]) ==
            CountPuts(procs) + (if q.hasPut then 1 else 0) - (if procs[p].hasPut then 1 else 0)
  {
    var u := procs[p := q];
    if p == 0 {
      assert u[1..] == procs[1..];
    } else {
      CountUpdate(procs[1..], p - 1, q);
      assert u[1..] == procs[1..][p - 1 := q];
    }
  }

  /** A process creates a value only before its one put, and has seen no more puts than there were. */
  predicate Counted(s: State, q: Proc) {
    match q.phase
    case Idle => q.mark <= s.puts && (s.store.None? ==> !q.hasPut)
    case Creating(_) => !q.hasPut
    case Asleep(v, _) => 1 <= q.mark <= s.puts && (q.mark == s.puts ==> s.store == Some(v))
    case _ => true
  }

  predicate CountedAll(s: State) {
    && s.puts == CountPuts(s.procs)
    && (s.store.None? <==> s.puts == 0)
    && forall p :: 0 <= p < |s.procs| ==> Counted(s, s.procs[p])
  }

  lemma {:induction false} StepCounted(timeout: real, delay: real, s: State, a: Action)
    requires CountedAll(s) && Step(timeout, delay, s, a).Some?
    ensures CountedAll(Step(timeout, delay, s, a).value)
  {
    var s' := Step(timeout, delay, s, a).value;
    if !a.Tick? {
      assert Counted(s, s.procs[a.p]);
      CountUpdate(s.procs, a.p, s'.procs[a.p]);
    }
    forall p | 0 <= p < |s'.procs|
      ensures Counted(s', s'.procs[p])
    {
      assert Counted(s, s.procs[p]);
    }
  }

  /** How many more steps a process can take, n processes in all. */
  function Budget(n: nat, q: Proc): (b: int) {
    match q.phase
    case Idle => 2 * (n - q.mark) + 2
    case Creating(_) => 2 * n + 1
    case Asleep(_, _) => 2 * (n - q.mark) + 1
    case Done(_) => 0
    case Failed => 0
  }

  /** The steps process p takes in a run. */
  function Steps(r: Run, p: nat): (k: nat) {
    match r
    case Begin(_) => 0
    case Then(r', a) => Steps(r', p) + if !a.Tick? && a.p == p then 1 else 0
  }

  lemma {:induction false} StepSpends(timeout: real, delay: real, s: State, a: Action, p: nat)
    requires CountedAll(s) && Step(timeout, delay, s, a).Some? && p < |s.procs|
    ensures var s' := Step(timeout, delay, s, a).value;
            |s'.procs| == |s.procs| &&
            Budget(|s.procs|, s'.procs[p]) + (if !a.Tick? && a.p == p then 1 else 0) <= Budget(|s.procs|, s.procs[p])
  {
    assert Counted(s, s.procs[p]);
  }

  lemma {:induction false} RunSpends(timeout: real, delay: real, r: Run, p: nat)
    requires After(timeout, delay, r).Some? && p < Processes(r)
    ensures var s := After(timeout, delay, r).value;
            && CountedAll(s) && |s.procs| == Processes(r)
            && Steps(r, p) + Budget(Processes(r), s.procs[p]) <= 2 * Processes(r) + 2
  {
    match r
    case Begin(n) =>
      NothingPut(n);
    case Then(r', a) =>
      RunSpends(timeout, delay, r', p);
      var s := After(timeout, delay, r').value;
      StepCounted(timeout, delay, s, a);
      StepSpends(timeout, delay, s, a, p);
  }

  lemma {:induction false} NothingPut(n: nat)
    ensures CountPuts(Initial(n).procs) == 0
  {
    if n > 0 {
      NothingPut(n - 1);
      assert Initial(n).procs[1..] == Initial(n - 1).procs;
    }
  }

  /** Whatever the timing, no call of getOrInit makes more than 2n + 2 accesses to the store, n processes in all. */
  lemma {:induction false} BoundedRetries(timeout: real, delay: real, r: Run, p: nat)
    requires After(timeout, delay, r).Some? && p < Processes(r)
    ensures Steps(r, p) <= 2 * Processes(r) + 2
  {
    RunSpends(timeout, delay, r, p);
    var s := After(timeout, delay, r).value;
    assert Counted(s, s.procs[p]);
  }

  // ----- progress -----

  /** No access of process p fails in a run. */
  predicate NoFailure(r: Run, p: nat) {
    r.Begin? || (NoFailure(r.before, p) && r.a != Fail(p))
  }

  /** A call gives up only when an access fails: what it reads or finds changed never makes it fail. */
  lemma {:induction false} NeverGivesUp(timeout: real, delay: real, r: Run, p: nat)
    requires After(timeout, delay, r).Some? && p < Processes(r) && NoFailure(r, p)
    ensures var s := After(timeout, delay, r).value; p < |s.procs| && !s.procs[p].phase.Failed?
  {
    if r.Then? {
      NeverGivesUp(timeout, delay, r.before, p);
    }
  }

  /** The next access of a process that has not returned; v is the value it creates. */
  function NextAccess(q: Proc, p: nat, v: Value): (a: Action)
    requires !q.phase.Done? && !q.phase.Failed?
  {
    match q.phase
    case Idle => FirstGet(p)
    case Creating(_) => Put(p, v)
    case Asleep(_, _) => SecondGet(p)
  }

  /** When the next access of a process can take place: a put within the delay, a second read after the sleep. */
  predicate Due(timeout: real, delay: real, q: Proc, now: real) {
    match q.phase
    case Idle => true
    case Creating(readAt) => now < readAt + delay
    case Asleep(_, at) => now >= at + timeout
    case _ => false
  }

  /** Whatever the others do, a process that has not returned can make its next access when it is due, and goes on. */
  lemma {:induction false} NextAccessPossible(timeout: real, delay: real, r: Run, p: nat, v: Value)
    requires After(timeout, delay, r).Some? && p < |After(timeout, delay, r).value.procs|
    requires var s := After(timeout, delay, r).value;
             !s.procs[p].phase.Done? && !s.procs[p].phase.Failed? && Due(timeout, delay, s.procs[p], s.now)
    ensures var s := After(timeout, delay, r).value;
            var s' := After(timeout, delay, Then(r, NextAccess(s.procs[p], p, v)));
            && s'.Some? && !s'.value.procs[p].phase.Failed?
            && (s.procs[p].phase.Creating? ==> s'.value.store == Some(v))
  {
  }

  /** Time always reaches the moment at which a sleeping process may read again. */
  lemma {:induction false} SleepEnds(timeout: real, delay: real, r: Run, p: nat)
    requires 0.0 <= timeout && After(timeout, delay, r).Some? && p < |After(timeout, delay, r).value.procs|
    requires After(timeout, delay, r).value.procs[p].phase.Asleep?
    ensures var s := After(timeout, delay, r).value;
            var wake := s.procs[p].phase.at + timeout;
            var later := if wake >= s.now then wake else s.now;
            var s' := After(timeout, delay, Then(r, Tick(later)));
            s'.Some? && s'.value.procs == s.procs && Due(timeout, delay, s'.value.procs[p], s'.value.now)
  {
  }

  /** Without failing accesses a call has returned after 2n + 2 of its own accesses, n processes in all. */
  lemma {:induction false} ReturnsInTime(timeout: real, delay: real, r: Run, p: nat)
    requires After(timeout, delay, r).Some? && p < Processes(r) && NoFailure(r, p)
    requires Steps(r, p) >= 2 * Processes(r) + 2
    ensures var s := After(timeout, delay, r).value; p < |s.procs| && s.procs[p].phase.Done?
  {
    RunSpends(timeout, delay, r, p);
    NeverGivesUp(timeout, delay, r, p);
    var s := After(timeout, delay, r).value;
    assert Counted(s, s.procs[p]);
  }

  // ----- validity -----

  /** The value put last in a run. */
  function LastPut(r: Run): (v: Option<Value>) {
    match r
    case Begin(_) => None
    case Then(r', a) => if a.Put? then Some(a.v) else LastPut(r')
  }

  predicate WasPut(r: Run, v: Value) {
    r.Then? && ((r.a.Put? && r.a.v == v) || WasPut(r.before, v))
  }

  predicate ReadValues(r: Run, q: Proc) {
    && (q.phase.Asleep? ==> WasPut(r, q.phase.src))
    && (q.phase.Done? ==> WasPut(r, q.phase.v))
  }

  lemma {:induction false} LastWasPut(r: Run)
    ensures LastPut(r).Some? ==> WasPut(r, LastPut(r).value)
  {
    if r.Then? { LastWasPut(r.before); }
  }

  /** The store holds the value put last, and whatever is read or returned was put by some process. */
  lemma {:induction false} ReturnedWasPut(timeout: real, delay: real, r: Run)
    requires After(timeout, delay, r).Some?
    ensures var s := After(timeout, delay, r).value;
            s.store == LastPut(r) && forall p :: 0 <= p < |s.procs| ==> ReadValues(r, s.procs[p])
  {
    if r.Then? {
      ReturnedWasPut(timeout, delay, r.before);
      LastWasPut(r.before);
      var s, s' := After(timeout, delay, r.before).value, After(timeout, delay, r).value;
      forall p | 0 <= p < |s'.procs|
        ensures ReadValues(r, s'.procs[p])
      {
        assert ReadValues(r.before, s.procs[p]);
      }
    }
  }
}
