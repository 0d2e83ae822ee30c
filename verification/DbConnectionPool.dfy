/** The connection pool (DbConnectionPool.cpp): a queue under a mutex, with a condition variable
    for the threads that find it empty. Each step is one critical section; connections are
    numbered in the order they are created. */
module ConnectionPools {
  import opened Text

  /** Threads inside `getConnection`: `waiting` ones sleep in `cv_.wait`; `woken` ones have been
      woken but have not yet taken the mutex back; `checking` ones have popped a connection and
      ping it outside the lock. `held` are the connections lent out. */
  datatype Pool = Pool(
    queue: seq<nat>,
    created: nat,
    initialized: bool,
    waiting: set<nat>,
    woken: set<nat>,
    checking: map<nat, nat>,
    held: set<nat>)

  datatype Step =
    /** `init`: `made` connections are created; `fails` if creating the next one throws. */
    | Init(made: nat, fails: bool)
    /** `getConnection` up to the pop, the wait or the exception. */
    | Enter(t: nat)
    /** A wakeup that nobody asked for. */
    | WakeSpuriously(t: nat)
    /** A woken thread takes the mutex back and looks at the queue again. */
    | Resume(t: nat)
    /** The popped connection answers, or reconnects: it is lent out. */
    | CheckSucceeds(t: nat)
    /** Reconnecting throws: the connection goes back, and `notify_one` picks `chosen`. */
    | CheckFails(t: nat, chosen: nat)
    /** The last handle to a lent connection goes: it goes back, and `notify_one` picks `chosen`. */
    | Release(conn: nat, chosen: nat)

  function Fresh(first: nat, n: nat): (s: seq<nat>)
    ensures |s| == n && forall i :: 0 <= i < n ==> s[i] == first + i
  {
    seq(n, i requires 0 <= i < n => first + i)
  }

  /** With the mutex held: pop, or sleep, or leave with an exception if never initialized. */
  function Look(s: Pool, t: nat): Pool {
    if s.queue != [] then s.(queue := s.queue[1..], checking := s.checking[t := s.queue[0]])
    else if s.initialized then s.(waiting := s.waiting + {t})
    else s
  }

  /** `connections_.push(conn)`, then `cv_.notify_one()`, which wakes nobody if nobody sleeps. */
  function GiveBack(s: Pool, conn: nat, chosen: nat): Pool {
    s.(queue := s.queue + [conn],
       waiting := s.waiting - {chosen},
       woken := if chosen in s.waiting then s.woken + {chosen} else s.woken)
  }

  /** `notify_one` picks one of the sleepers, whichever, if there are any. */
  predicate Notifies(s: Pool, chosen: nat) {
    s.waiting == {} || chosen in s.waiting
  }

  predicate Enabled(s: Pool, step: Step) {
    match step
    case Init(_, _) => true
    case Enter(t) => t !in s.waiting && t !in s.woken && t !in s.checking
    case WakeSpuriously(t) => t in s.waiting
    case Resume(t) => t in s.woken
    case CheckSucceeds(t) => t in s.checking
    case CheckFails(t, chosen) => t in s.checking && Notifies(s, chosen)
    case Release(conn, chosen) => conn in s.held && Notifies(s, chosen)
  }

  function Do(s: Pool, step: Step): Pool
    requires Enabled(s, step)
  {
    match step
    case Init(made, fails) =>
      if s.initialized then s
      else s.(queue := s.queue + Fresh(s.created, made), created := s.created + made, initialized := !fails)
    case Enter(t) => Look(s, t)
    case WakeSpuriously(t) => s.(waiting := s.waiting - {t}, woken := s.woken + {t})
    case Resume(t) => Look(s.(woken := s.woken - {t}), t)
    case CheckSucceeds(t) => s.(checking := s.checking - {t}, held := s.held + {s.checking[t]})
    case CheckFails(t, chosen) => GiveBack(s.(checking := s.checking - {t}), s.checking[t], chosen)
    case Release(conn, chosen) => GiveBack(s.(held := s.held - {conn}), conn, chosen)
  }

  /** The states that some run of the pool passes through. */
  predicate Legal(s: Pool, steps: seq<Step>)
    decreases |steps|
  {
    steps == [] || (Enabled(s, steps[0]) && Legal(Do(s, steps[0]), steps[1..]))
  }

  function Run(s: Pool, steps: seq<Step>): Pool
    requires Legal(s, steps)
    decreases |steps|
  {
    if steps == [] then s else Run(Do(s, steps[0]), steps[1..])
  }

  const START := Pool([], 0, false, {}, {}, map[], {})

  // ----- conservation and exclusive borrowing

  /** Every connection created is in exactly one place: queued once, checked by one thread, or lent
      out once. */
  ghost predicate Conserved(s: Pool) {
    && (forall c: nat :: c < s.created <==> c in s.queue || c in s.checking.Values || c in s.held)
    && OnePlace(s)
  }

  ghost predicate OnePlace(s: Pool) {
    && (forall i :: 0 <= i < |s.queue| ==> s.queue[i] !in s.checking.Values && s.queue[i] !in s.held)
    && s.checking.Values !! s.held
    && (forall i, j :: 0 <= i < j < |s.queue| ==> s.queue[i] != s.queue[j])
    && (forall t, u :: t in s.checking && u in s.checking && t != u ==> s.checking[t] != s.checking[u])
  }

  lemma {:induction false} ValuesAdd(m: map<nat, nat>, t: nat, c: nat)
    requires t !in m
    ensures m[t := c].Values == m.Values + {c}
  {
    var m' := m[t := c];
    assert m'[t] == c;
    forall x | x in m.Values
      ensures x in m'.Values
    {
      var u :| u in m && m[u] == x;
      assert m'[u] == x;
    }
  }

  lemma {:induction false} ValuesRemove(m: map<nat, nat>, t: nat)
    requires t in m && forall u, v :: u in m && v in m && u != v ==> m[u] != m[v]
    ensures (m - {t}).Values == m.Values - {m[t]}
  {
    var m' := m - {t};
    forall x | x in m.Values && x != m[t]
      ensures x in m'.Values
    {
      var u :| u in m && m[u] == x;
      assert m'[u] == x;
    }
  }

  lemma {:induction false} LookConserves(s: Pool, t: nat)
    requires Conserved(s) && t !in s.checking
    ensures Conserved(Look(s, t))
  {
    if s.queue != [] {
      var s' := Look(s, t);
      ValuesAdd(s.checking, t, s.queue[0]);
      assert forall c :: c in s.queue <==> c == s.queue[0] || c in s'.queue;
    }
  }

  /** A connection that has just left the place it was in goes to the end of the queue. */
  lemma {:induction false} GiveBackConserves(s: Pool, conn: nat, chosen: nat)
    requires forall c: nat :: c < s.created <==> c in s.queue || c in s.checking.Values || c in s.held || c == conn
    requires conn !in s.queue && conn !in s.checking.Values && conn !in s.held && OnePlace(s)
    ensures Conserved(GiveBack(s, conn, chosen))
  {
    assert forall i :: 0 <= i < |s.queue| ==> s.queue[i] in s.queue;
  }

  lemma {:induction false} InitConserves(s: Pool, made: nat, fails: bool)
    requires Conserved(s)
    ensures Conserved(Do(s, Init(made, fails)))
  {
    if !s.initialized {
      var s' := Do(s, Init(made, fails));
      forall c: nat | c < s'.created
        ensures c in s'.queue || c in s'.checking.Values || c in s'.held
      {
        if s.created <= c {
          assert s'.queue[|s.queue| + c - s.created] == c;
        }
      }
      assert forall i :: 0 <= i < |s.queue| ==> s.queue[i] in s.queue;
    }
  }

  lemma {:induction false} StepConserves(s: Pool, step: Step)
    requires Conserved(s) && Enabled(s, step) && ThreadsApart(s)
    ensures Conserved(Do(s, step))
  {
    match step
    case Init(made, fails) => InitConserves(s, made, fails);
    case Enter(t) => LookConserves(s, t);
    case WakeSpuriously(t) =>
    case Resume(t) => LookConserves(s.(woken := s.woken - {t}), t);
    case CheckSucceeds(t) => ValuesRemove(s.checking, t);
    case CheckFails(t, chosen) =>
      ValuesRemove(s.checking, t);
      GiveBackConserves(s.(checking := s.checking - {t}), s.checking[t], chosen);
    case Release(conn, chosen) =>
      GiveBackConserves(s.(held := s.held - {conn}), conn, chosen);
  }

  // ----- no lost wakeup

  ghost predicate ThreadsApart(s: Pool) {
    s.waiting !! s.woken && s.waiting !! s.checking.Keys && s.woken !! s.checking.Keys
  }

  /** While a thread sleeps, enough threads are on their way to the queue to take all that is in
      it; and threads only sleep in an initialized pool. */
  ghost predicate NoLostWakeup(s: Pool) {
    && (s.waiting != {} ==> |s.woken| >= |s.queue|)
    && (s.waiting + s.woken != {} ==> s.initialized)
    && ThreadsApart(s)
  }

  /** A thread that looks at the queue takes at least as much as it leaves the others to do. */
  lemma {:induction false} LookKeepsWakeups(s: Pool, t: nat)
    requires ThreadsApart(s) && t !in s.waiting && t !in s.woken && t !in s.checking
    requires s.waiting != {} ==> |s.woken| + 1 >= |s.queue|
    requires s.waiting + s.woken != {} ==> s.initialized
    ensures NoLostWakeup(Look(s, t))
  {
  }

  lemma {:induction false} GiveBackKeepsWakeups(s: Pool, conn: nat, chosen: nat)
    requires NoLostWakeup(s) && Notifies(s, chosen)
    ensures NoLostWakeup(GiveBack(s, conn, chosen))
  {
    if chosen in s.waiting {
      assert |s.woken + {chosen}| == |s.woken| + 1;
    }
  }

  lemma {:induction false} StepKeepsWakeups(s: Pool, step: Step)
    requires NoLostWakeup(s) && Enabled(s, step)
    ensures NoLostWakeup(Do(s, step))
  {
    match step
    case Init(made, fails) =>
    case Enter(t) => LookKeepsWakeups(s, t);
    case WakeSpuriously(t) =>
      assert |s.woken + {t}| == |s.woken| + 1;
    case Resume(t) =>
      assert |s.woken - {t}| == |s.woken| - 1;
      LookKeepsWakeups(s.(woken := s.woken - {t}), t);
    case CheckSucceeds(t) =>
    case CheckFails(t, chosen) =>
      GiveBackKeepsWakeups(s.(checking := s.checking - {t}), s.checking[t], chosen);
    case Release(conn, chosen) =>
      GiveBackKeepsWakeups(s.(held := s.held - {conn}), conn, chosen);
  }

  ghost predicate Sound(s: Pool) {
    Conserved(s) && NoLostWakeup(s)
  }

  lemma {:induction false} RunIsSound(s: Pool, steps: seq<Step>)
    requires Sound(s) && Legal(s, steps)
    ensures Sound(Run(s, steps))
    decreases |steps|
  {
    hide Conserved, NoLostWakeup, Do;
    if steps != [] {
      StepKeepsWakeups(s, steps[0]);
      Apart(s);
      StepConserves(s, steps[0]);
      RunIsSound(Do(s, steps[0]), steps[1..]);
    }
  }

  lemma {:induction false} Apart(s: Pool)
    requires NoLostWakeup(s)
    ensures ThreadsApart(s)
  {
  }

  lemma {:induction false} StartIsSound()
    ensures Sound(START)
  {
  }

  /** In every reachable state: connections are conserved and borrowed exclusively, and no wakeup
      is lost, with newcomers stealing connections, failed checks, failed initializations and
      spurious wakeups included. */
  lemma {:induction false} EveryReachableStateIsSound(steps: seq<Step>)
    requires Legal(START, steps)
    ensures Conserved(Run(START, steps)) && NoLostWakeup(Run(START, steps))
  {
    hide Conserved, NoLostWakeup, Do;
    StartIsSound();
    RunIsSound(START, steps);
  }

  /** A sleeper has something to hope for: a connection is in use and will come back, or a woken
      thread is there that gets one when it runs. */
  ghost predicate Hopeful(s: Pool) {
    || s.held != {}
    || s.checking != map[]
    || exists t :: t in s.woken && Enabled(s, Resume(t)) && t in Do(s, Resume(t)).checking
  }

  lemma {:induction false} SomewhereIff(s: Pool)
    requires Conserved(s)
    ensures s.created > 0 <==> s.queue != [] || s.held != {} || s.checking != map[]
  {
    if t :| t in s.checking {
      assert s.checking[t] in s.checking.Values;
      assert s.checking[t] < s.created;
    }
    if c :| c in s.held {
      assert c < s.created;
    }
    if s.queue != [] {
      assert s.queue[0] in s.queue;
    }
    if s.created > 0 {
      assert 0 in s.queue || 0 in s.checking.Values || 0 in s.held;
    }
  }

  /** While a thread sleeps, there is hope if and only if the pool has connections at all: `init`
      with a size of zero leaves an initialized pool in which a sleeper waits for nothing. */
  lemma {:induction false} SleepersHaveHope(steps: seq<Step>)
    requires Legal(START, steps) && Run(START, steps).waiting != {}
    ensures var s := Run(START, steps);
            Hopeful(s) <==> s.created > 0
  {
    hide Run, Legal;
    EveryReachableStateIsSound(steps);
    var s := Run(START, steps);
    SomewhereIff(s);
    if s.created > 0 && s.held == {} && s.checking == map[] {
      assert 0 in s.queue;
      assert |s.woken| > 0;
      var t :| t in s.woken;
      assert Enabled(s, Resume(t)) && t in Do(s, Resume(t)).checking;
    }
  }

  predicate NobodyWakesUnasked(steps: seq<Step>) {
    forall i :: 0 <= i < |steps| ==> !steps[i].WakeSpuriously?
  }

  /** `more` is a way on from `s` at whose end `t` has popped a connection. */
  ghost predicate Serves(s: Pool, more: seq<Step>, t: nat) {
    Legal(s, more) && NobodyWakesUnasked(more) && t in Run(s, more).checking
  }

  lemma {:induction false} ServesCons(s: Pool, step: Step, more: seq<Step>, t: nat)
    requires Enabled(s, step) && !step.WakeSpuriously? && Serves(Do(s, step), more, t)
    ensures Serves(s, [step] + more, t)
  {
    hide Do, Enabled;
    assert ([step] + more)[1..] == more;
  }

  lemma {:induction false} ReleaseServes(s: Pool, t: nat, conn: nat) returns (more: seq<Step>)
    requires t in s.waiting && conn in s.held
    ensures Serves(s, more, t)
  {
    var s1 := Do(s, Release(conn, t));
    var s2 := Do(s1, Resume(t));
    assert Serves(s2, [], t);
    ServesCons(s1, Resume(t), [], t);
    more := [Release(conn, t)] + ([Resume(t)] + []);
    ServesCons(s, Release(conn, t), [Resume(t)] + [], t);
  }

  lemma {:induction false} CheckServes(s: Pool, t: nat, u: nat) returns (more: seq<Step>)
    requires t in s.waiting && u in s.checking
    ensures Serves(s, more, t)
  {
    hide Serves;
    var later := ReleaseServes(Do(s, CheckSucceeds(u)), t, s.checking[u]);
    more := [CheckSucceeds(u)] + later;
    ServesCons(s, CheckSucceeds(u), later, t);
  }

  lemma {:induction false} SleeperIsServed(s: Pool, t: nat) returns (more: seq<Step>)
    requires Sound(s) && t in s.waiting && s.created > 0
    ensures Serves(s, more, t)
  {
    hide Serves;
    if s.held != {} {
      var conn :| conn in s.held;
      more := ReleaseServes(s, t, conn);
    } else if s.checking != map[] {
      var u :| u in s.checking;
      more := CheckServes(s, t, u);
    } else {
      assert 0 in s.queue;
      assert |s.woken| > 0;
      var u :| u in s.woken;
      var later := CheckServes(Do(s, Resume(u)), t, u);
      more := [Resume(u)] + later;
      ServesCons(s, Resume(u), later, t);
    }
  }

  lemma {:induction false} EmptyPoolStays(s: Pool, more: seq<Step>)
    requires Sound(s) && s.initialized && s.created == 0 && Legal(s, more)
    ensures Run(s, more).checking == map[]
    decreases |more|
  {
    hide Conserved, NoLostWakeup;
    if more == [] {
      SomewhereIff(s);
    } else {
      StepKeepsWakeups(s, more[0]);
      Apart(s);
      StepConserves(s, more[0]);
      EmptyPoolStays(Do(s, more[0]), more[1..]);
    }
  }

  /** No deadlock: from every reachable state, every sleeper can still be served, without any
      spurious wakeup, if and only if the pool has connections. */
  lemma {:induction false} SleeperIsServedIff(steps: seq<Step>, t: nat)
    requires Legal(START, steps) && t in Run(START, steps).waiting
    ensures var s := Run(START, steps);
            (exists more :: Serves(s, more, t)) <==> s.created > 0
  {
    hide Run, Legal, Conserved, Do;
    EveryReachableStateIsSound(steps);
    var s := Run(START, steps);
    if s.created > 0 {
      var more := SleeperIsServed(s, t);
    } else if more :| Serves(s, more, t) {
      EmptyPoolStays(s, more);
    }
  }

  lemma {:induction false} TwoSteps(s: Pool, a: Step, b: Step)
    requires Enabled(s, a) && Enabled(Do(s, a), b)
    ensures Legal(s, [a, b]) && Run(s, [a, b]) == Do(Do(s, a), b)
  {
    hide Do, Enabled;
    var s1, s2 := Do(s, a), Do(Do(s, a), b);
    assert [b][1..] == [] && Legal(s2, []);
    assert Legal(s1, [b]) && Run(s1, [b]) == Run(s2, []) == s2;
    assert [a, b][1..] == [b];
  }

  lemma {:induction false} SleepsInEmpty(s: Pool, t: nat)
    requires s.queue == [] && s.initialized && s.created == 0
    requires s.waiting == {} && s.woken == {} && s.checking == map[]
    ensures Enabled(s, Enter(t)) && t in Do(s, Enter(t)).waiting && Do(s, Enter(t)).created == 0
  {
  }

  lemma {:induction false} EmptyInit(s: Pool)
    requires !s.initialized
    ensures Enabled(s, Init(0, false)) && Do(s, Init(0, false)) == s.(initialized := true)
  {
    assert s.queue + Fresh(s.created, 0) == s.queue;
  }

  /** The failing case is reached: `init` with size zero, then one call. */
  lemma {:induction false} EmptyPoolSleeper(t: nat)
    ensures var steps := [Init(0, false), Enter(t)];
            && Legal(START, steps)
            && t in Run(START, steps).waiting && Run(START, steps).created == 0
  {
    hide Legal, Run, Do, Enabled;
    EmptyInit(START);
    SleepsInEmpty(Do(START, Init(0, false)), t);
    TwoSteps(START, Init(0, false), Enter(t));
  }

  // ----- the order of the queue, who sleeps, and who is woken

  /** The connections that a step puts into the queue. */
  function PutIn(s: Pool, step: Step): seq<nat>
    requires Enabled(s, step)
  {
    match step
    case Init(made, _) => if s.initialized then [] else Fresh(s.created, made)
    case CheckFails(t, _) => [s.checking[t]]
    case Release(conn, _) => [conn]
    case _ => []
  }

  /** The connection that a step takes out for the thread that makes it. */
  function TakenOut(s: Pool, step: Step): seq<nat>
    requires Enabled(s, step)
  {
    match step
    case Enter(t) => if t in Do(s, step).checking then [Do(s, step).checking[t]] else []
    case Resume(t) => if t in Do(s, step).checking then [Do(s, step).checking[t]] else []
    case _ => []
  }

  function AllPutIn(s: Pool, steps: seq<Step>): seq<nat>
    requires Legal(s, steps)
    decreases |steps|
  {
    if steps == [] then [] else PutIn(s, steps[0]) + AllPutIn(Do(s, steps[0]), steps[1..])
  }

  function AllTakenOut(s: Pool, steps: seq<Step>): seq<nat>
    requires Legal(s, steps)
    decreases |steps|
  {
    if steps == [] then [] else TakenOut(s, steps[0]) + AllTakenOut(Do(s, steps[0]), steps[1..])
  }

  lemma {:induction false} StepInOrder(s: Pool, step: Step)
    requires Enabled(s, step) && ThreadsApart(s)
    ensures s.queue + PutIn(s, step) == TakenOut(s, step) + Do(s, step).queue
  {
  }

  /** First in, first out, over every run: what was in the queue and what was put into it since, in
      order, is what was taken out, in order, and then what is still in it. */
  lemma {:induction false} TakenInOrder(s: Pool, steps: seq<Step>)
    requires NoLostWakeup(s) && Legal(s, steps)
    ensures s.queue + AllPutIn(s, steps) == AllTakenOut(s, steps) + Run(s, steps).queue
    decreases |steps|
  {
    hide NoLostWakeup, Do, Enabled, PutIn, TakenOut;
    if steps != [] {
      var s' := Do(s, steps[0]);
      Apart(s);
      StepInOrder(s, steps[0]);
      StepKeepsWakeups(s, steps[0]);
      TakenInOrder(s', steps[1..]);
      Shift(s.queue, PutIn(s, steps[0]), AllPutIn(s', steps[1..]), TakenOut(s, steps[0]), s'.queue,
            AllTakenOut(s', steps[1..]), Run(s', steps[1..]).queue);
    }
  }

  lemma {:induction false} Shift(
      q: seq<nat>, put: seq<nat>, puts: seq<nat>, taken: seq<nat>, q': seq<nat>, takens: seq<nat>, end: seq<nat>)
    requires q + put == taken + q' && q' + puts == takens + end
    ensures q + (put + puts) == taken + takens + end
  {
    assert q + (put + puts) == q + put + puts == taken + (q' + puts);
  }

  /** The pool counts as initialized once an `init` has gone through, and not before. */
  lemma {:induction false} InitializedIff(s: Pool, steps: seq<Step>)
    requires Legal(s, steps)
    ensures Run(s, steps).initialized <==>
            s.initialized || exists i :: 0 <= i < |steps| && steps[i].Init? && !steps[i].fails
    decreases |steps|
  {
    if steps != [] {
      var later := steps[1..];
      InitializedIff(Do(s, steps[0]), later);
      assert forall i :: 0 < i < |steps| ==> steps[i] == later[i - 1];
      assert forall i :: 0 <= i < |later| ==> later[i] == steps[i + 1];
    }
  }

  /** When a caller sleeps, in any reachable state: when the queue is empty and some `init` has gone
      through. Before that, also after one that failed, it gets an exception and leaves no trace;
      and with a connection there, it gets the first. */
  lemma {:induction false} CallerSleepsIff(steps: seq<Step>, t: nat)
    requires Legal(START, steps) && Enabled(Run(START, steps), Enter(t))
    ensures var s, s' := Run(START, steps), Do(Run(START, steps), Enter(t));
            && (t in s'.waiting <==>
                  s.queue == [] && exists i :: 0 <= i < |steps| && steps[i].Init? && !steps[i].fails)
            && (t in s'.checking <==> s.queue != [])
            && (t in s'.checking ==> s.queue == [s'.checking[t]] + s'.queue)
            && (t !in s'.waiting && t !in s'.checking ==> s' == s)
  {
    hide Run, Legal;
    InitializedIff(START, steps);
  }

  /** A connection that comes back wakes exactly one sleeper, if there is one. */
  lemma {:induction false} WakesOne(s: Pool, conn: nat, chosen: nat)
    requires Enabled(s, Release(conn, chosen))
    ensures var s' := Do(s, Release(conn, chosen));
            && s'.held == s.held - {conn} && s'.queue == s.queue + [conn] && s'.checking == s.checking
            && if s.waiting == {} then s'.waiting == {} && s'.woken == s.woken
               else chosen in s.waiting && s'.waiting == s.waiting - {chosen} && s'.woken == s.woken + {chosen}
  {
  }

  /** The threads inside `getConnection`. */
  function Inside(s: Pool): set<nat> {
    s.waiting + s.woken + s.checking.Keys
  }

  lemma {:induction false} LookInside(s: Pool, t: nat)
    ensures Inside(Look(s, t)) == if s.queue != [] || s.initialized then Inside(s) + {t} else Inside(s)
  {
    if s.queue != [] {
      assert s.checking[t := s.queue[0]].Keys == s.checking.Keys + {t};
    }
  }

  lemma {:induction false} GiveBackInside(s: Pool, conn: nat, chosen: nat)
    ensures Inside(GiveBack(s, conn, chosen)) == Inside(s)
  {
  }

  lemma {:induction false} CheckedInside(s: Pool, t: nat)
    requires t in s.checking && ThreadsApart(s)
    ensures Inside(s.(checking := s.checking - {t})) == Inside(s) - {t}
  {
    assert (s.checking - {t}).Keys == s.checking.Keys - {t};
  }

  /** No thread gets lost: a step lets its own thread in or out, and nobody else. It comes in unless it
      leaves with an exception at once, and it leaves when its connection has been checked. */
  lemma {:induction false} ThreadsStayInside(s: Pool, step: Step)
    requires NoLostWakeup(s) && Enabled(s, step)
    ensures var s' := Do(s, step);
            match step
            case Enter(t) => Inside(s') == if s.queue != [] || s.initialized then Inside(s) + {t} else Inside(s)
            case CheckSucceeds(t) => Inside(s') == Inside(s) - {t} && s'.held == s.held + {s.checking[t]}
            case CheckFails(t, _) => Inside(s') == Inside(s) - {t} && s'.queue == s.queue + [s.checking[t]]
            case _ => Inside(s') == Inside(s)
  {
    hide Inside, NoLostWakeup;
    Apart(s);
    match step
    case Init(_, _) => OthersInside(s, step);
    case Enter(t) => LookInside(s, t);
    case WakeSpuriously(_) => OthersInside(s, step);
    case Resume(t) => ResumeInside(s, t);
    case CheckSucceeds(t) =>
      CheckedInside(s, t);
      HeldOutside(s.(checking := s.checking - {t}), s.held + {s.checking[t]});
    case CheckFails(t, chosen) =>
      CheckedInside(s, t);
      GiveBackInside(s.(checking := s.checking - {t}), s.checking[t], chosen);
    case Release(conn, chosen) =>
      HeldOutside(s, s.held - {conn});
      GiveBackInside(s.(held := s.held - {conn}), conn, chosen);
  }

  lemma {:induction false} HeldOutside(s: Pool, held: set<nat>)
    ensures Inside(s.(held := held)) == Inside(s)
  {
  }

  lemma {:induction false} OthersInside(s: Pool, step: Step)
    requires Enabled(s, step) && (step.Init? || step.WakeSpuriously?)
    ensures Inside(Do(s, step)) == Inside(s)
  {
  }

  lemma {:induction false} ResumeInside(s: Pool, t: nat)
    requires NoLostWakeup(s) && t in s.woken
    ensures Inside(Do(s, Resume(t))) == Inside(s)
  {
    LookInside(s.(woken := s.woken - {t}), t);
  }

  // ----- the object

  /** How a turn of the waiting loop ends. */
  datatype Taken = Took(conn: nat) | MustWait | Throws

  /** The pool object. The scheduler's side of the state, which threads sleep or are under way and
      which connections are lent out, is ghost. */
  class DbConnectionPool {
    var connections: seq<nat>
    var created: nat
    var initialized: bool
    ghost var waiting: set<nat>
    ghost var woken: set<nat>
    ghost var checking: map<nat, nat>
    ghost var held: set<nat>

    ghost function Value(): Pool
      reads this
    {
      Pool(connections, created, initialized, waiting, woken, checking, held)
    }

    constructor ()
      ensures Value() == START
    {
      connections, created, initialized := [], 0, false;
      waiting, woken, checking, held := {}, {}, map[], {};
    }

    /** `failsAt` is the connection whose creation throws, if one does. */
    method InitPool(poolSize: nat, failsAt: Option<nat>) returns (thrown: bool)
      requires failsAt.Some? ==> failsAt.value < poolSize
      modifies this
      ensures Value() == Do(old(Value()), Init(if failsAt.Some? then failsAt.value else poolSize, failsAt.Some?))
      ensures thrown == (!old(initialized) && failsAt.Some?)
    {
      if initialized {
        return false;
      }
      var i := 0;
      while i < poolSize
        invariant i <= poolSize && (failsAt.Some? ==> i <= failsAt.value)
        invariant Value() ==
                  old(Value()).(queue := old(connections) + Fresh(old(created), i), created := old(created) + i)
      {
        if failsAt == Some(i) {
          return true;
        }
        connections := connections + [created];
        created := created + 1;
        i := i + 1;
      }
      initialized := true;
      thrown := false;
    }

    /** One turn of the loop in `getConnection`, with the mutex held. */
    method TryTake(ghost t: nat) returns (r: Taken)
      modifies this
      ensures Value() == Look(old(Value()), t)
      ensures match r
              case Took(c) => old(connections) == [c] + connections
              case MustWait => t in waiting && old(connections) == []
              case Throws => Value() == old(Value()) && !initialized && connections == []
    {
      if connections == [] {
        if !initialized {
          return Throws;
        }
        waiting := waiting + {t};
        return MustWait;
      }
      r := Took(connections[0]);
      checking := checking[t := connections[0]];
      connections := connections[1..];
    }

    method GetConnection(ghost t: nat) returns (r: Taken)
      requires Enabled(Value(), Enter(t))
      modifies this
      ensures Value() == Do(old(Value()), Enter(t))
    {
      r := TryTake(t);
    }

    method AfterWakeup(ghost t: nat) returns (r: Taken)
      requires Enabled(Value(), Resume(t))
      modifies this
      ensures Value() == Do(old(Value()), Resume(t))
    {
      woken := woken - {t};
      r := TryTake(t);
    }

    /** The pop's follow-up outside the lock: lend the connection, or put it back and throw. */
    method FinishCheck(ghost t: nat, conn: nat, reachable: bool, ghost chosen: nat)
      requires Enabled(Value(), if reachable then CheckSucceeds(t) else CheckFails(t, chosen)) && checking[t] == conn
      modifies this
      ensures Value() == Do(old(Value()), if reachable then CheckSucceeds(t) else CheckFails(t, chosen))
    {
      checking := checking - {t};
      if reachable {
        held := held + {conn};
      } else {
        PushAndNotify(conn, chosen);
      }
    }

    /** The deleter of a lent connection. */
    method ReleaseConnection(conn: nat, ghost chosen: nat)
      requires Enabled(Value(), Release(conn, chosen))
      modifies this
      ensures Value() == Do(old(Value()), Release(conn, chosen))
    {
      held := held - {conn};
      PushAndNotify(conn, chosen);
    }

    method PushAndNotify(conn: nat, ghost chosen: nat)
      modifies this
      ensures Value() == GiveBack(old(Value()), conn, chosen)
    {
      connections := connections + [conn];
      woken := if chosen in waiting then woken + {chosen} else woken;
      waiting := waiting - {chosen};
    }
  }
}
