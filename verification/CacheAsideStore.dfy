/** The two-level store (CacheAsideStore.h over RedisStore.h and MySqlStore.h): MySQL is the
    authority, Redis a cache that may lose entries and writes. Each call is a few atomic steps on
    the two stores; steps of concurrent calls interleave. */
module CacheAside {
  import opened Text

  /** A row; a ttl of zero or less is stored as NULL and never expires. Expired rows stay. */
  datatype Row = Row(value: string, created: int, ttl: int)
  {
    predicate Live(now: int) {
      ttl > 0 ==> now <= created + ttl
    }
  }

  /** A Redis entry; without a deadline it does not expire on its own. */
  datatype Cached = Cached(value: string, deadline: Option<int>)
  {
    predicate Live(now: int) {
      deadline.Some? ==> now <= deadline.value
    }
  }

  /** Where a thread stands inside a call: what its next step has to do. */
  datatype Pc =
    | Idle
    | AskingMySql(key: string)
    | Backfilling(key: string, value: string, readAt: int)
    | Publishing(key: string, value: string, ttl: int, insertedAt: int)
    | Unpublishing(key: string)

  /** What calls have returned or committed. A hit carries the time its value was read at. */
  datatype Event =
    | Hit(key: string, value: string, time: int)
    | Miss(key: string)
    | Inserted(key: string, value: string)
    | Refused(key: string)

  datatype State = State(
    mysql: map<string, Row>,
    redis: map<string, Cached>,
    pcs: map<nat, Pc>,
    now: int,
    log: seq<Event>)
  {
    function At(t: nat): Pc {
      if t in pcs then pcs[t] else Idle
    }
  }

  datatype Step =
    /** `get`: ask Redis; `blind` is a reply that does not come. */
    | AskRedis(t: nat, key: string, blind: bool)
    /** `get`: ask MySQL. */
    | AskMySql(t: nat)
    /** `get`: write back to Redis; `lost` is a write that does not arrive. */
    | Backfill(t: nat, lost: bool)
    /** `setNX`: INSERT; `fails` is any other SQL error. */
    | Insert(t: nat, key: string, value: string, ttl: int, fails: bool)
    /** `setNX` and `set`: write to Redis. */
    | Publish(t: nat, lost: bool)
    /** `set`: REPLACE. */
    | Replace(t: nat, key: string, value: string, ttl: int)
    /** `del`: DELETE, then DEL. */
    | Delete(t: nat, key: string)
    | Unpublish(t: nat, lost: bool)
    /** The call ends with an exception. */
    | Throw(t: nat)
    /** Redis drops an entry, expired or not. */
    | Drop(key: string)
    | Tick(ticks: nat)

  /** `SET key value EX ttl`. Without a positive ttl the command carries an empty option and a 0,
      and what comes of it is not decided by this program: either nothing is written, which is a
      lost write, or the entry gets no deadline, which is this. */
  function RedisSet(redis: map<string, Cached>, k: string, v: string, ttl: int, now: int): map<string, Cached> {
    redis[k := Cached(v, if ttl > 0 then Some(now + ttl) else None)]
  }

  /** One atomic step; a step that its thread is not ready for does nothing. */
  function Do(s: State, step: Step, backfill: int): State {
    match step
    case AskRedis(t, k, blind) =>
      if !s.At(t).Idle? then s
      else if !blind && k in s.redis && s.redis[k].Live(s.now) then s.(log := s.log + [Hit(k, s.redis[k].value, s.now)])
      else s.(pcs := s.pcs[t := AskingMySql(k)])
    case AskMySql(t) =>
      if !s.At(t).AskingMySql? then s
      else
        var k := s.At(t).key;
        if k in s.mysql && s.mysql[k].Live(s.now)
        then s.(pcs := s.pcs[t := Backfilling(k, s.mysql[k].value, s.now)])
        else s.(pcs := s.pcs[t := Idle], log := s.log + [Miss(k)])
    case Backfill(t, lost) =>
      if !s.At(t).Backfilling? then s
      else
        var pc := s.At(t);
        s.(pcs := s.pcs[t := Idle],
           redis := if lost then s.redis else RedisSet(s.redis, pc.key, pc.value, backfill, s.now),
           log := s.log + [Hit(pc.key, pc.value, pc.readAt)])
    case Insert(t, k, v, ttl, fails) =>
      if !s.At(t).Idle? then s
      else if k in s.mysql || fails then s.(log := s.log + [Refused(k)])
      else s.(mysql := s.mysql[k := Row(v, s.now, ttl)], pcs := s.pcs[t := Publishing(k, v, ttl, s.now)],
              log := s.log + [Inserted(k, v)])
    case Publish(t, lost) =>
      if !s.At(t).Publishing? then s
      else
        var pc := s.At(t);
        s.(pcs := s.pcs[t := Idle],
           redis := if lost then s.redis else RedisSet(s.redis, pc.key, pc.value, pc.ttl, s.now))
    case Replace(t, k, v, ttl) =>
      if !s.At(t).Idle? then s
      else s.(mysql := s.mysql[k := Row(v, s.now, ttl)], pcs := s.pcs[t := Publishing(k, v, ttl, s.now)])
    case Delete(t, k) =>
      if !s.At(t).Idle? then s else s.(mysql := s.mysql - {k}, pcs := s.pcs[t := Unpublishing(k)])
    case Unpublish(t, lost) =>
      if !s.At(t).Unpublishing? then s
      else s.(pcs := s.pcs[t := Idle], redis := if lost then s.redis else s.redis - {s.At(t).key})
    case Throw(t) => s.(pcs := s.pcs[t := Idle])
    case Drop(k) => s.(redis := s.redis - {k})
    case Tick(ticks) => s.(now := s.now + ticks)
  }

  function Run(s: State, steps: seq<Step>, backfill: int): State
    decreases |steps|
  {
    if steps == [] then s else Run(Do(s, steps[0], backfill), steps[1..], backfill)
  }

  /** No call running, nothing cached: the table may hold rows from before. */
  ghost predicate Start(s: State) {
    s.redis == map[] && s.pcs == map[] && s.log == []
  }

  /** The steps of `set` and `del`, which change or remove rows. */
  predicate Rewrites(step: Step) {
    step.Replace? || step.Delete?
  }

  /** Where the thread of a step has to stand for it. */
  predicate ReadyFor(s: State, step: Step) {
    match step
    case AskMySql(t) => s.At(t).AskingMySql?
    case Backfill(t, _) => s.At(t).Backfilling?
    case Publish(t, _) => s.At(t).Publishing?
    case Unpublish(t, _) => s.At(t).Unpublishing?
    case AskRedis(t, _, _) => s.At(t).Idle?
    case Insert(t, _, _, _, _) => s.At(t).Idle?
    case Replace(t, _, _, _) => s.At(t).Idle?
    case Delete(t, _) => s.At(t).Idle?
    case _ => true
  }

  /** A call cannot skip or repeat a step, and what happens around the calls touches one thing each: an
      exception ends its own call, Redis drops one entry, the clock goes on. */
  lemma {:induction false} OtherSteps(s: State, step: Step, backfill: int)
    ensures !ReadyFor(s, step) ==> Do(s, step, backfill) == s
    ensures step.Throw? ==> Do(s, step, backfill) == s.(pcs := s.pcs[step.t := Idle])
    ensures step.Drop? ==> Do(s, step, backfill) == s.(redis := s.redis - {step.key})
    ensures step.Tick? ==> Do(s, step, backfill) == s.(now := s.now + step.ticks)
  {
  }

  // ----- one undisturbed call

  /** A state in which only thread 0 is about to run. */
  function Quiet(mysql: map<string, Row>, redis: map<string, Cached>, now: int): State {
    State(mysql, redis, map[], now, [])
  }

  /** The steps of one undisturbed call, in the order of the source. */
  function GetSteps(s: State, k: string, blind: bool, lost: bool, backfill: int): State {
    Do(Do(Do(s, AskRedis(0, k, blind), backfill), AskMySql(0), backfill), Backfill(0, lost), backfill)
  }

  function SetNXSteps(s: State, k: string, v: string, ttl: int, fails: bool, lost: bool, backfill: int): State {
    Do(Do(s, Insert(0, k, v, ttl, fails), backfill), Publish(0, lost), backfill)
  }

  function SetSteps(s: State, k: string, v: string, ttl: int, lost: bool, backfill: int): State {
    Do(Do(s, Replace(0, k, v, ttl), backfill), Publish(0, lost), backfill)
  }

  function DelSteps(s: State, k: string, lost: bool, backfill: int): State {
    Do(Do(s, Delete(0, k), backfill), Unpublish(0, lost), backfill)
  }

  /** What `set` leaves in Redis under a key, outright. */
  function Entry(v: string, ttl: int, now: int): Cached {
    if ttl > 0 then Cached(v, Some(now + ttl)) else Cached(v, None)
  }

  /** What a `get` gives: the entry of Redis up to and including its deadline; else the row of MySQL,
      for ever if it has no ttl and else up to and including the second its ttl ends, and Redis then
      holds its value for the backfill time; else nothing. */
  lemma {:induction false} GetLaw(
      mysql: map<string, Row>, redis: map<string, Cached>, now: int, k: string, blind: bool, lost: bool, backfill: int)
    ensures var f := GetSteps(Quiet(mysql, redis, now), k, blind, lost, backfill);
            && f.mysql == mysql && f.At(0).Idle? && f.now == now
            && if !blind && k in redis && (redis[k].deadline.None? || now <= redis[k].deadline.value) then
                 f.log == [Hit(k, redis[k].value, now)] && f.redis == redis
               else if k in mysql && (mysql[k].ttl <= 0 || now <= mysql[k].created + mysql[k].ttl) then
                 && f.log == [Hit(k, mysql[k].value, now)]
                 && f.redis == if lost then redis else redis[k := Entry(mysql[k].value, backfill, now)]
               else f.log == [Miss(k)] && f.redis == redis
  {
  }

  /** What the writing calls leave: `setNX` only for a key without any row, live or expired. */
  lemma {:induction false} WriteLaws(
      mysql: map<string, Row>, redis: map<string, Cached>, now: int, k: string, v: string, ttl: int,
      fails: bool, lost: bool, backfill: int)
    ensures var s := Quiet(mysql, redis, now);
            var written := if lost then redis else redis[k := Entry(v, ttl, now)];
            var added, replaced, deleted := SetNXSteps(s, k, v, ttl, fails, lost, backfill),
                SetSteps(s, k, v, ttl, lost, backfill), DelSteps(s, k, lost, backfill);
            && (if k in mysql || fails then added.mysql == mysql && added.redis == redis && added.log == [Refused(k)]
                else && added.mysql == mysql[k := Row(v, now, ttl)] && added.redis == written
                     && added.log == [Inserted(k, v)])
            && added.At(0).Idle? && replaced.At(0).Idle? && deleted.At(0).Idle?
            && replaced.mysql == mysql[k := Row(v, now, ttl)] && replaced.redis == written
            && deleted.mysql == mysql - {k} && deleted.redis == if lost then redis else redis - {k}
  {
  }

  // ----- agreement

  ghost predicate HasValue(s: State, k: string, v: string) {
    k in s.mysql && s.mysql[k].value == v
  }

  ghost predicate PcAgrees(s: State, pc: Pc) {
    match pc
    case Backfilling(k, v, _) => HasValue(s, k, v)
    case Publishing(k, v, _, _) => HasValue(s, k, v)
    case Unpublishing(_) => false
    case _ => true
  }

  ghost predicate EventAgrees(s: State, e: Event) {
    match e
    case Hit(k, v, _) => HasValue(s, k, v)
    case Inserted(k, v) => HasValue(s, k, v)
    case _ => true
  }

  /** Redis, every call under way and everything returned so far agree with the table, and no key
      was inserted twice. */
  ghost predicate Agreement(s: State) {
    && (forall k :: k in s.redis ==> HasValue(s, k, s.redis[k].value))
    && (forall t :: t in s.pcs ==> PcAgrees(s, s.pcs[t]))
    && (forall i :: 0 <= i < |s.log| ==> EventAgrees(s, s.log[i]))
    && (forall i, j :: 0 <= i < j < |s.log| && s.log[i].Inserted? && s.log[j].Inserted? ==>
          s.log[i].key != s.log[j].key)
  }

  /** Rows are only added. */
  ghost predicate Extends(m: map<string, Row>, m': map<string, Row>) {
    forall k :: k in m ==> k in m' && m'[k] == m[k]
  }

  lemma {:induction false} StepExtends(s: State, step: Step, backfill: int)
    requires !Rewrites(step)
    ensures Extends(s.mysql, Do(s, step, backfill).mysql)
  {
  }

  /** Agreement carried over to a state with more rows. */
  lemma {:induction false} AgreementMoves(s: State, s': State)
    requires Agreement(s) && Extends(s.mysql, s'.mysql) && s'.log == s.log && s'.pcs == s.pcs && s'.redis == s.redis
    ensures Agreement(s')
  {
    forall t | t in s'.pcs
      ensures PcAgrees(s', s'.pcs[t])
    {
      assert PcAgrees(s, s.pcs[t]);
    }
    forall i | 0 <= i < |s'.log|
      ensures EventAgrees(s', s'.log[i])
    {
      assert EventAgrees(s, s.log[i]);
    }
  }

  lemma {:induction false} LogAgrees(s: State, e: Event)
    requires Agreement(s) && EventAgrees(s, e)
    requires e.Inserted? ==> forall i :: 0 <= i < |s.log| && s.log[i].Inserted? ==> s.log[i].key != e.key
    ensures Agreement(s.(log := s.log + [e]))
  {
    var s' := s.(log := s.log + [e]);
    forall t | t in s'.pcs
      ensures PcAgrees(s', s'.pcs[t])
    {
      assert PcAgrees(s, s.pcs[t]);
    }
    forall i | 0 <= i < |s'.log|
      ensures EventAgrees(s', s'.log[i])
    {
      assert i < |s.log| ==> EventAgrees(s, s.log[i]);
    }
  }

  lemma {:induction false} PcMoves(s: State, t: nat, pc: Pc)
    requires Agreement(s) && PcAgrees(s, pc)
    ensures Agreement(s.(pcs := s.pcs[t := pc]))
  {
    var s' := s.(pcs := s.pcs[t := pc]);
    forall u | u in s'.pcs
      ensures PcAgrees(s', s'.pcs[u])
    {
      assert u != t ==> PcAgrees(s, s.pcs[u]);
    }
    forall i | 0 <= i < |s'.log|
      ensures EventAgrees(s', s'.log[i])
    {
      assert EventAgrees(s, s.log[i]);
    }
  }

  lemma {:induction false} RedisMoves(s: State, redis: map<string, Cached>, now: int)
    requires Agreement(s)
    requires forall k :: k in redis ==> (k in s.redis && redis[k] == s.redis[k]) || HasValue(s, k, redis[k].value)
    ensures Agreement(s.(redis := redis, now := now))
  {
    var s' := s.(redis := redis, now := now);
    forall k | k in s'.redis
      ensures HasValue(s', k, s'.redis[k].value)
    {
      assert HasValue(s, k, redis[k].value);
    }
    forall t | t in s'.pcs
      ensures PcAgrees(s', s'.pcs[t])
    {
      assert PcAgrees(s, s.pcs[t]);
    }
    forall i | 0 <= i < |s'.log|
      ensures EventAgrees(s', s'.log[i])
    {
      assert EventAgrees(s, s.log[i]);
    }
  }

  lemma {:induction false} InsertKeepsAgreement(s: State, step: Step, backfill: int)
    requires Agreement(s) && step.Insert?
    ensures Agreement(Do(s, step, backfill))
  {
    hide Agreement;
    var k, v := step.key, step.value;
    if s.At(step.t).Idle? {
      if k in s.mysql || step.fails {
        LogAgrees(s, Refused(k));
      } else {
        var s1 := s.(mysql := s.mysql[k := Row(v, s.now, step.ttl)]);
        AgreementMoves(s, s1);
        PcMoves(s1, step.t, Publishing(k, v, step.ttl, s.now));
        assert forall i :: 0 <= i < |s.log| && s.log[i].Inserted? ==> s.log[i].key != k by {
          InsertedHasRow(s);
        }
        LogAgrees(s1.(pcs := s1.pcs[step.t := Publishing(k, v, step.ttl, s.now)]), Inserted(k, v));
      }
    }
  }

  lemma {:induction false} InsertedHasRow(s: State)
    requires Agreement(s)
    ensures forall i :: 0 <= i < |s.log| && s.log[i].Inserted? ==> s.log[i].key in s.mysql
  {
    forall i | 0 <= i < |s.log| && s.log[i].Inserted?
      ensures s.log[i].key in s.mysql
    {
      assert EventAgrees(s, s.log[i]);
    }
  }

  lemma {:induction false} ThreadAgrees(s: State, t: nat)
    requires Agreement(s)
    ensures PcAgrees(s, s.At(t))
  {
  }

  lemma {:induction false} RedisAgrees(s: State, k: string)
    requires Agreement(s) && k in s.redis
    ensures HasValue(s, k, s.redis[k].value)
  {
  }

  lemma {:induction false} StepKeepsAgreement(s: State, step: Step, backfill: int)
    requires Agreement(s) && !Rewrites(step)
    ensures Agreement(Do(s, step, backfill))
  {
    hide Agreement;
    match step
    case AskRedis(t, k, blind) =>
      if k in s.redis {
        RedisAgrees(s, k);
        LogAgrees(s, Hit(k, s.redis[k].value, s.now));
      }
      PcMoves(s, t, AskingMySql(k));
    case AskMySql(t) =>
      if s.At(t).AskingMySql? {
        var k := s.At(t).key;
        LogAgrees(s, Miss(k));
        PcMoves(s.(log := s.log + [Miss(k)]), t, Idle);
        if k in s.mysql {
          PcMoves(s, t, Backfilling(k, s.mysql[k].value, s.now));
        }
      }
    case Backfill(t, lost) =>
      var pc := s.At(t);
      if pc.Backfilling? {
        ThreadAgrees(s, t);
        LogAgrees(s, Hit(pc.key, pc.value, pc.readAt));
        var s1 := s.(log := s.log + [Hit(pc.key, pc.value, pc.readAt)]);
        PcMoves(s1, t, Idle);
        var s2 := s1.(pcs := s.pcs[t := Idle]);
        RedisMoves(s2, RedisSet(s.redis, pc.key, pc.value, backfill, s.now), s.now);
      }
    case Insert(_, _, _, _, _) =>
      InsertKeepsAgreement(s, step, backfill);
    case Publish(t, lost) =>
      var pc := s.At(t);
      if pc.Publishing? {
        ThreadAgrees(s, t);
        PcMoves(s, t, Idle);
        RedisMoves(s.(pcs := s.pcs[t := Idle]), RedisSet(s.redis, pc.key, pc.value, pc.ttl, s.now), s.now);
      }
    case Unpublish(t, _) =>
      ThreadAgrees(s, t);
    case Throw(t) =>
      PcMoves(s, t, Idle);
    case Drop(k) =>
      RedisMoves(s, s.redis - {k}, s.now);
    case Tick(ticks) =>
      RedisMoves(s, s.redis, s.now + ticks);
  }

  /** Agreement over every interleaving of `get` and `setNX`: rows never change, at most one
      `setNX` per key inserts, and Redis and every hit give the value that is in the table. */
  lemma {:induction false} RunAgrees(s: State, steps: seq<Step>, backfill: int)
    requires Agreement(s) && forall i :: 0 <= i < |steps| ==> !Rewrites(steps[i])
    ensures Agreement(Run(s, steps, backfill)) && Extends(s.mysql, Run(s, steps, backfill).mysql)
    decreases |steps|
  {
    hide Agreement, Do;
    if steps != [] {
      StepKeepsAgreement(s, steps[0], backfill);
      StepExtends(s, steps[0], backfill);
      RunAgrees(Do(s, steps[0], backfill), steps[1..], backfill);
    }
  }

  lemma {:induction false} StartAgrees(s: State)
    requires Start(s)
    ensures Agreement(s)
  {
  }

  /** What clients can see of it: everything inserted or read for a key, in any run, is one value. */
  lemma {:induction false} ObservationsAgree(s: State, steps: seq<Step>, backfill: int, i: nat, j: nat)
    requires Start(s) && forall n :: 0 <= n < |steps| ==> !Rewrites(steps[n])
    requires i < j < |Run(s, steps, backfill).log|
    ensures var a, b := Run(s, steps, backfill).log[i], Run(s, steps, backfill).log[j];
            && (a.Hit? && b.Hit? && a.key == b.key ==> a.value == b.value)
            && (a.Inserted? && b.Hit? && a.key == b.key ==> a.value == b.value)
            && (a.Inserted? && b.Inserted? ==> a.key != b.key)
  {
    hide Do;
    StartAgrees(s);
    RunAgrees(s, steps, backfill);
    var f := Run(s, steps, backfill);
    assert EventAgrees(f, f.log[i]) && EventAgrees(f, f.log[j]);
  }

  // ----- what a key serves after set and del

  /** The steps that give a key a value. */
  predicate Gives(step: Step, k: string) {
    (step.Insert? || step.Replace?) && step.key == k
  }

  predicate Writes(pc: Pc, k: string) {
    (pc.Backfilling? || pc.Publishing?) && pc.key == k
  }

  /** Nothing can serve any other value for the key than `only`, and none at all if that is `None`:
      no live row, no live entry and no thread on its way to Redis has one. */
  ghost predicate Settled(s: State, k: string, only: Option<string>) {
    && (k in s.mysql && s.mysql[k].Live(s.now) ==> only == Some(s.mysql[k].value))
    && (k in s.redis && s.redis[k].Live(s.now) ==> only == Some(s.redis[k].value))
    && NoOtherWriter(s, k, only)
  }

  ghost predicate NoOtherWriter(s: State, k: string, only: Option<string>) {
    forall t :: t in s.pcs && Writes(s.pcs[t], k) ==> only == Some(s.pcs[t].value)
  }

  ghost predicate HitsSince(s: State, f: State, k: string, only: Option<string>) {
    forall i :: |s.log| <= i < |f.log| && f.log[i].Hit? && f.log[i].key == k ==> only == Some(f.log[i].value)
  }

  /** Whatever happens from `s` on, short of giving the key a value: it serves `only`. */
  ghost predicate ServesOnly(s: State, k: string, only: Option<string>, backfill: int) {
    forall steps | (forall i :: 0 <= i < |steps| ==> !Gives(steps[i], k)) ::
      HitsSince(s, Run(s, steps, backfill), k, only)
  }

  lemma {:induction false} StepKeepsSettled(s: State, step: Step, k: string, only: Option<string>, backfill: int)
    requires Settled(s, k, only) && !Gives(step, k)
    ensures Settled(Do(s, step, backfill), k, only)
  {
  }

  lemma {:induction false} StepServes(s: State, step: Step, k: string, only: Option<string>, backfill: int)
    requires Settled(s, k, only)
    ensures HitsSince(s, Do(s, step, backfill), k, only) && s.log <= Do(s, step, backfill).log
  {
  }

  lemma {:induction false} RunServes(s: State, steps: seq<Step>, k: string, only: Option<string>, backfill: int)
    requires Settled(s, k, only) && forall i :: 0 <= i < |steps| ==> !Gives(steps[i], k)
    ensures HitsSince(s, Run(s, steps, backfill), k, only) && s.log <= Run(s, steps, backfill).log
    decreases |steps|
  {
    hide Do, Settled;
    if steps != [] {
      StepKeepsSettled(s, steps[0], k, only, backfill);
      StepServes(s, steps[0], k, only, backfill);
      RunServes(Do(s, steps[0], backfill), steps[1..], k, only, backfill);
    }
  }

  /** A way to be served by Redis: some call asks it. */
  lemma {:induction false} EntryIsServed(s: State, k: string, backfill: int)
    requires k in s.redis && s.redis[k].Live(s.now)
    ensures var f := Run(s, [Throw(0), AskRedis(0, k, false)], backfill);
            f.log == s.log + [Hit(k, s.redis[k].value, s.now)]
  {
    RunTwo(s, Throw(0), AskRedis(0, k, false), backfill);
  }

  /** And one by MySQL, on a reply from Redis that does not come. */
  lemma {:induction false} RowIsServed(s: State, k: string, backfill: int)
    requires k in s.mysql && s.mysql[k].Live(s.now)
    ensures var f := Run(s, [Throw(0), AskRedis(0, k, true), AskMySql(0), Backfill(0, true)], backfill);
            f.log == s.log + [Hit(k, s.mysql[k].value, s.now)]
  {
    var s2 := Do(Do(s, Throw(0), backfill), AskRedis(0, k, true), backfill);
    assert s2.At(0) == AskingMySql(k);
    var s3 := Do(s2, AskMySql(0), backfill);
    assert s3.At(0) == Backfilling(k, s.mysql[k].value, s.now);
    RunFour(s, Throw(0), AskRedis(0, k, true), AskMySql(0), Backfill(0, true), backfill);
  }

  /** A thread on its way to Redis has its value served to a call that starts after it is done. */
  lemma {:induction false} WriterIsServed(s: State, t: nat, k: string, backfill: int) returns (steps: seq<Step>)
    requires Writes(s.At(t), k)
    ensures |steps| == 2 && steps[1] == AskRedis(t, k, false)
    ensures steps[0] == Backfill(t, false) || steps[0] == Publish(t, false)
    ensures var f := Run(s, steps, backfill);
            |f.log| > |s.log| && f.log[|f.log| - 1] == Hit(k, s.At(t).value, s.now)
  {
    var write := if s.At(t).Backfilling? then Backfill(t, false) else Publish(t, false);
    steps := [write, AskRedis(t, k, false)];
    RunTwo(s, write, AskRedis(t, k, false), backfill);
  }

  /** What a key can serve: in all interleavings that do not give it a value again, it serves `only`,
      or nothing, if and only if nothing is left that could serve anything else. */
  lemma {:induction false} ServesOnlyIff(s: State, k: string, only: Option<string>, backfill: int)
    ensures ServesOnly(s, k, only, backfill) <==> Settled(s, k, only)
  {
    hide Do, Run;
    if Settled(s, k, only) {
      forall steps | forall i :: 0 <= i < |steps| ==> !Gives(steps[i], k)
        ensures HitsSince(s, Run(s, steps, backfill), k, only)
      {
        RunServes(s, steps, k, only, backfill);
      }
    } else if k in s.redis && s.redis[k].Live(s.now) && only != Some(s.redis[k].value) {
      EntryIsServed(s, k, backfill);
      HitRefutes(s, [Throw(0), AskRedis(0, k, false)], k, only, backfill);
    } else if k in s.mysql && s.mysql[k].Live(s.now) && only != Some(s.mysql[k].value) {
      RowIsServed(s, k, backfill);
      HitRefutes(s, [Throw(0), AskRedis(0, k, true), AskMySql(0), Backfill(0, true)], k, only, backfill);
    } else {
      var t :| t in s.pcs && Writes(s.pcs[t], k) && only != Some(s.pcs[t].value);
      var steps := WriterIsServed(s, t, k, backfill);
      HitRefutes(s, steps, k, only, backfill);
    }
  }

  lemma {:induction false} HitRefutes(s: State, steps: seq<Step>, k: string, only: Option<string>, backfill: int)
    requires forall i :: 0 <= i < |steps| ==> !Gives(steps[i], k)
    requires var log := Run(s, steps, backfill).log;
             && |log| > |s.log| && log[|log| - 1].Hit?
             && log[|log| - 1].key == k && only != Some(log[|log| - 1].value)
    ensures !ServesOnly(s, k, only, backfill)
  {
    var f := Run(s, steps, backfill);
    assert !HitsSince(s, f, k, only);
  }

  /** The row of `k` is there, and it is in its time, if it has one. */
  predicate InTime(s: State, k: string) {
    k in s.mysql && (s.mysql[k].ttl <= 0 || s.now <= s.mysql[k].created + s.mysql[k].ttl)
  }

  ghost predicate NoMissSince(s: State, f: State, k: string) {
    forall i :: |s.log| <= i < |f.log| ==> f.log[i] != Miss(k)
  }

  lemma {:induction false} StepDoesNotMiss(s: State, step: Step, k: string, backfill: int)
    requires InTime(s, k)
    ensures var s' := Do(s, step, backfill);
            NoMissSince(s, s', k) && s.log <= s'.log && s.now <= s'.now
  {
  }

  /** A link is never missed before its time is up: in every interleaving that does not rewrite or
      delete its row, no `get` of it comes back empty, and one without a ttl is never missed at all. */
  lemma {:induction false} NeverMissedInTime(s: State, steps: seq<Step>, k: string, backfill: int)
    requires k in s.mysql && forall i :: 0 <= i < |steps| ==> !RewritesKey(steps[i], k)
    requires var row := s.mysql[k];
             row.ttl <= 0 || Run(s, steps, backfill).now <= row.created + row.ttl
    ensures NoMissSince(s, Run(s, steps, backfill), k) && s.log <= Run(s, steps, backfill).log
    decreases |steps|
  {
    hide Do;
    TimePasses(s, steps, backfill);
    if steps != [] {
      StepDoesNotMiss(s, steps[0], k, backfill);
      RowStays(s, steps[0], k, backfill);
      NeverMissedInTime(Do(s, steps[0], backfill), steps[1..], k, backfill);
    }
  }

  lemma {:induction false} TimePasses(s: State, steps: seq<Step>, backfill: int)
    ensures s.now <= Run(s, steps, backfill).now
    decreases |steps|
  {
    if steps != [] {
      TimePasses(Do(s, steps[0], backfill), steps[1..], backfill);
    }
  }

  /** When a `del` is final, whatever other calls did between its two steps: after its last one the
      key serves nothing, until it is given a value again, if and only if there is no live row, no
      other call is on its way to Redis with a value for it and, should the DEL be lost, no live
      entry is there. */
  lemma {:induction false} DeleteIsFinalIff(s: State, u: nat, k: string, lost: bool, backfill: int)
    requires s.At(u) == Unpublishing(k)
    ensures ServesOnly(Do(s, Unpublish(u, lost), backfill), k, None, backfill) <==>
            && NoOtherWriter(s, k, None)
            && (k in s.mysql ==> !s.mysql[k].Live(s.now))
            && (lost && k in s.redis ==> !s.redis[k].Live(s.now))
  {
    hide ServesOnly, NoOtherWriter;
    var f := Do(s, Unpublish(u, lost), backfill);
    ServesOnlyIff(f, k, None, backfill);
    OneIdleMore(s, f, u, k, None);
  }

  /** The same for `set` and `setNX`: after the last step of a call that publishes `v`, the key serves
      no other value, until it is given one, if and only if no live row has another, no other call is
      on its way with another and, should the write be lost, no live entry has another. */
  lemma {:induction false} SetIsFinalIff(s: State, u: nat, k: string, v: string, lost: bool, backfill: int)
    requires s.At(u).Publishing? && s.At(u).key == k && s.At(u).value == v
    ensures ServesOnly(Do(s, Publish(u, lost), backfill), k, Some(v), backfill) <==>
            && NoOtherWriter(s, k, Some(v))
            && (k in s.mysql && s.mysql[k].Live(s.now) ==> s.mysql[k].value == v)
            && (lost && k in s.redis && s.redis[k].Live(s.now) ==> s.redis[k].value == v)
  {
    hide ServesOnly, NoOtherWriter;
    var f := Do(s, Publish(u, lost), backfill);
    ServesOnlyIff(f, k, Some(v), backfill);
    OneIdleMore(s, f, u, k, Some(v));
  }

  /** A `del` that no other call interrupts. */
  lemma {:induction false} UninterruptedDelete(s: State, u: nat, k: string, lost: bool, backfill: int)
    requires s.At(u).Idle?
    ensures ServesOnly(Run(s, [Delete(u, k), Unpublish(u, lost)], backfill), k, None, backfill) <==>
            && NoOtherWriter(s, k, None)
            && (lost && k in s.redis ==> !s.redis[k].Live(s.now))
  {
    hide ServesOnly, NoOtherWriter, Run;
    RunTwo(s, Delete(u, k), Unpublish(u, lost), backfill);
    var f := Do(s, Delete(u, k), backfill);
    NewWriter(s, f, u, k, None);
    DeleteIsFinalIff(f, u, k, lost, backfill);
  }

  /** A `set` that no other call interrupts. */
  lemma {:induction false} UninterruptedSet(s: State, u: nat, k: string, v: string, ttl: int, lost: bool, backfill: int)
    requires s.At(u).Idle?
    ensures ServesOnly(Run(s, [Replace(u, k, v, ttl), Publish(u, lost)], backfill), k, Some(v), backfill) <==>
            && NoOtherWriter(s, k, Some(v))
            && (lost && k in s.redis && s.redis[k].Live(s.now) ==> s.redis[k].value == v)
  {
    hide ServesOnly, NoOtherWriter, Run;
    RunTwo(s, Replace(u, k, v, ttl), Publish(u, lost), backfill);
    var f := Do(s, Replace(u, k, v, ttl), backfill);
    NewWriter(s, f, u, k, Some(v));
    SetIsFinalIff(f, u, k, v, lost, backfill);
  }

  /** A thread that stops writing another value does not matter: before its last step it wrote
      nothing else. */
  lemma {:induction false} OneIdleMore(s: State, f: State, u: nat, k: string, only: Option<string>)
    requires f.pcs == s.pcs[u := Idle]
    requires Writes(s.At(u), k) ==> only == Some(s.At(u).value)
    ensures NoOtherWriter(f, k, only) <==> NoOtherWriter(s, k, only)
  {
    if NoOtherWriter(f, k, only) {
      forall t | t in s.pcs && Writes(s.pcs[t], k)
        ensures only == Some(s.pcs[t].value)
      {
        assert t in f.pcs && (t != u ==> f.pcs[t] == s.pcs[t]);
      }
    }
  }

  lemma {:induction false} NewWriter(s: State, f: State, u: nat, k: string, only: Option<string>)
    requires s.At(u).Idle? && f.pcs == s.pcs[u := f.At(u)]
    requires Writes(f.At(u), k) ==> only == Some(f.At(u).value)
    ensures NoOtherWriter(f, k, only) <==> NoOtherWriter(s, k, only)
  {
    if NoOtherWriter(f, k, only) {
      forall t | t in s.pcs && Writes(s.pcs[t], k)
        ensures only == Some(s.pcs[t].value)
      {
        assert t in f.pcs && f.pcs[t] == s.pcs[t];
      }
    }
  }

  /** The failing family: a reader has read a row but not yet filled Redis, a complete `del` comes
      first, and a call that starts after it gets the deleted value. */
  lemma {:induction false} DeletedValueComesBack(s: State, t: nat, u: nat, backfill: int)
    requires s.At(t).Backfilling? && s.At(u).Idle?
    ensures var k, v := s.At(t).key, s.At(t).value;
            var f := Run(s, [Delete(u, k), Unpublish(u, false), Backfill(t, false), AskRedis(u, k, false)], backfill);
            k !in f.mysql && f.log != [] && f.log[|f.log| - 1] == Hit(k, v, s.now)
  {
    var k := s.At(t).key;
    var a, b, c, d := Delete(u, k), Unpublish(u, false), Backfill(t, false), AskRedis(u, k, false);
    var s1 := Do(s, a, backfill);
    var s2 := Do(s1, b, backfill);
    var s3 := Do(s2, c, backfill);
    assert s3.redis == RedisSet(s2.redis, k, s.At(t).value, backfill, s.now);
    var s4 := Do(s3, d, backfill);
    RunFour(s, a, b, c, d, backfill);
  }

  lemma {:induction false} RunTwo(s: State, a: Step, b: Step, n: int)
    ensures Run(s, [a, b], n) == Do(Do(s, a, n), b, n)
  {
    hide Do;
    assert [a, b][1..] == [b] && [b][1..] == [];
    assert Run(Do(s, a, n), [b], n) == Do(Do(s, a, n), b, n);
  }

  lemma {:induction false} RunFour(s: State, a: Step, b: Step, c: Step, d: Step, n: int)
    ensures Run(s, [a, b, c, d], n) == Do(Do(Do(Do(s, a, n), b, n), c, n), d, n)
  {
    hide Do;
    assert [a, b, c, d][1..] == [b, c, d] && [b, c, d][1..] == [c, d] && [c, d][1..] == [d];
    var s2 := Do(Do(s, a, n), b, n);
    assert Run(s, [a, b, c, d], n) == Run(s2, [c, d], n);
    assert [d][1..] == [];
    assert Run(s2, [c, d], n) == Run(Do(s2, c, n), [d], n) == Do(Do(s2, c, n), d, n);
  }

  // ----- staleness

  /** The steps that write to Redis: a backfill, or what `setNX` and `set` publish. */
  predicate WritesNow(s: State, step: Step, k: string) {
    || (step.Backfill? && s.At(step.t).Backfilling? && s.At(step.t).key == k)
    || (step.Publish? && s.At(step.t).Publishing? && s.At(step.t).key == k)
  }

  /** The ttl that such a step gives its entry. */
  function TtlGiven(pc: Pc, backfill: int): int
    requires pc.Backfilling? || pc.Publishing?
  {
    if pc.Backfilling? then backfill else pc.ttl
  }

  /** A write of `k` that arrives with an entry that outlives the row by more than `spare`. */
  predicate Overlong(s: State, step: Step, k: string, spare: int, backfill: int) {
    && WritesNow(s, step, k) && !step.lost && k in s.mysql && s.mysql[k].ttl > 0
    && var ttl := TtlGiven(s.At(step.t), backfill);
    ttl <= 0 || s.now + ttl > s.mysql[k].created + s.mysql[k].ttl + spare
  }

  predicate NoneOverlong(s: State, steps: seq<Step>, k: string, spare: int, backfill: int)
    decreases |steps|
  {
    || steps == []
    || (&& !Overlong(s, steps[0], k, spare, backfill)
        && NoneOverlong(Do(s, steps[0], backfill), steps[1..], k, spare, backfill))
  }

  predicate RewritesKey(step: Step, k: string) {
    Rewrites(step) && step.key == k
  }

  /** `time` is no later than the row's ttl and `spare` allow. */
  ghost predicate Timely(s: State, k: string, time: int, spare: int) {
    k in s.mysql && (s.mysql[k].ttl > 0 ==> time <= s.mysql[k].created + s.mysql[k].ttl + spare)
  }

  /** What a call under way for `k` carries belongs to the row that is there. */
  ghost predicate PcTimely(s: State, pc: Pc, k: string) {
    match pc
    case Backfilling(key, _, readAt) => key == k ==> Timely(s, k, readAt, 0)
    case Publishing(key, _, ttl, insertedAt) =>
      key == k ==> k in s.mysql && s.mysql[k].ttl == ttl && s.mysql[k].created == insertedAt
    case Unpublishing(key) => key != k
    case _ => true
  }

  ghost predicate EntryTimely(s: State, k: string, spare: int) {
    && k in s.redis && k in s.mysql
    && (s.redis[k].deadline.None? ==> s.mysql[k].ttl <= 0)
    && (s.redis[k].deadline.Some? ==> Timely(s, k, s.redis[k].deadline.value, spare))
  }

  /** Nothing read for `k`, or to be read from Redis, outlives its row by more than `spare`. */
  ghost predicate Staleness(s: State, k: string, spare: int) {
    && (k in s.redis ==> EntryTimely(s, k, spare))
    && (forall t :: t in s.pcs ==> PcTimely(s, s.pcs[t], k))
    && (forall i :: 0 <= i < |s.log| && s.log[i].Hit? && s.log[i].key == k ==> Timely(s, k, s.log[i].time, spare))
  }

  lemma {:induction false} RowStays(s: State, step: Step, k: string, backfill: int)
    requires !RewritesKey(step, k) && k in s.mysql
    ensures var s' := Do(s, step, backfill);
            k in s'.mysql && s'.mysql[k] == s.mysql[k]
  {
  }

  lemma {:induction false} StepKeepsStaleness(s: State, step: Step, k: string, spare: nat, backfill: int)
    requires Staleness(s, k, spare) && !RewritesKey(step, k) && !Overlong(s, step, k, spare, backfill)
    ensures Staleness(Do(s, step, backfill), k, spare)
  {
    var s' := Do(s, step, backfill);
    hide Do, Timely, EntryTimely, PcTimely, Overlong;
    forall t | t in s'.pcs
      ensures PcTimely(s', s'.pcs[t], k)
    {
      PcsStayTimely(s, step, k, spare, backfill, t);
    }
    forall i | 0 <= i < |s'.log| && s'.log[i].Hit? && s'.log[i].key == k
      ensures Timely(s', k, s'.log[i].time, spare)
    {
      HitsStayTimely(s, step, k, spare, backfill, i);
    }
    if k in s'.redis {
      EntriesStayTimely(s, step, k, spare, backfill);
    }
  }

  lemma {:induction false} PcsStayTimely(s: State, step: Step, k: string, spare: nat, backfill: int, t: nat)
    requires Staleness(s, k, spare) && !RewritesKey(step, k) && t in Do(s, step, backfill).pcs
    ensures PcTimely(Do(s, step, backfill), Do(s, step, backfill).pcs[t], k)
  {
    if k in s.mysql {
      RowStays(s, step, k, backfill);
    }
    if t in s.pcs {
      assert PcTimely(s, s.pcs[t], k);
      if Do(s, step, backfill).pcs[t] == s.pcs[t] {
        PcTimelyMoves(s, Do(s, step, backfill), s.pcs[t], k);
      }
    }
  }

  lemma {:induction false} PcTimelyMoves(s: State, s': State, pc: Pc, k: string)
    requires PcTimely(s, pc, k) && (k in s.mysql ==> k in s'.mysql && s'.mysql[k] == s.mysql[k])
    ensures PcTimely(s', pc, k)
  {
  }

  lemma {:induction false} HitsStayTimely(s: State, step: Step, k: string, spare: nat, backfill: int, i: nat)
    requires Staleness(s, k, spare) && !RewritesKey(step, k)
    requires var log := Do(s, step, backfill).log; i < |log| && log[i].Hit? && log[i].key == k
    ensures var s' := Do(s, step, backfill);
            Timely(s', k, s'.log[i].time, spare)
  {
    if k in s.mysql {
      RowStays(s, step, k, backfill);
    }
    if i < |s.log| {
      assert Do(s, step, backfill).log[i] == s.log[i];
    } else if step.AskRedis? {
      assert EntryTimely(s, k, spare);
    } else {
      assert PcTimely(s, s.At(step.t), k);
    }
  }

  lemma {:induction false} EntriesStayTimely(s: State, step: Step, k: string, spare: nat, backfill: int)
    requires Staleness(s, k, spare) && !RewritesKey(step, k) && !Overlong(s, step, k, spare, backfill)
    requires k in Do(s, step, backfill).redis
    ensures EntryTimely(Do(s, step, backfill), k, spare)
  {
    if k in s.mysql {
      RowStays(s, step, k, backfill);
    }
    if step.Backfill? || step.Publish? {
      assert s.At(step.t).Idle? || PcTimely(s, s.At(step.t), k);
    }
    if k in s.redis {
      assert EntryTimely(s, k, spare);
    }
  }

  /** Staleness over every interleaving: a row with a ttl is served no later than its ttl and
      `spare` allow, if no write of its key to Redis is overlong. */
  lemma {:induction false} RunIsTimely(s: State, steps: seq<Step>, k: string, spare: nat, backfill: int)
    requires Staleness(s, k, spare) && NoneOverlong(s, steps, k, spare, backfill)
    requires forall i :: 0 <= i < |steps| ==> !RewritesKey(steps[i], k)
    ensures Staleness(Run(s, steps, backfill), k, spare)
    decreases |steps|
  {
    hide Staleness, Do, Overlong;
    if steps != [] {
      StepKeepsStaleness(s, steps[0], k, spare, backfill);
      RunIsTimely(Do(s, steps[0], backfill), steps[1..], k, spare, backfill);
    }
  }

  /** A link is served too late only because of an overlong write: a run without one serves it no
      later than created + ttl + spare. */
  lemma {:induction false} LateOnlyByOverlongWrite(s: State, steps: seq<Step>, spare: nat, backfill: int, i: nat)
    requires Start(s)
    requires var log := Run(s, steps, backfill).log;
             && i < |log| && log[i].Hit? && NoneOverlong(s, steps, log[i].key, spare, backfill)
             && forall n :: 0 <= n < |steps| ==> !RewritesKey(steps[n], log[i].key)
    ensures var f := Run(s, steps, backfill);
            Timely(f, f.log[i].key, f.log[i].time, spare)
  {
    hide Do, NoneOverlong, Timely;
    RunIsTimely(s, steps, Run(s, steps, backfill).log[i].key, spare, backfill);
  }

  // ----- which writes are overlong

  /** The step with which a thread on its way to Redis writes. */
  function WriteOf(s: State, t: nat): Step
    requires s.At(t).Backfilling? || s.At(t).Publishing?
  {
    if s.At(t).Backfilling? then Backfill(t, false) else Publish(t, false)
  }

  /** After the write of `t` and `n` more seconds, `u` is served later than `spare` allows. */
  ghost predicate ServedLate(s: State, t: nat, u: nat, k: string, n: nat, spare: int, backfill: int)
    requires Writes(s.At(t), k)
  {
    var write := WriteOf(s, t);
    var log, f := Do(s, write, backfill).log, Run(s, [write, Tick(n), AskRedis(u, k, false)], backfill);
    |f.log| == |log| + 1 && f.log[|log|].Hit? && !Timely(f, k, f.log[|log|].time, spare)
  }

  /** And every overlong write is such a cause: what a thread writes to Redis can be read too late if
      and only if, when it arrives, it outlives the row. */
  lemma {:induction false} ServedLateIff(s: State, t: nat, u: nat, k: string, spare: nat, backfill: int)
    requires Writes(s.At(t), k) && k in s.mysql && (s.At(u).Idle? || u == t)
    ensures (exists n :: ServedLate(s, t, u, k, n, spare, backfill)) <==>
            Overlong(s, WriteOf(s, t), k, spare, backfill)
  {
    hide ServedLate;
    var ttl := TtlGiven(s.At(t), backfill);
    var end := s.mysql[k].created + s.mysql[k].ttl + spare;
    forall n: nat
      ensures ServedLate(s, t, u, k, n, spare, backfill) <==>
              s.mysql[k].ttl > 0 && s.now + n > end && (ttl <= 0 || n <= ttl)
    {
      ServedLateAt(s, t, u, k, n, spare, backfill);
    }
    if Overlong(s, WriteOf(s, t), k, spare, backfill) {
      var n: nat := if ttl > 0 then ttl else if end < s.now then 0 else end - s.now + 1;
      assert ServedLate(s, t, u, k, n, spare, backfill);
    }
  }

  lemma {:induction false} ServedLateAt(s: State, t: nat, u: nat, k: string, n: nat, spare: nat, backfill: int)
    requires Writes(s.At(t), k) && k in s.mysql && (s.At(u).Idle? || u == t)
    ensures ServedLate(s, t, u, k, n, spare, backfill) <==>
            var row, ttl := s.mysql[k], TtlGiven(s.At(t), backfill);
            row.ttl > 0 && s.now + n > row.created + row.ttl + spare && (ttl <= 0 || n <= ttl)
  {
    hide Run;
    var ttl := TtlGiven(s.At(t), backfill);
    var a, b, c := WriteOf(s, t), Tick(n), AskRedis(u, k, false);
    RunThree(s, a, b, c, backfill);
    var s1 := Do(s, a, backfill);
    var s2 := Do(s1, b, backfill);
    assert s2.redis[k] == Cached(s.At(t).value, if ttl > 0 then Some(s.now + ttl) else None);
    assert s2.mysql == s.mysql && s2.now == s.now + n && s2.log == s1.log && s2.At(u).Idle?;
  }

  lemma {:induction false} RunThree(s: State, a: Step, b: Step, c: Step, n: int)
    ensures Run(s, [a, b, c], n) == Do(Do(Do(s, a, n), b, n), c, n)
  {
    hide Do;
    assert [a, b, c][1..] == [b, c];
    RunTwo(Do(s, a, n), b, c, n);
  }

  /** When a publish is overlong: when it comes later than `spare` after its INSERT. */
  lemma {:induction false} OverlongPublishIff(s: State, t: nat, k: string, spare: nat, backfill: int)
    requires s.At(t).Publishing? && s.At(t).key == k && PcTimely(s, s.At(t), k)
    ensures Overlong(s, Publish(t, false), k, spare, backfill) <==>
            s.At(t).ttl > 0 && s.now > s.At(t).insertedAt + spare
  {
  }

  /** A write of `k` comes at most `delay` after the step that decided it. */
  predicate Prompt(s: State, step: Step, k: string, delay: nat) {
    WritesNow(s, step, k) ==>
      var pc := s.At(step.t);
      s.now <= (if pc.Backfilling? then pc.readAt else pc.insertedAt) + delay
  }

  predicate PromptRun(s: State, steps: seq<Step>, k: string, delay: nat, backfill: int)
    decreases |steps|
  {
    || steps == []
    || (Prompt(s, steps[0], k, delay) && PromptRun(Do(s, steps[0], backfill), steps[1..], k, delay, backfill))
  }

  /** How far a backfill reaches; one without a positive ttl must not arrive at all. */
  function Reach(backfill: int): nat {
    if backfill > 0 then backfill else 0
  }

  predicate Arrives(step: Step, backfill: int) {
    step.Backfill? && !step.lost && backfill <= 0
  }

  /** A prompt write is overlong by no more than the delay and the reach of a backfill. */
  lemma {:induction false} PromptRunsFit(s: State, steps: seq<Step>, k: string, delay: nat, backfill: int)
    requires Staleness(s, k, delay + Reach(backfill))
    requires forall i :: 0 <= i < |steps| ==> !RewritesKey(steps[i], k) && !Arrives(steps[i], backfill)
    requires PromptRun(s, steps, k, delay, backfill)
    ensures NoneOverlong(s, steps, k, delay + Reach(backfill), backfill)
    decreases |steps|
  {
    hide Staleness, Do, Prompt, Overlong;
    if steps != [] {
      PromptFits(s, steps[0], k, delay, backfill);
      StepKeepsStaleness(s, steps[0], k, delay + Reach(backfill), backfill);
      PromptRunsFit(Do(s, steps[0], backfill), steps[1..], k, delay, backfill);
    }
  }

  lemma {:induction false} PromptFits(s: State, step: Step, k: string, delay: nat, backfill: int)
    requires Staleness(s, k, delay + Reach(backfill)) && Prompt(s, step, k, delay) && !Arrives(step, backfill)
    ensures !Overlong(s, step, k, delay + Reach(backfill), backfill)
  {
    if WritesNow(s, step, k) {
      assert PcTimely(s, s.At(step.t), k);
    }
  }

  /** Calls that write to Redis at most `delay` after they decided to: a hit at `time` implies
      time <= created + ttl + delay + backfill; for calls at one clock reading the delay is zero. */
  lemma {:induction false} HitWithinTtlAndBackfill(s: State, steps: seq<Step>, delay: nat, backfill: int, i: nat)
    requires Start(s)
    requires var log := Run(s, steps, backfill).log;
             && i < |log| && log[i].Hit? && PromptRun(s, steps, log[i].key, delay, backfill)
             && forall n :: 0 <= n < |steps| ==> !RewritesKey(steps[n], log[i].key) && !Arrives(steps[n], backfill)
    ensures var f := Run(s, steps, backfill);
            Timely(f, f.log[i].key, f.log[i].time, delay + Reach(backfill))
  {
    hide Do, PromptRun, Timely;
    var k := Run(s, steps, backfill).log[i].key;
    PromptRunsFit(s, steps, k, delay, backfill);
    RunIsTimely(s, steps, k, delay + Reach(backfill), backfill);
  }

  /** A link served too late without any backfill: its publish came `delay` after its INSERT. */
  lemma {:induction false} SlowPublishIsLate(k: string, v: string, ttl: nat, delay: nat, backfill: int)
    requires ttl > 0
    ensures var s := State(map[], map[], map[], 0, []);
            var ask := AskRedis(1, k, false);
            var steps := [Insert(1, k, v, ttl, false), Tick(delay), Publish(1, false), Tick(ttl), ask];
            var f := Run(s, steps, backfill);
            f.log == [Inserted(k, v), Hit(k, v, delay + ttl)] && f.mysql == map[k := Row(v, 0, ttl)]
  {
    hide Run;
    var s0 := State(map[], map[], map[], 0, []);
    var s1 := State(map[k := Row(v, 0, ttl)], map[], map[1 := Publishing(k, v, ttl, 0)], 0, [Inserted(k, v)]);
    var a, b, c, d, e := Insert(1, k, v, ttl, false), Tick(delay), Publish(1, false), Tick(ttl), AskRedis(1, k, false);
    RunsFirst(s0, [a, b, c, d, e], [b, c, d, e], backfill, s1);
    RunsFirst(s1, [b, c, d, e], [c, d, e], backfill, s1.(now := delay));
    PublishedIsServed(s1.(now := delay), k, v, ttl, backfill);
  }

  lemma {:induction false} PublishedIsServed(s: State, k: string, v: string, ttl: nat, backfill: int)
    requires ttl > 0 && s.At(1).Publishing? && s.At(1).key == k && s.At(1).value == v && s.At(1).ttl == ttl
    ensures var f := Run(s, [Publish(1, false), Tick(ttl), AskRedis(1, k, false)], backfill);
            f.log == s.log + [Hit(k, v, s.now + ttl)] && f.mysql == s.mysql
  {
    hide Run;
    RunThree(s, Publish(1, false), Tick(ttl), AskRedis(1, k, false), backfill);
  }

  lemma {:induction false} RunsFirst(s: State, steps: seq<Step>, later: seq<Step>, backfill: int, s': State)
    requires steps != [] && later == steps[1..] && s' == Do(s, steps[0], backfill)
    ensures Run(s, steps, backfill) == Run(s', later, backfill)
  {
    hide Do;
  }

  /** The bound is reached: a link is served for `backfill` seconds after its ttl has run out. */
  lemma {:induction false} BoundIsReached(k: string, v: string, ttl: nat, backfill: nat)
    requires ttl > 0 && backfill > 0
    ensures var s := State(map[k := Row(v, 0, ttl)], map[], map[], ttl, []);
            var ask := AskRedis(1, k, false);
            var steps := [ask, AskMySql(1), Backfill(1, false), Tick(backfill), ask];
            var f := Run(s, steps, backfill);
            && PromptRun(s, steps, k, 0, backfill)
            && f.log == [Hit(k, v, ttl), Hit(k, v, ttl + backfill)] && f.mysql == s.mysql
  {
    hide Run, PromptRun;
    var m := map[k := Row(v, 0, ttl)];
    var cached := map[k := Cached(v, Some(ttl + backfill))];
    var s0 := State(m, map[], map[], ttl, []);
    var s1 := State(m, map[], map[1 := AskingMySql(k)], ttl, []);
    var s2 := State(m, map[], map[1 := Backfilling(k, v, ttl)], ttl, []);
    var s3 := State(m, cached, map[1 := Idle], ttl, [Hit(k, v, ttl)]);
    var s4 := State(m, cached, map[1 := Idle], ttl + backfill, [Hit(k, v, ttl)]);
    var a, b, c, d := AskRedis(1, k, false), AskMySql(1), Backfill(1, false), Tick(backfill);
    FirstStep(s0, [a, b, c, d, a], [b, c, d, a], k, backfill, s1);
    FirstStep(s1, [b, c, d, a], [c, d, a], k, backfill, s2);
    FirstStep(s2, [c, d, a], [d, a], k, backfill, s3);
    FirstStep(s3, [d, a], [a], k, backfill, s4);
    FirstStep(s4, [a], [], k, backfill, s4.(log := s4.log + [Hit(k, v, ttl + backfill)]));
    NoStep(s4.(log := s4.log + [Hit(k, v, ttl + backfill)]), k, backfill);
  }

  lemma {:induction false} FirstStep(s: State, steps: seq<Step>, later: seq<Step>, k: string, backfill: int, s': State)
    requires steps != [] && later == steps[1..]
    requires s' == Do(s, steps[0], backfill) && Prompt(s, steps[0], k, 0)
    ensures Run(s, steps, backfill) == Run(s', later, backfill)
    ensures PromptRun(s, steps, k, 0, backfill) == PromptRun(s', later, k, 0, backfill)
  {
    hide Do, Prompt;
  }

  lemma {:induction false} NoStep(s: State, k: string, backfill: int)
    ensures Run(s, [], backfill) == s && PromptRun(s, [], k, 0, backfill)
  {
  }

  // ----- the objects

  class RedisStore {
    var data: map<string, Cached>

    constructor ()
      ensures data == map[]
    {
      data := map[];
    }

    /** `blind` is a reply that does not come, or is no string. */
    method Get(key: string, now: int, blind: bool) returns (v: Option<string>)
      ensures v == if !blind && key in data && (data[key].deadline.None? || now <= data[key].deadline.value)
                   then Some(data[key].value) else None
    {
      if blind || key !in data || !data[key].Live(now) {
        return None;
      }
      v := Some(data[key].value);
    }

    /** `lost` is a command that does not arrive or is refused; the caller is not told. For a ttl
        that is not positive it stands for what the library and Redis make of the command. */
    method Set(key: string, value: string, ttl: int, now: int, lost: bool)
      modifies this
      ensures data == if lost then old(data) else old(data)[key := Entry(value, ttl, now)]
    {
      if !lost {
        data := data[key := Cached(value, if ttl > 0 then Some(now + ttl) else None)];
      }
    }

    method Del(key: string, lost: bool)
      modifies this
      ensures data == if lost then old(data) else old(data) - {key}
    {
      if !lost {
        data := data - {key};
      }
    }
  }

  class MySqlStore {
    var rows: map<string, Row>

    constructor ()
      ensures rows == map[]
    {
      rows := map[];
    }

    method Get(key: string, now: int) returns (v: Option<string>)
      ensures v == if key in rows && (rows[key].ttl <= 0 || now <= rows[key].created + rows[key].ttl)
                   then Some(rows[key].value) else None
    {
      if key !in rows {
        return None;
      }
      var row := rows[key];
      if row.ttl > 0 {
        if now > row.created + row.ttl {
          return None;
        }
      }
      v := Some(row.value);
    }

    /** `fails` is any SQL error but the duplicate key. */
    method SetNX(key: string, value: string, ttl: int, now: int, fails: bool) returns (ok: bool)
      modifies this
      ensures ok == (key !in old(rows) && !fails)
      ensures rows == if ok then old(rows)[key := Row(value, now, ttl)] else old(rows)
    {
      if key in rows || fails {
        return false;
      }
      rows := rows[key := Row(value, now, ttl)];
      ok := true;
    }

    method Set(key: string, value: string, ttl: int, now: int)
      modifies this
      ensures rows == old(rows)[key := Row(value, now, ttl)]
    {
      rows := rows[key := Row(value, now, ttl)];
    }

    method Del(key: string)
      modifies this
      ensures rows == old(rows) - {key}
    {
      rows := rows - {key};
    }
  }

  class CacheAsideStore {
    const redis: RedisStore?
    const mysql: MySqlStore?
    const backfillTtl: int

    constructor (redis: RedisStore?, mysql: MySqlStore?, backfillTtl: int)
      ensures this.redis == redis && this.mysql == mysql && this.backfillTtl == backfillTtl
    {
      this.redis, this.mysql, this.backfillTtl := redis, mysql, backfillTtl;
    }

    /** With both stores there, a call at one clock reading is its steps run without interruption;
        a store that is missing is skipped. */
    method Get(key: string, now: int, blind: bool, lost: bool) returns (v: Option<string>)
      modifies redis
      ensures redis != null && mysql != null ==>
                var f := GetSteps(Quiet(mysql.rows, old(redis.data), now), key, blind, lost, backfillTtl);
                && mysql.rows == f.mysql && redis.data == f.redis
                && f.log == [if v.Some? then Hit(key, v.value, now) else Miss(key)]
      ensures redis == null && mysql != null ==>
                var rows := mysql.rows;
                v == if key in rows && (rows[key].ttl <= 0 || now <= rows[key].created + rows[key].ttl)
                     then Some(rows[key].value) else None
      ensures mysql == null && redis != null ==>
                && redis.data == old(redis.data)
                && var data := redis.data;
                v == if !blind && key in data && (data[key].deadline.None? || now <= data[key].deadline.value)
                     then Some(data[key].value) else None
      ensures mysql == null && redis == null ==> v == None
    {
      if redis != null {
        v := redis.Get(key, now, blind);
        if v.Some? {
          return;
        }
      }
      if mysql != null {
        v := mysql.Get(key, now);
        if v.Some? {
          if redis != null {
            redis.Set(key, v.value, backfillTtl, now, lost);
          }
          return;
        }
      }
      v := None;
    }

    method SetNX(key: string, value: string, ttl: int, now: int, fails: bool, lost: bool) returns (ok: bool)
      modifies redis, mysql
      ensures redis != null && mysql != null ==>
                var s := Quiet(old(mysql.rows), old(redis.data), now);
                var f := SetNXSteps(s, key, value, ttl, fails, lost, backfillTtl);
                && mysql.rows == f.mysql && redis.data == f.redis
                && f.log == [if ok then Inserted(key, value) else Refused(key)]
      ensures redis == null && mysql != null ==>
                && ok == (key !in old(mysql.rows) && !fails)
                && mysql.rows == if ok then old(mysql.rows)[key := Row(value, now, ttl)] else old(mysql.rows)
      ensures mysql == null ==> ok
      ensures mysql == null && redis != null ==>
                redis.data == if lost then old(redis.data) else old(redis.data)[key := Entry(value, ttl, now)]
    {
      if mysql != null {
        var inserted := mysql.SetNX(key, value, ttl, now, fails);
        if !inserted {
          return false;
        }
      }
      if redis != null {
        redis.Set(key, value, ttl, now, lost);
      }
      ok := true;
    }

    method Set(key: string, value: string, ttl: int, now: int, lost: bool)
      modifies redis, mysql
      ensures redis != null && mysql != null ==>
                var f := SetSteps(Quiet(old(mysql.rows), old(redis.data), now), key, value, ttl, lost, backfillTtl);
                mysql.rows == f.mysql && redis.data == f.redis
      ensures redis == null && mysql != null ==> mysql.rows == old(mysql.rows)[key := Row(value, now, ttl)]
      ensures mysql == null && redis != null ==>
                redis.data == if lost then old(redis.data) else old(redis.data)[key := Entry(value, ttl, now)]
    {
      if mysql != null {
        mysql.Set(key, value, ttl, now);
      }
      if redis != null {
        redis.Set(key, value, ttl, now, lost);
      }
    }

    method Del(key: string, lost: bool)
      modifies redis, mysql
      ensures redis != null && mysql != null ==>
                var f := DelSteps(Quiet(old(mysql.rows), old(redis.data), 0), key, lost, backfillTtl);
                mysql.rows == f.mysql && redis.data == f.redis
      ensures redis == null && mysql != null ==> mysql.rows == old(mysql.rows) - {key}
      ensures mysql == null && redis != null ==> redis.data == if lost then old(redis.data) else old(redis.data) - {key}
    {
      if mysql != null {
        mysql.Del(key);
      }
      if redis != null {
        redis.Del(key, lost);
      }
    }
  }
}
