/** Lease locks on a shared Redis: SET NX PX to acquire, compare-and-delete to release,
    compare-and-extend to renew, and the two retry loops that run a critical section.

    The store's clock is the only clock that counts. The protocol is a state machine whose
    steps are single Redis commands, so any number of clients may interleave in any order. */
module RedisLocks {

  import opened Prelude

  type Key = string
  type Token = string

  // ---------- Redis commands ----------

  datatype Entry = Entry(value: Token, expiresAt: int)

  datatype Store = Store(now: int, entries: map<Key, Entry>) {
    /** An entry stays readable up to and including its expiry instant. */
    function Get(key: Key): Option<Token> {
      if key in entries && now <= entries[key].expiresAt then Some(entries[key].value) else None
    }
  }

  datatype SetReply = Granted | Refused | Failed

  function SetNxPx(st: Store, key: Key, token: Token, ttlMs: int): (Store, SetReply) {
    if ttlMs <= 0 then (st, Failed)
    else if st.Get(key).Some? then (st, Refused)
    else (st.(entries := st.entries[key := Entry(token, st.now + ttlMs)]), Granted)
  }

  function CompareAndDelete(st: Store, key: Key, token: Token): (Store, int) {
    if st.Get(key) == Some(token) then (st.(entries := st.entries - {key}), 1) else (st, 0)
  }

  /** A non-positive lifetime deletes the key. */
  function CompareAndExtend(st: Store, key: Key, token: Token, ttlMs: int): (Store, int) {
    if st.Get(key) != Some(token) then (st, 0)
    else if ttlMs <= 0 then (st.(entries := st.entries - {key}), 1)
    else (st.(entries := st.entries[key := Entry(token, st.now + ttlMs)]), 1)
  }

  /** The shared server, and the lock operations as clients issue them. */
  class Redis {
    var store: Store

    constructor (now: int)
      ensures store == Store(now, map[])
    {
      store := Store(now, map[]);
    }

    method Acquire(key: Key, ttlMs: int, token: Token) returns (lock: Option<Token>, failed: bool)
      modifies this
      ensures store == SetNxPx(old(store), key, token, ttlMs).0
      ensures failed == SetNxPx(old(store), key, token, ttlMs).1.Failed?
      ensures lock == if SetNxPx(old(store), key, token, ttlMs).1.Granted? then Some(token) else None
    {
      if ttlMs <= 0 {
        return None, true;
      }
      if key in store.entries && store.now <= store.entries[key].expiresAt {
        return None, false;
      }
      store := store.(entries := store.entries[key := Entry(token, store.now + ttlMs)]);
      return Some(token), false;
    }

    method Release(key: Key, token: Token) returns (deleted: int)
      modifies this
      ensures (store, deleted) == CompareAndDelete(old(store), key, token)
    {
      var current := store.Get(key);
      if current == Some(token) {
        store := store.(entries := store.entries - {key});
        return 1;
      }
      return 0;
    }

    method Extend(key: Key, token: Token, ttlMs: int) returns (ok: bool)
      modifies this
      ensures store == CompareAndExtend(old(store), key, token, ttlMs).0
      ensures ok == (CompareAndExtend(old(store), key, token, ttlMs).1 == 1)
    {
      var current := store.Get(key);
      if current == Some(token) {
        if ttlMs <= 0 {
          store := store.(entries := store.entries - {key});
        } else {
          store := store.(entries := store.entries[key := Entry(token, store.now + ttlMs)]);
        }
        return true;
      }
      return false;
    }
  }

  // ---------- The protocol ----------

  /** What a granted token entitles its holder to: `expiresAt` follows the store's clock, and
      `released` records that the holder has asked for release. */
  datatype Lease = Lease(key: Key, expiresAt: int, released: bool)

  datatype System = System(store: Store, leases: map<Token, Lease>)

  datatype Action =
    | Acquire(key: Key, token: Token, ttlMs: int)
    | Release(key: Key, token: Token)
    | Extend(key: Key, token: Token, ttlMs: int)
    | Tick(ms: nat)

  function Initial(now: int): System {
    System(Store(now, map[]), map[])
  }

  /** Tokens are random: one that was ever granted is not drawn again. Release and extend may
      come from anyone, with any token, at any time. */
  predicate Enabled(s: System, a: Action) {
    a.Acquire? ==> a.token !in s.leases
  }

  function Apply(s: System, a: Action): System {
    match a
    case Acquire(key, token, ttlMs) =>
      var (store, reply) := SetNxPx(s.store, key, token, ttlMs);
      System(store, if reply.Granted? then s.leases[token := Lease(key, s.store.now + ttlMs, false)] else s.leases)
    case Release(key, token) =>
      System(CompareAndDelete(s.store, key, token).0,
             if token in s.leases && s.leases[token].key == key
             then s.leases[token := s.leases[token].(released := true)]
             else s.leases)
    case Extend(key, token, ttlMs) =>
      var (store, reply) := CompareAndExtend(s.store, key, token, ttlMs);
      System(store,
             if reply == 1 && token in s.leases
             then s.leases[token := s.leases[token].(expiresAt := s.store.now + if ttlMs > 0 then ttlMs else -1)]
             else s.leases)
    case Tick(ms) => s.(store := s.store.(now := s.store.now + ms))
  }

  /** The lease of `token` is unreleased and unexpired. */
  predicate Active(s: System, token: Token) {
    token in s.leases && !s.leases[token].released && s.store.now <= s.leases[token].expiresAt
  }

  predicate Holds(s: System, token: Token, key: Key) {
    Active(s, token) && s.leases[token].key == key
  }

  /** Readable entries and active leases are the same thing. */
  ghost predicate Consistent(s: System) {
    && (forall t :: Active(s, t) ==>
          var lease := s.leases[t];
          lease.key in s.store.entries && s.store.entries[lease.key] == Entry(t, lease.expiresAt))
    && (forall k :: k in s.store.entries && s.store.Get(k).Some? ==>
          var entry := s.store.entries[k];
          entry.value in s.leases && s.leases[entry.value] == Lease(k, entry.expiresAt, false))
  }

  lemma StepKeepsConsistent(s: System, a: Action)
    requires Consistent(s) && Enabled(s, a)
    ensures Consistent(Apply(s, a))
  {
    var next := Apply(s, a);
    forall t | Active(next, t)
      ensures var lease := next.leases[t];
        lease.key in next.store.entries && next.store.entries[lease.key] == Entry(t, lease.expiresAt)
    {
      if Active(s, t) {
        assert s.store.Get(s.leases[t].key) == Some(t);
      }
    }
    forall k | k in next.store.entries && next.store.Get(k).Some?
      ensures var entry := next.store.entries[k];
        entry.value in next.leases && next.leases[entry.value] == Lease(k, entry.expiresAt, false)
    {
      if k in s.store.entries && s.store.Get(k).Some? {
        assert Active(s, s.store.entries[k].value);
      }
    }
  }

  // ---------- Whole runs ----------

  datatype Run = Run(states: seq<System>, actions: seq<Action>) {
    ghost predicate Valid() {
      && |states| == |actions| + 1
      && states[0] == Initial(states[0].store.now)
      && forall i :: 0 <= i < |actions| ==>
        Enabled(states[i], actions[i]) && states[i + 1] == Apply(states[i], actions[i])
    }
  }

  lemma {:induction false} RunConsistent(run: Run, i: nat)
    requires run.Valid() && i < |run.states|
    ensures Consistent(run.states[i])
  {
    if i == 0 {
    } else {
      RunConsistent(run, i - 1);
      StepKeepsConsistent(run.states[i - 1], run.actions[i - 1]);
      assert run.states[i - 1 + 1] == Apply(run.states[i - 1], run.actions[i - 1]);
    }
  }

  /** Mutual exclusion: at every moment of every run a key has at most one active lease, and
      while it lasts the store shows exactly its holder's token. */
  lemma MutualExclusion(run: Run, i: nat, t: Token, u: Token, key: Key)
    requires run.Valid() && i < |run.states|
    requires Holds(run.states[i], t, key)
    ensures run.states[i].store.Get(key) == Some(t)
    ensures Holds(run.states[i], u, key) ==> u == t
  {
    RunConsistent(run, i);
  }

  /** Acquiring succeeds exactly when nobody holds the key. */
  lemma GrantedIffFree(run: Run, i: nat, key: Key, token: Token, ttlMs: int)
    requires run.Valid() && i < |run.states| && ttlMs > 0
    ensures SetNxPx(run.states[i].store, key, token, ttlMs).1.Granted? <==> !exists t :: Holds(run.states[i], t, key)
  {
    RunConsistent(run, i);
    var s := run.states[i];
    if s.store.Get(key).Some? {
      assert Holds(s, s.store.entries[key].value, key);
    }
  }

  /** A holder whose lease has lapsed can no longer touch anyone's entry. */
  lemma LapsedHolderIsHarmless(run: Run, i: nat, token: Token, key: Key, ttlMs: int)
    requires run.Valid() && i < |run.states| && !Active(run.states[i], token)
    ensures var s := run.states[i];
      && Apply(s, Release(key, token)).store == s.store
      && Apply(s, Extend(key, token, ttlMs)) == s
      && CompareAndExtend(s.store, key, token, ttlMs).1 == 0
      && forall t :: t in s.leases && t != token ==> Apply(s, Release(key, token)).leases[t] == s.leases[t]
  {
    RunConsistent(run, i);
  }

  /** An acquire that is granted gives its token the key for `ttlMs`, and any other changes nothing. */
  lemma AcquireExact(run: Run, i: nat, key: Key, token: Token, ttlMs: int)
    requires run.Valid() && i < |run.states| && token !in run.states[i].leases
    ensures var s, a := run.states[i], Acquire(key, token, ttlMs);
      var next, reply := Apply(s, a), SetNxPx(s.store, key, token, ttlMs).1;
      && (reply == Granted <==> ttlMs > 0 && forall t :: !Holds(s, t, key))
      && (reply == Failed <==> ttlMs <= 0)
      && (reply == Granted ==> Holds(next, token, key) && next.leases[token].expiresAt == s.store.now + ttlMs)
      && (reply != Granted ==> next == s)
  {
    RunConsistent(run, i);
    var s := run.states[i];
    if s.store.Get(key).Some? {
      assert Holds(s, s.store.entries[key].value, key);
    }
  }

  /** An extend is answered 1 exactly when its token holds the key, and then the token holds it for
      `ttlMs` from now; a lifetime that is not positive frees the key. */
  lemma ExtendExact(run: Run, i: nat, key: Key, token: Token, ttlMs: int)
    requires run.Valid() && i < |run.states|
    ensures var s, a := run.states[i], Extend(key, token, ttlMs);
      var next, reply := Apply(s, a), CompareAndExtend(s.store, key, token, ttlMs).1;
      && (reply == 1 <==> Holds(s, token, key))
      && (reply == 1 && ttlMs > 0 ==>
            Holds(next, token, key) && next.leases[token].expiresAt == s.store.now + ttlMs)
      && (reply == 1 && ttlMs <= 0 ==> forall t :: !Holds(next, t, key))
      && (reply != 1 ==> reply == 0 && next == s)
  {
    RunConsistent(run, i);
    StepKeepsConsistent(run.states[i], Extend(key, token, ttlMs));
  }

  /** A release is answered 1 exactly when its token holds the key, and then nobody holds it. */
  lemma ReleaseExact(run: Run, i: nat, key: Key, token: Token)
    requires run.Valid() && i < |run.states|
    ensures var s, a := run.states[i], Release(key, token);
      var next, reply := Apply(s, a), CompareAndDelete(s.store, key, token).1;
      && (reply == 1 <==> Holds(s, token, key))
      && (reply == 1 ==> next.store.Get(key) == None && forall t :: !Holds(next, t, key))
      && (reply != 1 ==> reply == 0 && next.store == s.store)
  {
    RunConsistent(run, i);
    StepKeepsConsistent(run.states[i], Release(key, token));
  }

  /** When nothing but time happens, a holder keeps the key up to and including its expiry. */
  lemma LeaseLasts(run: Run, i: nat, key: Key, token: Token, ms: nat)
    requires run.Valid() && i < |run.states| && Holds(run.states[i], token, key)
    ensures var s, next := run.states[i], Apply(run.states[i], Tick(ms));
      && (Holds(next, token, key) <==> s.store.now + ms <= s.leases[token].expiresAt)
      && (next.store.Get(key) == Some(token) <==> s.store.now + ms <= s.leases[token].expiresAt)
      && (next.store.Get(key) == None <==> s.store.now + ms > s.leases[token].expiresAt)
  {
    RunConsistent(run, i);
  }

  /** A lease that is active at the end of a stretch was active all through it: nothing revives one. */
  lemma {:induction false} ActiveAllAlong(run: Run, token: Token, i: nat, j: nat)
    requires run.Valid() && i <= j < |run.states|
    requires token in run.states[i].leases && Active(run.states[j], token)
    ensures Active(run.states[i], token) && run.states[j].leases[token].key == run.states[i].leases[token].key
    decreases j - i
  {
    if i == j {
    } else {
      RunConsistent(run, i);
      assert run.states[i + 1] == Apply(run.states[i], run.actions[i]);
      ActiveAllAlong(run, token, i + 1, j);
    }
  }

  /** A critical section under `token`: from the state right after the grant, `first`, to the
      state in which the release is issued, `last`, where the lease has not run out yet. */
  ghost predicate TimelySection(run: Run, token: Token, key: Key, first: nat, last: nat)
    requires run.Valid()
  {
    && 0 < first <= last < |run.states|
    && run.actions[first - 1].Acquire? && run.actions[first - 1].token == token
    && token in run.states[first].leases && run.states[first].leases[token].key == key
    && Active(run.states[last], token)
  }

  /** Critical sections that end before their lease expires never overlap. */
  lemma SectionsDisjoint(run: Run, t: Token, u: Token, key: Key, a: nat, b: nat, c: nat, d: nat)
    requires run.Valid() && t != u
    requires TimelySection(run, t, key, a, b) && TimelySection(run, u, key, c, d)
    ensures b < c || d < a
  {
    if c <= b && a <= d {
      var k := if a < c then c else a;
      LeaseRemembered(run, t, a, k);
      LeaseRemembered(run, u, c, k);
      ActiveAllAlong(run, t, k, b);
      ActiveAllAlong(run, u, k, d);
      ActiveAllAlong(run, t, a, b);
      ActiveAllAlong(run, u, c, d);
      MutualExclusion(run, k, t, u, key);
      assert false;
    }
  }

  lemma {:induction false} LeaseRemembered(run: Run, token: Token, i: nat, j: nat)
    requires run.Valid() && i <= j < |run.states| && token in run.states[i].leases
    ensures token in run.states[j].leases && run.states[j].leases[token].key == run.states[i].leases[token].key
    decreases j
  {
    if i == j {
    } else {
      LeaseRemembered(run, token, i, j - 1);
      assert run.states[j - 1 + 1] == Apply(run.states[j - 1], run.actions[j - 1]);
    }
  }

  // ---------- Running a critical section ----------

  datatype Call = Set(key: Key, token: Token, ttlMs: int) | Wait(ms: int) | Body | Free(key: Key, token: Token)

  datatype Outcome<+T> = Returned(value: T) | BodyThrew(error: string) | NotAcquired | RedisThrew

  /** What a client has done after `n` refused attempts. */
  function Refusals(key: Key, ttlMs: int, tokens: nat -> Token, waits: nat -> seq<Call>, n: nat): seq<Call> {
    if n == 0 then [] else Refusals(key, ttlMs, tokens, waits, n - 1) + [Set(key, tokens(n - 1), ttlMs)] + waits(n - 1)
  }

  ghost predicate RefusedBefore(replies: nat -> SetReply, n: nat) {
    forall j: nat :: j < n ==> replies(j) == Refused
  }

  /** The calls from the first reply that is not a refusal on: after a grant the body, and one
      release with the granted token however the body ends. */
  function Ending(key: Key, ttlMs: int, token: Token, reply: SetReply): seq<Call> {
    if reply.Granted? then [Set(key, token, ttlMs), Body, Free(key, token)] else [Set(key, token, ttlMs)]
  }

  ghost predicate StoppedAt<T>(key: Key, ttlMs: int, tokens: nat -> Token, waits: nat -> seq<Call>,
                               replies: nat -> SetReply, body: Outcome<T>, calls: seq<Call>, outcome: Outcome<T>,
                               i: nat)
  {
    && RefusedBefore(replies, i) && replies(i) != Refused
    && outcome == (if replies(i).Granted? then body else RedisThrew)
    && calls == Refusals(key, ttlMs, tokens, waits, i) + Ending(key, ttlMs, tokens(i), replies(i))
  }

  /** The complete behaviour of a locked section, whatever the replies: attempts `0..retries`
      stop at the first reply that is not a refusal. */
  ghost predicate LockedRun<T>(key: Key, ttlMs: int, retries: int, tokens: nat -> Token, waits: nat -> seq<Call>,
                               replies: nat -> SetReply, body: Outcome<T>, calls: seq<Call>, outcome: Outcome<T>)
  {
    var attempts := if retries < 0 then 0 else retries + 1;
    || (RefusedBefore(replies, attempts) && outcome == NotAcquired
        && calls == Refusals(key, ttlMs, tokens, waits, attempts))
    || (exists i: nat :: i < attempts && StoppedAt(key, ttlMs, tokens, waits, replies, body, calls, outcome, i))
  }

  datatype Kind = Attempts | Waits | Bodies | Releases

  function KindOf(c: Call): Kind {
    match c case Set(_, _, _) => Attempts case Wait(_) => Waits case Body => Bodies case Free(_, _) => Releases
  }

  function Count(calls: seq<Call>, kind: Kind): nat {
    if calls == [] then 0 else Count(calls[..|calls| - 1], kind) + if KindOf(calls[|calls| - 1]) == kind then 1 else 0
  }

  lemma {:induction false} CountAppend(a: seq<Call>, b: seq<Call>, kind: Kind)
    ensures Count(a + b, kind) == Count(a, kind) + Count(b, kind)
    decreases |b|
  {
    if b == [] {
      assert a + b == a;
    } else {
      CountAppend(a, b[..|b| - 1], kind);
      assert (a + b)[..|a + b| - 1] == a + b[..|b| - 1];
    }
  }

  ghost predicate OnlyWaits(waits: nat -> seq<Call>) {
    forall j, kind :: kind != Waits ==> Count(waits(j), kind) == 0
  }

  lemma {:induction false} RefusalsCount(key: Key, ttlMs: int, tokens: nat -> Token, waits: nat -> seq<Call>, n: nat,
                                         kind: Kind)
    requires OnlyWaits(waits) && kind != Waits
    ensures Count(Refusals(key, ttlMs, tokens, waits, n), kind) == if kind == Attempts then n else 0
  {
    if n == 0 {
    } else {
      RefusalsCount(key, ttlMs, tokens, waits, n - 1, kind);
      var before, attempt := Refusals(key, ttlMs, tokens, waits, n - 1), [Set(key, tokens(n - 1), ttlMs)];
      CountAppend(before, attempt, kind);
      CountAppend(before + attempt, waits(n - 1), kind);
    }
  }

  /** The budget of a locked section: at most `retries + 1` acquire attempts, at most one body,
      as many releases as bodies, and a body only with its grant before and its release behind. */
  ghost predicate WithinBudget(key: Key, ttlMs: int, retries: int, tokens: nat -> Token, waits: nat -> seq<Call>,
                               replies: nat -> SetReply, calls: seq<Call>)
  {
    && Count(calls, Attempts) <= (if retries < 0 then 0 else retries + 1)
    && Count(calls, Bodies) == Count(calls, Releases) <= 1
    && (Count(calls, Bodies) == 1 ==> exists i: nat :: GrantedAt(key, ttlMs, tokens, waits, replies, calls, i))
  }

  /** Attempt `i` was granted: body and release follow. */
  ghost predicate GrantedAt(key: Key, ttlMs: int, tokens: nat -> Token, waits: nat -> seq<Call>,
                            replies: nat -> SetReply, calls: seq<Call>, i: nat)
  {
    && replies(i) == Granted
    && calls == Refusals(key, ttlMs, tokens, waits, i) + [Set(key, tokens(i), ttlMs), Body, Free(key, tokens(i))]
  }

  lemma LockedRunBudget<T>(key: Key, ttlMs: int, retries: int, tokens: nat -> Token, waits: nat -> seq<Call>,
                           replies: nat -> SetReply, body: Outcome<T>, calls: seq<Call>, outcome: Outcome<T>)
    requires LockedRun(key, ttlMs, retries, tokens, waits, replies, body, calls, outcome) && OnlyWaits(waits)
    ensures WithinBudget(key, ttlMs, retries, tokens, waits, replies, calls)
  {
    var attempts := if retries < 0 then 0 else retries + 1;
    if i: nat :| i < attempts && StoppedAt(key, ttlMs, tokens, waits, replies, body, calls, outcome, i) {
      StoppedBudget(key, ttlMs, tokens, waits, replies(i), i);
      if replies(i).Granted? {
        assert GrantedAt(key, ttlMs, tokens, waits, replies, calls, i);
      }
    } else {
      RefusalsCount(key, ttlMs, tokens, waits, attempts, Attempts);
      RefusalsCount(key, ttlMs, tokens, waits, attempts, Bodies);
      RefusalsCount(key, ttlMs, tokens, waits, attempts, Releases);
    }
  }

  lemma StoppedBudget(key: Key, ttlMs: int, tokens: nat -> Token, waits: nat -> seq<Call>, reply: SetReply, i: nat)
    requires OnlyWaits(waits)
    ensures var calls := Refusals(key, ttlMs, tokens, waits, i) + Ending(key, ttlMs, tokens(i), reply);
      && Count(calls, Attempts) == i + 1
      && Count(calls, Bodies) == Count(calls, Releases) == if reply.Granted? then 1 else 0
  {
    var ending := Ending(key, ttlMs, tokens(i), reply);
    EndingCounts(key, ttlMs, tokens(i), reply);
    SplitCount(key, ttlMs, tokens, waits, i, ending, Attempts);
    SplitCount(key, ttlMs, tokens, waits, i, ending, Bodies);
    SplitCount(key, ttlMs, tokens, waits, i, ending, Releases);
  }

  lemma EndingCounts(key: Key, ttlMs: int, token: Token, reply: SetReply)
    ensures var ending := Ending(key, ttlMs, token, reply);
      && Count(ending, Attempts) == 1
      && Count(ending, Bodies) == Count(ending, Releases) == if reply.Granted? then 1 else 0
  {
    var attempt := Set(key, token, ttlMs);
    forall kind
      ensures Count([attempt, Body, Free(key, token)], kind) ==
        Count([attempt], kind) + Count([Body], kind) + Count([Free(key, token)], kind)
    {
      CountAppend([attempt] + [Body], [Free(key, token)], kind);
      CountAppend([attempt], [Body], kind);
      assert [attempt] + [Body] + [Free(key, token)] == [attempt, Body, Free(key, token)];
    }
  }

  lemma SplitCount(key: Key, ttlMs: int, tokens: nat -> Token, waits: nat -> seq<Call>, n: nat, rest: seq<Call>,
                   kind: Kind)
    requires OnlyWaits(waits) && kind != Waits
    ensures Count(Refusals(key, ttlMs, tokens, waits, n) + rest, kind) ==
      (if kind == Attempts then n else 0) + Count(rest, kind)
  {
    CountAppend(Refusals(key, ttlMs, tokens, waits, n), rest, kind);
    RefusalsCount(key, ttlMs, tokens, waits, n, kind);
  }

  lemma {:induction false} NoneOfKind(calls: seq<Call>, kind: Kind)
    requires Count(calls, kind) == 0
    ensures forall k :: 0 <= k < |calls| ==> KindOf(calls[k]) != kind
    decreases |calls|
  {
    if calls == [] {
    } else {
      NoneOfKind(calls[..|calls| - 1], kind);
    }
  }

  /** When attempt `i` is the first that is not refused, there are `i + 1` attempts. A grant runs the
      body, whose ending is the outcome, between that attempt and the release of its token; an error
      runs nothing. */
  lemma FirstAnswerDecides<T>(key: Key, ttlMs: int, retries: int, tokens: nat -> Token, waits: nat -> seq<Call>,
                              replies: nat -> SetReply, body: Outcome<T>, calls: seq<Call>, outcome: Outcome<T>, i: nat)
    requires LockedRun(key, ttlMs, retries, tokens, waits, replies, body, calls, outcome) && OnlyWaits(waits)
    requires i <= retries && replies(i) != Refused && forall j: nat :: j < i ==> replies(j) == Refused
    ensures Count(calls, Attempts) == i + 1
    ensures replies(i) == Granted ==>
      && outcome == body && Count(calls, Bodies) == Count(calls, Releases) == 1
      && |calls| >= 3 && calls[|calls| - 3] == Set(key, tokens(i), ttlMs)
      && calls[|calls| - 2] == Body && calls[|calls| - 1] == Free(key, tokens(i))
    ensures replies(i) == Failed ==> outcome == RedisThrew && Count(calls, Bodies) == Count(calls, Releases) == 0
    ensures Waited(calls) == Waited(Refusals(key, ttlMs, tokens, waits, i))
  {
    StopsAtFirst(key, ttlMs, retries, tokens, waits, replies, body, calls, outcome, i);
    hide LockedRun, RefusedBefore, OnlyWaits, Refusals;
    StoppedBudget(key, ttlMs, tokens, waits, replies(i), i);
    EndingWaitsNot(key, ttlMs, tokens(i), replies(i));
    WaitedAppend(Refusals(key, ttlMs, tokens, waits, i), Ending(key, ttlMs, tokens(i), replies(i)));
  }

  lemma StopsAtFirst<T>(key: Key, ttlMs: int, retries: int, tokens: nat -> Token, waits: nat -> seq<Call>,
                        replies: nat -> SetReply, body: Outcome<T>, calls: seq<Call>, outcome: Outcome<T>, i: nat)
    requires LockedRun(key, ttlMs, retries, tokens, waits, replies, body, calls, outcome)
    requires i <= retries && replies(i) != Refused && forall j: nat :: j < i ==> replies(j) == Refused
    ensures StoppedAt(key, ttlMs, tokens, waits, replies, body, calls, outcome, i)
  {
    hide Refusals, Ending;
    if j: nat :| j <= retries && StoppedAt(key, ttlMs, tokens, waits, replies, body, calls, outcome, j) {
      assert j == i;
    }
  }

  lemma EndingWaitsNot(key: Key, ttlMs: int, token: Token, reply: SetReply)
    ensures Waited(Ending(key, ttlMs, token, reply)) == 0
  {
    NoWaits(Ending(key, ttlMs, token, reply));
  }

  lemma {:induction false} NoWaits(calls: seq<Call>)
    requires forall c :: c in calls ==> !c.Wait?
    ensures Waited(calls) == 0
    decreases |calls|
  {
    if calls == [] {
    } else {
      NoWaits(calls[..|calls| - 1]);
    }
  }

  /** When every attempt is refused, all of them are made and nothing runs. */
  lemma AllRefused<T>(key: Key, ttlMs: int, retries: int, tokens: nat -> Token, waits: nat -> seq<Call>,
                      replies: nat -> SetReply, body: Outcome<T>, calls: seq<Call>, outcome: Outcome<T>)
    requires LockedRun(key, ttlMs, retries, tokens, waits, replies, body, calls, outcome) && OnlyWaits(waits)
    requires retries >= 0 && forall j: nat :: j <= retries ==> replies(j) == Refused
    ensures outcome == NotAcquired && Count(calls, Attempts) == retries + 1
    ensures Count(calls, Bodies) == Count(calls, Releases) == 0
    ensures Waited(calls) == Waited(Refusals(key, ttlMs, tokens, waits, retries + 1))
  {
    RefusalsCount(key, ttlMs, tokens, waits, retries + 1, Attempts);
    RefusalsCount(key, ttlMs, tokens, waits, retries + 1, Bodies);
    RefusalsCount(key, ttlMs, tokens, waits, retries + 1, Releases);
  }

  /** Every refused attempt is for the key and lifetime asked for, the n-th with the n-th token. */
  lemma {:induction false} AttemptsInOrder(key: Key, ttlMs: int, tokens: nat -> Token, waits: nat -> seq<Call>,
                                           n: nat, k: nat)
    requires OnlyWaits(waits) && k < |Refusals(key, ttlMs, tokens, waits, n)|
    ensures var calls := Refusals(key, ttlMs, tokens, waits, n);
      calls[k].Set? ==> calls[k] == Set(key, tokens(Count(calls[..k], Attempts)), ttlMs)
  {
    if n == 0 {
      assert false;
    } else {
      var calls, before := Refusals(key, ttlMs, tokens, waits, n), Refusals(key, ttlMs, tokens, waits, n - 1);
      NoneOfKind(waits(n - 1), Attempts);
      if k < |before| {
        AttemptsInOrder(key, ttlMs, tokens, waits, n - 1, k);
        assert calls[k] == before[k] && calls[..k] == before[..k];
      } else if k == |before| {
        RefusalsCount(key, ttlMs, tokens, waits, n - 1, Attempts);
        assert calls[..k] == before;
      } else {
        assert calls[k] == waits(n - 1)[k - |before| - 1];
        assert KindOf(calls[k]) != Attempts;
      }
    }
  }

  /** The time a client spends waiting. */
  function Waited(calls: seq<Call>): int {
    if calls == [] then 0
    else Waited(calls[..|calls| - 1]) + if calls[|calls| - 1].Wait? then calls[|calls| - 1].ms else 0
  }

  lemma {:induction false} WaitedAppend(a: seq<Call>, b: seq<Call>)
    ensures Waited(a + b) == Waited(a) + Waited(b)
    decreases |b|
  {
    if b == [] {
      assert a + b == a;
    } else {
      WaitedAppend(a, b[..|b| - 1]);
      assert (a + b)[..|a + b| - 1] == a + b[..|b| - 1];
    }
  }

  lemma RefusalsWaited(key: Key, ttlMs: int, tokens: nat -> Token, waits: nat -> seq<Call>, n: nat)
    requires n > 0
    ensures Waited(Refusals(key, ttlMs, tokens, waits, n)) ==
      Waited(Refusals(key, ttlMs, tokens, waits, n - 1)) + Waited(waits(n - 1))
  {
    var before, attempt := Refusals(key, ttlMs, tokens, waits, n - 1), [Set(key, tokens(n - 1), ttlMs)];
    WaitedAppend(before, attempt);
    WaitedAppend(before + attempt, waits(n - 1));
    assert attempt[..0] == [];
  }

  /** The single-instance loop waits the same time after every refusal, the last included. */
  lemma {:induction false} FixedTotal(key: Key, ttlMs: int, tokens: nat -> Token, ms: int, n: nat)
    ensures Waited(Refusals(key, ttlMs, tokens, FixedPause(ms), n)) == n * ms
  {
    if n == 0 {
    } else {
      FixedTotal(key, ttlMs, tokens, ms, n - 1);
      RefusalsWaited(key, ttlMs, tokens, FixedPause(ms), n);
      assert FixedPause(ms)(n - 1) == [Wait(ms)] && [Wait(ms)][..0] == [];
    }
  }

  /** 1 + 2 + .. + n */
  function Triangle(n: nat): nat {
    if n == 0 then 0 else Triangle(n - 1) + n
  }

  lemma {:induction false} TriangleIsHalf(n: nat)
    ensures 2 * Triangle(n) == n * (n + 1)
  {
    if n == 0 {
    } else {
      TriangleIsHalf(n - 1);
    }
  }

  lemma TriangleStep(ms: int, n: nat)
    ensures ms * Triangle(0) == 0 && ms * Triangle(n + 1) == ms * Triangle(n) + ms * (n + 1)
  {
    assert Triangle(n + 1) == Triangle(n) + (n + 1);
  }

  /** The distributed loop waits 1, 2, .. times the delay, and not after the last refusal. */
  lemma {:induction false} GrowingTotal(key: Key, ttlMs: int, tokens: nat -> Token, ms: int, retries: nat, n: nat)
    requires n <= retries + 1
    ensures Waited(Refusals(key, ttlMs, tokens, GrowingPause(ms, retries), n)) ==
      ms * Triangle(if n <= retries then n else retries)
  {
    var waits := GrowingPause(ms, retries);
    hide *;
    if n == 0 {
      TriangleStep(ms, 0);
      NoRefusals(key, ttlMs, tokens, waits);
    } else {
      GrowingTotal(key, ttlMs, tokens, ms, retries, n - 1);
      RefusalsWaited(key, ttlMs, tokens, waits, n);
      PauseLength(ms, retries, n - 1);
      TriangleStep(ms, n - 1);
    }
  }

  lemma NoRefusals(key: Key, ttlMs: int, tokens: nat -> Token, waits: nat -> seq<Call>)
    ensures Waited(Refusals(key, ttlMs, tokens, waits, 0)) == 0
  {
  }

  lemma PauseLength(ms: int, retries: nat, j: nat)
    ensures Waited(GrowingPause(ms, retries)(j)) == if j < retries then ms * (j + 1) else 0
  {
    assert [Wait(ms * (j + 1))][..0] == [];
  }

  /** The same pause after every refusal. */
  function FixedPause(ms: int): nat -> seq<Call> {
    (j: nat) => [Wait(ms)]
  }

  /** A pause that grows with the attempt, and none after the last. */
  function GrowingPause(ms: int, retries: int): nat -> seq<Call> {
    (j: nat) => if j < retries then [Wait(ms * (j + 1))] else []
  }

  function SameToken(token: Token): nat -> Token {
    (j: nat) => token
  }

  lemma PausesOnlyWait(ms: int, retries: int)
    ensures OnlyWaits(FixedPause(ms)) && OnlyWaits(GrowingPause(ms, retries))
  {
  }

  // ---------- Clients of the protocol ----------

  /** A client of the shared store: its calls, the replies it got, and when each call took place. */
  datatype Client = Client(
    ttlMs: int, retries: int, tokens: nat -> Token, waits: nat -> seq<Call>, replies: nat -> SetReply,
    calls: seq<Call>, at: seq<nat>)

  /** The client's calls take place in the run, in order, and the replies are the store's. */
  ghost predicate TakesPart(run: Run, c: Client)
    requires run.Valid()
  {
    && |c.at| == |c.calls|
    && (forall k :: 0 <= k < |c.at| ==> c.at[k] < |run.states|)
    && (forall j, k :: 0 <= j <= k < |c.at| ==> c.at[j] <= c.at[k])
    && (forall k :: 0 <= k < |c.calls| ==> CallTakesPlace(run, c, k))
  }

  ghost predicate CallTakesPlace(run: Run, c: Client, k: nat)
    requires run.Valid() && k < |c.calls| == |c.at|
  {
    match c.calls[k]
    case Set(key, token, ttlMs) =>
      && c.at[k] < |run.actions| && run.actions[c.at[k]] == Acquire(key, token, ttlMs)
      && SetNxPx(run.states[c.at[k]].store, key, token, ttlMs).1 == c.replies(Count(c.calls[..k], Attempts))
    case Free(key, token) => c.at[k] < |run.actions| && run.actions[c.at[k]] == Release(key, token)
    case _ => true
  }

  /** The client ran the body under one of the two retry loops. */
  ghost predicate RanBody(c: Client, key: Key) {
    && OnlyWaits(c.waits) && Count(c.calls, Bodies) == 1
    && WithinBudget(key, c.ttlMs, c.retries, c.tokens, c.waits, c.replies, c.calls)
  }

  /** When the last attempt and the release took place, and the token they carried. */
  function GrantTime(c: Client): nat {
    if |c.at| >= 3 then c.at[|c.at| - 3] else 0
  }

  function ReleaseTime(c: Client): nat {
    if |c.at| >= 3 then c.at[|c.at| - 1] else 0
  }

  function HeldToken(c: Client): Token {
    if c.calls != [] && c.calls[|c.calls| - 1].Free? then c.calls[|c.calls| - 1].token else ""
  }

  /** The client's lease has not run out when it issues the release, its last call. */
  ghost predicate Timely(run: Run, c: Client) {
    ReleaseTime(c) < |run.states| && Active(run.states[ReleaseTime(c)], HeldToken(c))
  }

  /** A body that ran in time is a timely section of the protocol, from grant to release. */
  lemma BodyIsSection(run: Run, c: Client, key: Key)
    requires run.Valid() && TakesPart(run, c) && RanBody(c, key) && Timely(run, c)
    ensures var n, g, r := |c.calls|, GrantTime(c), ReleaseTime(c);
      && |run.states| == |run.actions| + 1 && g < r < |run.actions|
      && run.actions[g].Acquire? && run.actions[r].Release?
      && |c.at| == n >= 3 && c.calls[n - 2] == Body && g <= c.at[n - 2] <= r
      && TimelySection(run, HeldToken(c), key, g + 1, r)
      && HeldToken(c) !in run.states[g].leases && HeldToken(c) in run.states[g + 1].leases
  {
    var i := LastCalls(c, key);
    var n, token := |c.calls|, c.tokens(i);
    assert CallTakesPlace(run, c, n - 3) && CallTakesPlace(run, c, n - 1);
    hide RanBody, Refusals, Count;
    var grant := c.at[n - 3];
    assert run.states[grant + 1] == Apply(run.states[grant], run.actions[grant]);
  }

  /** The last three calls of a client that ran the body. */
  lemma LastCalls(c: Client, key: Key) returns (i: nat)
    requires RanBody(c, key)
    ensures var n, token := |c.calls|, c.tokens(i);
      && n >= 3 && c.replies(i) == Granted && Count(c.calls[..n - 3], Attempts) == i
      && c.calls[n - 3] == Set(key, token, c.ttlMs) && c.calls[n - 2] == Body && c.calls[n - 1] == Free(key, token)
  {
    i :| GrantedAt(key, c.ttlMs, c.tokens, c.waits, c.replies, c.calls, i);
    var refused := Refusals(key, c.ttlMs, c.tokens, c.waits, i);
    RefusalsCount(key, c.ttlMs, c.tokens, c.waits, i, Attempts);
    hide Refusals, Count;
    assert c.calls[..|c.calls| - 3] == refused;
  }

  /** Two clients that run their bodies under these loops, in a run of any number of clients, do
      not overlap as long as both finish before their leases run out: one releases before the
      other is granted. */
  lemma ClientsDisjoint(run: Run, key: Key, a: Client, b: Client)
    requires run.Valid() && TakesPart(run, a) && TakesPart(run, b) && RanBody(a, key) && RanBody(b, key)
    requires Timely(run, a) && Timely(run, b) && GrantTime(a) != GrantTime(b)
    ensures ReleaseTime(a) < GrantTime(b) || ReleaseTime(b) < GrantTime(a)
  {
    hide *;
    BodyIsSection(run, a, key);
    BodyIsSection(run, b, key);
    TokensDiffer(run, HeldToken(a), HeldToken(b), GrantTime(a), GrantTime(b));
    SectionsDisjoint(run, HeldToken(a), HeldToken(b), key, GrantTime(a) + 1, ReleaseTime(a),
      GrantTime(b) + 1, ReleaseTime(b));
  }

  /** Grants at different times have different tokens. */
  lemma TokensDiffer(run: Run, t: Token, u: Token, g: nat, g': nat)
    requires run.Valid() && g < |run.actions| && g' < |run.actions| && g != g'
    requires t !in run.states[g].leases && t in run.states[g + 1].leases
    requires u !in run.states[g'].leases && u in run.states[g' + 1].leases
    ensures t != u
  {
    if g < g' {
      LeaseRemembered(run, t, g + 1, g');
    } else {
      LeaseRemembered(run, u, g' + 1, g);
    }
  }

  // ---------- The retry loops ----------

  /** The retry loop of the single-instance lock: a new token per attempt. Errors of the final
      release are swallowed. */
  method WithLock<T>(key: Key, ttlMs: int, retries: int, retryDelayMs: int, tokens: nat -> Token,
                     replies: nat -> SetReply, body: Outcome<T>)
    returns (outcome: Outcome<T>, calls: seq<Call>)
    ensures LockedRun(key, ttlMs, retries, tokens, FixedPause(retryDelayMs), replies, body, calls, outcome)
    ensures WithinBudget(key, ttlMs, retries, tokens, FixedPause(retryDelayMs), replies, calls)
  {
    ghost var waits := FixedPause(retryDelayMs);
    PausesOnlyWait(retryDelayMs, retries);
    hide WithinBudget, OnlyWaits;
    calls := [];
    var release: Option<Token> := None;
    var attempt := 0;
    while attempt <= retries
      invariant 0 <= attempt && (attempt == 0 || attempt <= retries + 1)
      invariant release.None? && RefusedBefore(replies, attempt)
      invariant calls == Refusals(key, ttlMs, tokens, waits, attempt)
      decreases retries + 1 - attempt
    {
      calls := calls + [Set(key, tokens(attempt), ttlMs)];
      match replies(attempt)
      case Failed =>
        assert StoppedAt(key, ttlMs, tokens, waits, replies, body, calls, RedisThrew, attempt);
        LockedRunBudget(key, ttlMs, retries, tokens, waits, replies, body, calls, RedisThrew);
        return RedisThrew, calls;
      case Granted =>
        release := Some(tokens(attempt));
        break;
      case Refused =>
        calls := calls + [Wait(retryDelayMs)];
        attempt := attempt + 1;
    }
    if release.None? {
      LockedRunBudget(key, ttlMs, retries, tokens, waits, replies, body, calls, NotAcquired);
      return NotAcquired, calls;
    }
    calls := calls + [Body];
    outcome := body;
    calls := calls + [Free(key, release.value)];
    assert StoppedAt(key, ttlMs, tokens, waits, replies, body, calls, outcome, attempt);
    LockedRunBudget(key, ttlMs, retries, tokens, waits, replies, body, calls, outcome);
  }

  /** The retry loop of the distributed lock: one token for all attempts. */
  method RunWithLock<T>(key: Key, ttlMs: int, maxRetries: int, retryDelayMs: int, lockValue: Token,
                        replies: nat -> SetReply, body: Outcome<T>)
    returns (outcome: Outcome<T>, calls: seq<Call>)
    ensures LockedRun(key, ttlMs, maxRetries, SameToken(lockValue), GrowingPause(retryDelayMs, maxRetries),
                      replies, body, calls, outcome)
    ensures WithinBudget(key, ttlMs, maxRetries, SameToken(lockValue), GrowingPause(retryDelayMs, maxRetries),
      replies, calls)
  {
    ghost var tokens, waits := SameToken(lockValue), GrowingPause(retryDelayMs, maxRetries);
    PausesOnlyWait(retryDelayMs, maxRetries);
    hide WithinBudget, OnlyWaits;
    calls := [];
    var attempt := 0;
    while attempt <= maxRetries
      invariant 0 <= attempt && (attempt == 0 || attempt <= maxRetries + 1)
      invariant RefusedBefore(replies, attempt)
      invariant calls == Refusals(key, ttlMs, tokens, waits, attempt)
      decreases maxRetries + 1 - attempt
    {
      calls := calls + [Set(key, lockValue, ttlMs)];
      if replies(attempt) == Failed {
        assert StoppedAt(key, ttlMs, tokens, waits, replies, body, calls, RedisThrew, attempt);
        LockedRunBudget(key, ttlMs, maxRetries, tokens, waits, replies, body, calls, RedisThrew);
        return RedisThrew, calls;
      }
      if replies(attempt) == Granted {
        calls := calls + [Body] + [Free(key, lockValue)];
        assert StoppedAt(key, ttlMs, tokens, waits, replies, body, calls, body, attempt);
        LockedRunBudget(key, ttlMs, maxRetries, tokens, waits, replies, body, calls, body);
        return body, calls;
      }
      if attempt < maxRetries {
        calls := calls + [Wait(retryDelayMs * (attempt + 1))];
      }
      attempt := attempt + 1;
    }
    LockedRunBudget<T>(key, ttlMs, maxRetries, tokens, waits, replies, body, calls, NotAcquired);
    return NotAcquired, calls;
  }
}
