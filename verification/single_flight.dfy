/**
 The cold-load protocol of `MultiModelServer._resolve`: N request threads, a hot set and a
 raw-version cache shared with pollers and reloads, and one load lock per (model, alias-or-version).

 A request looks once without the lock, takes the key's lock, looks again, and only then loads. The
 state machine interleaves those steps with anything pollers, reloads, snapshot application and LRU
 eviction may do to the caches.
 */
module SingleFlight {
  import opened Counting

  datatype Key = ByAlias(model: string, alias: string) | ByVersion(model: string, version: string)

  /** What a cache entry serves. Model versions are immutable in the registry. */
  datatype Entry = Entry(model: string, version: string)

  /** `_single_flight(model, alias)` and `_single_flight(model, f"v{version}")` share one table. */
  function LockOf(k: Key): (string, string) {
    match k
    case ByAlias(model, alias) => (model, alias)
    case ByVersion(model, version) => (model, "v" + version)
  }

  function Lower(s: string): string {
    seq(|s|, i requires 0 <= i < |s| =>
      if 'A' <= s[i] <= 'Z' then ((s[i] as int) + 32) as char else s[i])
  }

  /** A lookup by alias tolerates the case of the model name; one by version does not. */
  function Lookup(cached: map<Key, Entry>, k: Key): (r: seq<Entry>)
    ensures |r| <= 1
  {
    if k in cached then [cached[k]]
    else if k.ByAlias? && ByAlias(Lower(k.model), k.alias) in cached then
      [cached[ByAlias(Lower(k.model), k.alias)]]
    else []
  }

  /** Where one request thread stands. `Holding`, `Loading` and `Stored` are under the load lock. */
  datatype Thread =
    | Idle
    | Looking(key: Key)
    | Waiting(key: Key)
    | Holding(key: Key)
    | Loading(key: Key)
    | Stored(key: Key, entry: Entry)
    | Answered(key: Key, entry: Entry)
    | Failed(key: Key)
  {
    predicate HasLock() { Holding? || Loading? || Stored? }

    predicate AtRest() { Idle? || Answered? || Failed? }
  }

  datatype State = State(cached: map<Key, Entry>, owner: map<(string, string), nat>, threads: seq<Thread>)

  datatype Event =
    | Arrive(t: nat, key: Key)
    | Look(t: nat)
    | Acquire(t: nat)
    | Recheck(t: nat)
    | Store(t: nat, entry: Entry, gone: set<Key>)  // the load succeeded; inserting may evict
    | LoadFails(t: nat)
    | Release(t: nat)
    | Others(gone: set<Key>, put: map<Key, Entry>)  // pollers, reloads, snapshots
  {
    predicate ByThread() { !Arrive? && !Others? }
  }

  ghost predicate Enabled(s: State, e: Event) {
    (!e.Others? ==> e.t < |s.threads|) &&
    match e
    case Arrive(t, _) => s.threads[t].AtRest()
    case Look(t) => s.threads[t].Looking?
    case Acquire(t) => s.threads[t].Waiting? && LockOf(s.threads[t].key) !in s.owner
    case Recheck(t) => s.threads[t].Holding?
    case Store(t, entry, gone) =>
      s.threads[t].Loading? &&
      match s.threads[t].key {
        case ByAlias(_, _) => gone == {}
        case ByVersion(model, version) => entry == Entry(model, version) && forall k <- gone :: k.ByVersion?
      }
    case LoadFails(t) => s.threads[t].Loading?
    case Release(t) => s.threads[t].Stored?
    case Others(_, put) => forall k <- put :: k.ByAlias?
  }

  function Apply(s: State, e: Event): State
    requires Enabled(s, e)
  {
    match e
    case Arrive(t, key) => s.(threads := s.threads[t := Looking(key)])
    case Look(t) =>
      var k := s.threads[t].key;
      var hit := Lookup(s.cached, k);
      s.(threads := s.threads[t := if hit != [] then Answered(k, hit[0]) else Waiting(k)])
    case Acquire(t) =>
      var k := s.threads[t].key;
      s.(threads := s.threads[t := Holding(k)], owner := s.owner[LockOf(k) := t])
    case Recheck(t) =>
      var k := s.threads[t].key;
      var hit := Lookup(s.cached, k);
      if hit != [] then s.(threads := s.threads[t := Answered(k, hit[0])], owner := s.owner - {LockOf(k)})
      else s.(threads := s.threads[t := Loading(k)])
    case Store(t, entry, gone) =>
      var k := s.threads[t].key;
      s.(threads := s.threads[t := Stored(k, entry)], cached := s.cached[k := entry] - gone)
    case LoadFails(t) =>
      var k := s.threads[t].key;
      s.(threads := s.threads[t := Failed(k)], owner := s.owner - {LockOf(k)})
    case Release(t) =>
      var k := s.threads[t].key;
      s.(threads := s.threads[t := Answered(k, s.threads[t].entry)], owner := s.owner - {LockOf(k)})
    case Others(gone, put) => s.(cached := (s.cached - gone) + put)
  }

  ghost predicate Run(s: State, events: seq<Event>)
    decreases |events|
  {
    events != [] ==> Enabled(s, events[0]) && Run(Apply(s, events[0]), events[1..])
  }

  ghost function After(s: State, events: seq<Event>): State
    requires Run(s, events)
    decreases |events|
  {
    if events == [] then s else After(Apply(s, events[0]), events[1..])
  }

  // ---- the invariant -------------------------------------------------------

  /** Each lock in the table is held by the thread it names. */
  ghost predicate OwnersHold(s: State) {
    forall l <- s.owner ::
      s.owner[l] < |s.threads| && s.threads[s.owner[l]].HasLock() && LockOf(s.threads[s.owner[l]].key) == l
  }

  /** Each thread that holds a lock is named by it. */
  ghost predicate HoldersOwn(s: State) {
    forall t | 0 <= t < |s.threads| && s.threads[t].HasLock() ::
      LockOf(s.threads[t].key) in s.owner && s.owner[LockOf(s.threads[t].key)] == t
  }

  ghost predicate LocksMatch(s: State) {
    OwnersHold(s) && HoldersOwn(s)
  }

  predicate RightVersion(k: Key, e: Entry) {
    k.ByVersion? ==> e == Entry(k.model, k.version)
  }

  ghost predicate VersionsMatch(s: State) {
    && (forall k <- s.cached :: RightVersion(k, s.cached[k]))
    && (forall t | 0 <= t < |s.threads| && (s.threads[t].Stored? || s.threads[t].Answered?) ::
          RightVersion(s.threads[t].key, s.threads[t].entry))
  }

  ghost predicate Inv(s: State) {
    LocksMatch(s) && VersionsMatch(s)
  }

  lemma StepKeepsInv(s: State, e: Event)
    requires Inv(s) && Enabled(s, e)
    ensures Inv(Apply(s, e))
  {
    StepKeepsLocks(s, e);
    StepKeepsVersions(s, e);
  }

  lemma StepKeepsLocks(s: State, e: Event)
    requires LocksMatch(s) && Enabled(s, e)
    ensures LocksMatch(Apply(s, e))
  {
    StepKeepsOwners(s, e);
    StepKeepsHolders(s, e);
  }

  lemma StepKeepsOwners(s: State, e: Event)
    requires LocksMatch(s) && Enabled(s, e)
    ensures OwnersHold(Apply(s, e))
  {
  }

  lemma StepKeepsHolders(s: State, e: Event)
    requires LocksMatch(s) && Enabled(s, e)
    ensures HoldersOwn(Apply(s, e))
  {
  }

  lemma StepKeepsVersions(s: State, e: Event)
    requires VersionsMatch(s) && Enabled(s, e)
    ensures VersionsMatch(Apply(s, e))
  {
  }

  lemma {:induction false} RunKeepsInv(s: State, events: seq<Event>)
    requires Inv(s) && Run(s, events)
    ensures Inv(After(s, events))
    decreases |events|
  {
    if events != [] {
      StepKeepsInv(s, events[0]);
      RunKeepsInv(Apply(s, events[0]), events[1..]);
    }
  }

  /** No caches, no locks, any number of threads. */
  ghost predicate Init(s: State) {
    s.cached == map[] && s.owner == map[] && forall t | 0 <= t < |s.threads| :: s.threads[t].Idle?
  }

  // ---- which entry is answered ---------------------------------------------

  const UPPER := "ABCDEFGHIJKLMNOPQRSTUVWXYZ"
  const LOWER := "abcdefghijklmnopqrstuvwxyz"

  /** Each of the letters becomes its small one; nothing else changes. */
  lemma LowerIs(s: string, i: nat)
    requires i < |s|
    ensures |Lower(s)| == |s|
    ensures (exists j | 0 <= j < 26 :: s[i] == UPPER[j] && Lower(s)[i] == LOWER[j]) ||
            (s[i] !in UPPER && Lower(s)[i] == s[i])
  {
    var j := s[i] as int - 'A' as int;
    if 0 <= j < 26 {
      assert UPPER[j] == s[i] && LOWER[j] == Lower(s)[i];
    } else {
      assert forall k | 0 <= k < 26 :: 'A' <= UPPER[k] <= 'Z';
    }
  }

  /** The entry is held under the key or, by alias, under the small letters of the model's name. */
  predicate HeldUnder(cached: map<Key, Entry>, k: Key, e: Entry) {
    if k in cached then cached[k] == e
    else k.ByAlias? && var small := ByAlias(Lower(k.model), k.alias); small in cached && cached[small] == e
  }

  predicate NotHeld(cached: map<Key, Entry>, k: Key) {
    k !in cached && (k.ByAlias? ==> ByAlias(Lower(k.model), k.alias) !in cached)
  }

  /** A look, with the lock or without, answers with the entry held - exactly when one is. */
  lemma LookAnswersIff(s: State, t: nat, e: Event)
    requires (e == Look(t) || e == Recheck(t)) && Enabled(s, e)
    ensures var k, after := s.threads[t].key, Apply(s, e).threads[t];
            if after.Answered? then after.key == k && HeldUnder(s.cached, k, after.entry)
            else NotHeld(s.cached, k) && after == if e.Look? then Waiting(k) else Loading(k)
  {
  }

  /** So a request is only ever answered with what is held at that moment, or with what it has loaded. */
  lemma AnswersAreHeldOrLoaded(s: State, e: Event, t: nat)
    requires Enabled(s, e) && t < |s.threads| && Apply(s, e).threads[t] != s.threads[t]
    ensures var before, after := s.threads[t], Apply(s, e).threads[t];
            && (after.Answered? ==>
                  (before.Stored? && after.entry == before.entry && after.key == before.key) ||
                  ((before.Looking? || before.Holding?) && after.key == before.key &&
                   HeldUnder(s.cached, before.key, after.entry)))
            && (after.Stored? ==> before == Loading(after.key) && e.Store? && e.entry == after.entry)
  {
  }

  // ---- at most one load in flight ------------------------------------------

  /** In every reachable state two threads loading under one lock are one thread; so at most one
      cold load per key is in flight, and an answered raw-version request got that version. */
  lemma OneLoadInFlight(s: State, events: seq<Event>, t: nat, u: nat)
    requires Init(s) && Run(s, events)
    requires var threads := After(s, events).threads;
             t < |threads| && u < |threads| && threads[t].Loading? && threads[u].Loading? &&
             LockOf(threads[t].key) == LockOf(threads[u].key)
    ensures t == u
  {
    RunKeepsInv(s, events);
  }

  lemma AnswersCarryTheirVersion(s: State, events: seq<Event>, t: nat)
    requires Init(s) && Run(s, events)
    requires var threads := After(s, events).threads;
             t < |threads| && threads[t].Answered? && threads[t].key.ByVersion?
    ensures var thread := After(s, events).threads[t];
            thread.entry == Entry(thread.key.model, thread.key.version)
  {
    RunKeepsInv(s, events);
  }

  // ---- between two loads of a key it was gone ------------------------------

  /** Event `i` of the run stores what a request loaded under the key. */
  ghost predicate StoresAt(s: State, events: seq<Event>, k: Key, i: nat)
    requires Run(s, events)
  {
    && i < |events| && events[i].Store?
    && (RunUpTo(s, events, i); After(s, events[..i]).threads[events[i].t].key == k)
  }

  lemma {:induction false} RunUpTo(s: State, events: seq<Event>, i: nat)
    requires Run(s, events) && i <= |events|
    ensures Run(s, events[..i]) && Run(After(s, events[..i]), events[i..])
    ensures After(After(s, events[..i]), events[i..]) == After(s, events)
    ensures i < |events| ==> Enabled(After(s, events[..i]), events[i])
    decreases |events|
  {
    if i > 0 {
      RunUpTo(Apply(s, events[0]), events[1..], i - 1);
      assert events[..i][1..] == events[1..][..i - 1] && events[1..][i - 1..] == events[i..];
    } else {
      assert events[..0] == [] && events[0..] == events;
    }
  }

  ghost predicate NoneLoads(s: State, k: Key) { forall t | 0 <= t < |s.threads| :: s.threads[t] != Loading(k) }

  /** The key is held before each of the events. */
  ghost predicate AlwaysHeld(s: State, events: seq<Event>, k: Key)
    requires Run(s, events)
    decreases |events|
  {
    events != [] ==> k in s.cached && AlwaysHeld(Apply(s, events[0]), events[1..], k)
  }

  /** While a key is held no request begins to load it. */
  lemma {:induction false} NoneBeginsToLoad(s: State, events: seq<Event>, k: Key)
    requires Run(s, events) && AlwaysHeld(s, events, k) && NoneLoads(s, k)
    ensures NoneLoads(After(s, events), k)
    decreases |events|
  {
    if events != [] {
      NoneBeginsToLoad(Apply(s, events[0]), events[1..], k);
    }
  }

  lemma {:induction false} WhenNotHeld(s: State, events: seq<Event>, k: Key) returns (m: nat)
    requires Run(s, events) && !AlwaysHeld(s, events, k)
    ensures m < |events| && Run(s, events[..m]) && k !in After(s, events[..m]).cached
    decreases |events|
  {
    if k !in s.cached {
      m := 0;
      assert events[..0] == [];
    } else {
      var n := WhenNotHeld(Apply(s, events[0]), events[1..], k);
      m := n + 1;
      assert events[..m][1..] == events[1..][..n];
    }
  }

  /** Only one request loads a key at a time, so once it has stored it none is loading it. */
  lemma StoringEndsLoading(s: State, e: Event, k: Key)
    requires Inv(s) && Enabled(s, e) && e.Store? && s.threads[e.t].key == k
    ensures NoneLoads(Apply(s, e), k)
  {
    assert forall t | 0 <= t < |s.threads| && s.threads[t] == Loading(k) :: t == s.owner[LockOf(k)];
    assert e.t == s.owner[LockOf(k)];
  }

  lemma Window(s: State, events: seq<Event>, i: nat, n: nat)
    requires Run(s, events) && i <= n <= |events|
    ensures Run(s, events[..i]) && Run(s, events[..n]) && Run(After(s, events[..i]), events[i..n])
    ensures After(s, events[..n]) == After(After(s, events[..i]), events[i..n])
  {
    RunUpTo(s, events, i);
    RunUpTo(s, events, n);
    RunUpTo(s, events[..n], i);
    assert events[..n][..i] == events[..i] && events[..n][i..] == events[i..n];
  }

  lemma AfterOneMore(s: State, events: seq<Event>, i: nat)
    requires Run(s, events) && i < |events|
    ensures Run(s, events[..i]) && Enabled(After(s, events[..i]), events[i])
    ensures Run(s, events[..i + 1]) && After(s, events[..i + 1]) == Apply(After(s, events[..i]), events[i])
  {
    Window(s, events, i, i + 1);
    RunUpTo(s, events, i);
    assert events[i..i + 1] == [events[i]] && [events[i]][1..] == [];
  }

  /** After a key was stored, a request that comes to load it found it missing on the way. */
  lemma MissingOnTheWay(s: State, e: Event, k: Key, between: seq<Event>, t: nat) returns (n: nat)
    requires Inv(s) && Enabled(s, e) && e.Store? && s.threads[e.t].key == k && Run(Apply(s, e), between)
    requires var last := After(Apply(s, e), between); t < |last.threads| && last.threads[t] == Loading(k)
    ensures n < |between| && Run(Apply(s, e), between[..n]) && k !in After(Apply(s, e), between[..n]).cached
  {
    StoringEndsLoading(s, e, k);
    if AlwaysHeld(Apply(s, e), between, k) {
      NoneBeginsToLoad(Apply(s, e), between, k);
    }
    n := WhenNotHeld(Apply(s, e), between, k);
  }

  lemma StoresWhatItLoads(s: State, events: seq<Event>, k: Key, i: nat)
    requires Run(s, events) && StoresAt(s, events, k, i)
    ensures Run(s, events[..i]) && Enabled(After(s, events[..i]), events[i])
    ensures events[i].Store? && After(s, events[..i]).threads[events[i].t] == Loading(k)
  {
    RunUpTo(s, events, i);
  }

  lemma BetweenStores(s: State, events: seq<Event>, k: Key, i: nat, j: nat)
    requires Init(s) && Run(s, events) && i < j && StoresAt(s, events, k, i) && StoresAt(s, events, k, j)
    ensures Run(s, events[..i])
    ensures
      var first := After(s, events[..i]);
      && Inv(first) && Enabled(first, events[i]) && events[i].Store? && first.threads[events[i].t].key == k
      && Run(Apply(first, events[i]), events[i + 1..j])
    ensures
      var last := After(Apply(After(s, events[..i]), events[i]), events[i + 1..j]);
      events[j].Store? && events[j].t < |last.threads| && last.threads[events[j].t] == Loading(k)
  {
    StoresWhatItLoads(s, events, k, i);
    StoresWhatItLoads(s, events, k, j);
    RunKeepsInv(s, events[..i]);
    AfterOneMore(s, events, i);
    Window(s, events, i + 1, j);
  }

  lemma SameMoment(s: State, events: seq<Event>, i: nat, m: nat)
    requires Run(s, events) && i < m <= |events|
    ensures Run(s, events[..i]) && Run(s, events[..m]) && Enabled(After(s, events[..i]), events[i])
    ensures Run(Apply(After(s, events[..i]), events[i]), events[i + 1..m])
    ensures After(s, events[..m]) == After(Apply(After(s, events[..i]), events[i]), events[i + 1..m])
  {
    AfterOneMore(s, events, i);
    Window(s, events, i + 1, m);
  }

  /** Between two loads of one key there is a moment at which it is not held: no load is in vain. */
  lemma LoadsNeedADeparture(s: State, events: seq<Event>, k: Key, i: nat, j: nat) returns (m: nat)
    requires Init(s) && Run(s, events) && i < j && StoresAt(s, events, k, i) && StoresAt(s, events, k, j)
    ensures i < m <= j && Run(s, events[..m]) && k !in After(s, events[..m]).cached
  {
    BetweenStores(s, events, k, i, j);
    var n := MissingOnTheWay(After(s, events[..i]), events[i], k, events[i + 1..j], events[j].t);
    m := i + 1 + n;
    SliceOfSlice(events, i + 1, j, n);
    SameMoment(s, events, i, m);
  }

  lemma SliceOfSlice<T>(s: seq<T>, a: nat, b: nat, n: nat)
    requires a + n <= b <= |s|
    ensures s[a..b][..n] == s[a..a + n]
  {
  }

  predicate SameAt(a: map<Key, Entry>, b: map<Key, Entry>, k: Key) {
    (k in a <==> k in b) && (k in a ==> a[k] == b[k])
  }

  /** What stands under the key after the caches were filled and thinned. */
  predicate Leaves(before: map<Key, Entry>, after: map<Key, Entry>, gone: set<Key>, put: map<Key, Entry>, k: Key) {
    if k in put then k in after && after[k] == put[k]
    else if k in gone then k !in after
    else SameAt(before, after, k)
  }

  /** What stands in the caches after an event, key by key; and what the others never touch. */
  lemma CachedAfter(s: State, e: Event, k: Key)
    requires Enabled(s, e)
    ensures !e.Store? && !e.Others? ==> Apply(s, e).cached == s.cached
    ensures e.Store? ==> Leaves(s.cached, Apply(s, e).cached, e.gone,
                                if s.threads[e.t].key in e.gone then map[] else map[s.threads[e.t].key := e.entry], k)
    ensures e.Others? ==> Leaves(s.cached, Apply(s, e).cached, e.gone, e.put, k) &&
                          Apply(s, e).threads == s.threads && Apply(s, e).owner == s.owner
    ensures e.Arrive? ==> Apply(s, e).threads[e.t] == Looking(e.key)
  {
  }

  /** The name a lock has beside the model's. */
  function LockName(k: Key): string {
    match k
    case ByAlias(_, alias) => alias
    case ByVersion(_, version) => ['v'] + version
  }

  /** A version shares the lock of the alias that is spelled like it, with a "v" in front; otherwise each alias and
      each version of a model has its own. */
  lemma LocksAreSharedIff(a: Key, b: Key)
    ensures LockOf(a) == LockOf(b) <==> a.model == b.model && LockName(a) == LockName(b)
    ensures a.ByVersion? && b.ByVersion? && LockOf(a) == LockOf(b) ==> a == b
  {
    if a.ByVersion? && b.ByVersion? {
      assert LockName(a)[1..] == a.version && LockName(b)[1..] == b.version;
    }
  }

  // ---- loads are paid for by departures ------------------------------------

  /** 1 when the event is a successful cold load of `k`. */
  ghost function LoadBy(s: State, e: Event, k: Key): nat
    requires Enabled(s, e)
  {
    if e.Store? && s.threads[e.t].key == k then 1 else 0
  }

  /** 1 when `k` leaves the caches in the event, even if it was inserted in the same step. */
  ghost function DepartureBy(s: State, e: Event, k: Key): nat
    requires Enabled(s, e)
  {
    match e
    case Store(t, _, gone) => if k in gone && (k in s.cached || k == s.threads[t].key) then 1 else 0
    case Others(gone, put) => if k in gone && k in s.cached && k !in put then 1 else 0
    case _ => 0
  }

  ghost function Loads(s: State, events: seq<Event>, k: Key): nat
    requires Run(s, events)
    decreases |events|
  {
    if events == [] then 0
    else LoadBy(s, events[0], k) + Loads(Apply(s, events[0]), events[1..], k)
  }

  ghost function Departures(s: State, events: seq<Event>, k: Key): nat
    requires Run(s, events)
    decreases |events|
  {
    if events == [] then 0
    else DepartureBy(s, events[0], k) + Departures(Apply(s, events[0]), events[1..], k)
  }

  /** The key leaves: it is not held after the event, though it was held before or stored by it. */
  ghost predicate LeavesIn(s: State, e: Event, k: Key)
    requires Enabled(s, e)
  {
    k !in Apply(s, e).cached && (k in s.cached || (e.Store? && s.threads[e.t].key == k))
  }

  lemma CountsOfOne(s: State, e: Event, k: Key)
    requires Enabled(s, e)
    ensures LoadBy(s, e, k) == if e.Store? && s.threads[e.t].key == k then 1 else 0
    ensures DepartureBy(s, e, k) == if LeavesIn(s, e, k) then 1 else 0
  {
  }

  ghost predicate LeavesAt(s: State, events: seq<Event>, k: Key, i: nat)
    requires Run(s, events)
  {
    i < |events| && (RunUpTo(s, events, i); LeavesIn(After(s, events[..i]), events[i], k))
  }

  lemma {:induction false} CountsOfMore(s: State, events: seq<Event>, k: Key, n: nat)
    requires Run(s, events) && |events| == n + 1
    ensures Run(s, events[..n]) && Enabled(After(s, events[..n]), events[n])
    ensures Loads(s, events, k) == Loads(s, events[..n], k) + LoadBy(After(s, events[..n]), events[n], k)
    ensures Departures(s, events, k) ==
            Departures(s, events[..n], k) + DepartureBy(After(s, events[..n]), events[n], k)
    decreases n
  {
    RunUpTo(s, events, n);
    if n > 0 {
      CountsOfMore(Apply(s, events[0]), events[1..], k, n - 1);
      assert events[..n][1..] == events[1..][..n - 1];
    } else {
      assert events[..0] == [] && events[1..] == [];
    }
  }

  lemma SameBefore(s: State, events: seq<Event>, k: Key, n: nat, i: nat)
    requires Run(s, events) && i < n < |events| && Run(s, events[..n])
    ensures StoresAt(s, events, k, i) == StoresAt(s, events[..n], k, i)
    ensures LeavesAt(s, events, k, i) == LeavesAt(s, events[..n], k, i)
  {
    assert events[..n][..i] == events[..i];
  }

  /** The events of a run that store the key, and those in which it leaves. */
  ghost function Storing(s: State, events: seq<Event>, k: Key): set<int>
    requires Run(s, events)
  {
    set i | 0 <= i < |events| && StoresAt(s, events, k, i)
  }

  ghost function Leaving(s: State, events: seq<Event>, k: Key): set<int>
    requires Run(s, events)
  {
    set i | 0 <= i < |events| && LeavesAt(s, events, k, i)
  }

  lemma AmongBoth(s: State, events: seq<Event>, k: Key, n: nat, i: int)
    requires Run(s, events) && |events| == n + 1 && Run(s, events[..n])
    ensures i in Storing(s, events, k) <==>
            i in Storing(s, events[..n], k) || (i == n && StoresAt(s, events, k, n))
    ensures i in Leaving(s, events, k) <==>
            i in Leaving(s, events[..n], k) || (i == n && LeavesAt(s, events, k, n))
  {
    if 0 <= i < n {
      SameBefore(s, events, k, n, i);
    }
  }

  lemma OneMoreOfEach(s: State, events: seq<Event>, k: Key, n: nat)
    requires Run(s, events) && |events| == n + 1 && Run(s, events[..n])
    ensures |Storing(s, events, k)| == |Storing(s, events[..n], k)| + if StoresAt(s, events, k, n) then 1 else 0
    ensures |Leaving(s, events, k)| == |Leaving(s, events[..n], k)| + if LeavesAt(s, events, k, n) then 1 else 0
  {
    var stores, leaves := StoresAt(s, events, k, n), LeavesAt(s, events, k, n);
    var a, b := Storing(s, events[..n], k), Leaving(s, events[..n], k);
    var c, d := Storing(s, events, k), Leaving(s, events, k);
    forall i
      ensures i in c <==> i in a || (i == n && stores)
      ensures i in d <==> i in b || (i == n && leaves)
    {
      AmongBoth(s, events, k, n, i);
    }
    OneMoreMember(a, c, n, stores);
    OneMoreMember(b, d, n, leaves);
  }

  /** The loads counted are the events that store the key, the departures those in which it leaves. */
  lemma {:induction false} CountsAre(s: State, events: seq<Event>, k: Key)
    requires Run(s, events)
    ensures Loads(s, events, k) == |Storing(s, events, k)| && Departures(s, events, k) == |Leaving(s, events, k)|
    decreases |events|
  {
    if events == [] {
      assert Storing(s, events, k) == {} && Leaving(s, events, k) == {};
    } else {
      var n := |events| - 1;
      CountsOfMore(s, events, k, n);
      CountsAre(s, events[..n], k);
      CountsOfOne(After(s, events[..n]), events[n], k);
      OneMoreOfEach(s, events, k, n);
    }
  }

  ghost predicate BeingLoaded(s: State, k: Key) {
    exists t | 0 <= t < |s.threads| :: s.threads[t] == Loading(k)
  }

  /** How many more loads of `k` may succeed before it next leaves the caches. */
  ghost function Credit(s: State, k: Key): nat {
    if k in s.cached && !BeingLoaded(s, k) then 0 else 1
  }

  lemma StepSpendsCredit(s: State, e: Event, k: Key)
    requires LocksMatch(s) && Enabled(s, e)
    ensures LoadBy(s, e, k) + Credit(Apply(s, e), k) <= Credit(s, k) + DepartureBy(s, e, k)
  {
    var s' := Apply(s, e);
    if LoadBy(s, e, k) == 1 {
      assert s.threads[e.t] == Loading(k);
      assert forall t | 0 <= t < |s.threads| && t != e.t :: s.threads[t] != Loading(k);
    } else if BeingLoaded(s', k) && !BeingLoaded(s, k) {
      var t :| 0 <= t < |s'.threads| && s'.threads[t] == Loading(k);
      assert e == Recheck(t) && Lookup(s.cached, k) == [];
    }
  }

  /** Over any run from a coherent state - so over any window of any run - a key is loaded at most
      once more than it left the caches, whatever pollers, reloads and evictions do meanwhile. */
  lemma {:induction false} LoadsArePaidFor(s: State, events: seq<Event>, k: Key)
    requires Inv(s) && Run(s, events)
    ensures Loads(s, events, k) <= Departures(s, events, k) + Credit(s, k)
    ensures Loads(s, events, k) <= Departures(s, events, k) + 1
    decreases |events|
  {
    if events != [] {
      StepKeepsInv(s, events[0]);
      StepSpendsCredit(s, events[0], k);
      LoadsArePaidFor(Apply(s, events[0]), events[1..], k);
    }
  }

  // ---- every request finishes ----------------------------------------------

  /** While a request is unfinished, some thread can move: the load locks cannot deadlock. */
  lemma NoDeadlock(s: State, t: nat)
    requires LocksMatch(s) && t < |s.threads| && !s.threads[t].AtRest()
    ensures exists e: Event :: e.ByThread() && Enabled(s, e)
  {
    var u := if s.threads[t].Waiting? && LockOf(s.threads[t].key) in s.owner
             then s.owner[LockOf(s.threads[t].key)] else t;
    match s.threads[u]
    case Looking(_) => assert Enabled(s, Look(u));
    case Waiting(_) => assert Enabled(s, Acquire(u));
    case Holding(_) => assert Enabled(s, Recheck(u));
    case Loading(_) => assert Enabled(s, LoadFails(u));
    case Stored(_, _) => assert Enabled(s, Release(u));
  }

  function StepsLeft(t: Thread): nat {
    match t
    case Looking(_) => 5
    case Waiting(_) => 4
    case Holding(_) => 3
    case Loading(_) => 2
    case Stored(_, _) => 1
    case _ => 0
  }

  function TotalLeft(threads: seq<Thread>): nat {
    if threads == [] then 0 else StepsLeft(threads[0]) + TotalLeft(threads[1..])
  }

  lemma {:induction false} UpdateTotal(threads: seq<Thread>, t: nat, now: Thread)
    requires t < |threads|
    ensures TotalLeft(threads[t := now]) == TotalLeft(threads) - StepsLeft(threads[t]) + StepsLeft(now)
  {
    if t == 0 {
      assert threads[t := now][1..] == threads[1..];
    } else {
      assert threads[t := now][1..] == threads[1..][t - 1 := now];
      UpdateTotal(threads[1..], t - 1, now);
    }
  }

  /** Without new arrivals the threads take at most five steps each, whatever else happens. */
  ghost function ThreadSteps(events: seq<Event>): nat {
    if events == [] then 0 else (if events[0].ByThread() then 1 else 0) + ThreadSteps(events[1..])
  }

  lemma {:induction false} RequestsFinish(s: State, events: seq<Event>)
    requires Run(s, events) && forall e <- events :: !e.Arrive?
    ensures ThreadSteps(events) <= TotalLeft(s.threads)
    decreases |events|
  {
    if events != [] {
      var s' := Apply(s, events[0]);
      if events[0].ByThread() {
        UpdateTotal(s.threads, events[0].t, s'.threads[events[0].t]);
        assert s'.threads == s.threads[events[0].t := s'.threads[events[0].t]];
      }
      RequestsFinish(s', events[1..]);
    }
  }

  lemma {:induction false} StepsOfBoth(a: seq<Event>, b: seq<Event>)
    ensures ThreadSteps(a + b) == ThreadSteps(a) + ThreadSteps(b)
  {
    if a == [] {
      assert a + b == b;
    } else {
      assert (a + b)[1..] == a[1..] + b;
      StepsOfBoth(a[1..], b);
    }
  }

  predicate IsStep(e: Event) { !e.Arrive? && !e.Others? }

  lemma {:induction false} StepsAreCounted(events: seq<Event>)
    ensures ThreadSteps(events) == Many(events, IsStep)
  {
    if events == [] {
      NoneOfNone(IsStep);
    } else {
      var init, last := events[..|events| - 1], events[|events| - 1];
      StepsAreCounted(init);
      assert events == init + [last] && [last][1..] == [];
      StepsOfBoth(init, [last]);
      ManyOfMore(init, last, IsStep);
    }
  }

  predicate Unfinished(t: Thread) { !t.Idle? && !t.Answered? && !t.Failed? }

  lemma {:induction false} FiveAtMost(threads: seq<Thread>)
    ensures TotalLeft(threads) <= 5 * Many(threads, Unfinished)
  {
    if threads == [] {
      NoneOfNone(Unfinished);
    } else {
      var init, last := threads[..|threads| - 1], threads[|threads| - 1];
      FiveAtMost(init);
      assert threads == init + [last] && [last][1..] == [];
      TotalOfBoth(init, [last]);
      ManyOfMore(init, last, Unfinished);
    }
  }

  lemma {:induction false} TotalOfBoth(a: seq<Thread>, b: seq<Thread>)
    ensures TotalLeft(a + b) == TotalLeft(a) + TotalLeft(b)
  {
    if a == [] {
      assert a + b == b;
    } else {
      assert (a + b)[1..] == a[1..] + b;
      TotalOfBoth(a[1..], b);
    }
  }

  /** Without new arrivals the threads take at most five steps for each request that is unfinished. */
  lemma FiveStepsEach(s: State, events: seq<Event>)
    requires Run(s, events) && forall e <- events :: !e.Arrive?
    ensures Many(events, IsStep) <= 5 * Many(s.threads, Unfinished)
  {
    RequestsFinish(s, events);
    StepsAreCounted(events);
    FiveAtMost(s.threads);
  }
}
