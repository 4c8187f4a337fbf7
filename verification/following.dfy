/**
 How a replica's hot set follows a snapshot while requests load cold aliases and operators reload: the poller
 applies a generation once, replacing the hot set by what it made of an earlier copy; a cold load reads the
 registry first and stores much later; a reload follows the registry, which may be ahead of the snapshot.
 */
module Following {
  import opened Wrappers
  import opened Snapshots
  import R = Reloads

  /** `loading` holds, for each cold load under way, the version the registry named when it began. */
  datatype State = State(hot: map<Key, Entry>, generation: Option<int>, loading: map<Key, string>)

  /** A poll: the newest snapshot, the loads that fail, and the copy of the hot set it started from. A full
      reload: what it saw of the hot set when a load failed, and the aliases it walks. A reload of one model
      is one event for each of its aliases. */
  datatype Event =
    | Poll(newest: Option<Snapshot>, fails: set<Key>, seen: map<Key, Entry>)
    | Begin(key: Key, version: string)
    | End(key: Key, loaded: bool)
    | ReloadAll(keys: set<Key>, world: R.World, seen: map<Key, Entry>)
    | Reload(key: Key, world: R.World)

  function Cold(k: Key, version: string): Entry { Entry(Model(k.0, version), version, "", None) }

  predicate Applies(s: State, newest: Option<Snapshot>) {
    newest.Some? && s.generation != Some(newest.value.generation)
  }

  function Next(serve: Serve, s: State, e: Event): State {
    match e
    case Poll(newest, fails, seen) =>
      if Applies(s, newest) then
        s.(hot := Applied(seen, serve, fails, FactsIn(newest.value)), generation := Some(newest.value.generation))
      else s
    case Begin(k, version) => s.(loading := s.loading[k := version])
    case End(k, loaded) =>
      s.(loading := s.loading - {k},
         hot := if loaded && k in s.loading then s.hot[k := Cold(k, s.loading[k])] else s.hot)
    case ReloadAll(keys, w, seen) => s.(hot := R.FullPass(seen, w, keys))
    case Reload(k, w) =>
      var now := R.InOne(s.hot, w, k);
      s.(hot := if now.Some? then s.hot[k := now.value] else s.hot - {k})
  }

  function After(serve: Serve, s: State, run: seq<Event>): State
    decreases |run|
  {
    if run == [] then s else After(serve, Next(serve, s, run[0]), run[1..])
  }

  lemma {:induction false} AfterBoth(serve: Serve, s: State, a: seq<Event>, b: seq<Event>)
    ensures After(serve, s, a + b) == After(serve, After(serve, s, a), b)
    decreases |a|
  {
    if a == [] {
      assert a + b == b;
    } else {
      assert (a + b)[1..] == a[1..] + b;
      AfterBoth(serve, Next(serve, s, a[0]), a[1..], b);
    }
  }

  /** `_reload_one_model`, when nothing comes in between. */
  function PassOver(name: string, aliases: seq<string>, w: R.World): (run: seq<Event>)
    ensures |run| == |aliases| && forall i | 0 <= i < |run| :: run[i] == Reload((name, aliases[i]), w)
  {
    seq(|aliases|, i requires 0 <= i < |aliases| => Reload((name, aliases[i]), w))
  }

  /** Alias by alias, a reload of one model amounts to the pass over it. */
  lemma {:induction false} AliasByAlias(serve: Serve, s: State, name: string, aliases: seq<string>, w: R.World)
    ensures After(serve, s, PassOver(name, aliases, w)) ==
            s.(hot := R.OnePass(s.hot, w, R.KeysOf([name], (_: string) => aliases)))
  {
    var keys := R.KeysOf([name], (_: string) => aliases);
    var run := PassOver(name, aliases, w);
    if aliases == [] {
      assert R.OnePass(s.hot, w, keys) == s.hot;
    } else {
      var before, k := aliases[..|aliases| - 1], (name, aliases[|aliases| - 1]);
      var done := R.KeysOf([name], (_: string) => before);
      AliasByAlias(serve, s, name, before, w);
      AfterBoth(serve, s, PassOver(name, before, w), [Reload(k, w)]);
      assert run == PassOver(name, before, w) + [Reload(k, w)];
      var half := s.(hot := R.OnePass(s.hot, w, done));
      assert After(serve, half, [Reload(k, w)]) == Next(serve, half, Reload(k, w)) by {
        assert [Reload(k, w)][1..] == [];
      }
      assert keys == done + {k};
      R.OnePassOneMore(s.hot, w, done, k);
      R.AnAliasAgain(s.hot, w, done, k);
    }
  }

  // ---- what the poller retries ---------------------------------------------

  /** No poll of the run finds another generation. */
  predicate SameGeneration(run: seq<Event>, generation: Option<int>) {
    forall i | 0 <= i < |run| ::
      run[i].Poll? && run[i].newest.Some? ==> generation == Some(run[i].newest.value.generation)
  }

  function WithoutPolls(run: seq<Event>): seq<Event> {
    if run == [] then [] else (if run[0].Poll? then [] else [run[0]]) + WithoutPolls(run[1..])
  }

  /** Whatever requests and reloads do meanwhile, the polls of one generation might as well not be there: the
      poller never retries a load of a generation it has applied. */
  lemma {:induction false} PollsOfOneGenerationDoNothing(serve: Serve, s: State, run: seq<Event>)
    requires SameGeneration(run, s.generation)
    ensures After(serve, s, run) == After(serve, s, WithoutPolls(run))
    decreases |run|
  {
    if run != [] {
      var t := Next(serve, s, run[0]);
      PollsOfOneGenerationDoNothing(serve, t, run[1..]);
      if run[0].Poll? {
        assert t == s && WithoutPolls(run) == WithoutPolls(run[1..]);
      } else {
        assert WithoutPolls(run)[1..] == WithoutPolls(run[1..]);
      }
    }
  }

  lemma {:induction false} NoPollsLeft(polls: seq<Event>)
    requires forall i | 0 <= i < |polls| :: polls[i].Poll?
    ensures WithoutPolls(polls) == []
  {
    if polls != [] {
      NoPollsLeft(polls[1..]);
    }
  }

  /** While nothing but polls happens the hot set does not move within a generation, and it is converged, the
      schemas included, exactly when the poll that applied the generation had no failing load. */
  lemma OneChancePerGeneration(serve: Serve, s: State, newest: Snapshot, fails: set<Key>, seen: map<Key, Entry>,
                               polls: seq<Event>)
    requires s.generation != Some(newest.generation) && SameGeneration(polls, Some(newest.generation))
    requires OnlyPolls(polls)
    ensures
      var t := Next(serve, s, Poll(Some(newest), fails, seen));
      && After(serve, t, polls) == t
      && (Converged(t.hot, serve, FactsIn(newest)) <==> Needed(seen, serve, FactsIn(newest)) !! fails)
  {
    PollsOfOneGenerationDoNothing(serve, Next(serve, s, Poll(Some(newest), fails, seen)), polls);
    NoPollsLeft(polls);
    ConvergesIff(seen, serve, fails, FactsIn(newest));
  }

  // ---- the last decision ---------------------------------------------------

  /** What an event decides about a key, whatever is hot: nothing, that it goes, or its entry. */
  function Decides(serve: Serve, s: State, e: Event, k: Key): R.Decision {
    match e
    case Poll(newest, fails, seen) =>
      if Applies(s, newest) then Decision(R.At(Applied(seen, serve, fails, FactsIn(newest.value)), k)) else R.Nothing
    case Begin(_, _) => R.Nothing
    case End(l, loaded) => if l == k && loaded && k in s.loading then R.Loads(Cold(k, s.loading[k])) else R.Nothing
    case ReloadAll(keys, w, seen) => Decision(if k in keys then R.InFull(seen, w, k) else None)
    case Reload(l, w) => if l == k then R.OfOne(w, k) else R.Nothing
  }

  function Decision(e: Option<Entry>): R.Decision {
    if e.Some? then R.Loads(e.value) else R.Goes
  }

  /** The last decision of a run about a key. */
  function LastDecision(serve: Serve, s: State, run: seq<Event>, k: Key): R.Decision
    decreases |run|
  {
    if run == [] then R.Nothing
    else
      var later := LastDecision(serve, Next(serve, s, run[0]), run[1..], k);
      if later.Nothing? then Decides(serve, s, run[0], k) else later
  }

  lemma EventDecides(serve: Serve, s: State, e: Event, k: Key)
    ensures R.At(Next(serve, s, e).hot, k) == R.Outcome(Decides(serve, s, e, k), R.At(s.hot, k))
  {
  }

  /** After any run whatever - snapshots of many generations, cold loads under way, reloads, failures anywhere -
      what is hot of a key is what the last event to decide about it decided. */
  lemma {:induction false} TheLastDecisionStands(serve: Serve, s: State, run: seq<Event>, k: Key)
    ensures R.At(After(serve, s, run).hot, k) == R.Outcome(LastDecision(serve, s, run, k), R.At(s.hot, k))
    decreases |run|
  {
    if run != [] {
      EventDecides(serve, s, run[0], k);
      TheLastDecisionStands(serve, Next(serve, s, run[0]), run[1..], k);
    }
  }

  /** It is the decision of an event of the run that no later event decides about. */
  ghost predicate DecidedAt(serve: Serve, s: State, run: seq<Event>, k: Key, i: nat)
    requires i < |run|
  {
    && Decides(serve, After(serve, s, run[..i]), run[i], k) == LastDecision(serve, s, run, k)
    && LastDecision(serve, After(serve, s, run[..i + 1]), run[i + 1..], k).Nothing?
  }

  lemma {:induction false} SomeEventDecides(serve: Serve, s: State, run: seq<Event>, k: Key) returns (i: nat)
    requires !LastDecision(serve, s, run, k).Nothing?
    ensures i < |run| && DecidedAt(serve, s, run, k, i)
    decreases |run|
  {
    var t := Next(serve, s, run[0]);
    if LastDecision(serve, t, run[1..], k).Nothing? {
      i := 0;
      assert run[..1][1..] == [];
    } else {
      var j := SomeEventDecides(serve, t, run[1..], k);
      i := j + 1;
      assert run[..i][1..] == run[1..][..j] && run[..i + 1][1..] == run[1..][..j + 1];
      assert run[i + 1..] == run[1..][j + 1..];
    }
  }

  // ---- agreement with a snapshot -------------------------------------------

  /** The snapshot has the alias and the replica serves it. */
  predicate Wanted(serve: Serve, facts: map<Key, Facts>, k: Key) { k in facts && k.1 in serve(k.0) }

  /** The entry has the snapshot's version and, where schemas are compared too, its schema. */
  predicate Right(e: Entry, facts: map<Key, Facts>, k: Key, schemas: bool) {
    k in facts && e.version == facts[k].version && (schemas ==> e.schema == facts[k].schema)
  }

  predicate RightAt(held: Option<Entry>, serve: Serve, facts: map<Key, Facts>, k: Key, schemas: bool) {
    if held.Some? then Right(held.value, facts, k, schemas) else !Wanted(serve, facts, k)
  }

  ghost predicate Agrees(hot: map<Key, Entry>, serve: Serve, facts: map<Key, Facts>, schemas: bool) {
    forall k :: RightAt(R.At(hot, k), serve, facts, k, schemas)
  }

  /** With the schemas, agreement is convergence. */
  lemma AgreementIsConvergence(hot: map<Key, Entry>, serve: Serve, facts: map<Key, Facts>)
    ensures Agrees(hot, serve, facts, true) <==> Converged(hot, serve, facts)
  {
    if Agrees(hot, serve, facts, true) {
      forall k | k in hot || Wanted(serve, facts, k)
        ensures k in hot && Right(hot[k], facts, k, true)
      {
        assert RightAt(R.At(hot, k), serve, facts, k, true);
      }
      assert forall k <- facts | k.1 in serve(k.0) :: Wanted(serve, facts, k);
    } else {
      var k :| !RightAt(R.At(hot, k), serve, facts, k, true);
      assert k in hot ==> !Right(hot[k], facts, k, true);
      assert k !in hot ==> k in facts && k.1 in serve(k.0);
    }
  }

  /** The decision moves the key away from the snapshot. */
  predicate Undoes(d: R.Decision, serve: Serve, facts: map<Key, Facts>, k: Key, schemas: bool) {
    match d
    case Nothing => false
    case Goes => Wanted(serve, facts, k)
    case Loads(e) => !Right(e, facts, k, schemas)
  }

  /** The decision puts the key right, or there is none and it was right before. */
  predicate EndsRight(d: R.Decision, before: Option<Entry>, serve: Serve, facts: map<Key, Facts>, k: Key,
                      schemas: bool)
  {
    if d.Nothing? then RightAt(before, serve, facts, k, schemas) else !Undoes(d, serve, facts, k, schemas)
  }

  /** Over any run, from any hot set and any cold loads under way: the replica ends up agreeing with a snapshot
      exactly when, for every key, the last decision loads what the snapshot has, or drops what it does not
      want, or there is none and the key was right before. */
  lemma AgreesIff(serve: Serve, s: State, run: seq<Event>, facts: map<Key, Facts>, schemas: bool)
    ensures Agrees(After(serve, s, run).hot, serve, facts, schemas) <==>
            forall k :: EndsRight(LastDecision(serve, s, run, k), R.At(s.hot, k), serve, facts, k, schemas)
  {
    var t := After(serve, s, run);
    forall k
      ensures RightAt(R.At(t.hot, k), serve, facts, k, schemas) <==>
              EndsRight(LastDecision(serve, s, run, k), R.At(s.hot, k), serve, facts, k, schemas)
    {
      TheLastDecisionStands(serve, s, run, k);
    }
    if Agrees(t.hot, serve, facts, schemas) {
      forall k
        ensures EndsRight(LastDecision(serve, s, run, k), R.At(s.hot, k), serve, facts, k, schemas)
      {
        assert RightAt(R.At(t.hot, k), serve, facts, k, schemas);
      }
    }
  }

  /** The poll that applies a generation leaves exactly the needed keys wrong whose load failed. */
  lemma WrongIffFailed(seen: map<Key, Entry>, serve: Serve, fails: set<Key>, facts: map<Key, Facts>, k: Key,
                       schemas: bool)
    ensures RightAt(R.At(Applied(seen, serve, fails, facts), k), serve, facts, k, schemas) <==>
            !(k in Needed(seen, serve, facts) && k in fails)
  {
  }

  /** One chance per generation, and what remains of it. Whatever requests, reloads and polls follow within the
      generation: the replica agrees with the snapshot at the end exactly when every needed load that failed is
      made up for - the last decision about its key loads what the snapshot has - and no last decision undoes
      another key. */
  lemma FailedLoadsAreMadeUpIff(serve: Serve, s: State, newest: Snapshot, fails: set<Key>, seen: map<Key, Entry>,
                                run: seq<Event>, schemas: bool)
    requires s.generation != Some(newest.generation)
    ensures
      var facts, t := FactsIn(newest), Next(serve, s, Poll(Some(newest), fails, seen));
      Agrees(After(serve, t, run).hot, serve, facts, schemas) <==>
      && (forall k <- Needed(seen, serve, facts) | k in fails :: LastDecision(serve, t, run, k).Loads?)
      && (forall k :: !Undoes(LastDecision(serve, t, run, k), serve, facts, k, schemas))
  {
    var facts, t := FactsIn(newest), Next(serve, s, Poll(Some(newest), fails, seen));
    AgreesIff(serve, t, run, facts, schemas);
    forall k
      ensures RightAt(R.At(t.hot, k), serve, facts, k, schemas) <==> !(k in Needed(seen, serve, facts) && k in fails)
    {
      WrongIffFailed(seen, serve, fails, facts, k, schemas);
    }
    assert forall k <- Needed(seen, serve, facts) :: Wanted(serve, facts, k);
  }

  /** When no needed load failed, agreement is lost exactly when the last decision about some key loads another
      version than the snapshot's or drops a key it wants: a cold load that read the registry at another time,
      or a reload. */
  lemma AgreementIsLostIff(serve: Serve, s: State, newest: Snapshot, fails: set<Key>, seen: map<Key, Entry>,
                           run: seq<Event>, schemas: bool)
    requires s.generation != Some(newest.generation) && Needed(seen, serve, FactsIn(newest)) !! fails
    ensures
      var facts, t := FactsIn(newest), Next(serve, s, Poll(Some(newest), fails, seen));
      !Agrees(After(serve, t, run).hot, serve, facts, schemas) <==>
      exists k :: Undoes(LastDecision(serve, t, run, k), serve, facts, k, schemas)
  {
    FailedLoadsAreMadeUpIff(serve, s, newest, fails, seen, run, schemas);
  }

  // ---- within a generation -------------------------------------------------

  /** A cold load begins for an alias that is not hot, one at a time. */
  predicate Legal(s: State, e: Event) {
    match e
    case Begin(k, _) => k !in s.hot && k !in s.loading
    case End(k, _) => k in s.loading
    case _ => true
  }

  predicate LegalRun(serve: Serve, s: State, run: seq<Event>)
    decreases |run|
  {
    run == [] || (Legal(s, run[0]) && LegalRun(serve, Next(serve, s, run[0]), run[1..]))
  }

  /** Something is reloaded during the run. */
  ghost predicate HasReload(run: seq<Event>) { exists e <- run :: e.ReloadAll? || e.Reload? }

  /** Without a reload an entry that is held, its load not under way, is not touched within the generation:
      requests never correct an old version that a failed load held back. */
  lemma {:induction false} HeldBackStays(serve: Serve, s: State, run: seq<Event>, k: Key)
    requires LegalRun(serve, s, run) && SameGeneration(run, s.generation) && !HasReload(run)
    requires k in s.hot && k !in s.loading
    ensures R.At(After(serve, s, run).hot, k) == Some(s.hot[k])
    decreases |run|
  {
    if run != [] {
      assert run[0] in run && forall e <- run[1..] :: e in run;
      HeldBackStays(serve, Next(serve, s, run[0]), run[1..], k);
    }
  }

  /** A cold load that read another version than the snapshot's, a reload of the alias that finds another or
      finds it gone, or a full reload that leaves the key wrong. */
  predicate CanUndo(s: State, e: Event, serve: Serve, facts: map<Key, Facts>, k: Key, schemas: bool) {
    match e
    case End(l, _) => l == k && k in s.loading && !Right(Cold(k, s.loading[k]), facts, k, schemas)
    case Reload(l, w) =>
      l == k && (w.lookup(k).Gone? ||
                 (w.lookup(k).Version? && !Right(R.Fresh(w, k, w.lookup(k).version), facts, k, schemas)))
    case ReloadAll(keys, w, seen) =>
      !RightAt(if k in keys then R.InFull(seen, w, k) else None, serve, facts, k, schemas)
    case _ => false
  }

  /** Nothing else undoes agreement within a generation. */
  lemma WhatUndoes(serve: Serve, s: State, run: seq<Event>, facts: map<Key, Facts>, k: Key, schemas: bool)
    returns (i: nat)
    requires SameGeneration(run, s.generation)
    requires Undoes(LastDecision(serve, s, run, k), serve, facts, k, schemas)
    ensures i < |run| && CanUndo(After(serve, s, run[..i]), run[i], serve, facts, k, schemas)
    ensures DecidedAt(serve, s, run, k, i)
  {
    i := SomeEventDecides(serve, s, run, k);
    PollsKeepTheGeneration(serve, s, run[..i]);
  }

  lemma {:induction false} PollsKeepTheGeneration(serve: Serve, s: State, run: seq<Event>)
    requires SameGeneration(run, s.generation)
    ensures After(serve, s, run).generation == s.generation
    decreases |run|
  {
    if run != [] {
      PollsKeepTheGeneration(serve, Next(serve, s, run[0]), run[1..]);
    }
  }

  // ---- runs in which a replica and its snapshot part ------------------------

  predicate OnlyPolls(run: seq<Event>) { forall i | 0 <= i < |run| :: run[i].Poll? }

  /** Version 1 is held, the load of version 2 fails once: version 1 stays for as long as the generation does. */
  lemma AFailedLoadIsNotRetried(k: Key, polls: seq<Event>, newest: Snapshot, serve: Serve)
    requires FactsIn(newest) == map[k := Facts("2", "", None)] && k.1 in serve(k.0)
    requires SameGeneration(polls, Some(newest.generation)) && OnlyPolls(polls)
    ensures
      var hot := map[k := Cold(k, "1")];
      var t := Next(serve, State(hot, None, map[]), Poll(Some(newest), {k}, hot));
      After(serve, t, polls).hot == hot && !Agrees(hot, serve, FactsIn(newest), false)
  {
    var hot := map[k := Cold(k, "1")];
    var t := Next(serve, State(hot, None, map[]), Poll(Some(newest), {k}, hot));
    assert !RightAt(R.At(hot, k), serve, FactsIn(newest), k, false);
    PollsOfOneGenerationDoNothing(serve, t, polls);
    NoPollsLeft(polls);
  }

  /** A reload that finds version 2 makes up for it. */
  lemma AReloadMakesUpForIt(k: Key, newest: Snapshot, serve: Serve, w: R.World)
    requires FactsIn(newest) == map[k := Facts("2", "", None)] && k.1 in serve(k.0)
    requires w.lookup(k) == R.Version("2") && k !in w.fails
    ensures
      var hot := map[k := Cold(k, "1")];
      var t := Next(serve, State(hot, None, map[]), Poll(Some(newest), {k}, hot));
      Agrees(After(serve, t, [Reload(k, w)]).hot, serve, FactsIn(newest), true)
  {
    var hot := map[k := Cold(k, "1")];
    var t := Next(serve, State(hot, None, map[]), Poll(Some(newest), {k}, hot));
    assert t.hot == hot;
    One(serve, t, Reload(k, w));
  }

  lemma One(serve: Serve, s: State, e: Event)
    ensures After(serve, s, [e]) == Next(serve, s, e)
  {
    assert [e][1..] == [];
  }

  lemma Two(serve: Serve, s: State, e: Event, f: Event)
    ensures After(serve, s, [e, f]) == Next(serve, Next(serve, s, e), f)
    ensures LegalRun(serve, s, [e, f]) <==> Legal(s, e) && Legal(Next(serve, s, e), f)
  {
    var t := Next(serve, s, e);
    assert [e, f][1..] == [f] && [f][1..] == [];
    One(serve, t, f);
    assert LegalRun(serve, t, [f]) <==> Legal(t, f);
  }

  /** A cold load reads version 1, the snapshot brings version 2, the load is stored: version 1 is served for as
      long as the generation lasts. */
  lemma AStaleColdLoadStays(k: Key, polls: seq<Event>, newest: Snapshot, serve: Serve)
    requires FactsIn(newest) == map[k := Facts("2", "", None)] && k.1 in serve(k.0)
    requires SameGeneration(polls, Some(newest.generation)) && OnlyPolls(polls)
    ensures
      var s := State(map[], None, map[k := "1"]);
      var t := Next(serve, Next(serve, s, Poll(Some(newest), {}, map[])), End(k, true));
      After(serve, t, polls).hot == map[k := Cold(k, "1")]
  {
    var s := State(map[], None, map[k := "1"]);
    var u := Next(serve, s, Poll(Some(newest), {}, map[]));
    assert u.hot.Keys == {k};
    var t := Next(serve, u, End(k, true));
    PollsOfOneGenerationDoNothing(serve, t, polls);
    NoPollsLeft(polls);
  }

  /** The snapshot has a cold alias at version 2 and no load failed; the alias has moved on to 3 when a request
      comes, and 3 is loaded. */
  lemma AColdLoadOvertakesTheSnapshot(k: Key, newest: Snapshot, serve: Serve)
    requires FactsIn(newest) == map[k := Facts("2", "", None)] && k.1 !in serve(k.0)
    ensures
      var t := Next(serve, State(map[], None, map[]), Poll(Some(newest), {}, map[]));
      var run := [Begin(k, "3"), End(k, true)];
      && Agrees(t.hot, serve, FactsIn(newest), true) && LegalRun(serve, t, run)
      && After(serve, t, run).hot == map[k := Cold(k, "3")]
      && !Agrees(After(serve, t, run).hot, serve, FactsIn(newest), false)
  {
    var t := Next(serve, State(map[], None, map[]), Poll(Some(newest), {}, map[]));
    assert t.hot == map[];
    Two(serve, t, Begin(k, "3"), End(k, true));
    assert !RightAt(R.At(map[k := Cold(k, "3")], k), serve, FactsIn(newest), k, false);
  }

  /** The same for a served alias that a promotion moves to 3 and has reloaded before the next generation. */
  lemma AReloadOvertakesTheSnapshot(k: Key, newest: Snapshot, serve: Serve, w: R.World)
    requires FactsIn(newest) == map[k := Facts("2", "", None)] && k.1 in serve(k.0)
    requires w.lookup(k) == R.Version("3") && k !in w.fails
    ensures
      var t := Next(serve, State(map[], None, map[]), Poll(Some(newest), {}, map[]));
      && Agrees(t.hot, serve, FactsIn(newest), true)
      && !Agrees(After(serve, t, [Reload(k, w)]).hot, serve, FactsIn(newest), false)
  {
    var t := Next(serve, State(map[], None, map[]), Poll(Some(newest), {}, map[]));
    assert t.hot == map[k := Cold(k, "2")];
    One(serve, t, Reload(k, w));
    assert !RightAt(R.At(Next(serve, t, Reload(k, w)).hot, k), serve, FactsIn(newest), k, false);
  }

  /** A cold load of the snapshot's own version goes without the snapshot's schema. */
  lemma AColdLoadHasNoSchema(k: Key, newest: Snapshot, serve: Serve, schema: string)
    requires FactsIn(newest) == map[k := Facts("2", "", Some(schema))] && k.1 !in serve(k.0)
    ensures
      var t := Next(serve, State(map[], None, map[]), Poll(Some(newest), {}, map[]));
      var run := [Begin(k, "2"), End(k, true)];
      && LegalRun(serve, t, run) && Agrees(After(serve, t, run).hot, serve, FactsIn(newest), false)
      && !Agrees(After(serve, t, run).hot, serve, FactsIn(newest), true)
  {
    var t := Next(serve, State(map[], None, map[]), Poll(Some(newest), {}, map[]));
    assert t.hot == map[];
    Two(serve, t, Begin(k, "2"), End(k, true));
    var u := Next(serve, Next(serve, t, Begin(k, "2")), End(k, true));
    assert !RightAt(R.At(u.hot, k), serve, FactsIn(newest), k, true);
  }
}
