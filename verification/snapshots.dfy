/**
 How a serving replica makes its hot set match a serving snapshot, `MultiModelServer._apply_snapshot`.
 */
module Snapshots {
  import opened Wrappers

  /** A registered model and an alias of it. */
  type Key = (string, string)

  datatype Facts = Facts(version: string, runId: string, schema: Option<string>)

  /** A loaded model object: a version's bytes never change. */
  datatype Model = Model(name: string, version: string)

  datatype Entry = Entry(model: Model, version: string, runId: string, schema: Option<string>)

  /** One model of a snapshot: its registry name and its aliases. */
  datatype Listing = Listing(name: string, aliases: seq<(string, Facts)>)

  datatype Snapshot = Snapshot(generation: int, models: seq<Listing>)

  type Mention = (Key, Facts)

  function MentionsOf(m: Listing): seq<Mention> {
    seq(|m.aliases|, i requires 0 <= i < |m.aliases| => ((m.name, m.aliases[i].0), m.aliases[i].1))
  }

  /** Every alias the snapshot mentions, in the order the replica walks them. */
  function Mentions(models: seq<Listing>): seq<Mention> {
    if models == [] then [] else MentionsOf(models[0]) + Mentions(models[1..])
  }

  /** Models and aliases are dictionary keys: each alias of each model is mentioned once. */
  ghost predicate WellFormed(s: Snapshot) {
    Once(Mentions(s.models))
  }

  function FactsOf(all: seq<Mention>): map<Key, Facts> {
    if all == [] then map[]
    else FactsOf(all[..|all| - 1])[all[|all| - 1].0 := all[|all| - 1].1]
  }

  /** The aliases a replica preloads, by model name. */
  type Serve = string -> set<string>

  /** What one alias of the snapshot becomes: kept when its version did not move (with the snapshot's
      schema), left out when it is cold, otherwise loaded - or kept as it was when the load fails. */
  function Decide(hot: map<Key, Entry>, serve: Serve, fails: set<Key>, k: Key, facts: Facts): Option<Entry> {
    if k in hot && hot[k].version == facts.version then Some(hot[k].(schema := facts.schema))
    else if k.1 !in serve(k.0) then None
    else if k in fails then (if k in hot then Some(hot[k]) else None)
    else Some(Entry(Model(k.0, facts.version), facts.version, facts.runId, facts.schema))
  }

  /** The aliases a replica has to load: served ones whose version it does not hold. */
  function Needed(hot: map<Key, Entry>, serve: Serve, facts: map<Key, Facts>): set<Key> {
    set k <- facts | k.1 in serve(k.0) && !(k in hot && hot[k].version == facts[k].version)
  }

  function Applied(hot: map<Key, Entry>, serve: Serve, fails: set<Key>, facts: map<Key, Facts>): map<Key, Entry> {
    map k <- facts | Decide(hot, serve, fails, k, facts[k]).Some? :: Decide(hot, serve, fails, k, facts[k]).value
  }

  // ---- convergence ---------------------------------------------------------

  /** Every hot entry has the snapshot's version, and every served alias of it is there. */
  ghost predicate Converged(hot: map<Key, Entry>, serve: Serve, facts: map<Key, Facts>) {
    && (forall k <- hot :: k in facts && hot[k].version == facts[k].version && hot[k].schema == facts[k].schema)
    && (forall k <- facts | k.1 in serve(k.0) :: k in hot)
  }

  /** An entry holds the bytes of the version it names. */
  ghost predicate Coherent(hot: map<Key, Entry>) {
    forall k <- hot :: hot[k].model == Model(k.0, hot[k].version)
  }

  /** Whatever the replica's history, applying a snapshot converges if and only if no load it needed
      failed. */
  lemma ConvergesIff(hot: map<Key, Entry>, serve: Serve, fails: set<Key>, facts: map<Key, Facts>)
    ensures Converged(Applied(hot, serve, fails, facts), serve, facts) <==>
            Needed(hot, serve, facts) !! fails
    ensures Coherent(hot) ==> Coherent(Applied(hot, serve, fails, facts))
  {
    var after := Applied(hot, serve, fails, facts);
    if k :| k in Needed(hot, serve, facts) && k in fails {
      assert k in after ==> after[k].version != facts[k].version;
    }
  }

  /** So two replicas that converged serve the same versions: every served alias, and any cold alias
      both hold. */
  lemma ConvergedReplicasAgree(a: map<Key, Entry>, b: map<Key, Entry>, serve: Serve, facts: map<Key, Facts>, k: Key)
    requires Converged(a, serve, facts) && Converged(b, serve, facts) && Coherent(a) && Coherent(b)
    ensures k in facts && k.1 in serve(k.0) ==> k in a && k in b
    ensures k in a && k in b ==> a[k].model == b[k].model && a[k].version == b[k].version && a[k].schema == b[k].schema
  {
  }

  /** Applying again loads nothing and changes nothing, even if every load would fail. */
  lemma ApplyingAgainLoadsNothing(hot: map<Key, Entry>, serve: Serve, fails: set<Key>, facts: map<Key, Facts>)
    requires Converged(hot, serve, facts)
    ensures Needed(hot, serve, facts) == {}
    ensures Applied(hot, serve, fails, facts) == hot
  {
    var again := Applied(hot, serve, fails, facts);
    forall k
      ensures k in again <==> k in hot
      ensures k in hot ==> again[k] == hot[k]
    {
    }
  }

  /** Under arbitrary load failures nothing outside the snapshot remains, and a served key the snapshot
      still has is lost exactly when it is a cold alias whose version moved - never for a failed load,
      which keeps the entry it had. */
  lemma NothingIsLostToAFailedLoad(hot: map<Key, Entry>, serve: Serve, fails: set<Key>, facts: map<Key, Facts>, k: Key)
    ensures var after := Applied(hot, serve, fails, facts);
            && (k in after ==> k in facts)
            && (k in hot && k in facts ==>
                  (k !in after <==> hot[k].version != facts[k].version && k.1 !in serve(k.0)))
            && (k in hot && k in facts && k in Needed(hot, serve, facts) && k in fails ==>
                  k in after && after[k] == hot[k])
  {
  }

  // ---- the replica ---------------------------------------------------------

  function FactsIn(s: Snapshot): map<Key, Facts> { FactsOf(Mentions(s.models)) }

  /** Cached raw versions of models none of whose aliases was just loaded. */
  function Unmoved(cache: set<(string, string)>, loaded: set<Key>): set<(string, string)> {
    set v <- cache | forall k <- loaded :: k.0 != v.0
  }

  class MultiModelServer {
    const serve: Serve
    var hot: map<Key, Entry>
    var versionCache: set<(string, string)>
    var generation: Option<int>

    constructor (serve: Serve)
      ensures this.serve == serve && hot == map[] && versionCache == {} && generation == None
    {
      this.serve, hot, versionCache, generation := serve, map[], {}, None;
    }

    /** `_apply_snapshot`. `fails` are the keys whose load raises. */
    method ApplySnapshot(s: Snapshot, fails: set<Key>)
      requires WellFormed(s)
      modifies this
      ensures hot == Applied(old(hot), serve, fails, FactsIn(s))
      ensures versionCache == set v <- old(versionCache) |
                                forall k <- Needed(old(hot), serve, FactsIn(s)) - fails :: k.0 != v.0
      ensures generation == Some(s.generation)
    {
      var newHot, loaded := MatchSnapshot(serve, hot, s, fails);
      hot := newHot;
      versionCache := Unmoved(versionCache, loaded);
      generation := Some(s.generation);
    }

    /** `_apply_newest_snapshot`: False without a snapshot; a generation already applied is not applied
        again. */
    method ApplyNewest(newest: Option<Snapshot>, fails: set<Key>) returns (authoritative: bool)
      requires newest.Some? ==> WellFormed(newest.value)
      modifies this
      ensures authoritative == newest.Some?
      ensures hot == if newest.Some? && old(generation) != Some(newest.value.generation)
                     then Applied(old(hot), serve, fails, FactsIn(newest.value)) else old(hot)
      ensures versionCache == if newest.Some? && old(generation) != Some(newest.value.generation)
                              then
                                set v <- old(versionCache) |
                                  forall k <- Needed(old(hot), serve, FactsIn(newest.value)) - fails :: k.0 != v.0
                              else old(versionCache)
      ensures generation == if newest.Some? then Some(newest.value.generation) else old(generation)
    {
      if newest.None? {
        return false;
      }
      if generation != Some(newest.value.generation) {
        ApplySnapshot(newest.value, fails);
      }
      authoritative := true;
    }
  }

  /** One alias decided, beside those decided before it. */
  lemma OneMoreMention(hot: map<Key, Entry>, serve: Serve, fails: set<Key>, facts: map<Key, Facts>, k: Key, f: Facts)
    requires k !in facts
    ensures var d, before := Decide(hot, serve, fails, k, f), Applied(hot, serve, fails, facts);
            Applied(hot, serve, fails, facts[k := f]) == if d.Some? then before[k := d.value] else before
    ensures Needed(hot, serve, facts[k := f]) ==
            Needed(hot, serve, facts) +
            if k.1 in serve(k.0) && !(k in hot && hot[k].version == f.version) then {k} else {}
  {
  }

  lemma {:induction false} MentionedKeys(all: seq<Mention>, k: Key)
    ensures k in FactsOf(all) <==> exists i | 0 <= i < |all| :: all[i].0 == k
  {
    if all != [] {
      MentionedKeys(all[..|all| - 1], k);
    }
  }

  /** One alias more, beside those dealt with. */
  function Dealt(current: map<Key, Entry>, serve: Serve, fails: set<Key>, done: (map<Key, Entry>, set<Key>), m: Mention)
    : (map<Key, Entry>, set<Key>)
  {
    var (k, f) := m;
    var d := Decide(current, serve, fails, k, f);
    (if d.Some? then done.0[k := d.value] else done.0,
     done.1 + if Loads(current, serve, fails, k, f) then {k} else {})
  }

  /** The new hot set and the keys loaded, after the first `n` mentions. */
  function Walk(current: map<Key, Entry>, serve: Serve, fails: set<Key>, all: seq<Mention>, n: nat)
    : (map<Key, Entry>, set<Key>)
    requires n <= |all|
  {
    if n == 0 then (map[], {}) else Dealt(current, serve, fails, Walk(current, serve, fails, all, n - 1), all[n - 1])
  }

  ghost predicate Once(all: seq<Mention>) {
    forall i, j | 0 <= i < j < |all| :: all[i].0 != all[j].0
  }

  /** No alias is mentioned twice, so the walk decides each as if it were the only one. */
  lemma {:induction false} WalkIs(current: map<Key, Entry>, serve: Serve, fails: set<Key>, all: seq<Mention>, n: nat)
    requires Once(all) && n <= |all|
    ensures var facts := FactsOf(all[..n]);
            Walk(current, serve, fails, all, n) ==
            (Applied(current, serve, fails, facts), Needed(current, serve, facts) - fails)
  {
    if n == 0 {
      assert all[..0] == [];
      assert FactsOf(all[..0]) == map[];
      assert Applied(current, serve, fails, map[]) == map[] && Needed(current, serve, map[]) - fails == {};
    } else {
      var (k, f) := all[n - 1];
      WalkIs(current, serve, fails, all, n - 1);
      MentionedKeys(all[..n - 1], k);
      assert all[..n][..n - 1] == all[..n - 1];
      OneMoreMention(current, serve, fails, FactsOf(all[..n - 1]), k, f);
      var before, now := Needed(current, serve, FactsOf(all[..n - 1])), Needed(current, serve, FactsOf(all[..n]));
      assert now - fails == (before - fails) + if Loads(current, serve, fails, k, f) then {k} else {};
    }
  }

  predicate Loads(current: map<Key, Entry>, serve: Serve, fails: set<Key>, k: Key, f: Facts) {
    k.1 in serve(k.0) && !(k in current && current[k].version == f.version) && k !in fails
  }

  lemma {:induction false} MentionsOfBoth(a: seq<Listing>, b: seq<Listing>)
    ensures Mentions(a + b) == Mentions(a) + Mentions(b)
  {
    if a == [] {
      assert a + b == b;
    } else {
      assert (a + b)[1..] == a[1..] + b;
      MentionsOfBoth(a[1..], b);
    }
  }

  /** How many aliases the first `i` models have. */
  ghost function Before(models: seq<Listing>, i: nat): nat
    requires i <= |models|
  {
    |Mentions(models[..i])|
  }

  /** The aliases of the model are those mentioned from `n` on. */
  ghost predicate Next(m: Listing, all: seq<Mention>, n: nat) {
    && n + |m.aliases| <= |all|
    && forall j | 0 <= j < |m.aliases| :: all[n + j] == ((m.name, m.aliases[j].0), m.aliases[j].1)
  }

  lemma ListingIsNext(models: seq<Listing>, i: nat)
    requires i < |models|
    ensures Next(models[i], Mentions(models), Before(models, i))
    ensures Before(models, i + 1) == Before(models, i) + |models[i].aliases|
  {
    var before, m, after := models[..i], models[i], models[i + 1..];
    assert models == before + ([m] + after) && models[..i + 1] == before + [m];
    MentionsOfBoth(before, [m] + after);
    MentionsOfBoth([m], after);
    MentionsOfBoth(before, [m]);
    MentionsOfOne(m);
  }

  lemma MentionsOfOne(m: Listing)
    ensures Mentions([m]) == MentionsOf(m)
  {
    assert [m][1..] == [];
  }

  /** The outer loop, over the models. */
  method MatchSnapshot(serve: Serve, current: map<Key, Entry>, s: Snapshot, fails: set<Key>)
    returns (newHot: map<Key, Entry>, loaded: set<Key>)
    requires WellFormed(s)
    ensures newHot == Applied(current, serve, fails, FactsIn(s))
    ensures loaded == Needed(current, serve, FactsIn(s)) - fails
  {
    ghost var all := Mentions(s.models);
    newHot, loaded := map[], {};
    WalkStarts(current, serve, fails, s.models);
    for i := 0 to |s.models|
      invariant Before(s.models, i) <= |all|
      invariant (newHot, loaded) == Walk(current, serve, fails, all, Before(s.models, i))
    {
      ListingIsNext(s.models, i);
      newHot, loaded := MatchListing(serve, current, s.models[i], fails, newHot, loaded, all, Before(s.models, i));
    }
    WalkEnds(current, serve, fails, s, newHot, loaded);
  }

  lemma WalkStarts(current: map<Key, Entry>, serve: Serve, fails: set<Key>, models: seq<Listing>)
    ensures Before(models, 0) == 0 && Walk(current, serve, fails, Mentions(models), 0) == (map[], {})
  {
    assert models[..0] == [];
  }

  lemma WalkEnds(current: map<Key, Entry>, serve: Serve, fails: set<Key>, s: Snapshot, newHot: map<Key, Entry>,
                 loaded: set<Key>)
    requires WellFormed(s) && Before(s.models, |s.models|) <= |Mentions(s.models)|
    requires (newHot, loaded) == Walk(current, serve, fails, Mentions(s.models), Before(s.models, |s.models|))
    ensures newHot == Applied(current, serve, fails, FactsIn(s))
    ensures loaded == Needed(current, serve, FactsIn(s)) - fails
  {
    var all := Mentions(s.models);
    assert s.models[..|s.models|] == s.models && all[..|all|] == all;
    WalkIs(current, serve, fails, all, |all|);
  }

  /** The inner loop, over the aliases of one model. */
  method MatchListing(serve: Serve, current: map<Key, Entry>, m: Listing, fails: set<Key>,
                      hot0: map<Key, Entry>, loaded0: set<Key>, ghost all: seq<Mention>, ghost n: nat)
    returns (newHot: map<Key, Entry>, loaded: set<Key>)
    requires Next(m, all, n)
    requires (hot0, loaded0) == Walk(current, serve, fails, all, n)
    ensures n + |m.aliases| <= |all| && (newHot, loaded) == Walk(current, serve, fails, all, n + |m.aliases|)
  {
    newHot, loaded := hot0, loaded0;
    for j := 0 to |m.aliases|
      invariant n + j <= |all| && (newHot, loaded) == Walk(current, serve, fails, all, n + j)
    {
      var (alias, facts) := m.aliases[j];
      newHot, loaded := DecideOne(serve, current, (m.name, alias), facts, fails, newHot, loaded);
    }
  }

  /** The loop body: keep, leave out, load, or keep what was there. */
  method DecideOne(serve: Serve, current: map<Key, Entry>, k: Key, facts: Facts, fails: set<Key>,
                   newHot: map<Key, Entry>, loaded: set<Key>)
    returns (newHot': map<Key, Entry>, loaded': set<Key>)
    ensures (newHot', loaded') == Dealt(current, serve, fails, (newHot, loaded), (k, facts))
  {
    newHot', loaded' := newHot, loaded;
    assert loaded + {} == loaded;
    if k in current && current[k].version == facts.version {
      newHot' := newHot[k := current[k].(schema := facts.schema)];
    } else if k.1 in serve(k.0) {
      if k !in fails {
        newHot' := newHot[k := Entry(Model(k.0, facts.version), facts.version, facts.runId, facts.schema)];
        loaded' := loaded + {k};
      } else if k in current {
        newHot' := newHot[k := current[k]];
      }
    }
  }
}
