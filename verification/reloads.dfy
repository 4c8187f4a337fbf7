/**
 How a replica without a serving snapshot follows the model registry: a full pass over every registered
 model (`_load_hot_aliases`) and a pass over one model after a promotion (`_reload_one_model`). The
 registry may be unreachable for any lookup, and any load may fail.
 */
module Reloads {
  import opened Wrappers
  import opened Snapshots

  /** What the registry says of an alias. */
  datatype Lookup = Version(version: string) | Gone | Unreachable

  /** What a pass meets: the lookup of each alias, the keys whose load fails, and the training run each
      loaded model names. */
  datatype World = World(lookup: Key -> Lookup, fails: set<Key>, run: Model -> string)

  /** The aliases a replica serves of a model, in order. */
  type Aliases = string -> seq<string>

  function KeysOf(models: seq<string>, aliases: Aliases): set<Key> {
    set n <- models, a <- aliases(n) :: (n, a)
  }

  function At(hot: map<Key, Entry>, k: Key): Option<Entry> {
    if k in hot then Some(hot[k]) else None
  }

  /** A load by the version the registry names. */
  function Fresh(w: World, k: Key, version: string): Entry {
    Entry(Model(k.0, version), version, w.run(Model(k.0, version)), None)
  }

  /** One alias in a full pass: left out when its lookup fails, kept when only its load does. */
  function InFull(hot: map<Key, Entry>, w: World, k: Key): Option<Entry> {
    if !w.lookup(k).Version? then None
    else if k in w.fails then At(hot, k)
    else Some(Fresh(w, k, w.lookup(k).version))
  }

  function FullPass(hot: map<Key, Entry>, w: World, keys: set<Key>): map<Key, Entry> {
    map k <- keys | InFull(hot, w, k).Some? :: InFull(hot, w, k).value
  }

  /** One alias in a pass over its model: dropped only when the registry says it is gone. */
  function InOne(hot: map<Key, Entry>, w: World, k: Key): Option<Entry> {
    match w.lookup(k)
    case Gone => None
    case Unreachable => At(hot, k)
    case Version(version) => if k in w.fails then At(hot, k) else Some(Fresh(w, k, version))
  }

  function OnePass(hot: map<Key, Entry>, w: World, keys: set<Key>): map<Key, Entry> {
    map k <- hot.Keys + keys | k !in keys || InOne(hot, w, k).Some? ::
      if k in keys then InOne(hot, w, k).value else hot[k]
  }

  lemma FullPassOneMore(hot: map<Key, Entry>, w: World, keys: set<Key>, k: Key)
    ensures var before, now := FullPass(hot, w, keys), InFull(hot, w, k);
            FullPass(hot, w, keys + {k}) == if now.Some? then before[k := now.value] else before
  {
  }

  lemma OnePassOneMore(hot: map<Key, Entry>, w: World, keys: set<Key>, k: Key)
    ensures var before, now := OnePass(hot, w, keys), InOne(hot, w, k);
            OnePass(hot, w, keys + {k}) == if now.Some? then before[k := now.value] else before - {k}
  {
  }

  lemma OnePassSoFar(hot: map<Key, Entry>, w: World, keys: set<Key>, k: Key)
    ensures InOne(hot, w, k) == At(hot, k) ==>
              var before := OnePass(hot, w, keys);
              before == if k in hot then before[k := hot[k]] else before - {k}
  {
  }

  /** An alias that comes up again, as it does when it is listed twice, is decided the same way. */
  lemma AnAliasAgain(hot: map<Key, Entry>, w: World, keys: set<Key>, k: Key)
    ensures var pass := OnePass(hot, w, keys);
            var now, then_ := InOne(hot, w, k), InOne(pass, w, k);
            (if then_.Some? then pass[k := then_.value] else pass - {k}) ==
            (if now.Some? then pass[k := now.value] else pass - {k})
  {
  }

  class HotSet {
    const aliases: Aliases
    var hot: map<Key, Entry>
    var versionCache: set<Key>

    constructor (aliases: Aliases)
      ensures this.aliases == aliases && hot == map[] && versionCache == {}
    {
      this.aliases, hot, versionCache := aliases, map[], {};
    }

    /** `_load_hot_aliases`; `registered` is absent when the registry cannot be listed. */
    method LoadAll(registered: Option<seq<string>>, w: World)
      modifies this`hot
      ensures hot == if registered.Some? then FullPass(old(hot), w, KeysOf(registered.value, aliases)) else old(hot)
    {
      if registered == None {
        return;
      }
      var models := registered.value;
      var newHot: map<Key, Entry> := map[];
      ghost var seen: set<Key> := {};
      for i := 0 to |models|
        invariant hot == old(hot) && newHot == FullPass(hot, w, seen)
        invariant seen == KeysOf(models[..i], aliases)
      {
        var served := aliases(models[i]);
        ghost var before := seen;
        for j := 0 to |served|
          invariant hot == old(hot) && newHot == FullPass(hot, w, seen)
          invariant seen == before + set a <- served[..j] :: (models[i], a)
        {
          var k := (models[i], served[j]);
          var found := w.lookup(k);
          FullPassOneMore(hot, w, seen, k);
          if found.Version? {
            if k !in w.fails {
              newHot := newHot[k := Fresh(w, k, found.version)];
            } else if k in hot {
              newHot := newHot[k := hot[k]];
            }
          }
          seen := seen + {k};
        }
        assert seen == KeysOf(models[..i + 1], aliases);
      }
      assert models[..|models|] == models;
      hot := newHot;
    }

    /** `_reload_one_model`. */
    method ReloadOne(name: string, w: World)
      modifies this
      ensures hot == OnePass(old(hot), w, KeysOf([name], aliases))
      ensures versionCache == set k <- old(versionCache) | k.0 != name
    {
      var served := aliases(name);
      ghost var seen: set<Key> := {};
      for j := 0 to |served|
        invariant hot == OnePass(old(hot), w, seen) && versionCache == old(versionCache)
        invariant seen == set a <- served[..j] :: (name, a)
      {
        var k := (name, served[j]);
        OnePassOneMore(old(hot), w, seen, k);
        OnePassSoFar(old(hot), w, seen, k);
        match w.lookup(k) {
          case Unreachable =>
          case Gone =>
            hot := hot - {k};
          case Version(version) =>
            if k !in w.fails {
              hot := hot[k := Fresh(w, k, version)];
            }
        }
        seen := seen + {k};
      }
      assert seen == KeysOf([name], aliases);
      versionCache := set k <- versionCache | k.0 != name;
    }
  }

  // ---- what a pass loses ---------------------------------------------------

  /** A pass over one model drops a served key exactly when the registry says its alias is gone: neither an
      unreachable registry nor a failed load costs it. */
  lemma OnePassLosesIff(hot: map<Key, Entry>, w: World, aliases: Aliases, name: string, k: Key)
    requires k in hot
    ensures k !in OnePass(hot, w, KeysOf([name], aliases)) <==> k.0 == name && k.1 in aliases(name) && w.lookup(k).Gone?
  {
    assert k in KeysOf([name], aliases) <==> k.0 == name && k.1 in aliases(name);
  }

  /** A full pass keeps what it holds when a load fails, but drops it exactly when its lookup does not bring
      a version - so also when the registry is unreachable for that one lookup - or when it is no longer
      served. */
  lemma FullPassLosesIff(hot: map<Key, Entry>, w: World, aliases: Aliases, models: seq<string>, k: Key)
    requires k in hot
    ensures k !in FullPass(hot, w, KeysOf(models, aliases)) <==>
            !(k.0 in models && k.1 in aliases(k.0)) || !w.lookup(k).Version?
  {
    assert k in KeysOf(models, aliases) <==> k.0 in models && k.1 in aliases(k.0);
  }

  /** The two passes treat a served key alike exactly when the registry was reachable for its lookup, or it
      was not held anyway. */
  lemma PassesAgreeIff(hot: map<Key, Entry>, w: World, keys: set<Key>, k: Key)
    requires k in keys
    ensures At(FullPass(hot, w, keys), k) == At(OnePass(hot, w, keys), k) <==> !(w.lookup(k).Unreachable? && k in hot)
  {
  }

  /** After either pass, a served key whose lookup and load succeed has the registry's version, and every
      entry still holds the bytes of the version it names. */
  lemma PassesFollowTheRegistry(hot: map<Key, Entry>, w: World, keys: set<Key>)
    requires Coherent(hot)
    ensures Coherent(FullPass(hot, w, keys)) && Coherent(OnePass(hot, w, keys))
    ensures forall k <- keys | w.lookup(k).Version? && k !in w.fails ::
              At(FullPass(hot, w, keys), k) == At(OnePass(hot, w, keys), k) == Some(Fresh(w, k, w.lookup(k).version))
  {
    var full, one := FullPass(hot, w, keys), OnePass(hot, w, keys);
    forall k | k in full
      ensures full[k].model == Model(k.0, full[k].version)
    {
      assert k in keys && full[k] == InFull(hot, w, k).value;
    }
    forall k | k in one
      ensures one[k].model == Model(k.0, one[k].version)
    {
      assert k in keys ==> one[k] == InOne(hot, w, k).value;
    }
  }

  // ---- many passes over a flaky registry -----------------------------------

  /** A pass over the registered models, absent when they cannot be listed, or over one model. */
  datatype Pass = All(registered: Option<seq<string>>, world: World) | One(name: string, world: World)

  function AfterPass(hot: map<Key, Entry>, aliases: Aliases, p: Pass): map<Key, Entry> {
    match p
    case All(registered, w) => if registered.Some? then FullPass(hot, w, KeysOf(registered.value, aliases)) else hot
    case One(name, w) => OnePass(hot, w, KeysOf([name], aliases))
  }

  function AfterPasses(hot: map<Key, Entry>, aliases: Aliases, passes: seq<Pass>): map<Key, Entry> {
    if passes == []
    then hot
    else AfterPass(AfterPasses(hot, aliases, passes[..|passes| - 1]), aliases, passes[|passes| - 1])
  }

  /** What a pass decides about a key, whatever the replica holds: nothing, that it goes, or its version. */
  datatype Decision = Nothing | Goes | Loads(entry: Entry)

  function Decides(aliases: Aliases, p: Pass, k: Key): Decision {
    var w := p.world;
    var served := k.1 in aliases(k.0);
    match p
    case All(registered, _) =>
      if registered.None? then Nothing
      else if !(k.0 in registered.value && served) || !w.lookup(k).Version? then Goes
      else if k in w.fails then Nothing
      else Loads(Fresh(w, k, w.lookup(k).version))
    case One(name, _) =>
      if k.0 == name && served then OfOne(w, k) else Nothing
  }

  /** What is held of a key after a decision. */
  function Outcome(d: Decision, before: Option<Entry>): Option<Entry> {
    match d
    case Nothing => before
    case Goes => None
    case Loads(e) => Some(e)
  }

  /** What a pass over its model decides about a served key. */
  function OfOne(w: World, k: Key): Decision {
    match w.lookup(k)
    case Gone => Goes
    case Unreachable => Nothing
    case Version(version) => if k in w.fails then Nothing else Loads(Fresh(w, k, version))
  }

  /** The last decision the passes come to about a key. */
  function LastDecision(aliases: Aliases, passes: seq<Pass>, k: Key): Decision {
    if passes == [] then Nothing
    else
      var d := Decides(aliases, passes[|passes| - 1], k);
      if d.Nothing? then LastDecision(aliases, passes[..|passes| - 1], k) else d
  }

  lemma PassDecides(hot: map<Key, Entry>, aliases: Aliases, p: Pass, k: Key)
    ensures At(AfterPass(hot, aliases, p), k) ==
            Outcome(Decides(aliases, p, k), At(hot, k))
  {
    if p.One? {
      assert k in KeysOf([p.name], aliases) <==> k.0 == p.name && k.1 in aliases(k.0);
    } else if p.registered.Some? {
      assert k in KeysOf(p.registered.value, aliases) <==> k.0 in p.registered.value && k.1 in aliases(k.0);
    }
  }

  /** After any sequence of passes, each with a registry and a store that fail as they like, what is held of a
      key is what the last pass to decide about it decided - and what was held before, when none did. */
  lemma {:induction false} TheLastDecisionStands(hot: map<Key, Entry>, aliases: Aliases, passes: seq<Pass>, k: Key)
    ensures At(AfterPasses(hot, aliases, passes), k) ==
            Outcome(LastDecision(aliases, passes, k), At(hot, k))
  {
    if passes != [] {
      var before := passes[..|passes| - 1];
      TheLastDecisionStands(hot, aliases, before, k);
      PassDecides(AfterPasses(hot, aliases, before), aliases, passes[|passes| - 1], k);
    }
  }

  /** One unreachable lookup in a full pass drops a healthy entry, which a pass over its model keeps. */
  lemma OneLookupDropsAHealthyEntry(name: string, alias: string, e: Entry, w: World)
    requires w.lookup((name, alias)).Unreachable?
    ensures
      var hot, aliases := map[(name, alias) := e], (_: string) => [alias];
      && AfterPasses(hot, aliases, [All(Some([name]), w)]) == map[]
      && AfterPasses(hot, aliases, [One(name, w)]) == hot
  {
    var hot, aliases := map[(name, alias) := e], (_: string) => [alias];
    assert KeysOf([name], aliases) == {(name, alias)};
    assert [All(Some([name]), w)][..0] == [] && [One(name, w)][..0] == [];
  }

  /** An outage: each lookup is unreachable or names a version, and any load may fail. */
  predicate OnlyAnOutage(p: Pass, k: Key) {
    !p.world.lookup(k).Gone? && (p.All? && p.registered.Some? ==> k.0 in p.registered.value)
  }

  /** A full pass that reached the registry for its list and not for this key. */
  predicate MissesTheKey(p: Pass, k: Key) { p.All? && p.registered.Some? && p.world.lookup(k).Unreachable? }

  /** The last full pass to miss the key is followed by one that loads it. */
  predicate MadeUpFor(aliases: Aliases, passes: seq<Pass>, k: Key) {
    passes == [] ||
    (!MissesTheKey(passes[|passes| - 1], k) &&
     (Decides(aliases, passes[|passes| - 1], k).Loads? || MadeUpFor(aliases, passes[..|passes| - 1], k)))
  }

  /** Through an outage of any length, a served key that is held stays held exactly unless a full pass misses
      it and no later pass loads it; passes over one model alone never lose it. */
  lemma {:induction false} HeldThroughAnOutageIff(hot: map<Key, Entry>, aliases: Aliases, passes: seq<Pass>, k: Key)
    requires k in hot && k.1 in aliases(k.0) && forall i | 0 <= i < |passes| :: OnlyAnOutage(passes[i], k)
    ensures k in AfterPasses(hot, aliases, passes) <==> MadeUpFor(aliases, passes, k)
    ensures (forall i | 0 <= i < |passes| :: passes[i].One?) ==> k in AfterPasses(hot, aliases, passes)
  {
    if passes != [] {
      var before, last := passes[..|passes| - 1], passes[|passes| - 1];
      HeldThroughAnOutageIff(hot, aliases, before, k);
      assert OnlyAnOutage(last, k);
      PassDecides(AfterPasses(hot, aliases, before), aliases, last, k);
    }
  }
}
