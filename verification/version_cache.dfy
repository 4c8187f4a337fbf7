/**
 The raw-version cache of a replica, `MultiModelServer._version_cache`: an ordered dictionary, oldest first,
 touched and filled by the request threads in short locked sections and thinned by invalidations.
 */
module VersionCaches {
  import opened Wrappers

  datatype Key = Key(name: string, version: string)

  datatype Item = Item(key: Key, model: string)

  function Keys(items: seq<Item>): (r: seq<Key>)
    ensures |r| == |items| && forall i | 0 <= i < |r| :: r[i] == items[i].key
  {
    seq(|items|, i requires 0 <= i < |items| => items[i].key)
  }

  function Find(items: seq<Item>, key: Key): Option<string> {
    if items == [] then None else if items[0].key == key then Some(items[0].model) else Find(items[1..], key)
  }

  function Keep(items: seq<Item>, p: Key -> bool): seq<Item> {
    if items == [] then [] else (if p(items[0].key) then [items[0]] else []) + Keep(items[1..], p)
  }

  function Other(key: Key): Key -> bool { (k: Key) => k != key }

  function Spared(gone: set<string>): Key -> bool { (k: Key) => k.name !in gone }

  function Without(items: seq<Item>, key: Key): seq<Item> { Keep(items, Other(key)) }

  function WithoutModels(items: seq<Item>, gone: set<string>): seq<Item> { Keep(items, Spared(gone)) }

  function Room(size: int): nat { if size < 0 then 0 else size }

  /** The newest `n` at most. */
  function Newest<T>(s: seq<T>, n: nat): seq<T> { if |s| <= n then s else s[|s| - n..] }

  /** The dictionary after an entry was put at the end and the oldest were popped. */
  function Filled(items: seq<Item>, key: Key, model: string, size: int): seq<Item> {
    Newest(Without(items, key) + [Item(key, model)], Room(size))
  }

  /** The dictionary after a lookup: a hit moves to the end. */
  function Touched(items: seq<Item>, key: Key): seq<Item> {
    if Find(items, key).Some? then Without(items, key) + [Item(key, Find(items, key).value)] else items
  }

  lemma {:induction false} KeptIff(items: seq<Item>, p: Key -> bool)
    ensures forall x :: x in Keep(items, p) <==> x in items && p(x.key)
  {
    if items != [] {
      KeptIff(items[1..], p);
    }
  }

  /** What a request gets; its error statuses count as one. */
  datatype Answer = Answer(model: string) | NotFound

  class Cache {
    const size: int
    var items: seq<Item>

    constructor (size: int)
      ensures this.size == size && items == []
    {
      this.size, items := size, [];
    }

    /** The locked lookup. */
    method Get(key: Key) returns (found: Option<string>)
      modifies this
      ensures found == Find(old(items), key) && items == Touched(old(items), key)
    {
      found := Find(items, key);
      if found.Some? {
        items := Without(items, key) + [Item(key, found.value)];
      }
    }

    /** The locked insertion; popping from an empty dictionary raises. */
    method Put(key: Key, model: string) returns (raised: bool)
      modifies this
      ensures items == Filled(old(items), key, model, size)
      ensures raised <==> size < 0
    {
      items := Without(items, key) + [Item(key, model)];
      ghost var all := items;
      while |items| > size
        invariant |items| <= |all| && items == all[|all| - |items|..]
        invariant |items| >= Room(size) || items == all
        decreases |items|
      {
        if items == [] {
          return true;
        }
        items := items[1..];
      }
      raised := false;
    }

    /** The raw-version branch of `_resolve` when no other thread interferes; `load` is what MLflow gives. */
    method Resolve(key: Key, load: Option<string>) returns (r: Answer)
      modifies this
      ensures Find(old(items), key).Some? ==>
                r == Answer(Find(old(items), key).value) && items == Touched(old(items), key)
      ensures Find(old(items), key) == None && load.Some? ==>
                && (r == if size < 0 then NotFound else Answer(load.value))
                && items == Filled(old(items), key, load.value, size)
      ensures Find(old(items), key) == None && load == None ==> r == NotFound && items == old(items)
    {
      var found := Get(key);
      if found.Some? {
        return Answer(found.value);
      }
      if load == None {
        return NotFound;
      }
      var raised := Put(key, load.value);
      r := if raised then NotFound else Answer(load.value);
    }

    /** Aliases of these models moved: their raw versions are dropped. */
    method Invalidate(gone: set<string>)
      modifies this
      ensures items == WithoutModels(old(items), gone)
      ensures forall x :: x in items <==> x in old(items) && x.key.name !in gone
    {
      KeptIff(items, Spared(gone));
      items := WithoutModels(items, gone);
    }
  }

  // ---- any interleaving ----------------------------------------------------

  /** A locked section of some thread. A model version never changes: what is inserted is its artifact. */
  datatype Event = Hit(key: Key) | Insert(key: Key) | Drop(gone: set<string>)

  /** `uses` is the history of hits and insertions. */
  datatype State = State(items: seq<Item>, uses: seq<Key>)

  predicate Legal(s: State, e: Event) { e.Hit? ==> Find(s.items, e.key).Some? }

  function Next(artifact: Key -> string, size: int, s: State, e: Event): State {
    match e
    case Hit(key) => State(Touched(s.items, key), s.uses + [key])
    case Insert(key) => State(Filled(s.items, key, artifact(key), size), s.uses + [key])
    case Drop(gone) => s.(items := WithoutModels(s.items, gone))
  }

  lemma {:induction false} FindKept(items: seq<Item>, gone: set<string>, key: Key)
    ensures Find(WithoutModels(items, gone), key) == if key.name in gone then None else Find(items, key)
  {
    if items != [] {
      var rest := WithoutModels(items[1..], gone);
      FindKept(items[1..], gone, key);
      assert ([items[0]] + rest)[1..] == rest && [] + rest == rest;
    }
  }

  /** After an invalidation no version of those models is found, and every other one is as it was. */
  lemma DroppedAreNotFound(artifact: Key -> string, size: int, s: State, gone: set<string>, key: Key)
    ensures var t := Next(artifact, size, s, Drop(gone));
            t.uses == s.uses && Find(t.items, key) == if key.name in gone then None else Find(s.items, key)
  {
    FindKept(s.items, gone, key);
  }

  predicate LegalRun(artifact: Key -> string, size: int, s: State, run: seq<Event>)
    decreases |run|
  {
    run == [] || (Legal(s, run[0]) && LegalRun(artifact, size, Next(artifact, size, s, run[0]), run[1..]))
  }

  function After(artifact: Key -> string, size: int, s: State, run: seq<Event>): State
    decreases |run|
  {
    if run == [] then s else After(artifact, size, Next(artifact, size, s, run[0]), run[1..])
  }

  /** When the key was last used, and -1 if it never was. */
  function LastUse(uses: seq<Key>, key: Key): (t: int)
    ensures -1 <= t < |uses|
  {
    if uses == [] then -1 else if uses[|uses| - 1] == key then |uses| - 1 else LastUse(uses[..|uses| - 1], key)
  }

  predicate UsedBefore(uses: seq<Key>, a: Key, b: Key) { LastUse(uses, a) < LastUse(uses, b) }

  predicate InOrderOfUse(uses: seq<Key>, items: seq<Item>) {
    forall i, j | 0 <= i < j < |items| :: UsedBefore(uses, items[i].key, items[j].key)
  }

  /** Within its size, in order of last use (so no key twice), each key with its own artifact. */
  predicate Sound(artifact: Key -> string, size: int, s: State) {
    && |s.items| <= Room(size)
    && InOrderOfUse(s.uses, s.items)
    && (forall x <- s.items :: x.model == artifact(x.key))
  }

  lemma {:induction false} KeepIsPart(items: seq<Item>, p: Key -> bool)
    ensures |Keep(items, p)| <= |items| && (|Keep(items, p)| == |items| ==> Keep(items, p) == items)
    ensures forall x :: x in Keep(items, p) <==> x in items && p(x.key)
  {
    if items != [] {
      KeepIsPart(items[1..], p);
      assert items == [items[0]] + items[1..];
    }
  }

  lemma {:induction false} KeepSelects(uses: seq<Key>, items: seq<Item>, p: Key -> bool)
    requires InOrderOfUse(uses, items)
    ensures InOrderOfUse(uses, Keep(items, p)) && |Keep(items, p)| <= |items|
    ensures forall x :: x in Keep(items, p) <==> x in items && p(x.key)
    ensures |Keep(items, p)| == |items| ==> Keep(items, p) == items
  {
    KeepIsPart(items, p);
    if items != [] {
      KeepSelects(uses, items[1..], p);
      var rest := Keep(items[1..], p);
      forall j | 0 <= j < |rest|
        ensures UsedBefore(uses, items[0].key, rest[j].key)
      {
        assert rest[j] in items[1..];
      }
    }
  }

  lemma {:induction false} FindIsIn(items: seq<Item>, key: Key)
    ensures Find(items, key).Some? <==> exists x <- items :: x.key == key
    ensures Find(items, key).Some? ==> Item(key, Find(items, key).value) in items
  {
    if items != [] {
      FindIsIn(items[1..], key);
    }
  }

  lemma UsedJustNow(uses: seq<Key>, key: Key, k: Key)
    ensures LastUse(uses + [key], k) == if k == key then |uses| else LastUse(uses, k)
  {
    assert (uses + [key])[..|uses|] == uses;
  }

  lemma FillingStaysSound(artifact: Key -> string, size: int, s: State, key: Key)
    requires Sound(artifact, size, s)
    ensures Sound(artifact, size, State(Filled(s.items, key, artifact(key), size), s.uses + [key]))
  {
    var rest, last := Without(s.items, key), Item(key, artifact(key));
    KeepSelects(s.uses, s.items, Other(key));
    OrderWithLast(s.uses, rest, last);
    NewestIsPart(rest + [last], Room(size), s.uses + [key]);
  }

  lemma OrderWithLast(uses: seq<Key>, rest: seq<Item>, last: Item)
    requires InOrderOfUse(uses, rest) && forall x <- rest :: x.key != last.key
    ensures InOrderOfUse(uses + [last.key], rest + [last])
  {
    var all := rest + [last];
    forall i, j | 0 <= i < j < |all|
      ensures UsedBefore(uses + [last.key], all[i].key, all[j].key)
    {
      assert all[i] in rest;
      UsedJustNow(uses, last.key, all[i].key);
      UsedJustNow(uses, last.key, all[j].key);
      if j < |rest| {
        assert all[j] in rest && UsedBefore(uses, rest[i].key, rest[j].key);
      }
    }
  }

  lemma NewestIsPart(all: seq<Item>, n: nat, uses: seq<Key>)
    requires InOrderOfUse(uses, all)
    ensures InOrderOfUse(uses, Newest(all, n)) && |Newest(all, n)| <= n && forall x <- Newest(all, n) :: x in all
  {
    var kept := Newest(all, n);
    var skip := |all| - |kept|;
    forall i, j | 0 <= i < j < |kept|
      ensures UsedBefore(uses, kept[i].key, kept[j].key)
    {
      assert UsedBefore(uses, all[skip + i].key, all[skip + j].key);
    }
  }

  /** A hit leaves the dictionary as an insertion would. */
  lemma HitIsAUse(artifact: Key -> string, size: int, s: State, key: Key)
    requires Sound(artifact, size, s) && Find(s.items, key).Some?
    ensures Touched(s.items, key) == Filled(s.items, key, artifact(key), size)
  {
    FindIsIn(s.items, key);
    KeepSelects(s.uses, s.items, Other(key));
    assert Item(key, Find(s.items, key).value) !in Without(s.items, key);
  }

  /** In every interleaving of requests and invalidations, with any size. */
  lemma {:induction false} RunStaysSound(artifact: Key -> string, size: int, s: State, run: seq<Event>)
    requires Sound(artifact, size, s) && LegalRun(artifact, size, s, run)
    ensures Sound(artifact, size, After(artifact, size, s, run))
    decreases |run|
  {
    if run != [] {
      match run[0] {
        case Hit(key) =>
          HitIsAUse(artifact, size, s, key);
          FillingStaysSound(artifact, size, s, key);
        case Insert(key) =>
          FillingStaysSound(artifact, size, s, key);
        case Drop(gone) =>
          KeepSelects(s.uses, s.items, Spared(gone));
      }
      RunStaysSound(artifact, size, Next(artifact, size, s, run[0]), run[1..]);
    }
  }

  /** What a lookup answers after any run is what loading that version would have given. */
  lemma AnswersAreTheArtifact(artifact: Key -> string, size: int, run: seq<Event>, key: Key)
    requires LegalRun(artifact, size, State([], []), run)
    ensures var s := After(artifact, size, State([], []), run);
            |s.items| <= Room(size) && (Find(s.items, key).Some? ==> Find(s.items, key).value == artifact(key))
  {
    RunStaysSound(artifact, size, State([], []), run);
    FindIsIn(After(artifact, size, State([], []), run).items, key);
  }

  lemma OnlyAFullCacheEvicts(artifact: Key -> string, size: int, s: State, key: Key, x: Item)
    requires Sound(artifact, size, s) && size >= 0 && x in s.items && x.key != key
    requires x !in Filled(s.items, key, artifact(key), size)
    ensures |s.items| == size && Find(s.items, key) == None
    ensures Filled(s.items, key, artifact(key), size) == s.items[1..] + [Item(key, artifact(key))]
  {
    var rest := Without(s.items, key);
    assert x in rest && |rest| <= |s.items| && (|rest| == |s.items| ==> rest == s.items) && NoneOf(rest, key) by {
      KeepSelects(s.uses, s.items, Other(key));
    }
    NewestMisses(rest, Item(key, artifact(key)), size, x);
    FindIsIn(s.items, key);
  }

  predicate NoneOf(items: seq<Item>, key: Key) { forall x <- items :: x.key != key }

  lemma NewestMisses(rest: seq<Item>, last: Item, size: nat, x: Item)
    requires x in rest && x !in Newest(rest + [last], size) && |rest| <= size
    ensures |rest| == size && Newest(rest + [last], size) == rest[1..] + [last]
  {
    assert x in rest + [last];
  }

  /** Only a full cache evicts, and what it evicts was used before everything that stays. */
  lemma TheLeastRecentIsEvicted(artifact: Key -> string, size: int, s: State, key: Key, x: Item)
    requires Sound(artifact, size, s) && size >= 0 && x in s.items && x.key != key
    requires x !in Filled(s.items, key, artifact(key), size)
    ensures |s.items| == size && Find(s.items, key) == None && x == s.items[0]
    ensures forall y <- Filled(s.items, key, artifact(key), size) | y.key != key :: UsedBefore(s.uses, x.key, y.key)
  {
    OnlyAFullCacheEvicts(artifact, size, s, key, x);
    var kept := s.items[1..] + [Item(key, artifact(key))];
    forall i | 0 < i < |s.items|
      ensures s.items[i] != x && UsedBefore(s.uses, s.items[0].key, s.items[i].key)
    {
      assert s.items[i] == kept[i - 1];
    }
    assert x == s.items[0];
  }

  // ---- exactly the most recent ---------------------------------------------

  function Except(keys: seq<Key>, key: Key): seq<Key> {
    if keys == [] then [] else (if keys[0] == key then [] else [keys[0]]) + Except(keys[1..], key)
  }

  /** Each key used, once, in the order of last use. */
  function ByLastUse(uses: seq<Key>): seq<Key> {
    if uses == [] then [] else Except(ByLastUse(uses[..|uses| - 1]), uses[|uses| - 1]) + [uses[|uses| - 1]]
  }

  /** The keys a cache of this size holds after the uses, hits and insertions alike. */
  function Held(uses: seq<Key>, size: nat): seq<Key> {
    if uses == [] then []
    else Newest(Except(Held(uses[..|uses| - 1], size), uses[|uses| - 1]) + [uses[|uses| - 1]], size)
  }

  predicate Distinct(keys: seq<Key>) { forall i, j | 0 <= i < j < |keys| :: keys[i] != keys[j] }

  lemma {:induction false} ExceptOfBoth(a: seq<Key>, b: seq<Key>, key: Key)
    ensures Except(a + b, key) == Except(a, key) + Except(b, key)
  {
    if a == [] {
      assert a + b == b;
    } else {
      assert (a + b)[1..] == a[1..] + b;
      ExceptOfBoth(a[1..], b, key);
    }
  }

  lemma {:induction false} ExceptOfDistinct(keys: seq<Key>, key: Key)
    requires Distinct(keys)
    ensures Distinct(Except(keys, key)) && forall k :: k in Except(keys, key) <==> k in keys && k != key
    ensures key !in keys ==> Except(keys, key) == keys
    ensures key in keys ==> |Except(keys, key)| == |keys| - 1
  {
    if keys != [] {
      assert keys == [keys[0]] + keys[1..];
      ExceptOfDistinct(keys[1..], key);
      var rest := Except(keys[1..], key);
      forall i | 0 <= i < |rest|
        ensures rest[i] != keys[0]
      {
        assert rest[i] in rest;
      }
    }
  }

  lemma {:induction false} ByLastUseIsDistinct(uses: seq<Key>)
    ensures Distinct(ByLastUse(uses))
  {
    if uses != [] {
      ByLastUseIsDistinct(uses[..|uses| - 1]);
      ExceptOfDistinct(ByLastUse(uses[..|uses| - 1]), uses[|uses| - 1]);
      var rest := Except(ByLastUse(uses[..|uses| - 1]), uses[|uses| - 1]);
      assert forall i | 0 <= i < |rest| :: rest[i] in rest;
    }
  }

  lemma NewestOfBoth(a: seq<Key>, b: seq<Key>, n: nat)
    requires |b| >= n
    ensures Newest(a + b, n) == Newest(b, n)
  {
  }

  lemma UseOfTheNewest(order: seq<Key>, key: Key, size: nat)
    requires Distinct(order)
    ensures Newest(Except(Newest(order, size), key) + [key], size) == Newest(Except(order, key) + [key], size)
  {
    if |order| > size {
      var early, late := order[..|order| - size], order[|order| - size..];
      assert order == early + late;
      ExceptOfBoth(early, late, key);
      ExceptOfDistinct(late, key);
      var used := Except(late, key) + [key];
      assert Except(order, key) + [key] == Except(early, key) + used;
      NewestOfBoth(Except(early, key), used, size);
    }
  }

  /** A cache of any size holds exactly the most recently used keys. */
  lemma {:induction false} HoldsTheMostRecent(uses: seq<Key>, size: nat)
    ensures Held(uses, size) == Newest(ByLastUse(uses), size)
  {
    if uses != [] {
      HoldsTheMostRecent(uses[..|uses| - 1], size);
      ByLastUseIsDistinct(uses[..|uses| - 1]);
      UseOfTheNewest(ByLastUse(uses[..|uses| - 1]), uses[|uses| - 1], size);
    }
  }

  /** So a larger cache never misses where a smaller one hits. */
  lemma LargerHoldsMore(uses: seq<Key>, small: nat, large: nat, key: Key)
    requires small <= large && key in Held(uses, small)
    ensures key in Held(uses, large)
  {
    HoldsTheMostRecent(uses, small);
    HoldsTheMostRecent(uses, large);
    NewestHoldsMore(ByLastUse(uses), small, large, key);
  }

  lemma NewestHoldsMore(order: seq<Key>, small: nat, large: nat, key: Key)
    requires small <= large && key in Newest(order, small)
    ensures key in Newest(order, large)
  {
    var i :| 0 <= i < |Newest(order, small)| && Newest(order, small)[i] == key;
    var j := |order| - |Newest(order, small)| + i;
    NewestAt(order, small, j);
    NewestAt(order, large, j);
    assert Newest(order, large)[j - (|order| - |Newest(order, large)|)] in Newest(order, large);
  }

  lemma NewestAt(order: seq<Key>, n: nat, j: nat)
    requires |order| - |Newest(order, n)| <= j < |order|
    ensures Newest(order, n)[j - (|order| - |Newest(order, n)|)] == order[j]
  {
  }

  lemma {:induction false} KeysOfWithout(items: seq<Item>, key: Key)
    ensures Keys(Without(items, key)) == Except(Keys(items), key)
  {
    if items != [] {
      KeysOfWithout(items[1..], key);
      assert Keys(items) == [items[0].key] + Keys(items[1..]);
    }
  }

  lemma KeysOfFilled(items: seq<Item>, key: Key, model: string, size: int)
    ensures Keys(Filled(items, key, model, size)) == Newest(Except(Keys(items), key) + [key], Room(size))
  {
    KeysOfWithout(items, key);
    assert Keys(Without(items, key) + [Item(key, model)]) == Except(Keys(items), key) + [key];
  }

  /** Without invalidations, the dictionary of every run is exactly that. */
  lemma {:induction false} RunHoldsTheMostRecent(artifact: Key -> string, size: int, s: State, run: seq<Event>)
    requires Sound(artifact, size, s) && Keys(s.items) == Held(s.uses, Room(size))
    requires LegalRun(artifact, size, s, run) && forall e <- run :: !e.Drop?
    ensures var t := After(artifact, size, s, run); Keys(t.items) == Newest(ByLastUse(t.uses), Room(size))
    decreases |run|
  {
    if run == [] {
      HoldsTheMostRecent(s.uses, Room(size));
    } else {
      var key := run[0].key;
      if run[0].Hit? {
        HitIsAUse(artifact, size, s, key);
      }
      FillingStaysSound(artifact, size, s, key);
      KeysOfFilled(s.items, key, artifact(key), size);
      var t := Next(artifact, size, s, run[0]);
      assert t.uses[..|s.uses|] == s.uses;
      RunHoldsTheMostRecent(artifact, size, t, run[1..]);
    }
  }
}
