/**
 The local artifact cache, `ArtifactCache`: one directory per model version, each with a manifest of what
 was downloaded. A directory is served only while its files match its manifest; the cache is kept within a
 size bound by evicting the least recently used entries. A process may die at any point, and anything may
 happen to the files on disk, but nothing except a finished download writes a manifest.
 A digest is represented by what it digests.
 */
module ArtifactCaches {
  import opened Wrappers

  // ---- the directory tree --------------------------------------------------

  datatype Key = Key(name: string, version: string)

  /** The components of a path below the cache's root; a leading `..` is outside it. */
  type Path = seq<string>

  /** The bytes of each file of a download. */
  type Files = map<Path, string>

  const MANIFEST := "examlops-cache-manifest.json"

  datatype Manifest = Manifest(key: Key, files: Files, digest: Files, lastUsed: int)

  /** A file: a manifest the cache wrote, or anything else - a manifest cut short or edited included. */
  datatype File = Data(bytes: string) | Record(manifest: Manifest)

  type Disk = map<Path, File>

  function SafeChar(c: char): char { if c in {'/', '\\', ':'} then '_' else c }

  function Sanitised(s: string): (r: string)
    ensures |r| == |s| && forall i | 0 <= i < |s| :: r[i] == SafeChar(s[i])
  {
    if s == "" then "" else [SafeChar(s[0])] + Sanitised(s[1..])
  }

  /** One more component: nothing and `.` stay where they are, `..` goes up. */
  function Joined(p: Path, part: string): Path {
    if part == "" || part == "." then p
    else if part == ".." && p != [] && p[|p| - 1] != ".." then p[..|p| - 1]
    else p + [part]
  }

  /** `entry`: where the directory really is. */
  function Entry(key: Key): (p: Path)
    ensures |p| <= 2
  {
    Joined(Joined([], Sanitised(key.name)), Sanitised(key.version))
  }

  predicate NamedManifest(p: Path) { p != [] && p[|p| - 1] == MANIFEST }

  /** The files a directory's digest covers: all but those named like a manifest, at any depth. */
  function Covered(disk: Disk, p: Path): (r: set<Path>)
    ensures forall q :: q in r <==> p + q in disk && !NamedManifest(q) && disk[p + q].Data?
  {
    var r := set f <- disk | p <= f && !NamedManifest(f[|p|..]) && disk[f].Data? :: f[|p|..];
    assert forall q | p + q in disk :: p <= p + q && (p + q)[|p|..] == q;
    assert forall f <- disk | p <= f :: p + f[|p|..] == f;
    r
  }

  /** `_hash_tree`. */
  function HashedBelow(disk: Disk, p: Path): Files { map q <- Covered(disk, p) :: disk[p + q].bytes }

  /** The digest covers every file below the directory that can be read and is not named like the manifest. */
  lemma HashedIff(disk: Disk, p: Path, q: Path)
    ensures q in HashedBelow(disk, p) <==>
            p + q in disk && disk[p + q].Data? && (q == [] || q[|q| - 1] != "examlops-cache-manifest.json")
    ensures q in HashedBelow(disk, p) ==> disk[p + q] == Data(HashedBelow(disk, p)[q])
  {
  }

  function Hashed(files: Files): Files { map q <- files | !NamedManifest(q) :: files[q] }

  function ManifestAt(disk: Disk, p: Path): Option<Manifest> {
    if p + [MANIFEST] in disk && disk[p + [MANIFEST]].Record? then Some(disk[p + [MANIFEST]].manifest) else None
  }

  /** The checks of `verified_hit`. */
  predicate Intact(disk: Disk, p: Path) {
    var m := ManifestAt(disk, p);
    && m.Some? && m.value.files != map[]
    && HashedBelow(disk, p) == m.value.files && m.value.digest == m.value.files
  }

  predicate Hits(disk: Disk, key: Key) { Intact(disk, Entry(key)) }

  /** How many levels above the root a path begins. */
  function Ups(p: Path): nat { if p == [] || p[0] != ".." then 0 else 1 + Ups(p[1..]) }

  /** A directory a download can be moved to: neither the root nor one above it, where clearing the target
      takes the download with it. */
  predicate Fillable(p: Path) { p != [] && p[|p| - 1] != ".." }

  predicate Under(p: Path, f: Path) { if Fillable(p) then p <= f else Ups(f) <= |p| }

  /** What is in a directory: below one that can be filled, what begins with its path; in the root or above, all
      that does not lead further up. */
  lemma UnderIff(p: Path, f: Path)
    ensures Fillable(p) ==> (Under(p, f) <==> |p| <= |f| && f[..|p|] == p)
    ensures Under([], f) <==> f == [] || f[0] != ".."
    ensures Under([".."], f) <==> !(|f| >= 2 && f[0] == f[1] == "..")
    ensures Under(["..", ".."], f) <==> !(|f| >= 3 && f[0] == f[1] == f[2] == "..")
  {
    if |f| >= 1 {
      var g := f[1..];
      UpsOfRest(f);
      if |g| >= 1 {
        UpsOfRest(g);
        if |g| >= 2 {
          UpsOfRest(g[1..]);
        }
      }
    }
  }

  lemma UpsOfRest(f: Path)
    requires f != []
    ensures Ups(f) == if f[0] == ".." then 1 + Ups(f[1..]) else 0
  {
  }

  /** `shutil.rmtree`. */
  function Removed(disk: Disk, p: Path): Disk { map f <- disk | !Under(p, f) :: disk[f] }

  /** The tree after `verified_hit`: a hit is stamped, an entry that fails its digests is removed, one whose
      manifest cannot be read is left alone. */
  function AfterLookup(disk: Disk, key: Key, now: int): Disk {
    var p := Entry(key);
    if ManifestAt(disk, p) == None then disk
    else if Intact(disk, p) then disk[p + [MANIFEST] := Record(ManifestAt(disk, p).value.(lastUsed := now))]
    else Removed(disk, p)
  }

  /** The downloaded files in place, and nothing else there. */
  function Moved(disk: Disk, p: Path, files: Files): Disk {
    map f <- disk.Keys + (set q <- files :: p + q) | !(p <= f) || f[|p|..] in files ::
      if p <= f then Data(files[f[|p|..]]) else disk[f]
  }

  /** The tree after a finished download has been moved into place. */
  function AfterPlacing(disk: Disk, key: Key, files: Files, now: int): Disk {
    Moved(disk, Entry(key), files)[Entry(key) + [MANIFEST] := Record(Manifest(key, Hashed(files), Hashed(files), now))]
  }

  // ---- eviction ------------------------------------------------------------

  /** What `_entries` lists of a directory. */
  datatype Info = Info(lastUsed: int, bytes: nat, path: Path, key: Key)

  predicate TextLeq(a: string, b: string) {
    a == "" || (b != "" && (a[0] < b[0] || (a[0] == b[0] && TextLeq(a[1..], b[1..]))))
  }

  predicate PathLeq(a: Path, b: Path) {
    a == [] || (b != [] && if a[0] == b[0] then PathLeq(a[1..], b[1..]) else TextLeq(a[0], b[0]))
  }

  /** The order of `sorted`: by last use, then size, then path. */
  predicate InOrder(a: Info, b: Info) {
    a.lastUsed < b.lastUsed ||
    (a.lastUsed == b.lastUsed && (a.bytes < b.bytes || (a.bytes == b.bytes && PathLeq(a.path, b.path))))
  }

  lemma {:induction false} TextLeqIsTotal(a: string, b: string)
    ensures TextLeq(a, b) || TextLeq(b, a)
  {
    if a != "" && b != "" && a[0] == b[0] {
      TextLeqIsTotal(a[1..], b[1..]);
    }
  }

  lemma {:induction false} TextLeqIsAnOrder(a: string, b: string, c: string)
    requires TextLeq(a, b) && TextLeq(b, c)
    ensures TextLeq(a, c) && (a == c ==> a == b)
  {
    if a != "" && b != "" && c != "" && a[0] == b[0] == c[0] {
      TextLeqIsAnOrder(a[1..], b[1..], c[1..]);
      if a == c {
        assert a == [a[0]] + a[1..] && b == [b[0]] + b[1..];
      }
    }
  }

  lemma {:induction false} PathLeqIsTotal(a: Path, b: Path)
    ensures PathLeq(a, b) || PathLeq(b, a)
  {
    if a != [] && b != [] {
      TextLeqIsTotal(a[0], b[0]);
      PathLeqIsTotal(a[1..], b[1..]);
    }
  }

  lemma {:induction false} PathLeqIsTransitive(a: Path, b: Path, c: Path)
    requires PathLeq(a, b) && PathLeq(b, c)
    ensures PathLeq(a, c)
  {
    if a != [] {
      if a[0] == b[0] == c[0] {
        PathLeqIsTransitive(a[1..], b[1..], c[1..]);
      } else if a[0] != b[0] && b[0] != c[0] {
        TextLeqIsAnOrder(a[0], b[0], c[0]);
      }
    }
  }

  /** Used before the other; of those last used together, the smaller one, and then the one that comes first. */
  predicate Older(a: Info, b: Info) {
    && a.lastUsed <= b.lastUsed
    && (a.lastUsed == b.lastUsed ==> a.bytes <= b.bytes)
    && (a.lastUsed == b.lastUsed && a.bytes == b.bytes ==> PathLeq(a.path, b.path))
  }

  lemma InOrderIsOlder(a: Info, b: Info)
    ensures InOrder(a, b) <==> Older(a, b)
  {
  }

  /** Texts are ordered by their first difference, a prefix before what it begins. */
  predicate ComesFirst(a: string, b: string, i: nat) {
    i < |a| && i < |b| && a[..i] == b[..i] && a[i] < b[i]
  }

  lemma {:induction false} TextLeqIff(a: string, b: string)
    ensures TextLeq(a, b) <==> a <= b || exists i: nat :: ComesFirst(a, b, i)
  {
    if a != "" && b != "" {
      if a[0] == b[0] {
        TextLeqIff(a[1..], b[1..]);
        assert a == [a[0]] + a[1..] && b == [b[0]] + b[1..];
        assert a <= b <==> a[1..] <= b[1..];
        if i: nat :| ComesFirst(a[1..], b[1..], i) {
          assert a[..i + 1] == [a[0]] + a[1..][..i] && b[..i + 1] == [b[0]] + b[1..][..i];
          assert ComesFirst(a, b, i + 1);
        }
        if i: nat :| ComesFirst(a, b, i) {
          assert a[1..][..i - 1] == a[..i][1..] && b[1..][..i - 1] == b[..i][1..];
          assert ComesFirst(a[1..], b[1..], i - 1);
        }
      } else if a[0] < b[0] {
        assert ComesFirst(a, b, 0);
      } else {
        assert forall i: nat | ComesFirst(a, b, i) && i > 0 :: a[..i][0] == b[..i][0];
      }
    }
  }

  /** And paths by their first component that differs. */
  predicate PathComesFirst(a: Path, b: Path, i: nat) {
    i < |a| && i < |b| && a[..i] == b[..i] && a[i] != b[i] && TextLeq(a[i], b[i])
  }

  lemma {:induction false} PathLeqIff(a: Path, b: Path)
    ensures PathLeq(a, b) <==> a <= b || exists i: nat :: PathComesFirst(a, b, i)
  {
    if a != [] && b != [] {
      if a[0] == b[0] {
        PathLeqIff(a[1..], b[1..]);
        assert a == [a[0]] + a[1..] && b == [b[0]] + b[1..];
        assert a <= b <==> a[1..] <= b[1..];
        if i: nat :| PathComesFirst(a[1..], b[1..], i) {
          assert a[..i + 1] == [a[0]] + a[1..][..i] && b[..i + 1] == [b[0]] + b[1..][..i];
          assert PathComesFirst(a, b, i + 1);
        }
        if i: nat :| PathComesFirst(a, b, i) {
          assert a[1..][..i - 1] == a[..i][1..] && b[1..][..i - 1] == b[..i][1..];
          assert PathComesFirst(a[1..], b[1..], i - 1);
        }
      } else if TextLeq(a[0], b[0]) {
        assert PathComesFirst(a, b, 0);
      } else {
        assert forall i: nat | PathComesFirst(a, b, i) && i > 0 :: a[..i][0] == b[..i][0];
      }
    }
  }

  lemma InOrderIsTotal(a: Info, b: Info)
    ensures InOrder(a, b) || InOrder(b, a)
  {
    PathLeqIsTotal(a.path, b.path);
  }

  lemma InOrderIsTransitive(a: Info, b: Info, c: Info)
    requires InOrder(a, b) && InOrder(b, c)
    ensures InOrder(a, c)
  {
    if PathLeq(a.path, b.path) && PathLeq(b.path, c.path) {
      PathLeqIsTransitive(a.path, b.path, c.path);
    }
  }

  predicate Sorted(s: seq<Info>) {
    forall i, j | 0 <= i < j < |s| :: InOrder(s[i], s[j])
  }

  function Insert(e: Info, s: seq<Info>): seq<Info> {
    if s == [] || InOrder(e, s[0]) then [e] + s else [s[0]] + Insert(e, s[1..])
  }

  lemma {:induction false} InsertAdds(e: Info, s: seq<Info>)
    ensures multiset(Insert(e, s)) == multiset(s) + multiset{e}
  {
    if s != [] {
      assert s == [s[0]] + s[1..];
      InsertAdds(e, s[1..]);
    }
  }

  lemma {:induction false} InsertSorts(e: Info, s: seq<Info>)
    requires Sorted(s)
    ensures Sorted(Insert(e, s))
  {
    if s != [] {
      if InOrder(e, s[0]) {
        forall i | 0 < i < |s|
          ensures InOrder(e, s[i])
        {
          InOrderIsTransitive(e, s[0], s[i]);
        }
      } else {
        InsertSorts(e, s[1..]);
        InsertAdds(e, s[1..]);
        InOrderIsTotal(e, s[0]);
        var rest := Insert(e, s[1..]);
        forall i | 0 <= i < |rest|
          ensures InOrder(s[0], rest[i])
        {
          assert rest[i] in multiset(rest);
          assert rest[i] == e || rest[i] in s[1..];
        }
      }
    }
  }

  /** A directory two levels below the root, with the size of all its files. */
  datatype Listed = Listed(path: Path, bytes: nat)

  function InfoOf(disk: Disk, d: Listed): Info
    requires ManifestAt(disk, d.path).Some?
  {
    Info(ManifestAt(disk, d.path).value.lastUsed, d.bytes, d.path, ManifestAt(disk, d.path).value.key)
  }

  /** `_entries`, sorted: the directories listed in any order, those with a readable manifest. */
  function Entries(disk: Disk, listing: seq<Listed>): seq<Info> {
    if listing == [] then []
    else
      var rest := Entries(disk, listing[1..]);
      if ManifestAt(disk, listing[0].path).Some? then Insert(InfoOf(disk, listing[0]), rest) else rest
  }

  function Total(entries: seq<Info>): nat {
    if entries == [] then 0 else entries[0].bytes + Total(entries[1..])
  }

  /** The loop of `evict` over the sorted entries: those dropped and those left. */
  function Evicting(entries: seq<Info>, total: int, max: int, keep: set<Key>): (seq<Info>, seq<Info>) {
    if entries == [] || total <= max then ([], entries)
    else
      var e := entries[0];
      if e.key in keep then
        var (gone, left) := Evicting(entries[1..], total, max, keep);
        (gone, [e] + left)
      else
        var (gone, left) := Evicting(entries[1..], total - e.bytes, max, keep);
        ([e] + gone, left)
  }

  function Evicted(entries: seq<Info>, max: Option<int>, keep: set<Key>): (seq<Info>, seq<Info>) {
    if max == None || max == Some(0) then ([], entries) else Evicting(entries, Total(entries), max.value, keep)
  }

  function PathsOf(entries: seq<Info>): (r: seq<Path>)
    ensures |r| == |entries| && forall i | 0 <= i < |r| :: r[i] == entries[i].path
  {
    seq(|entries|, i requires 0 <= i < |entries| => entries[i].path)
  }

  lemma {:induction false} EvictingPartitions(entries: seq<Info>, total: int, max: int, keep: set<Key>)
    ensures
      var (gone, left) := Evicting(entries, total, max, keep);
      multiset(entries) == multiset(gone) + multiset(left) && forall e <- gone :: e.key !in keep
  {
    if entries != [] && total > max {
      assert entries == [entries[0]] + entries[1..];
      EvictingPartitions(entries[1..], if entries[0].key in keep then total else total - entries[0].bytes, max, keep);
    }
  }

  lemma {:induction false} EvictingTotals(entries: seq<Info>, total: int, max: int, keep: set<Key>)
    ensures
      var (gone, left) := Evicting(entries, total, max, keep);
      Total(entries) == Total(gone) + Total(left)
  {
    if entries != [] && total > max {
      var e := entries[0];
      var next := if e.key in keep then total else total - e.bytes;
      EvictingTotals(entries[1..], next, max, keep);
      TotalOfMore(e, Evicting(entries[1..], next, max, keep).0);
      TotalOfMore(e, Evicting(entries[1..], next, max, keep).1);
    }
  }

  /** `total` is the size of the entries and of what has been passed over already. */
  lemma {:induction false} EvictingFits(entries: seq<Info>, total: int, max: int, keep: set<Key>)
    ensures
      var (gone, left) := Evicting(entries, total, max, keep);
      && (total - Total(gone) <= max || forall e <- left :: e.key in keep)
      && (gone != [] ==> total - Total(gone[..|gone| - 1]) > max)
  {
    if entries != [] && total > max {
      var e := entries[0];
      var next := if e.key in keep then total else total - e.bytes;
      EvictingFits(entries[1..], next, max, keep);
      var gone := Evicting(entries[1..], next, max, keep).0;
      if e.key !in keep {
        TotalOfMore(e, gone);
        if gone == [] {
          assert ([e] + gone)[..0] == [];
        } else {
          assert ([e] + gone)[..|gone|] == [e] + gone[..|gone| - 1];
          TotalOfMore(e, gone[..|gone| - 1]);
        }
      }
    }
  }

  lemma TotalOfMore(e: Info, s: seq<Info>)
    ensures Total([e] + s) == e.bytes + Total(s)
  {
    assert ([e] + s)[1..] == s;
  }

  lemma {:induction false} EvictingIsInOrder(entries: seq<Info>, total: int, max: int, keep: set<Key>)
    requires Sorted(entries)
    ensures
      var (gone, left) := Evicting(entries, total, max, keep);
      forall e <- gone, f <- left :: f.key in keep || InOrder(e, f)
  {
    if entries != [] && total > max {
      var e, rest := entries[0], entries[1..];
      var next := if e.key in keep then total else total - e.bytes;
      EvictingIsInOrder(rest, next, max, keep);
      EvictingPartitions(rest, next, max, keep);
      forall f | f in Evicting(rest, next, max, keep).1
        ensures InOrder(e, f)
      {
        assert f in multiset(Evicting(rest, next, max, keep).1);
        assert f in multiset(rest);
      }
    }
  }

  /** Eviction: nothing goes while the cache fits or when there is no bound; what goes is never in use and
      never newer than what stays; afterwards the entries fit the bound or only those in use are left; and
      it stops as soon as they do. */
  lemma EvictionIsLeastRecentlyUsed(disk: Disk, listing: seq<Listed>, max: Option<int>, keep: set<Key>)
    ensures
      var entries := Entries(disk, listing);
      var (gone, left) := Evicted(entries, max, keep);
      && multiset(entries) == multiset(gone) + multiset(left)
      && (forall e <- gone :: e.key !in keep)
      && (forall e <- gone, f <- left :: f.key in keep || Older(e, f))
      && (if max == None || max == Some(0) then gone == []
          else
            && (Total(left) <= max.value || forall e <- left :: e.key in keep)
            && (gone != [] ==> Total(entries) - Total(gone[..|gone| - 1]) > max.value))
  {
    if max.Some? && max != Some(0) {
      var entries := Entries(disk, listing);
      EvictingPartitions(entries, Total(entries), max.value, keep);
      EvictingFits(entries, Total(entries), max.value, keep);
      EvictingTotals(entries, Total(entries), max.value, keep);
      EntriesDescribe(disk, listing);
      EvictingIsInOrder(entries, Total(entries), max.value, keep);
      forall e: Info, f: Info
        ensures InOrder(e, f) <==> Older(e, f)
      {
        InOrderIsOlder(e, f);
      }
    }
  }

  // ---- the cache -----------------------------------------------------------

  datatype FetchError = DownloadFailed | NoFiles | NoTarget

  function Dropped(disk: Disk, gone: seq<Info>): Disk {
    if gone == [] then disk else Removed(Dropped(disk, gone[..|gone| - 1]), gone[|gone| - 1].path)
  }

  function Bounded(disk: Disk, listing: seq<Listed>, max: Option<int>, keep: set<Key>): Disk {
    Dropped(disk, Evicted(Entries(disk, listing), max, keep).0)
  }

  lemma DroppedOneMore(disk: Disk, gone: seq<Info>, e: Info)
    ensures PathsOf(gone + [e]) == PathsOf(gone) + [e.path]
    ensures Dropped(disk, gone + [e]) == Removed(Dropped(disk, gone), e.path)
  {
    assert (gone + [e])[..|gone|] == gone;
  }

  /** What the loop drops from entry `i` on. */
  ghost function Going(entries: seq<Info>, i: nat, total: int, max: int, keep: set<Key>): seq<Info>
    requires i <= |entries|
  {
    Evicting(entries[i..], total, max, keep).0
  }

  lemma GoingOn(entries: seq<Info>, i: nat, total: int, max: int, keep: set<Key>)
    requires i < |entries|
    ensures Going(entries, i, total, max, keep) ==
            if total <= max then []
            else if entries[i].key in keep then Going(entries, i + 1, total, max, keep)
            else [entries[i]] + Going(entries, i + 1, total - entries[i].bytes, max, keep)
  {
    assert entries[i..][1..] == entries[i + 1..];
  }

  /** The plan is what is gone and what still goes. */
  ghost predicate Ahead(entries: seq<Info>, i: nat, total: int, max: int, keep: set<Key>, gone: seq<Info>,
                        plan: seq<Info>)
    requires i <= |entries|
  {
    plan == gone + Going(entries, i, total, max, keep)
  }

  lemma OneAhead(entries: seq<Info>, i: nat, total: int, max: int, keep: set<Key>, gone: seq<Info>, plan: seq<Info>)
    requires i < |entries| && Ahead(entries, i, total, max, keep, gone, plan)
    ensures if total <= max then gone == plan
            else if entries[i].key in keep then Ahead(entries, i + 1, total, max, keep, gone, plan)
            else Ahead(entries, i + 1, total - entries[i].bytes, max, keep, gone + [entries[i]], plan)
  {
    GoingOn(entries, i, total, max, keep);
  }

  lemma WholePlan(entries: seq<Info>, max: int, keep: set<Key>, plan: seq<Info>)
    requires plan == Evicting(entries, Total(entries), max, keep).0
    ensures Ahead(entries, 0, Total(entries), max, keep, [], plan)
  {
    assert entries[0..] == entries;
  }

  lemma PlanDone(entries: seq<Info>, total: int, max: int, keep: set<Key>, gone: seq<Info>, plan: seq<Info>)
    requires Ahead(entries, |entries|, total, max, keep, gone, plan)
    ensures gone == plan
  {
    assert Evicting([], total, max, keep).0 == [];
  }

  class Cache {
    const max: Option<int>
    var disk: Disk

    constructor (max: Option<int>)
      ensures this.max == max && disk == map[]
    {
      this.max, disk := max, map[];
    }

    /** `verified_hit`. */
    method VerifiedHit(key: Key, now: int) returns (hit: bool)
      modifies this
      ensures hit == Hits(old(disk), key) && disk == AfterLookup(old(disk), key, now)
    {
      var p := Entry(key);
      var found := ManifestAt(disk, p);
      if found == None {
        return false;
      }
      var manifest := found.value;
      var intact := manifest.files != map[] && HashedBelow(disk, p) == manifest.files;
      if !intact || manifest.files != manifest.digest {
        disk := Removed(disk, p);
        return false;
      }
      disk := disk[p + [MANIFEST] := Record(manifest.(lastUsed := now))];
      hit := true;
    }

    /** The loop of `evict`. */
    method EvictOldest(entries: seq<Info>, max: int, keep: set<Key>) returns (evicted: seq<Path>)
      modifies this
      ensures var gone := Evicting(entries, Total(entries), max, keep).0;
              disk == Dropped(old(disk), gone) && evicted == PathsOf(gone)
    {
      evicted := [];
      ghost var plan := Evicting(entries, Total(entries), max, keep).0;
      ghost var gone: seq<Info> := [];
      var total: int := Total(entries);
      WholePlan(entries, max, keep, plan);
      for i := 0 to |entries|
        invariant Ahead(entries, i, total, max, keep, gone, plan)
        invariant evicted == PathsOf(gone) && disk == Dropped(old(disk), gone)
      {
        var e := entries[i];
        OneAhead(entries, i, total, max, keep, gone, plan);
        if total <= max {
          return;
        }
        if e.key in keep {
          continue;
        }
        DroppedOneMore(old(disk), gone, e);
        disk := Removed(disk, e.path);
        total := total - e.bytes;
        evicted, gone := evicted + [e.path], gone + [e];
      }
      PlanDone(entries, total, max, keep, gone, plan);
    }

    /** `evict`; `listing` is what the file system lists two levels down, in any order. */
    method Evict(listing: seq<Listed>, keep: set<Key>) returns (evicted: seq<Path>)
      modifies this
      ensures disk == Bounded(old(disk), listing, max, keep)
      ensures evicted == PathsOf(Evicted(Entries(old(disk), listing), max, keep).0)
    {
      if max == None || max == Some(0) {
        return [];
      }
      evicted := EvictOldest(Entries(disk, listing), max.value, keep);
    }

    /** `fetch`; `download` is what MLflow delivers, `list` what the file system lists afterwards. */
    method Fetch(key: Key, now: int, download: Option<Files>, list: Disk -> seq<Listed>, keep: set<Key>)
      returns (r: Result<Path, FetchError>)
      modifies this
      ensures
        var looked := AfterLookup(old(disk), key, now);
        if Hits(old(disk), key) then r == Ok(Entry(key)) && disk == looked
        else if download == None then r == Err(DownloadFailed) && disk == looked
        else if Hashed(download.value) == map[] then r == Err(NoFiles) && disk == looked
        else if !Fillable(Entry(key)) then r == Err(NoTarget) && disk == Removed(looked, Entry(key))
        else
          var placed := AfterPlacing(looked, key, download.value, now);
          r == Ok(Entry(key)) && disk == Bounded(placed, list(placed), max, keep + {key})
    {
      var hit := VerifiedHit(key, now);
      if hit {
        return Ok(Entry(key));
      }
      if download == None {
        return Err(DownloadFailed);
      }
      var files := Hashed(download.value);
      if files == map[] {
        return Err(NoFiles);
      }
      if !Fillable(Entry(key)) {
        disk := Removed(disk, Entry(key));
        return Err(NoTarget);
      }
      disk := AfterPlacing(disk, key, download.value, now);
      var _ := Evict(list(disk), keep + {key});
      r := Ok(Entry(key));
    }
  }

  /** The entry is one of the listed directories, and its manifest can be read. */
  predicate Describes(disk: Disk, listing: seq<Listed>, e: Info) {
    Listed(e.path, e.bytes) in listing && ManifestAt(disk, e.path).Some? && e == InfoOf(disk, Listed(e.path, e.bytes))
  }

  /** The entries are the listed directories with a readable manifest, no more and no less, in order. */
  lemma {:induction false} EntriesDescribe(disk: Disk, listing: seq<Listed>)
    ensures Sorted(Entries(disk, listing))
    ensures forall e :: e in Entries(disk, listing) <==> Describes(disk, listing, e)
  {
    if listing != [] {
      EntriesDescribe(disk, listing[1..]);
      assert listing == [listing[0]] + listing[1..];
      if ManifestAt(disk, listing[0].path).Some? {
        InsertSorts(InfoOf(disk, listing[0]), Entries(disk, listing[1..]));
        InsertedOne(InfoOf(disk, listing[0]), Entries(disk, listing[1..]));
      }
    }
  }

  lemma InsertedOne(e: Info, s: seq<Info>)
    ensures forall x :: x in Insert(e, s) <==> x == e || x in s
  {
    InsertAdds(e, s);
    assert forall x :: x in Insert(e, s) <==> x in multiset(Insert(e, s));
    assert forall x :: x in s <==> x in multiset(s);
  }

  lemma {:induction false} DroppedKeepsOthers(disk: Disk, gone: seq<Info>, f: Path)
    requires forall e <- gone :: !Under(e.path, f)
    ensures f in Dropped(disk, gone) <==> f in disk
    ensures f in disk ==> Dropped(disk, gone)[f] == disk[f]
  {
    if gone != [] {
      DroppedKeepsOthers(disk, gone[..|gone| - 1], f);
    }
  }

  /** What stands in a directory just placed: the downloaded files and one manifest, at its top. */
  lemma PlacedBelow(disk: Disk, key: Key, files: Files, now: int)
    ensures
      var placed, p := AfterPlacing(disk, key, files, now), Entry(key);
      && ManifestAt(placed, p) == Some(Manifest(key, Hashed(files), Hashed(files), now))
      && HashedBelow(placed, p) == Hashed(files)
  {
    forall q
      ensures Holds(AfterPlacing(disk, key, files, now), Entry(key), files, q)
    {
      PlacedAt(disk, key, files, now, q);
    }
    HashedHolds(AfterPlacing(disk, key, files, now), Entry(key), files);
  }

  /** Below `p` the disk holds this file of the download, and no other; the manifest is apart. */
  predicate Holds(disk: Disk, p: Path, files: Files, q: Path) {
    q != [MANIFEST] ==> (p + q in disk <==> q in files) && (q in files ==> disk[p + q] == Data(files[q]))
  }

  lemma HashedHolds(disk: Disk, p: Path, files: Files)
    requires forall q :: Holds(disk, p, files, q)
    ensures HashedBelow(disk, p) == Hashed(files)
  {
    forall q
      ensures q in Covered(disk, p) <==> q in Hashed(files)
      ensures q in Covered(disk, p) ==> disk[p + q].bytes == files[q]
    {
      assert Holds(disk, p, files, q);
    }
  }

  lemma PlacedAt(disk: Disk, key: Key, files: Files, now: int, q: Path)
    ensures Holds(AfterPlacing(disk, key, files, now), Entry(key), files, q)
  {
    var p := Entry(key);
    assert p <= p + q && (p + q)[|p|..] == q;
    if p + q == p + [MANIFEST] {
      assert q == (p + [MANIFEST])[|p|..] == [MANIFEST];
    }
  }

  lemma NoManifestFurtherDown(disk: Disk, key: Key, files: Files, now: int, d: Path)
    requires Fillable(Entry(key))
    ensures Under(Entry(key), d) && d != Entry(key) ==> ManifestAt(AfterPlacing(disk, key, files, now), d) == None
  {
    var p := Entry(key);
    if Under(p, d) && d != p {
      var q := d[|p|..] + [MANIFEST];
      assert p + q == d + [MANIFEST] && |q| > 1;
      PlacedAt(disk, key, files, now, q);
    }
  }

  lemma PrefixesCompare(p: Path, d: Path, f: Path)
    requires Fillable(p) && Fillable(d) && |p| <= |d| && Under(p, f) && !Under(p, d)
    ensures !Under(d, f)
  {
  }

  /** What `_entries` finds is two levels below the root. */
  predicate TwoDown(listing: seq<Listed>) { forall d <- listing :: |d.path| == 2 && Fillable(d.path) }

  /** The evicted directories leave what was just placed alone. */
  lemma EvictionSparesTheFetched(disk: Disk, key: Key, files: Files, now: int, listing: seq<Listed>, max: Option<int>,
                                 keep: set<Key>, e: Info, f: Path)
    requires TwoDown(listing) && Fillable(Entry(key))
    requires e in Evicted(Entries(AfterPlacing(disk, key, files, now), listing), max, keep + {key}).0
    requires Under(Entry(key), f)
    ensures !Under(e.path, f)
  {
    var placed := AfterPlacing(disk, key, files, now);
    EvictedAreEntries(placed, listing, max, keep + {key}, e);
    PlacedBelow(disk, key, files, now);
    assert e.path != Entry(key);
    NoManifestFurtherDown(disk, key, files, now, e.path);
    PrefixesCompare(Entry(key), e.path, f);
  }

  lemma EvictedAreEntries(disk: Disk, listing: seq<Listed>, max: Option<int>, keep: set<Key>, e: Info)
    requires e in Evicted(Entries(disk, listing), max, keep).0
    ensures e.key !in keep && Describes(disk, listing, e)
  {
    var entries := Entries(disk, listing);
    var gone := Evicted(entries, max, keep).0;
    EvictingPartitions(entries, Total(entries), max.value, keep);
    assert e in multiset(gone);
    assert e in multiset(entries);
    assert e in entries;
    EntriesDescribe(disk, listing);
  }

  /** What was fetched survives its own eviction: the next lookup is a hit on exactly the downloaded bytes. */
  lemma FetchedIsServed(disk: Disk, key: Key, files: Files, now: int, listing: seq<Listed>, max: Option<int>,
                        keep: set<Key>)
    requires Hashed(files) != map[] && Fillable(Entry(key)) && TwoDown(listing)
    ensures
      var after := Bounded(AfterPlacing(disk, key, files, now), listing, max, keep + {key});
      Hits(after, key) && HashedBelow(after, Entry(key)) == Hashed(files)
  {
    var placed, p := AfterPlacing(disk, key, files, now), Entry(key);
    var gone := Evicted(Entries(placed, listing), max, keep + {key}).0;
    forall f | Under(p, f)
      ensures f in Dropped(placed, gone) <==> f in placed
      ensures f in placed ==> Dropped(placed, gone)[f] == placed[f]
    {
      forall e | e in gone
        ensures !Under(e.path, f)
      {
        EvictionSparesTheFetched(disk, key, files, now, listing, max, keep, e, f);
      }
      DroppedKeepsOthers(placed, gone, f);
    }
    SameBelow(placed, Dropped(placed, gone), p);
    PlacedBelow(disk, key, files, now);
  }

  lemma SameBelow(a: Disk, b: Disk, p: Path)
    requires Fillable(p) && forall f | Under(p, f) :: (f in a <==> f in b) && (f in a ==> a[f] == b[f])
    ensures ManifestAt(a, p) == ManifestAt(b, p) && HashedBelow(a, p) == HashedBelow(b, p)
  {
    assert forall q :: Under(p, p + q);
    assert Covered(a, p) == Covered(b, p);
  }

  // ---- listing again after an eviction --------------------------------------

  /** The same directories, sizes included, as far as they still have a readable manifest, each listed once. */
  ghost predicate ListedAgain(disk: Disk, listing: seq<Listed>, again: seq<Listed>) {
    && (forall d: Listed | ManifestAt(disk, d.path).Some? :: d in again <==> d in listing)
    && OneEach(again)
  }

  predicate OneEach(listing: seq<Listed>) {
    forall i, j | 0 <= i < j < |listing| :: listing[i].path != listing[j].path
  }

  lemma {:induction false} DroppedManifests(disk: Disk, gone: seq<Info>, d: Path)
    requires |d| == 2 && Fillable(d) && forall e <- gone :: |e.path| == 2 && Fillable(e.path)
    ensures ManifestAt(Dropped(disk, gone), d) ==
            if exists e <- gone :: e.path == d then None else ManifestAt(disk, d)
  {
    if gone != [] {
      var e := gone[|gone| - 1];
      DroppedManifests(disk, gone[..|gone| - 1], d);
      assert gone == gone[..|gone| - 1] + [e];
      assert Under(e.path, d + [MANIFEST]) <==> e.path == d by {
        assert (d + [MANIFEST])[..2] == d;
      }
    }
  }

  predicate OnePerPath(entries: seq<Info>) {
    forall e <- entries, f <- entries :: e.path == f.path ==> e == f
  }

  /** Each directory is one entry. */
  lemma {:induction false} EntriesOnce(disk: Disk, listing: seq<Listed>)
    requires OneEach(listing)
    ensures forall e <- Entries(disk, listing) :: multiset(Entries(disk, listing))[e] == 1
    ensures OnePerPath(Entries(disk, listing))
  {
    if listing != [] {
      var rest := Entries(disk, listing[1..]);
      EntriesOnce(disk, listing[1..]);
      EntriesDescribe(disk, listing[1..]);
      assert forall d <- listing[1..] :: d.path != listing[0].path;
      if ManifestAt(disk, listing[0].path).Some? {
        InsertAdds(InfoOf(disk, listing[0]), rest);
        InsertedOne(InfoOf(disk, listing[0]), rest);
      }
    }
  }

  lemma {:induction false} TextLeqIsAntisymmetric(a: string, b: string)
    requires TextLeq(a, b) && TextLeq(b, a)
    ensures a == b
  {
    if a != "" {
      TextLeqIsAntisymmetric(a[1..], b[1..]);
      assert a == [a[0]] + a[1..] && b == [b[0]] + b[1..];
    }
  }

  lemma {:induction false} PathLeqIsAntisymmetric(a: Path, b: Path)
    requires PathLeq(a, b) && PathLeq(b, a)
    ensures a == b
  {
    if a != [] {
      if a[0] != b[0] {
        TextLeqIsAntisymmetric(a[0], b[0]);
      }
      PathLeqIsAntisymmetric(a[1..], b[1..]);
      assert a == [a[0]] + a[1..] && b == [b[0]] + b[1..];
    }
  }

  lemma SameFirst(a: seq<Info>, b: seq<Info>)
    requires a != [] && b != [] && Sorted(a) && Sorted(b) && a[0] in b && b[0] in a
    ensures a[0].path == b[0].path
  {
    if a[0] != b[0] {
      assert InOrder(a[0], b[0]) && InOrder(b[0], a[0]);
      PathLeqIsAntisymmetric(a[0].path, b[0].path);
    }
  }

  lemma SameMembers(a: seq<Info>, b: seq<Info>, e: Info)
    requires multiset(a) == multiset(b)
    ensures e in a <==> e in b
  {
    assert e in a <==> e in multiset(a);
    assert e in b <==> e in multiset(b);
  }

  lemma RestOf(a: seq<Info>)
    requires a != [] && Sorted(a)
    ensures Sorted(a[1..]) && (OnePerPath(a) ==> OnePerPath(a[1..]))
  {
    assert forall e <- a[1..] :: e in a;
  }

  /** Two sorted listings of the same entries, no two in one directory, are one. */
  lemma {:induction false} SortedAlike(a: seq<Info>, b: seq<Info>)
    requires Sorted(a) && Sorted(b) && multiset(a) == multiset(b) && OnePerPath(a)
    ensures a == b
  {
    assert |multiset(a)| == |a| && |multiset(b)| == |b|;
    if a != [] {
      SameMembers(a, b, a[0]);
      SameMembers(a, b, b[0]);
      SameFirst(a, b);
      SameRest(a, b);
      RestOf(a);
      RestOf(b);
      SortedAlike(a[1..], b[1..]);
      assert a == [a[0]] + a[1..] && b == [b[0]] + b[1..];
    }
  }

  lemma SameRest(a: seq<Info>, b: seq<Info>)
    requires a != [] && b != [] && a[0] == b[0] && multiset(a) == multiset(b)
    ensures multiset(a[1..]) == multiset(b[1..])
  {
    assert a == [a[0]] + a[1..] && b == [b[0]] + b[1..];
    assert multiset([a[0]] + a[1..]) == multiset([a[0]]) + multiset(a[1..]);
    assert multiset([b[0]] + b[1..]) == multiset([a[0]]) + multiset(b[1..]);
    assert multiset(a) - multiset([a[0]]) == multiset(a[1..]);
  }

  lemma {:induction false} EvictingKeepsOrder(entries: seq<Info>, total: int, max: int, keep: set<Key>)
    requires Sorted(entries)
    ensures Sorted(Evicting(entries, total, max, keep).1)
  {
    if entries != [] && total > max {
      var e, rest := entries[0], entries[1..];
      var next := if e.key in keep then total else total - e.bytes;
      EvictingKeepsOrder(rest, next, max, keep);
      EvictingPartitions(rest, next, max, keep);
      forall f | f in Evicting(rest, next, max, keep).1
        ensures InOrder(e, f)
      {
        assert f in multiset(Evicting(rest, next, max, keep).1);
        assert f in multiset(rest);
      }
    }
  }

  /** Of entries that stand there once, those left are the ones that are not gone. */
  lemma LeftIsTheRest(entries: seq<Info>, max: Option<int>, keep: set<Key>, e: Info)
    requires forall x <- entries :: multiset(entries)[x] == 1
    ensures
      var (gone, left) := Evicted(entries, max, keep);
      && (e in left <==> e in entries && e !in gone) && (e in gone ==> e in entries) && multiset(left)[e] <= 1
  {
    var (gone, left) := Evicted(entries, max, keep);
    if max.Some? && max != Some(0) {
      EvictingPartitions(entries, Total(entries), max.value, keep);
    }
    assert multiset(entries) == multiset(gone) + multiset(left);
    assert e in entries <==> e in multiset(entries);
    assert e in gone <==> e in multiset(gone);
    assert e in left <==> e in multiset(left);
  }

  lemma DescribedAgain(disk: Disk, listing: seq<Listed>, max: Option<int>, keep: set<Key>, again: seq<Listed>, e: Info)
    requires TwoDown(listing) && OneEach(listing) && ListedAgain(Bounded(disk, listing, max, keep), listing, again)
    ensures Describes(Bounded(disk, listing, max, keep), again, e) <==>
            e in Evicted(Entries(disk, listing), max, keep).1
  {
    var entries := Entries(disk, listing);
    var gone, after := Evicted(entries, max, keep).0, Bounded(disk, listing, max, keep);
    EntriesDescribe(disk, listing);
    EntriesOnce(disk, listing);
    LeftIsTheRest(entries, max, keep, e);
    forall g | g in gone
      ensures g in entries && Describes(disk, listing, g)
    {
      LeftIsTheRest(entries, max, keep, g);
    }
    if Listed(e.path, e.bytes) in listing {
      DroppedManifests(disk, gone, e.path);
    }
  }

  /** The directory was last used before then, if it is an entry at all. */
  predicate Earlier(disk: Disk, p: Path, now: int) {
    ManifestAt(disk, p).Some? ==> ManifestAt(disk, p).value.lastUsed < now
  }

  lemma StampLeavesOthers(disk: Disk, key: Key, now: int, d: Path)
    requires Hits(disk, key)
    ensures ManifestAt(AfterLookup(disk, key, now), d) ==
            if d == Entry(key) then Some(ManifestAt(disk, d).value.(lastUsed := now)) else ManifestAt(disk, d)
  {
    var p := Entry(key);
    assert (d + [MANIFEST])[..|d|] == d && (p + [MANIFEST])[..|p|] == p;
    assert d + [MANIFEST] == p + [MANIFEST] ==> |d| == |p|;
  }

  /** What was just served is the last to go: an eviction that leaves anything not in use leaves the entry that the
      latest hit stamped, when every other was last used before. */
  lemma TheLastServedIsSpared(disk: Disk, key: Key, now: int, listing: seq<Listed>, max: Option<int>, keep: set<Key>,
                              served: Listed)
    requires Hits(disk, key) && OneEach(listing) && served in listing && served.path == Entry(key)
    requires forall d <- listing :: d.path == Entry(key) || Earlier(disk, d.path, now)
    ensures var (gone, left) := Evicted(Entries(AfterLookup(disk, key, now), listing), max, keep);
            (exists f <- left :: f.key !in keep) ==> exists e <- left :: e.path == Entry(key)
  {
    var after := AfterLookup(disk, key, now);
    var entries := Entries(after, listing);
    var (gone, left) := Evicted(entries, max, keep);
    EntriesDescribe(after, listing);
    EntriesOnce(after, listing);
    StampLeavesOthers(disk, key, now, Entry(key));
    var e := InfoOf(after, served);
    assert Describes(after, listing, e);
    LeftIsTheRest(entries, max, keep, e);
    if f :| f in left && f.key !in keep {
      LeftIsTheRest(entries, max, keep, f);
      StampLeavesOthers(disk, key, now, f.path);
      EvictionIsLeastRecentlyUsed(after, listing, max, keep);
      assert Listed(f.path, f.bytes) in listing;
      assert e in gone ==> Older(e, f);
    }
  }

  /** Listing the tree again after an eviction gives exactly the entries left. */
  lemma ListedAgainIsLeft(disk: Disk, listing: seq<Listed>, max: Option<int>, keep: set<Key>, again: seq<Listed>)
    requires TwoDown(listing) && OneEach(listing) && ListedAgain(Bounded(disk, listing, max, keep), listing, again)
    ensures Entries(Bounded(disk, listing, max, keep), again) == Evicted(Entries(disk, listing), max, keep).1
  {
    var entries := Entries(disk, listing);
    var left, now := Evicted(entries, max, keep).1, Entries(Bounded(disk, listing, max, keep), again);
    forall e
      ensures multiset(now)[e] == multiset(left)[e]
    {
      CountedAgain(disk, listing, max, keep, again, e);
    }
    LeftIsSorted(disk, listing, max, keep);
    EntriesDescribe(Bounded(disk, listing, max, keep), again);
    EntriesOnce(Bounded(disk, listing, max, keep), again);
    SortedAlike(now, left);
  }

  lemma LeftIsSorted(disk: Disk, listing: seq<Listed>, max: Option<int>, keep: set<Key>)
    ensures Sorted(Evicted(Entries(disk, listing), max, keep).1)
  {
    EntriesDescribe(disk, listing);
    if max.Some? && max != Some(0) {
      EvictingKeepsOrder(Entries(disk, listing), Total(Entries(disk, listing)), max.value, keep);
    }
  }

  lemma CountedAgain(disk: Disk, listing: seq<Listed>, max: Option<int>, keep: set<Key>, again: seq<Listed>, e: Info)
    requires TwoDown(listing) && OneEach(listing) && ListedAgain(Bounded(disk, listing, max, keep), listing, again)
    ensures multiset(Entries(Bounded(disk, listing, max, keep), again))[e] ==
            multiset(Evicted(Entries(disk, listing), max, keep).1)[e]
  {
    var after, left := Bounded(disk, listing, max, keep), Evicted(Entries(disk, listing), max, keep).1;
    var now := Entries(after, again);
    DescribedAgain(disk, listing, max, keep, again, e);
    EntriesDescribe(after, again);
    EntriesOnce(disk, listing);
    EntriesOnce(after, again);
    LeftIsTheRest(Entries(disk, listing), max, keep, e);
    assert e in now <==> e in multiset(now);
    assert e in left <==> e in multiset(left);
  }

  /** So evicting again drops nothing and leaves the tree as it is. */
  lemma EvictingAgainDropsNothing(disk: Disk, listing: seq<Listed>, max: Option<int>, keep: set<Key>,
                                  again: seq<Listed>)
    requires TwoDown(listing) && OneEach(listing) && ListedAgain(Bounded(disk, listing, max, keep), listing, again)
    ensures
      var after := Bounded(disk, listing, max, keep);
      Evicted(Entries(after, again), max, keep).0 == [] && Bounded(after, again, max, keep) == after
  {
    ListedAgainIsLeft(disk, listing, max, keep, again);
    NothingMoreGoes(Entries(disk, listing), max, keep);
  }

  lemma {:induction false} NoneGoes(entries: seq<Info>, total: int, max: int, keep: set<Key>)
    requires total <= max || forall e <- entries :: e.key in keep
    ensures Evicting(entries, total, max, keep).0 == []
  {
    if entries != [] && total > max {
      NoneGoes(entries[1..], total, max, keep);
    }
  }

  lemma NothingMoreGoes(entries: seq<Info>, max: Option<int>, keep: set<Key>)
    ensures Evicted(Evicted(entries, max, keep).1, max, keep).0 == []
  {
    if max.Some? && max != Some(0) {
      var left := Evicting(entries, Total(entries), max.value, keep).1;
      EvictingFits(entries, Total(entries), max.value, keep);
      EvictingTotals(entries, Total(entries), max.value, keep);
      NoneGoes(left, Total(left), max.value, keep);
    }
  }

  // ---- crashes and decay ---------------------------------------------------

  /** One step of any process, or of the disk itself. A removal or a manifest write that dies half-way, a
      removed directory, a corrupted or edited file are `Harm`: it leaves any files at all, except that a
      manifest which still reads is one that stood there before. */
  datatype Step =
    | Lookup(key: Key, now: int)
    | Place(key: Key, files: Files, now: int)
    | Harm(left: Disk)

  datatype State = State(disk: Disk, completed: set<(Key, Files)>)

  predicate Legal(used: iset<Key>, s: State, step: Step) {
    match step
    case Lookup(key, _) => key in used
    case Place(key, files, _) => key in used && Hashed(files) != map[]
    case Harm(left) => forall f <- left | left[f].Record? :: f in s.disk && s.disk[f] == left[f]
  }

  function Next(s: State, step: Step): State {
    match step
    case Lookup(key, now) => s.(disk := AfterLookup(s.disk, key, now))
    case Place(key, files, now) =>
      if Fillable(Entry(key)) then
        State(AfterPlacing(s.disk, key, files, now), s.completed + {(key, Hashed(files))})
      else s.(disk := Removed(s.disk, Entry(key)))
    case Harm(left) => s.(disk := left)
  }

  predicate LegalRun(used: iset<Key>, s: State, run: seq<Step>)
    decreases |run|
  {
    run == [] || (Legal(used, s, run[0]) && LegalRun(used, Next(s, run[0]), run[1..]))
  }

  function After(s: State, run: seq<Step>): State
    decreases |run|
  {
    if run == [] then s else After(Next(s, run[0]), run[1..])
  }

  const EMPTY := State(map[], {})

  /** Harm leaves any files at all that are not manifests, and any manifest that stood there. */
  lemma HarmLeavesAnything(used: iset<Key>, s: State, left: Disk)
    requires forall f <- left :: left[f].Data? || (f in s.disk && left[f] == s.disk[f])
    ensures Legal(used, s, Harm(left)) && Next(s, Harm(left)) == State(left, s.completed)
  {
  }

  /** A download that cannot be moved to its place is lost, and with it what was cleared to make room. */
  lemma NoPlaceIsCleared(s: State, key: Key, files: Files, now: int, f: Path)
    requires !Fillable(Entry(key))
    ensures var t := Next(s, Place(key, files, now));
            && t.completed == s.completed && (f in t.disk <==> f in s.disk && !Under(Entry(key), f))
            && (f in t.disk ==> t.disk[f] == s.disk[f])
  {
  }

  /** A manifest file at `f` that tells of a finished download into its directory. */
  predicate TrueRecord(used: iset<Key>, s: State, f: Path, m: Manifest) {
    m.key in used && Fillable(Entry(m.key)) && f == Entry(m.key) + [MANIFEST] && (m.key, m.files) in s.completed
  }

  predicate ManifestsAreTrue(used: iset<Key>, s: State) {
    forall f <- s.disk | s.disk[f].Record? :: TrueRecord(used, s, f, s.disk[f].manifest)
  }

  lemma {:induction false} RunKeepsManifestsTrue(used: iset<Key>, s: State, run: seq<Step>)
    requires ManifestsAreTrue(used, s) && LegalRun(used, s, run)
    ensures ManifestsAreTrue(used, After(s, run))
    decreases |run|
  {
    if run != [] {
      StepKeepsManifestsTrue(used, s, run[0]);
      RunKeepsManifestsTrue(used, Next(s, run[0]), run[1..]);
    }
  }

  lemma StepKeepsManifestsTrue(used: iset<Key>, s: State, step: Step)
    requires ManifestsAreTrue(used, s) && Legal(used, s, step)
    ensures ManifestsAreTrue(used, Next(s, step))
  {
    var t := Next(s, step);
    forall f | f in t.disk && t.disk[f].Record?
      ensures TrueRecord(used, t, f, t.disk[f].manifest)
    {
      match step
      case Lookup(key, now) => LookupRecords(s.disk, key, now, f);
      case Place(key, files, now) => PlaceRecords(s, key, files, now, f);
      case Harm(_) =>
    }
  }

  /** A manifest that a lookup leaves was there before, but for its stamp. */
  lemma LookupRecords(disk: Disk, key: Key, now: int, f: Path)
    requires f in AfterLookup(disk, key, now) && AfterLookup(disk, key, now)[f].Record?
    ensures f in disk && disk[f].Record?
    ensures AfterLookup(disk, key, now)[f].manifest.(lastUsed := 0) == disk[f].manifest.(lastUsed := 0)
  {
  }

  lemma MovedRecords(disk: Disk, p: Path, files: Files, f: Path)
    requires f in Moved(disk, p, files) && Moved(disk, p, files)[f].Record?
    ensures f in disk && Moved(disk, p, files)[f] == disk[f]
  {
    assert !(p <= f);
  }

  /** A manifest on disk after a fetch was there before or is the new one. */
  lemma PlaceRecords(s: State, key: Key, files: Files, now: int, f: Path)
    requires var t := Next(s, Place(key, files, now)); f in t.disk && t.disk[f].Record?
    ensures
      var t := Next(s, Place(key, files, now));
      || (f in s.disk && t.disk[f] == s.disk[f])
      || (Fillable(Entry(key)) && f == Entry(key) + [MANIFEST] &&
          t.disk[f].manifest == Manifest(key, Hashed(files), Hashed(files), now))
  {
    if Fillable(Entry(key)) && f != Entry(key) + [MANIFEST] {
      MovedRecords(s.disk, Entry(key), files, f);
    }
  }

  /** The bytes a lookup of `key` would serve were downloaded for that name and version. */
  predicate ServesItsOwn(s: State, key: Key) {
    Hits(s.disk, key) ==> (key, HashedBelow(s.disk, Entry(key))) in s.completed
  }

  ghost predicate NoneCollide(used: iset<Key>) {
    forall a <- used, b <- used :: Fillable(Entry(a)) && Entry(a) == Entry(b) ==> a == b
  }

  lemma CollisionServesTheOther(used: iset<Key>, a: Key, b: Key)
    requires a in used && Fillable(Entry(a)) && Entry(a) == Entry(b) && a != b
    ensures exists run :: LegalRun(used, EMPTY, run) && !ServesItsOwn(After(EMPTY, run), b)
  {
    var files := SomeFiles();
    PlacedServesTheOther(a, b, files);
    OneStep(used, Place(a, files, 0));
  }

  lemma SomeFiles() returns (files: Files)
    ensures Hashed(files) != map[]
  {
    files := map[["model.pkl"] := "weights"];
    assert ["model.pkl"] in Hashed(files);
  }

  lemma PlacedServesTheOther(a: Key, b: Key, files: Files)
    requires Fillable(Entry(a)) && Entry(a) == Entry(b) && a != b && Hashed(files) != map[]
    ensures !ServesItsOwn(Next(EMPTY, Place(a, files, 0)), b)
  {
    PlacedBelow(EMPTY.disk, a, files, 0);
  }

  lemma OneStep(used: iset<Key>, step: Step)
    requires Legal(used, EMPTY, step)
    ensures LegalRun(used, EMPTY, [step]) && After(EMPTY, [step]) == Next(EMPTY, step)
  {
    assert [step][1..] == [];
  }

  /** With crashes at any step and any decay of the files, every hit serves bytes downloaded for exactly the
      name and version asked for - precisely when no two names in use share a directory that can be filled. */
  lemma HitsAreGenuineIff(used: iset<Key>)
    ensures (forall run, key | LegalRun(used, EMPTY, run) && key in used :: ServesItsOwn(After(EMPTY, run), key))
       <==> NoneCollide(used)
  {
    if NoneCollide(used) {
      forall run, key | LegalRun(used, EMPTY, run) && key in used
        ensures ServesItsOwn(After(EMPTY, run), key)
      {
        RunKeepsManifestsTrue(used, EMPTY, run);
        OwnBytes(used, After(EMPTY, run), key);
      }
    } else {
      var a, b :| a in used && b in used && Fillable(Entry(a)) && Entry(a) == Entry(b) && a != b;
      CollisionServesTheOther(used, a, b);
    }
  }

  lemma OwnBytes(used: iset<Key>, s: State, key: Key)
    requires NoneCollide(used) && key in used && ManifestsAreTrue(used, s)
    ensures ServesItsOwn(s, key)
  {
    if Hits(s.disk, key) {
      var f := Entry(key) + [MANIFEST];
      var m := s.disk[f].manifest;
      assert TrueRecord(used, s, f, m);
      assert Entry(m.key) == f[..|f| - 1] == Entry(key);
    }
  }

  /** A name that is one path component as it stands. */
  predicate Proper(s: string) { s !in {"", ".", ".."} && forall c <- s :: SafeChar(c) == c }

  lemma SanitisedIsProper(s: string)
    requires Proper(s)
    ensures Sanitised(s) == s
  {
    assert forall i | 0 <= i < |s| :: s[i] in s;
  }

  /** Names and versions that are proper components never share a directory. */
  lemma ProperNamesDoNotCollide(used: iset<Key>)
    requires forall k <- used :: Proper(k.name) && Proper(k.version)
    ensures NoneCollide(used)
  {
    forall a, b | a in used && b in used && Entry(a) == Entry(b)
      ensures a == b
    {
      SanitisedIsProper(a.name);
      SanitisedIsProper(a.version);
      SanitisedIsProper(b.name);
      SanitisedIsProper(b.version);
      assert Entry(a) == [a.name, a.version] && Entry(b) == [b.name, b.version];
      assert Entry(a)[0] == Entry(b)[0] && Entry(a)[1] == Entry(b)[1];
    }
  }

  lemma JoinedCanBeFilled(n: string, v: string)
    ensures Fillable(Joined(Joined([], n), v)) <==> v != ".." && (v in {"", "."} ==> n !in {"", ".", ".."})
  {
    var p := Joined([], n);
    assert p == if n == "" || n == "." then [] else [n];
  }

  /** Which names lead to a directory that can be filled: any version that is a component of its own, and one that
      is empty or `.` if the name is one. */
  lemma FillableIff(key: Key)
    ensures Fillable(Entry(key)) <==>
            key.version != ".." && (key.version in {"", "."} ==> key.name !in {"", ".", ".."})
  {
    DotsStay();
    if key.name !in {"", ".", ".."} {
      StaysAName(key.name);
    }
    if key.version !in {"", ".", ".."} {
      StaysAName(key.version);
    }
    JoinedCanBeFilled(Sanitised(key.name), Sanitised(key.version));
  }

  lemma StaysAName(s: string)
    requires s !in {"", ".", ".."}
    ensures Sanitised(s) !in {"", ".", ".."}
  {
    assert forall i | 0 <= i < |s| :: Sanitised(s)[i] == '.' ==> s[i] == '.';
    assert |s| == 1 ==> s == [s[0]];
    assert |s| == 2 ==> s == [s[0], s[1]];
  }

  /** Each way of not being one does cost something: a character that is replaced and a component that stays
      where it is share a directory, and one that goes up leads where no download can be put. */
  lemma ImproperNamesCollide(a: string, b: string, version: string)
    requires Proper(a) && Proper(b)
    ensures Entry(Key(a + "/" + b, version)) == Entry(Key(a + ":" + b, version)) == Entry(Key(a + "\\" + b, version))
    ensures Entry(Key(a, ".")) == Entry(Key(".", a)) == Entry(Key("", a)) == Entry(Key(a, "")) == [a]
    ensures Entry(Key(a, "..")) == Entry(Key(b, "..")) == [] && !Fillable([])
  {
    SlashesAreOne(a, b);
    DotsCollide(a);
    DotsCollide(b);
  }

  lemma SlashesAreOne(a: string, b: string)
    ensures Sanitised(a + "/" + b) == Sanitised(a + ":" + b) == Sanitised(a + "\\" + b)
  {
    OneSlash(a, b, '/');
    OneSlash(a, b, ':');
    OneSlash(a, b, '\\');
  }

  lemma OneSlash(a: string, b: string, c: char)
    requires SafeChar(c) == '_'
    ensures Sanitised(a + [c] + b) == Sanitised(a) + "_" + Sanitised(b)
  {
  }

  lemma DotsCollide(a: string)
    requires Proper(a)
    ensures Entry(Key(a, ".")) == Entry(Key(".", a)) == Entry(Key("", a)) == Entry(Key(a, "")) == [a]
    ensures Entry(Key(a, "..")) == []
  {
    SanitisedIsProper(a);
    DotsStay();
    JoinedOnto(a);
  }

  lemma DotsStay()
    ensures Sanitised("") == "" && Sanitised(".") == "." && Sanitised("..") == ".."
  {
  }

  lemma JoinedOnto(a: string)
    requires Proper(a)
    ensures Joined([], a) == [a] && Joined([a], ".") == [a] && Joined([a], "") == [a] && Joined([a], "..") == []
    ensures Joined([], ".") == [] && Joined([], "") == []
  {
  }
}
