/**
 The row loop of the training-side feature gate, `feature_view_gate`: rows of every pinned table are
 checked against the view, and those with an entity and an event time are collected for the offline
 store - unless one entity has two different values at one event time.
 */
module FeatureGate {
  import opened Wrappers

  /** What the view says of one row: its feature values unless it violates the view, its entity and its event
      time unless it carries none. */
  datatype Record = Record(values: Option<string>, entity: Option<string>, time: Option<string>)

  datatype Table = Table(columns: set<string>, rows: seq<Record>)

  datatype View = View(required: set<string>, entityColumn: Option<string>, timeColumn: Option<string>)

  type RowKey = (string, string)

  datatype Tally = Tally(checked: nat, failures: nat, unkeyed: nat, kept: map<RowKey, string>, ambiguous: set<RowKey>)

  datatype Outcome = LacksColumns | RowFailures(tally: Tally) | Collected(tally: Tally)

  predicate Keyed(view: View, table: Table) {
    && view.entityColumn.Some? && view.timeColumn.Some?
    && view.entityColumn.value in table.columns && view.timeColumn.value in table.columns
  }

  /** A row the gate looks at, and whether its table carries the key columns. */
  datatype Seen = Seen(keyed: bool, row: Record)

  const NOTHING := Tally(0, 0, 0, map[], {})

  /** One turn of the row loop. */
  function Step(t: Tally, s: Seen): Tally {
    var c := t.(checked := t.checked + 1);
    if s.row.values == None then c.(failures := t.failures + 1)
    else if !s.keyed then c
    else if s.row.time == None || s.row.entity == None then c.(unkeyed := t.unkeyed + 1)
    else
      var key, values := (s.row.entity.value, s.row.time.value), s.row.values.value;
      if key in t.ambiguous then c
      else if key !in t.kept then c.(kept := t.kept[key := values])
      else if t.kept[key] != values then c.(kept := t.kept - {key}, ambiguous := t.ambiguous + {key})
      else c
  }

  function Tallied(rows: seq<Seen>): Tally {
    if rows == [] then NOTHING else Step(Tallied(rows[..|rows| - 1]), rows[|rows| - 1])
  }

  function Head(rows: seq<Record>, cap: nat): seq<Record> { if |rows| <= cap then rows else rows[..cap] }

  function Marked(keyed: bool, rows: seq<Record>): (r: seq<Seen>)
    ensures |r| == |rows| && forall i | 0 <= i < |r| :: r[i] == Seen(keyed, rows[i])
  {
    seq(|rows|, i requires 0 <= i < |rows| => Seen(keyed, rows[i]))
  }

  function SeenOf(view: View, table: Table, cap: nat): seq<Seen> {
    Marked(Keyed(view, table), Head(table.rows, cap))
  }

  function SeenIn(view: View, tables: seq<Table>, cap: nat): seq<Seen> {
    if tables == [] then [] else SeenIn(view, tables[..|tables| - 1], cap) + SeenOf(view, tables[|tables| - 1], cap)
  }

  predicate Complete(view: View, tables: seq<Table>) {
    forall t <- tables :: view.required <= t.columns
  }

  function Gate(view: View, tables: seq<Table>, cap: nat): Outcome {
    if !Complete(view, tables) then LacksColumns
    else
      var tally := Tallied(SeenIn(view, tables, cap));
      if tally.failures > 0 then RowFailures(tally) else Collected(tally)
  }

  /** The nested loop of `feature_view_gate`. */
  method CheckRows(view: View, tables: seq<Table>, cap: nat) returns (r: Outcome)
    ensures r == Gate(view, tables, cap)
  {
    var checked, failures, unkeyed := 0, 0, 0;
    var kept: map<RowKey, string>, ambiguous: set<RowKey> := map[], {};
    for i := 0 to |tables|
      invariant Complete(view, tables[..i])
      invariant Tallied(SeenIn(view, tables[..i], cap)) == Tally(checked, failures, unkeyed, kept, ambiguous)
    {
      var table := tables[i];
      if !(view.required <= table.columns) {
        return LacksColumns;
      }
      var keyed := Keyed(view, table);
      var head := Head(table.rows, cap);
      ghost var before, now := SeenIn(view, tables[..i], cap), SeenOf(view, table, cap);
      ghost var t := Tallied(before);
      assert before + now[..0] == before;
      for j := 0 to |head|
        invariant t == Tallied(before + now[..j])
        invariant t == Tally(checked, failures, unkeyed, kept, ambiguous)
      {
        var row := head[j];
        OneMoreSeen(before, now, j);
        t := Step(t, Seen(keyed, row));
        checked := checked + 1;
        if row.values == None {
          failures := failures + 1;
          continue;
        }
        if !keyed {
          continue;
        }
        if row.time == None || row.entity == None {
          unkeyed := unkeyed + 1;
          continue;
        }
        var key := (row.entity.value, row.time.value);
        if key in ambiguous {
          continue;
        }
        if key !in kept {
          kept := kept[key := row.values.value];
        } else if kept[key] != row.values.value {
          kept := kept - {key};
          ambiguous := ambiguous + {key};
        }
      }
      OneMoreTable(view, tables, i, cap);
      assert now[..|head|] == now;
    }
    assert tables[..|tables|] == tables;
    r := if failures > 0 then RowFailures(Tally(checked, failures, unkeyed, kept, ambiguous))
    else Collected(Tally(checked, failures, unkeyed, kept, ambiguous));
  }

  lemma OneMoreTable(view: View, tables: seq<Table>, i: nat, cap: nat)
    requires i < |tables|
    ensures SeenIn(view, tables[..i + 1], cap) == SeenIn(view, tables[..i], cap) + SeenOf(view, tables[i], cap)
  {
    assert tables[..i + 1][..i] == tables[..i];
  }

  lemma OneMoreSeen(before: seq<Seen>, now: seq<Seen>, j: nat)
    requires j < |now|
    ensures Tallied(before + now[..j + 1]) == Step(Tallied(before + now[..j]), now[j])
  {
    var more := before + now[..j + 1];
    assert more[..|more| - 1] == before + now[..j];
  }

  // ---- which rows are looked at --------------------------------------------

  /** Row `j` of table `i` is among the first of its table, and its table has an entity column and a time column
      that the view names or the mark says that it has not. */
  predicate LookedAt(view: View, tables: seq<Table>, cap: nat, s: Seen, i: nat, j: nat) {
    && i < |tables| && j < |tables[i].rows| && j < cap && s.row == tables[i].rows[j]
    && (s.keyed <==>
          match (view.entityColumn, view.timeColumn)
          case (Some(e), Some(t)) => e in tables[i].columns && t in tables[i].columns
          case _ => false)
  }

  lemma {:induction false} SeenIff(view: View, tables: seq<Table>, cap: nat, s: Seen)
    ensures s in SeenIn(view, tables, cap) <==> exists i: nat, j: nat :: LookedAt(view, tables, cap, s, i, j)
  {
    if tables != [] {
      var n := |tables| - 1;
      SeenIff(view, tables[..n], cap, s);
      if s in SeenIn(view, tables[..n], cap) {
        var i: nat, j: nat :| LookedAt(view, tables[..n], cap, s, i, j);
        assert LookedAt(view, tables, cap, s, i, j);
      } else if s in SeenOf(view, tables[n], cap) {
        var j :| 0 <= j < |SeenOf(view, tables[n], cap)| && SeenOf(view, tables[n], cap)[j] == s;
        assert LookedAt(view, tables, cap, s, n, j);
      }
      forall i: nat, j: nat | LookedAt(view, tables, cap, s, i, j)
        ensures s in SeenIn(view, tables, cap)
      {
        if i < n {
          assert LookedAt(view, tables[..n], cap, s, i, j);
        } else {
          assert SeenOf(view, tables[n], cap)[j] == s;
        }
      }
    }
  }

  // ---- what is kept --------------------------------------------------------

  /** The row gives values for the entity and event time of the key. */
  predicate Speaks(s: Seen, key: RowKey) {
    s.keyed && s.row.values.Some? && s.row.entity == Some(key.0) && s.row.time == Some(key.1)
  }

  /** All the values the rows give for the key. */
  function Claims(rows: seq<Seen>, key: RowKey): set<string> {
    set s <- rows | Speaks(s, key) :: s.row.values.value
  }

  predicate Differ(values: set<string>) {
    exists v <- values, w <- values :: v != w
  }

  predicate Right(t: Tally, key: RowKey, claims: set<string>) {
    if key in t.kept then key !in t.ambiguous && claims == {t.kept[key]}
    else if key in t.ambiguous then Differ(claims)
    else claims == {}
  }

  lemma ClaimsWithOneMore(before: seq<Seen>, s: Seen, key: RowKey)
    ensures Claims(before + [s], key) == Claims(before, key) + if Speaks(s, key) then {s.row.values.value} else {}
  {
    var rows := before + [s];
    assert forall x :: x in rows <==> x in before || x == s;
  }

  lemma StepStaysRight(t: Tally, s: Seen, key: RowKey, claims: set<string>)
    requires Right(t, key, claims)
    ensures Right(Step(t, s), key, claims + if Speaks(s, key) then {s.row.values.value} else {})
  {
    if Speaks(s, key) {
      var v := s.row.values.value;
      assert v in claims + {v};
      if key in t.kept {
        assert t.kept[key] in claims + {v};
      } else if key in t.ambiguous {
        var a, b :| a in claims && b in claims && a != b;
        assert a in claims + {v} && b in claims + {v};
      }
    } else {
      assert claims + {} == claims;
    }
  }

  lemma {:induction false} TallyIsRight(rows: seq<Seen>, key: RowKey)
    ensures Right(Tallied(rows), key, Claims(rows, key))
  {
    if rows != [] {
      var before, s := rows[..|rows| - 1], rows[|rows| - 1];
      TallyIsRight(before, key);
      assert rows == before + [s];
      ClaimsWithOneMore(before, s, key);
      StepStaysRight(Tallied(before), s, key, Claims(before, key));
    }
  }

  /** A key is kept exactly when its rows agree on one value, and then with that value; it is ambiguous
      exactly when two of its rows differ; and nothing is both. */
  lemma KeptIffAgreed(rows: seq<Seen>, key: RowKey)
    ensures key in Tallied(rows).kept <==> exists v :: Claims(rows, key) == {v}
    ensures key in Tallied(rows).kept ==> Claims(rows, key) == {Tallied(rows).kept[key]}
    ensures key in Tallied(rows).ambiguous <==> Differ(Claims(rows, key))
    ensures Tallied(rows).kept.Keys !! Tallied(rows).ambiguous
  {
    TallyIsRight(rows, key);
    forall k | k in Tallied(rows).kept
      ensures k !in Tallied(rows).ambiguous
    {
      TallyIsRight(rows, k);
    }
  }

  // ---- counts --------------------------------------------------------------

  datatype Kind = Violating | Keyless | Collecting | Plain

  function KindOf(s: Seen): Kind {
    if s.row.values == None then Violating
    else if !s.keyed then Plain
    else if s.row.time == None || s.row.entity == None then Keyless
    else Collecting
  }

  function Count(rows: seq<Seen>, kind: Kind): nat {
    if rows == [] then 0 else Count(rows[..|rows| - 1], kind) + if KindOf(rows[|rows| - 1]) == kind then 1 else 0
  }

  /** Each row looked at is a failure, has no key, was collected, or is from a table without key columns. */
  lemma {:induction false} CountsAreConserved(rows: seq<Seen>)
    ensures var t := Tallied(rows);
            && t.checked == |rows| && t.failures == Count(rows, Violating) && t.unkeyed == Count(rows, Keyless)
            && t.checked == t.failures + t.unkeyed + Count(rows, Collecting) + Count(rows, Plain)
  {
    if rows != [] {
      CountsAreConserved(rows[..|rows| - 1]);
    }
  }

  lemma {:induction false} CountOfBoth(a: seq<Seen>, b: seq<Seen>, kind: Kind)
    ensures Count(a + b, kind) == Count(a, kind) + Count(b, kind)
  {
    if b == [] {
      assert a + b == a;
    } else {
      assert (a + b)[..|a + b| - 1] == a + b[..|b| - 1];
      CountOfBoth(a, b[..|b| - 1], kind);
    }
  }

  lemma IndexIn<T>(x: T, s: seq<T>) returns (i: nat)
    requires x in multiset(s)
    ensures i < |s| && s[i] == x && s == s[..i] + [s[i]] + s[i + 1..]
  {
    i :| 0 <= i < |s| && s[i] == x;
  }

  lemma WithoutOne<T>(s: seq<T>, i: nat)
    requires i < |s|
    ensures multiset(s[..i] + s[i + 1..]) == multiset(s) - multiset{s[i]}
  {
    var rest := s[..i] + s[i + 1..];
    assert s == s[..i] + ([s[i]] + s[i + 1..]);
    assert multiset(s) == multiset(s[..i]) + (multiset{s[i]} + multiset(s[i + 1..]));
    assert multiset(rest) == multiset(s[..i]) + multiset(s[i + 1..]);
  }

  /** Two sequences with the same elements still have them without the last one of the first. */
  lemma Unpicked<T>(a: seq<T>, b: seq<T>) returns (i: nat)
    requires multiset(a) == multiset(b) && a != []
    ensures i < |b| && b[i] == a[|a| - 1] && b == b[..i] + [b[i]] + b[i + 1..]
    ensures multiset(a[..|a| - 1]) == multiset(b[..i] + b[i + 1..])
  {
    var last := a[|a| - 1];
    i := IndexIn(last, b);
    WithoutOne(b, i);
    WithoutLast(a);
  }

  lemma WithoutLast<T>(a: seq<T>)
    requires a != []
    ensures multiset(a[..|a| - 1]) == multiset(a) - multiset{a[|a| - 1]}
  {
    var n := |a| - 1;
    assert a == a[..n] + [a[n]];
    assert multiset(a) == multiset(a[..n]) + multiset{a[n]};
  }

  lemma NothingLeft<T>(b: seq<T>)
    requires multiset(b) == multiset{}
    ensures b == []
  {
    assert |b| == |multiset(b)|;
  }

  lemma {:induction false} CountIsOrderless(a: seq<Seen>, b: seq<Seen>, kind: Kind)
    requires multiset(a) == multiset(b)
    ensures Count(a, kind) == Count(b, kind)
    decreases |a|
  {
    if a == [] {
      NothingLeft(b);
    } else {
      var i := Unpicked(a, b);
      CountIsOrderless(a[..|a| - 1], b[..i] + b[i + 1..], kind);
      CountOfBoth(b[..i] + [b[i]], b[i + 1..], kind);
      CountOfBoth(b[..i], b[i + 1..], kind);
      assert (b[..i] + [b[i]])[..i] == b[..i];
    }
  }

  // ---- order ---------------------------------------------------------------

  /** The tally depends on which rows are looked at, not on their order. */
  lemma TallyIsOrderless(a: seq<Seen>, b: seq<Seen>)
    requires multiset(a) == multiset(b)
    ensures Tallied(a) == Tallied(b)
  {
    forall key
      ensures key in Tallied(a).kept <==> key in Tallied(b).kept
      ensures key in Tallied(a).kept ==> Tallied(a).kept[key] == Tallied(b).kept[key]
      ensures key in Tallied(a).ambiguous <==> key in Tallied(b).ambiguous
    {
      KeptAlike(a, b, key);
    }
    assert Tallied(a).kept == Tallied(b).kept;
    assert Tallied(a).ambiguous == Tallied(b).ambiguous;
    CountsAreConserved(a);
    CountsAreConserved(b);
    CountIsOrderless(a, b, Violating);
    CountIsOrderless(a, b, Keyless);
    assert |multiset(a)| == |a| && |multiset(b)| == |b|;
  }

  lemma KeptAlike(a: seq<Seen>, b: seq<Seen>, key: RowKey)
    requires multiset(a) == multiset(b)
    ensures key in Tallied(a).kept <==> key in Tallied(b).kept
    ensures key in Tallied(a).kept ==> Tallied(a).kept[key] == Tallied(b).kept[key]
    ensures key in Tallied(a).ambiguous <==> key in Tallied(b).ambiguous
  {
    assert forall s :: (s in a <==> s in multiset(a)) && (s in b <==> s in multiset(b));
    assert Claims(a, key) == Claims(b, key);
    TallyIsRight(a, key);
    TallyIsRight(b, key);
    if key in Tallied(a).kept && key in Tallied(b).kept {
      assert Tallied(a).kept[key] in Claims(b, key);
    }
  }

  /** The same rows within the cap, whatever their order. */
  predicate SameRows(a: Table, b: Table, cap: nat) {
    a.columns == b.columns && multiset(Head(a.rows, cap)) == multiset(Head(b.rows, cap))
  }

  lemma MarkedBoth(keyed: bool, a: seq<Record>, b: seq<Record>)
    ensures Marked(keyed, a + b) == Marked(keyed, a) + Marked(keyed, b)
  {
  }

  lemma {:induction false} MarkedIsOrderless(keyed: bool, a: seq<Record>, b: seq<Record>)
    requires multiset(a) == multiset(b)
    ensures multiset(Marked(keyed, a)) == multiset(Marked(keyed, b))
    decreases |a|
  {
    if a == [] {
      NothingLeft(b);
    } else {
      var i := Unpicked(a, b);
      var n, left, right := |a| - 1, b[..i], b[i + 1..];
      MarkedIsOrderless(keyed, a[..n], left + right);
      assert a == a[..n] + [a[n]];
      MarkedBoth(keyed, a[..n], [a[n]]);
      MarkedBoth(keyed, left, right);
      MarkedBoth(keyed, left, [b[i]]);
      MarkedBoth(keyed, left + [b[i]], right);
    }
  }

  lemma {:induction false} SeenInSameTables(view: View, a: seq<Table>, b: seq<Table>, cap: nat)
    requires |a| == |b| && forall i | 0 <= i < |a| :: SameRows(a[i], b[i], cap)
    ensures multiset(SeenIn(view, a, cap)) == multiset(SeenIn(view, b, cap))
  {
    if a != [] {
      var n := |a| - 1;
      SeenInSameTables(view, a[..n], b[..n], cap);
      assert SameRows(a[n], b[n], cap);
      MarkedIsOrderless(Keyed(view, a[n]), Head(a[n].rows, cap), Head(b[n].rows, cap));
    }
  }

  /** The order of the rows of a table is irrelevant as long as the cap takes the same ones. */
  lemma RowOrderIsIrrelevant(view: View, a: seq<Table>, b: seq<Table>, cap: nat)
    requires |a| == |b| && forall i | 0 <= i < |a| :: SameRows(a[i], b[i], cap)
    ensures Gate(view, a, cap) == Gate(view, b, cap)
  {
    SeenInSameTables(view, a, b, cap);
    TallyIsOrderless(SeenIn(view, a, cap), SeenIn(view, b, cap));
    forall i | 0 <= i < |a|
      ensures a[i].columns == b[i].columns
    {
      assert SameRows(a[i], b[i], cap);
    }
    assert Complete(view, a) <==> forall i | 0 <= i < |a| :: view.required <= a[i].columns;
    assert Complete(view, b) <==> forall i | 0 <= i < |b| :: view.required <= b[i].columns;
  }

  lemma {:induction false} NoneCounted(rows: seq<Seen>, kind: Kind)
    ensures Count(rows, kind) == 0 <==> forall s <- rows :: KindOf(s) != kind
  {
    if rows != [] {
      NoneCounted(rows[..|rows| - 1], kind);
      assert rows == rows[..|rows| - 1] + [rows[|rows| - 1]];
    }
  }

  predicate SameTable(a: Table, b: Table) {
    a.columns == b.columns && multiset(a.rows) == multiset(b.rows)
  }

  lemma SeenInOne(view: View, table: Table, cap: nat)
    ensures SeenIn(view, [table], cap) == SeenOf(view, table, cap)
  {
    assert [table][..0] == [] && SeenIn(view, [], cap) == [];
    assert SeenIn(view, [table], cap) == [] + SeenOf(view, table, cap);
  }

  lemma FailsIff(rows: seq<Seen>)
    ensures Tallied(rows).failures > 0 <==> exists s <- rows :: s.row.values == None
  {
    NoneCounted(rows, Violating);
    CountsAreConserved(rows);
    assert forall s <- rows :: KindOf(s) == Violating <==> s.row.values == None;
  }

  lemma MarkedFails(keyed: bool, rows: seq<Record>)
    ensures Tallied(Marked(keyed, rows)).failures > 0 <==> exists r <- rows :: r.values == None
  {
    var seen := Marked(keyed, rows);
    FailsIff(seen);
    if r :| r in rows && r.values == None {
      var i :| 0 <= i < |rows| && rows[i] == r;
      assert seen[i] in seen && seen[i].row.values == None;
    }
  }

  lemma GateOfOneTable(view: View, tables: seq<Table>, cap: nat)
    requires |tables| == 1 && Complete(view, tables)
    ensures Gate(view, tables, cap).RowFailures? <==> exists r <- Head(tables[0].rows, cap) :: r.values == None
  {
    var seen, rows := SeenIn(view, tables, cap), Head(tables[0].rows, cap);
    assert seen == Marked(Keyed(view, tables[0]), rows) by {
      assert tables == [tables[0]];
      SeenInOne(view, tables[0], cap);
    }
    assert Tallied(seen).failures > 0 <==> exists r <- rows :: r.values == None by {
      MarkedFails(Keyed(view, tables[0]), rows);
    }
  }

  lemma OrderMattersBeyondTheCap(view: View, n: nat, cap: nat) returns (a: Table, b: Table)
    requires 1 <= cap < n
    ensures |a.rows| == n && SameTable(a, b) && Gate(view, [a], cap) != Gate(view, [b], cap)
  {
    var good, bad := Record(Some("x"), None, None), Record(None, None, None);
    var most := seq(n - 1, _ => good);
    a, b := Table(view.required, most + [bad]), Table(view.required, [bad] + most);
    GateOfOneTable(view, [a], cap);
    GateOfOneTable(view, [b], cap);
    assert Head(a.rows, cap) == most[..cap];
    assert Head(b.rows, cap)[0] == bad;
  }

  /** Reordering the rows of a table of `n` rows never changes the outcome exactly when the cap takes all of
      them: beyond it, a row that violates the view is seen or missed depending on where it stands. */
  lemma OrderIsIrrelevantIffWithinTheCap(view: View, n: nat, cap: nat)
    requires cap >= 1
    ensures (forall a: Table, b: Table | |a.rows| == n && SameTable(a, b) ::
               Gate(view, [a], cap) == Gate(view, [b], cap))
       <==> n <= cap
  {
    if n <= cap {
      forall a: Table, b: Table | |a.rows| == n && SameTable(a, b)
        ensures Gate(view, [a], cap) == Gate(view, [b], cap)
      {
        assert |b.rows| == |multiset(b.rows)| == |multiset(a.rows)| == |a.rows|;
        RowOrderIsIrrelevant(view, [a], [b], cap);
      }
    } else {
      var a, b := OrderMattersBeyondTheCap(view, n, cap);
    }
  }

  lemma {:induction false} SeenInBoth(view: View, a: seq<Table>, b: seq<Table>, cap: nat)
    ensures SeenIn(view, a + b, cap) == SeenIn(view, a, cap) + SeenIn(view, b, cap)
  {
    if b == [] {
      assert a + b == a;
    } else {
      var c, n := a + b, |b| - 1;
      assert c[..|c| - 1] == a + b[..n] && c[|c| - 1] == b[n];
      SeenInBoth(view, a, b[..n], cap);
      Associates(SeenIn(view, a, cap), SeenIn(view, b[..n], cap), SeenOf(view, b[n], cap));
    }
  }

  lemma Associates<T>(x: seq<T>, y: seq<T>, z: seq<T>)
    ensures (x + y) + z == x + (y + z)
  {
  }

  lemma {:induction false} SeenInPermuted(view: View, a: seq<Table>, b: seq<Table>, cap: nat)
    requires multiset(a) == multiset(b)
    ensures multiset(SeenIn(view, a, cap)) == multiset(SeenIn(view, b, cap))
    decreases |a|
  {
    if a == [] {
      NothingLeft(b);
    } else {
      var i := Unpicked(a, b);
      SeenInPermuted(view, a[..|a| - 1], b[..i] + b[i + 1..], cap);
      SeenInBoth(view, b[..i], b[i + 1..], cap);
      SeenInBoth(view, b[..i] + [b[i]], b[i + 1..], cap);
      assert (b[..i] + [b[i]])[..i] == b[..i];
    }
  }

  /** The order of the tables is irrelevant. */
  lemma TableOrderIsIrrelevant(view: View, a: seq<Table>, b: seq<Table>, cap: nat)
    requires multiset(a) == multiset(b)
    ensures Gate(view, a, cap) == Gate(view, b, cap)
  {
    SeenInPermuted(view, a, b, cap);
    TallyIsOrderless(SeenIn(view, a, cap), SeenIn(view, b, cap));
    assert forall t :: t in a <==> t in multiset(a);
    assert forall t :: t in b <==> t in multiset(b);
  }
}
