/**
 Where a replica gets the serving snapshot, `SnapshotReader`: the key-value mirror and the database,
 the highest verified generation winning, and a last-known-good file behind them.
 */
module SnapshotReader {
  import opened Wrappers

  /** A snapshot whose digest matches its content. */
  datatype Snapshot = Snapshot(generation: int, body: string)

  /** What a source hands over: a well-formed snapshot with a matching digest, or anything else. */
  datatype Raw = Signed(snapshot: Snapshot) | Refused

  function Verified(raw: Option<Raw>): Option<Snapshot> {
    if raw.Some? && raw.value.Signed? then Some(raw.value.snapshot) else None
  }

  /** The mirror: unreachable, or its answer. */
  datatype Mirror = MirrorDown | MirrorSays(raw: Option<Raw>)

  /** The database: unreachable, no snapshot published, or its newest generation - whose row may fail to
      be read. */
  datatype Database = DatabaseDown | NonePublished | Newest(generation: int, row: Option<Raw>)

  datatype Origin = FromMirror | FromDatabase | FromFile

  /** One call of `newest`: what the sources say, and whether the file can be written. */
  datatype Poll = Poll(mirror: Mirror, database: Database, writable: bool)

  /** The reader's fields and the file it keeps; the file outlives the process. */
  datatype State = State(source: Option<Origin>, last: Option<Snapshot>, persisted: Option<int>,
                         file: Option<Raw>)

  /** `_from_db`: `None` when it raises. The body is not read again for the generation seen last. */
  function Read(last: Option<Snapshot>, database: Database): Option<Option<Raw>> {
    match database
    case DatabaseDown => None
    case NonePublished => Some(None)
    case Newest(generation, row) =>
      if last.Some? && last.value.generation == generation then Some(Some(Signed(last.value)))
      else if row.None? then None
      else Some(row)
  }

  /** The same without the short-cut. */
  function FullRead(database: Database): Option<Option<Raw>> { Read(None, database) }

  function Candidate(answer: Option<Option<Raw>>): Option<Snapshot> {
    if answer.None? then None else Verified(answer.value)
  }

  function MirrorAnswer(mirror: Mirror): Option<Option<Raw>> {
    if mirror.MirrorDown? then None else Some(mirror.raw)
  }

  /** The best of the reachable sources; the mirror is asked first, so it keeps a tie. */
  function Best(mirror: Option<Snapshot>, database: Option<Snapshot>): Option<(Snapshot, Origin)> {
    if mirror.Some? && (database.None? || database.value.generation <= mirror.value.generation) then
      Some((mirror.value, FromMirror))
    else if database.Some? then Some((database.value, FromDatabase))
    else None
  }

  function LiveAnswer(last: Option<Snapshot>, p: Poll): Option<(Snapshot, Origin)> {
    Best(Candidate(MirrorAnswer(p.mirror)), Candidate(Read(last, p.database)))
  }

  /** `_persist`: skipped for the generation written last; a failed write leaves the old file whole. */
  function Persist(s: State, snapshot: Snapshot, writable: bool): State {
    if s.persisted == Some(snapshot.generation) || !writable then s
    else s.(persisted := Some(snapshot.generation), file := Some(Signed(snapshot)))
  }

  /** `newest`. */
  function Answer(s: State, p: Poll): Option<Snapshot> {
    var live := LiveAnswer(s.last, p);
    if live.Some? then Some(live.value.0)
    else if Read(s.last, p.database).Some? then None
    else Verified(s.file)
  }

  function After(s: State, p: Poll): State {
    var live := LiveAnswer(s.last, p);
    if live.Some? then
      Persist(s.(source := Some(live.value.1), last := Some(live.value.0)), live.value.0, p.writable)
    else if Read(s.last, p.database).Some? then s.(source := None)
    else if Verified(s.file).Some? then s.(source := Some(FromFile))
    else s
  }

  class Reader {
    var source: Option<Origin>
    var last: Option<Snapshot>
    var persisted: Option<int>
    var file: Option<Raw>

    function Now(): State
      reads this
    {
      State(source, last, persisted, file)
    }

    /** A process starting over whatever file an earlier one left. */
    constructor (file: Option<Raw>)
      ensures Now() == State(None, None, None, file)
    {
      source, last, persisted, this.file := None, None, None, file;
    }

    method Newest(p: Poll) returns (answer: Option<Snapshot>)
      modifies this
      ensures answer == Answer(old(Now()), p) && Now() == After(old(Now()), p)
    {
      var best: Option<Snapshot> := None;
      var bestSource: Option<Origin> := None;
      var answered := false;
      var order := [FromMirror, FromDatabase];
      for i := 0 to 2
        invariant Now() == old(Now())
        invariant i == 0 ==> best == None && bestSource == None && !answered
        invariant i == 1 ==> best == Candidate(MirrorAnswer(p.mirror)) && !answered &&
                             bestSource == if best.Some? then Some(FromMirror) else None
        invariant i == 2 ==> answered == Read(last, p.database).Some?
        invariant i == 2 ==>
          (LiveAnswer(last, p) ==
           if best.Some? && bestSource.Some? then Some((best.value, bestSource.value)) else None)
        invariant best.Some? <==> bestSource.Some?
      {
        var raw := if order[i].FromMirror? then MirrorAnswer(p.mirror) else Read(last, p.database);
        if raw.Some? {
          answered := answered || order[i].FromDatabase?;
          var candidate := Verified(raw.value);
          if candidate.Some? && (best.None? || candidate.value.generation > best.value.generation) {
            best, bestSource := candidate, Some(order[i]);
          }
        }
      }
      if best.None? {
        if answered {
          source := None;
          return None;
        }
        var cached := Verified(file);
        if cached.Some? {
          source := Some(FromFile);
        }
        return cached;
      }
      source, last := bestSource, best;
      if persisted != Some(best.value.generation) && p.writable {
        file, persisted := Some(Signed(best.value)), Some(best.value.generation);
      }
      answer := best;
    }
  }

  // ---- case by case --------------------------------------------------------

  /** The mirror handed over this snapshot, with a digest that matches. */
  predicate Mirrored(m: Mirror, x: Snapshot) { m == MirrorSays(Some(Signed(x))) }

  predicate NothingMirrored(m: Mirror) { m.MirrorDown? || m.raw == None || m.raw == Some(Refused) }

  /** The database announces the generation this process kept, so its row is not read. */
  predicate KeptAlready(last: Option<Snapshot>, d: Database) {
    d.Newest? && last.Some? && last.value.generation == d.generation
  }

  /** The database gives this snapshot: the one kept, of the generation it announces, or the row as it reads. */
  predicate Given(last: Option<Snapshot>, d: Database, x: Snapshot) {
    if KeptAlready(last, d) then last == Some(x) else d.Newest? && d.row == Some(Signed(x))
  }

  predicate NothingGiven(last: Option<Snapshot>, d: Database) {
    !KeptAlready(last, d) && (d.Newest? ==> d.row == None || d.row == Some(Refused))
  }

  /** With nothing from the mirror: a database without a snapshot means "none", whatever is on disk, and so does a
      row that does not verify; one that is down, or whose row cannot be read, leaves the file. */
  lemma WithoutAMirror(s: State, p: Poll)
    requires NothingMirrored(p.mirror)
    ensures p.database.NonePublished? ==> Answer(s, p) == None && After(s, p) == s.(source := None)
    ensures
      p.database.DatabaseDown? || (p.database.Newest? && !KeptAlready(s.last, p.database) && p.database.row == None) ==>
      if s.file.Some? && s.file.value.Signed? then
        Answer(s, p) == Some(s.file.value.snapshot) && After(s, p) == s.(source := Some(FromFile))
      else Answer(s, p) == None && After(s, p) == s
    ensures p.database.Newest? && !KeptAlready(s.last, p.database) && p.database.row == Some(Refused) ==>
              Answer(s, p) == None && After(s, p) == s.(source := None)
  {
  }

  /** What a poll that gets the snapshot `x` from a source leaves behind. */
  predicate Takes(s: State, t: State, x: Snapshot, from: Origin, writable: bool) {
    && t.source == Some(from) && t.last == Some(x)
    && if writable && s.persisted != Some(x.generation)
       then t.file == Some(Signed(x)) && t.persisted == Some(x.generation)
       else t.file == s.file && t.persisted == s.persisted
  }

  /** With a snapshot from the mirror, from the database, or from both: the one of the higher generation, the
      mirror's when they tie. */
  lemma WithASource(s: State, p: Poll, m: Snapshot, d: Snapshot)
    ensures Mirrored(p.mirror, m) && NothingGiven(s.last, p.database) ==>
              Answer(s, p) == Some(m) && Takes(s, After(s, p), m, FromMirror, p.writable)
    ensures NothingMirrored(p.mirror) && Given(s.last, p.database, d) ==>
              Answer(s, p) == Some(d) && Takes(s, After(s, p), d, FromDatabase, p.writable)
    ensures Mirrored(p.mirror, m) && Given(s.last, p.database, d) ==>
              if d.generation > m.generation
              then Answer(s, p) == Some(d) && Takes(s, After(s, p), d, FromDatabase, p.writable)
              else Answer(s, p) == Some(m) && Takes(s, After(s, p), m, FromMirror, p.writable)
  {
  }

  /** There is no other case. */
  lemma EveryCase(s: State, p: Poll)
    ensures NothingMirrored(p.mirror) <==> !exists m :: Mirrored(p.mirror, m)
    ensures NothingGiven(s.last, p.database) <==> !exists d :: Given(s.last, p.database, d)
  {
    if !NothingMirrored(p.mirror) {
      assert Mirrored(p.mirror, p.mirror.raw.value.snapshot);
    }
    if KeptAlready(s.last, p.database) {
      assert Given(s.last, p.database, s.last.value);
    } else if !NothingGiven(s.last, p.database) {
      assert Given(s.last, p.database, p.database.row.value.snapshot);
    }
  }

  // ---- the choice of source ------------------------------------------------

  /** The verified snapshots the reachable sources offer. */
  function Offered(last: Option<Snapshot>, p: Poll): set<Snapshot> {
    var mirror, database := Candidate(MirrorAnswer(p.mirror)), Candidate(Read(last, p.database));
    (if mirror.Some? then {mirror.value} else {}) + (if database.Some? then {database.value} else {})
  }

  /** The answer is one of the verified snapshots on offer, of the highest generation offered; with none
      on offer, a database that answers means "none" and never the file. */
  lemma HighestVerifiedGenerationWins(s: State, p: Poll)
    ensures Offered(s.last, p) != {} ==>
              Answer(s, p).Some? && Answer(s, p).value in Offered(s.last, p) &&
              forall other <- Offered(s.last, p) :: other.generation <= Answer(s, p).value.generation
    ensures Offered(s.last, p) == {} ==>
              Answer(s, p) ==
              if p.database.NonePublished? || (p.database.Newest? && p.database.row == Some(Refused)) then None
              else Verified(s.file)
    ensures Offered(s.last, p) == {} <==> LiveAnswer(s.last, p).None?
  {
    var mirror, database := Candidate(MirrorAnswer(p.mirror)), Candidate(Read(s.last, p.database));
    if mirror.Some? {
      assert mirror.value in Offered(s.last, p);
    }
    if database.Some? {
      assert database.value in Offered(s.last, p);
    }
  }

  /** The verified snapshots the reachable sources hold, read in full. */
  function Held(p: Poll): set<Snapshot> { Offered(None, p) }

  predicate ShortcutTaken(last: Option<Snapshot>, database: Database) {
    database.Newest? && last.Some? && last.value.generation == database.generation
  }

  /** Between the two queries of the database a newer snapshot was published than any source then named. */
  predicate Overtaken(p: Poll) {
    var mirror, row := Candidate(MirrorAnswer(p.mirror)), Candidate(FullRead(p.database));
    && p.database.Newest? && row.Some? && p.database.generation < row.value.generation
    && (mirror.Some? ==> mirror.value.generation < row.value.generation)
  }

  /** Nothing a source holds is of a higher generation than the answer, unless the short-cut was taken while
      a newer snapshot was being published. */
  lemma NothingHeldIsHigherIff(s: State, p: Poll)
    ensures (forall h <- Held(p) :: Answer(s, p).Some? && h.generation <= Answer(s, p).value.generation) <==>
            !(ShortcutTaken(s.last, p.database) && Overtaken(p))
  {
    var mirror, row := Candidate(MirrorAnswer(p.mirror)), Candidate(FullRead(p.database));
    assert mirror.Some? ==> mirror.value in Held(p);
    assert row.Some? ==> row.value in Held(p);
    HighestVerifiedGenerationWins(s, p);
  }

  /** Generation 2 is published after generation 1 was announced: a replica that keeps 1 answers 1, though the
      row it did not read is 2. */
  lemma AnOvertakenShortcutAnswersTheOld(body: string, newer: string, writable: bool)
    ensures
      var p := Poll(MirrorDown, Newest(1, Some(Signed(Snapshot(2, newer)))), writable);
      var s := State(Some(FromDatabase), Some(Snapshot(1, body)), None, None);
      Answer(s, p) == Some(Snapshot(1, body)) && Snapshot(2, newer) in Held(p) && Overtaken(p)
  {
    var p := Poll(MirrorDown, Newest(1, Some(Signed(Snapshot(2, newer)))), writable);
    assert Candidate(MirrorAnswer(p.mirror)) == None;
  }

  /** The short-cut answers like a full read exactly when the row it did not read is the one it kept. */
  lemma ShortcutIsExactIff(last: Option<Snapshot>, database: Database)
    ensures Read(last, database) == FullRead(database) <==>
            (database.Newest? && last.Some? && last.value.generation == database.generation ==>
               database.row == Some(Signed(last.value)))
  {
  }

  // ---- runs ----------------------------------------------------------------

  /** The file may be swept away, or damaged so that it no longer verifies. */
  datatype Op = Ask(poll: Poll) | Restart | Harm(left: Option<Raw>)

  function Step(s: State, op: Op): State {
    match op
    case Ask(p) => After(s, p)
    case Restart => State(None, None, None, s.file)
    case Harm(left) => s.(file := left)
  }

  function Run(s: State, ops: seq<Op>): State
    decreases |ops|
  {
    if ops == [] then s else Run(Step(s, ops[0]), ops[1..])
  }

  /** Published generations are immutable: every verified copy of one has the same body. Rows and mirrored
      copies may still be unreadable or damaged. */
  ghost predicate FromPublished(p: Poll, published: int -> string) {
    && (p.mirror.MirrorSays? && Verified(p.mirror.raw).Some? ==>
          Verified(p.mirror.raw).value.body == published(Verified(p.mirror.raw).value.generation))
    && (p.database.Newest? && Verified(p.database.row).Some? ==>
          Verified(p.database.row).value.body == published(Verified(p.database.row).value.generation))
  }

  ghost predicate WorldOf(ops: seq<Op>, published: int -> string) {
    forall i | 0 <= i < |ops| ::
      && (ops[i].Ask? ==> FromPublished(ops[i].poll, published))
      && (ops[i].Harm? ==> Verified(ops[i].left).None?)
  }

  /** The step writes the file: the snapshot is of another generation than the one this process wrote last. */
  predicate Writes(s: State, op: Op) {
    op.Ask? && op.poll.writable &&
    LiveAnswer(s.last, op.poll).Some? && s.persisted != Some(LiveAnswer(s.last, op.poll).value.0.generation)
  }

  predicate Unharmed(ops: seq<Op>) { forall i | 0 <= i < |ops| :: !ops[i].Harm? }

  /** Nothing has happened to the file since it was last written; `kept` says so of the start. */
  predicate Kept(s: State, ops: seq<Op>, kept: bool)
    decreases |ops|
  {
    if ops == [] then kept
    else Kept(Step(s, ops[0]), ops[1..], Writes(s, ops[0]) || (kept && !ops[0].Harm?))
  }

  /** Step `i` writes the file and no later one harms it. */
  predicate WrittenAt(s: State, ops: seq<Op>, i: nat)
    requires i < |ops|
  {
    Writes(Run(s, ops[..i]), ops[i]) && Unharmed(ops[i + 1..])
  }

  lemma {:induction false} KeptIff(s: State, ops: seq<Op>, kept: bool)
    ensures Kept(s, ops, kept) <==> (kept && Unharmed(ops)) || exists i: nat | i < |ops| :: WrittenAt(s, ops, i)
    decreases |ops|
  {
    if ops != [] {
      var t, rest := Step(s, ops[0]), ops[1..];
      KeptIff(t, rest, Writes(s, ops[0]) || (kept && !ops[0].Harm?));
      assert ops[..0] == [] && (WrittenAt(s, ops, 0) <==> Writes(s, ops[0]) && Unharmed(rest));
      assert Unharmed(ops) <==> !ops[0].Harm? && Unharmed(rest);
      forall i: nat | i < |rest|
        ensures WrittenAt(s, ops, i + 1) <==> WrittenAt(t, rest, i)
      {
        assert ops[..i + 1][1..] == rest[..i] && ops[i + 2..] == rest[i + 1..];
      }
      if i: nat :| i < |ops| && WrittenAt(s, ops, i) && i > 0 {
        assert WrittenAt(t, rest, i - 1);
      }
    }
  }

  /** What is kept is what was published; and so is what this process wrote, unless the file was harmed since. */
  ghost predicate KeepsPublished(s: State, published: int -> string, kept: bool) {
    && (s.last.Some? ==> s.last.value.body == published(s.last.value.generation))
    && (s.persisted.Some? ==>
          if kept then s.file == Some(Signed(Snapshot(s.persisted.value, published(s.persisted.value))))
          else Verified(s.file).None?)
  }

  lemma {:induction false} RunKeepsPublished(s: State, ops: seq<Op>, published: int -> string, kept: bool)
    requires KeepsPublished(s, published, kept) && WorldOf(ops, published)
    ensures KeepsPublished(Run(s, ops), published, Kept(s, ops, kept))
    decreases |ops|
  {
    if ops != [] {
      RunKeepsPublished(Step(s, ops[0]), ops[1..], published, Writes(s, ops[0]) || (kept && !ops[0].Harm?));
    }
  }

  /** A step that writes no file: a restart, harm, a disk that cannot be written, or no snapshot anywhere. */
  predicate Quiet(op: Op) {
    op.Ask? ==> !op.poll.writable || (Candidate(MirrorAnswer(op.poll.mirror)).None? && !op.poll.database.Newest?)
  }

  /** Such steps leave the file as it was, or what harm leaves of it. */
  lemma {:induction false} QuietKeepsTheFile(s: State, ops: seq<Op>, published: int -> string, kept: bool)
    requires WorldOf(ops, published) && forall i | 0 <= i < |ops| :: Quiet(ops[i])
    ensures Kept(s, ops, kept) <==> kept && Unharmed(ops)
    ensures if Unharmed(ops) then Run(s, ops).file == s.file else Verified(Run(s, ops).file).None?
    decreases |ops|
  {
    if ops != [] {
      var rest := ops[1..];
      assert Unharmed(ops) <==> !ops[0].Harm? && Unharmed(rest);
      QuietKeepsTheFile(Step(s, ops[0]), rest, published, kept && !ops[0].Harm?);
    }
  }

  /** Static stability. Whatever happened before, when a poll with a writable disk has answered a live snapshot
      and none is written after it, a poll that finds all sources down answers that snapshot, across restarts,
      if and only if the file has not been harmed since it was last written; otherwise it has no answer. `file`
      is whatever was on disk when the first process started. */
  lemma {:induction false} LastPersistedSurvivesIff(file: Option<Raw>, before: seq<Op>, p: Poll, quiet: seq<Op>,
                                                    outage: Poll, published: int -> string)
    requires WorldOf(before, published) && FromPublished(p, published) && WorldOf(quiet, published)
    requires p.writable && LiveAnswer(Run(State(None, None, None, file), before).last, p).Some?
    requires forall i | 0 <= i < |quiet| :: Quiet(quiet[i])
    requires outage.database.DatabaseDown? && Candidate(MirrorAnswer(outage.mirror)).None?
    ensures
      var start := State(None, None, None, file);
      var s := Run(start, before);
      && Answer(s, p).Some?
      && Answer(Run(After(s, p), quiet), outage) ==
         if Kept(s, [Ask(p)] + quiet, Kept(start, before, false)) then Answer(s, p) else None
  {
    var start := State(None, None, None, file);
    var s, held := Run(start, before), Kept(start, before, false);
    RunKeepsPublished(start, before, published, false);
    HighestVerifiedGenerationWins(s, p);
    var kept := Writes(s, Ask(p)) || held;
    assert After(s, p).file == if kept then Some(Signed(Answer(s, p).value)) else s.file;
    assert ([Ask(p)] + quiet)[1..] == quiet;
    QuietKeepsTheFile(After(s, p), quiet, published, kept);
  }

  /** A file that is swept away is not written again while the generation lasts, though every poll could write
      it; a process that starts anew does. */
  lemma ASweptFileIsNotWrittenAgain(body: string)
    ensures
      var up := Poll(MirrorDown, Newest(1, Some(Signed(Snapshot(1, body)))), true);
      var down := Poll(MirrorDown, DatabaseDown, true);
      var s := State(None, None, None, None);
      && Answer(Run(s, [Ask(up), Harm(None), Ask(up)]), down) == None
      && Answer(Run(s, [Ask(up), Harm(None), Restart, Ask(up)]), down) == Some(Snapshot(1, body))
  {
    var up := Poll(MirrorDown, Newest(1, Some(Signed(Snapshot(1, body)))), true);
    var s := State(None, None, None, None);
    var t := After(s, up);
    Three(s, Ask(up), Harm(None), Ask(up));
    assert After(t.(file := None), up).file == None;
    var run := [Ask(up), Harm(None), Restart, Ask(up)];
    assert run[1..] == [Harm(None), Restart, Ask(up)];
    Three(t, Harm(None), Restart, Ask(up));
  }

  lemma Three(s: State, a: Op, b: Op, c: Op)
    ensures Run(s, [a, b, c]) == Step(Step(Step(s, a), b), c)
  {
    assert [a, b, c][1..] == [b, c] && [b, c][1..] == [c] && [c][1..] == [];
    var t := Step(Step(s, a), b);
    assert Run(t, [c]) == Step(t, c);
    assert Run(Step(s, a), [b, c]) == Run(t, [c]);
  }

  // ---- the short-cut over runs ---------------------------------------------

  /** The newest row verifies, with the generation it was announced under. */
  predicate RowIsSound(database: Database) {
    database.Newest? ==> Verified(database.row).Some? && Verified(database.row).value.generation == database.generation
  }

  /** In every run over what was published, with restarts and damaged copies anywhere, the short-cut reads like
      a full read exactly when it was not taken or the row it left unread is sound; and where it was taken, what
      it gives is the published snapshot of the announced generation either way. */
  lemma ShortcutIsExactInRunsIff(file: Option<Raw>, ops: seq<Op>, p: Poll, published: int -> string)
    requires WorldOf(ops, published) && FromPublished(p, published)
    ensures
      var last := Run(State(None, None, None, file), ops).last;
      && (Read(last, p.database) == FullRead(p.database) <==>
            !ShortcutTaken(last, p.database) || RowIsSound(p.database))
      && (ShortcutTaken(last, p.database) ==>
            Candidate(Read(last, p.database)) ==
            Some(Snapshot(p.database.generation, published(p.database.generation))))
  {
    RunKeepsPublished(State(None, None, None, file), ops, published, false);
  }

  /** So in every such run, when the row is sound, the answer is a verified snapshot some source holds, of the
      highest generation held; and with none held, a database that answers means "none" and never the file. */
  lemma HighestHeldWins(file: Option<Raw>, ops: seq<Op>, p: Poll, published: int -> string)
    requires WorldOf(ops, published) && FromPublished(p, published) && RowIsSound(p.database)
    ensures
      var s := Run(State(None, None, None, file), ops);
      if Held(p) != {} then
        && Answer(s, p).Some? && Answer(s, p).value in Held(p)
        && forall other <- Held(p) :: other.generation <= Answer(s, p).value.generation
      else
        Answer(s, p) ==
        if p.database.NonePublished? || (p.database.Newest? && p.database.row == Some(Refused)) then None
        else Verified(s.file)
  {
    ShortcutIsExactInRunsIff(file, ops, p, published);
    HighestVerifiedGenerationWins(Run(State(None, None, None, file), ops), p);
  }
}
