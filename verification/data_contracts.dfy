/**
 The data-contract engines of `pipelines/contracts`.

 A contract is a list of checks. The reference engine runs each check's predicate over the whole
 table. The other engine compiles all checks into one schema (several checks may share a column and
 one check may become two sub-checks), validates the schema in one pass and maps the failing
 sub-checks back to the checks that own them. The promise is "two engines, one verdict".
 */
module DataContracts {
  import opened Wrappers
  import opened Counting

  // ---- tables --------------------------------------------------------------

  /** A value of a table. A `Vec` is an embedding; `Opaque` is a hashable value of any other type. */
  datatype Cell = Null | Num(r: real) | Text(s: string) | Vec(width: nat) | Opaque(id: nat)

  datatype Dtype = Dtype(name: string, stringFamily: bool)

  datatype Column = Column(dtype: Dtype, cells: seq<Cell>)

  /** `totalRows` is the `total_rows` attribute a bounded sample carries. */
  datatype Table = Table(columns: map<string, Column>, rows: nat, totalRows: Option<int>)

  /** `Series.to_frame(name=...)`: one column on its own. */
  function Frame(name: string, col: Column): Table {
    Table(map[name := col], |col.cells|, None)
  }

  function NonNull(cells: seq<Cell>): seq<Cell> {
    if cells == [] then []
    else (if cells[0].Null? then [] else [cells[0]]) + NonNull(cells[1..])
  }

  function NullCount(cells: seq<Cell>): nat {
    if cells == [] then 0
    else (if cells[0].Null? then 1 else 0) + NullCount(cells[1..])
  }

  function NullRate(cells: seq<Cell>): real {
    if cells == [] then 0.0 else NullCount(cells) as real / |cells| as real
  }

  /** Only numbers can be ordered against a numeric bound; anything else raises. */
  predicate Orderable(cells: seq<Cell>) {
    forall c <- cells :: c.Num?
  }

  predicate AnyBelow(cells: seq<Cell>, low: real) {
    exists c <- cells :: c.Num? && c.r < low
  }

  predicate AnyAbove(cells: seq<Cell>, high: real) {
    exists c <- cells :: c.Num? && c.r > high
  }

  predicate IsSubstring(needle: string, hay: string) {
    needle <= hay || (hay != [] && IsSubstring(needle, hay[1..]))
  }

  predicate HoldsStrings(col: Column) {
    col.dtype.stringFamily ||
    (col.dtype.name == "object" && forall c <- NonNull(col.cells) :: c.Text?)
  }

  // ---- checks --------------------------------------------------------------

  datatype Severity = Error | Warn

  datatype Outcome = Judged(passed: bool) | Raised

  datatype Spec =
    | ColumnPresent(column: string, dtype: Option<string>)
    | NotNull(column: string, maxNullRate: real)
    | InRange(column: string, low: Option<real>, high: Option<real>)
    | Categorical(column: string, allowed: seq<Cell>)
    | EmbeddingDim(column: string, dim: int)
    | MinRows(n: int)
    | FreshWithin(column: string, maxAge: int)
    | UnknownKind(kind: string)

  /** A named predicate with a severity; `spec` is its declarative form, absent when hand-written. */
  datatype Check = Check(name: string, severity: Severity, fn: Table -> Outcome, spec: Option<Spec>)

  datatype Verdict = Verdict(name: string, severity: Severity, passed: bool)

  function OwnColumn(spec: Spec): Option<string> {
    if spec.MinRows? || spec.UnknownKind? then None else Some(spec.column)
  }

  /** The predicate over one present column that each column-level builder installs. */
  function ColumnPredicate(spec: Spec, col: Column): Outcome
    requires OwnColumn(spec).Some? && !spec.FreshWithin?
  {
    match spec
    case ColumnPresent(_, dtype) =>
      if dtype == Some("string") then Judged(HoldsStrings(col))
      else if dtype.Some? then Judged(IsSubstring(dtype.value, col.dtype.name))
      else Judged(true)
    case NotNull(_, ceiling) => Judged(NullRate(col.cells) <= ceiling)
    case InRange(_, low, high) =>
      var cells := NonNull(col.cells);
      if low.Some? && !Orderable(cells) then Raised
      else if low.Some? && AnyBelow(cells, low.value) then Judged(false)
      else if high.Some? && !Orderable(cells) then Raised
      else if high.Some? && AnyAbove(cells, high.value) then Judged(false)
      else Judged(true)
    case Categorical(_, allowed) =>
      var cells := NonNull(col.cells);
      if exists c <- cells :: c.Vec? then Raised
      else Judged(forall c <- cells :: c in allowed)
    case EmbeddingDim(_, dim) =>
      var cells := NonNull(col.cells);
      Judged(cells != [] && forall c <- cells :: c.Vec? && c.width == dim)
  }

  /** What every builder's predicate answers on a whole table (freshness is left to its own `fn`). */
  function Predicate(spec: Spec, t: Table): Outcome
    requires !spec.FreshWithin? && !spec.UnknownKind?
  {
    if spec.MinRows? then
      Judged((if t.totalRows.Some? then t.totalRows.value else t.rows) >= spec.n)
    else if spec.column !in t.columns then Judged(false)
    else ColumnPredicate(spec, t.columns[spec.column])
  }

  /** `fn` and `spec` came from one builder, or there is no `spec` the compiler acts on. A freshness
      predicate may read any clock, but only its own column. */
  ghost predicate Built(c: Check) {
    match c.spec
    case None => true
    case Some(UnknownKind(_)) => true
    case Some(FreshWithin(column, _)) =>
      forall t :: c.fn(t) == if column in t.columns then c.fn(Frame(column, t.columns[column]))
                             else Judged(false)
    case Some(spec) => forall t :: c.fn(t) == Predicate(spec, t)
  }

  /** The builders: the declarative form beside the predicate it declares. `clock` reads the newest
      stamp of a column and judges its age against the limit. */
  function Build(name: string, severity: Severity, spec: Spec, clock: (int, Column) -> Outcome): (c: Check)
    requires !spec.UnknownKind?
    ensures Built(c) && c.name == name && c.spec == Some(spec) && c.severity == severity
    ensures spec.FreshWithin? ==> forall t ::
              ReferencePasses(c, t) <==>
              spec.column in t.columns && clock(spec.maxAge, t.columns[spec.column]) == Judged(true)
  {
    if spec.FreshWithin? then
      var fn := (t: Table) =>
        if spec.column in t.columns then clock(spec.maxAge, t.columns[spec.column]) else Judged(false);
      Check(name, severity, fn, Some(spec))
    else
      Check(name, severity, (t: Table) => Predicate(spec, t), Some(spec))
  }

  // ---- the reference engine ------------------------------------------------

  /** `Check.run`: a predicate that raises is a failed check. */
  predicate ReferencePasses(c: Check, t: Table) {
    c.fn(t) == Judged(true)
  }

  function ReferenceVerdicts(checks: seq<Check>, t: Table): (r: seq<Verdict>)
    ensures |r| == |checks|
  {
    seq(|checks|, i requires 0 <= i < |checks| =>
      Verdict(checks[i].name, checks[i].severity, ReferencePasses(checks[i], t)))
  }

  // ---- the compiled engine: the schema library -----------------------------

  datatype SubCheck =
    | NotNa
    | AtLeast(low: real)
    | AtMost(high: real)
    | IsIn(allowed: seq<Cell>)
    | AnyNotNa
    | WidthIs(dim: int)
    | Whole(fn: Table -> Outcome)

  /** Whether a sub-check of the present column `name` yields failure cases. Nulls are skipped by
      the ordering, domain and width tests; a test that raises is a failure case. */
  predicate SubFails(sub: SubCheck, name: string, col: Column) {
    match sub
    case NotNa => exists c <- col.cells :: c.Null?
    case AtLeast(low) =>
      var cells := NonNull(col.cells);
      !Orderable(cells) || AnyBelow(cells, low)
    case AtMost(high) =>
      var cells := NonNull(col.cells);
      !Orderable(cells) || AnyAbove(cells, high)
    case IsIn(allowed) => exists c <- NonNull(col.cells) :: c.Vec? || c !in allowed
    case AnyNotNa => forall c <- col.cells :: c.Null?
    case WidthIs(dim) => exists c <- NonNull(col.cells) :: !(c.Vec? && c.width == dim)
    case Whole(fn) => fn(Frame(name, col)) != Judged(true)
  }

  datatype Schema = Schema(columns: map<string, seq<SubCheck>>, frame: seq<Table -> Outcome>)

  type Position = (Option<string>, nat)

  /** The lazily collected failure cases: which required columns are absent and which sub-checks
      have at least one case. */
  datatype Report = Report(missing: set<string>, failed: set<Position>)

  function Validate(schema: Schema, t: Table): Report {
    Report(
      schema.columns.Keys - t.columns.Keys,
      (set c: string, k: nat | c in schema.columns && c in t.columns && k < |schema.columns[c]| &&
                               SubFails(schema.columns[c][k], c, t.columns[c]) :: (Some(c), k)) +
      (set k: nat | k < |schema.frame| && schema.frame[k](t) != Judged(true) :: (None, k)))
  }

  // ---- the compiled engine: what one check means ---------------------------

  function RangeChecks(low: Option<real>, high: Option<real>): seq<SubCheck> {
    (if low.Some? then [AtLeast(low.value)] else []) + (if high.Some? then [AtMost(high.value)] else [])
  }

  /** The sub-checks one check compiles to, in the order they are added. */
  function SubChecks(c: Check): seq<SubCheck>
    requires c.spec.Some?
  {
    match c.spec.value
    case ColumnPresent(_, dtype) => if dtype.Some? then [Whole(c.fn)] else []
    case NotNull(_, ceiling) => if ceiling <= 0.0 then [NotNa] else [Whole(c.fn)]
    case InRange(_, low, high) => RangeChecks(low, high)
    case Categorical(_, allowed) => [IsIn(allowed)]
    case EmbeddingDim(_, dim) => [AnyNotNa] + [WidthIs(dim)]
    case MinRows(_) => [Whole(c.fn)]
    case FreshWithin(_, _) => [Whole(c.fn)]
    case UnknownKind(_) => []
  }

  predicate Compiles(c: Check) {
    c.spec.Some? && !c.spec.value.UnknownKind?
  }

  /** A check's verdict under the compiled engine, stated without positions or owners. */
  ghost predicate CompiledPasses(c: Check, t: Table) {
    if !Compiles(c) then ReferencePasses(c, t)
    else if c.spec.value.MinRows? then c.fn(t) == Judged(true)
    else
      var name := c.spec.value.column;
      name in t.columns && forall sub <- SubChecks(c) :: !SubFails(sub, name, t.columns[name])
  }

  ghost function CompiledVerdicts(checks: seq<Check>, t: Table): (r: seq<Verdict>)
    ensures |r| == |checks|
  {
    seq(|checks|, i requires 0 <= i < |checks| =>
      Verdict(checks[i].name, checks[i].severity, CompiledPasses(checks[i], t)))
  }

  // ---- the compiled engine: the compiler -----------------------------------

  /** What compilation has filed so far: sub-checks by column, frame checks, and for each compiled
      check the positions it owns. */
  datatype Filing = Filing(columns: map<string, seq<SubCheck>>,
                           frame: seq<Table -> Outcome>,
                           owners: map<nat, seq<Position>>)
  {
    /** Position `p` exists and holds `sub`. */
    ghost predicate Holds(p: Position, sub: SubCheck) {
      match p.0
      case Some(c) => c in columns && p.1 < |columns[c]| && columns[c][p.1] == sub
      case None => p.1 < |frame| && sub == Whole(frame[p.1])
    }

    /** Check `i` is filed under `column` and owns exactly the sub-checks `subs`, in order. */
    ghost predicate Owns(i: nat, column: Option<string>, subs: seq<SubCheck>) {
      && i in owners && |owners[i]| == |subs|
      && (column.Some? ==> column.value in columns)
      && forall j | 0 <= j < |subs| :: owners[i][j].0 == column && Holds(owners[i][j], subs[j])
    }

    /** `later` only appended, on behalf of check `i`. */
    ghost predicate GrewInto(later: Filing, i: nat) {
      && (forall c <- columns :: c in later.columns && columns[c] <= later.columns[c])
      && frame <= later.frame
      && (forall k <- owners | k != i :: k in later.owners && later.owners[k] == owners[k])
      && later.owners.Keys == owners.Keys + {i}
    }

    /** Check `i` concerns `column`: it has an owner entry and the column is required. */
    function Touched(i: nat, column: Option<string>): Filing {
      this.(owners := if i in owners then owners else owners[i := []],
            columns := if column.Some? && column.value !in columns then columns[column.value := []]
                       else columns)
    }

    /** One more sub-check at the end of its column, or of the frame checks, owned by `i`. */
    function Appended(i: nat, column: Option<string>, sub: SubCheck): Filing
      requires column.None? ==> sub.Whole?
    {
      var f := Touched(i, column);
      match column
      case None =>
        f.(owners := f.owners[i := f.owners[i] + [(None, |f.frame|)]], frame := f.frame + [sub.fn])
      case Some(c) =>
        f.(owners := f.owners[i := f.owners[i] + [(column, |f.columns[c]|)]],
           columns := f.columns[c := f.columns[c] + [sub]])
    }

    /** A whole check filed: touched, then its sub-checks in order. */
    function With(i: nat, column: Option<string>, subs: seq<SubCheck>): Filing
      requires column.None? ==> forall sub <- subs :: sub.Whole?
    {
      if subs == [] then Touched(i, column)
      else With(i, column, subs[..|subs| - 1]).Appended(i, column, subs[|subs| - 1])
    }
  }

  lemma GrowthComposes(f: Filing, g: Filing, h: Filing, i: nat)
    requires f.GrewInto(g, i) && g.GrewInto(h, i)
    ensures f.GrewInto(h, i)
  {
    forall c <- f.columns
      ensures c in h.columns && f.columns[c] <= h.columns[c]
    {
      assert c in g.columns && g.columns[c] <= h.columns[c];
    }
  }

  lemma AppendOwnsOneMore(f: Filing, i: nat, column: Option<string>, before: seq<SubCheck>, sub: SubCheck)
    requires f.Owns(i, column, before)
    requires column.None? ==> sub.Whole?
    ensures f.GrewInto(f.Appended(i, column, sub), i)
    ensures f.Appended(i, column, sub).Owns(i, column, before + [sub])
  {
    var h := f.Appended(i, column, sub);
    assert f.Touched(i, column) == f;
    forall j | 0 <= j < |before|
      ensures h.owners[i][j].0 == column && h.Holds(h.owners[i][j], before[j])
    {
      assert f.Holds(f.owners[i][j], before[j]);
    }
  }

  /** Filing a check only appends, and leaves the check owning exactly its sub-checks. */
  lemma {:induction false} FiledChecksOwnTheirSubChecks(f: Filing, i: nat, column: Option<string>, subs: seq<SubCheck>)
    requires i !in f.owners
    requires column.None? ==> forall sub <- subs :: sub.Whole?
    ensures f.GrewInto(f.With(i, column, subs), i)
    ensures f.With(i, column, subs).Owns(i, column, subs)
  {
    if subs != [] {
      var before, sub := subs[..|subs| - 1], subs[|subs| - 1];
      FiledChecksOwnTheirSubChecks(f, i, column, before);
      AppendOwnsOneMore(f.With(i, column, before), i, column, before, sub);
      GrowthComposes(f, f.With(i, column, before), f.With(i, column, subs), i);
      assert before + [sub] == subs;
    }
  }

  /** Positions are stable under later appends: what another check owns, it keeps. */
  lemma OwnershipIsStable(f: Filing, later: Filing, i: nat, k: nat, column: Option<string>, subs: seq<SubCheck>)
    requires f.GrewInto(later, i) && k != i && f.Owns(k, column, subs)
    ensures later.Owns(k, column, subs)
  {
    forall j | 0 <= j < |subs|
      ensures later.owners[k][j].0 == column && later.Holds(later.owners[k][j], subs[j])
    {
      assert f.Holds(f.owners[k][j], subs[j]);
    }
  }

  /** A check passes the compiled engine exactly when no position it owns has a failure case. */
  lemma OwnersDecide(f: Filing, i: nat, check: Check, t: Table)
    requires Compiles(check)
    requires f.Owns(i, OwnColumn(check.spec.value), SubChecks(check))
    requires OwnColumn(check.spec.value).Some? ==> OwnColumn(check.spec.value).value in t.columns
    ensures var failed := Validate(Schema(f.columns, f.frame), t).failed;
            (forall p <- f.owners[i] :: p !in failed) <==> CompiledPasses(check, t)
  {
    var failed := Validate(Schema(f.columns, f.frame), t).failed;
    var column, subs, own := OwnColumn(check.spec.value), SubChecks(check), f.owners[i];
    forall j | 0 <= j < |subs|
      ensures own[j] in failed <==>
              if column.Some? then SubFails(subs[j], column.value, t.columns[column.value])
              else subs[j].fn(t) != Judged(true)
    {
      assert f.Holds(own[j], subs[j]);
    }
    assert (forall p <- own :: p !in failed) <==> (forall j | 0 <= j < |own| :: own[j] !in failed);
    if column.Some? {
      var col := t.columns[column.value];
      assert (forall sub <- subs :: !SubFails(sub, column.value, col)) <==>
             (forall j | 0 <= j < |subs| :: !SubFails(subs[j], column.value, col));
    } else {
      assert subs[0] == Whole(check.fn) && own == [own[0]];
      assert own[0] in own;
    }
  }

  /** The dictionaries and lists that compilation fills in place. */
  class SchemaCompiler {
    var columnChecks: map<string, seq<SubCheck>>
    var frameChecks: seq<Table -> Outcome>
    var owners: map<nat, seq<Position>>

    ghost function Filed(): Filing
      reads this
    {
      Filing(columnChecks, frameChecks, owners)
    }

    constructor ()
      ensures Filed() == Filing(map[], [], map[])
    {
      columnChecks, frameChecks, owners := map[], [], map[];
    }

    method Touch(i: nat, column: Option<string>)
      modifies this
      ensures Filed() == old(Filed()).Touched(i, column)
    {
      if i !in owners {
        owners := owners[i := []];
      }
      if column.Some? && column.value !in columnChecks {
        columnChecks := columnChecks[column.value := []];
      }
    }

    method Add(i: nat, column: Option<string>, sub: SubCheck)
      requires column.None? ==> sub.Whole?
      modifies this
      ensures Filed() == old(Filed()).Appended(i, column, sub)
    {
      Touch(i, column);
      match column {
        case None =>
          owners := owners[i := owners[i] + [(None, |frameChecks|)]];
          frameChecks := frameChecks + [sub.fn];
        case Some(c) =>
          owners := owners[i := owners[i] + [(column, |columnChecks[c]|)]];
          columnChecks := columnChecks[c := columnChecks[c] + [sub]];
      }
    }

    /** A range: a lower bound, an upper bound, and in any case the column. */
    method AddRange(i: nat, column: string, low: Option<real>, high: Option<real>)
      modifies this
      ensures Filed() == old(Filed()).With(i, Some(column), RangeChecks(low, high))
    {
      ghost var f := Filed();
      if low.Some? {
        Add(i, Some(column), AtLeast(low.value));
        OneFiled(f, i, Some(column), AtLeast(low.value));
      }
      ghost var g := Filed();
      if high.Some? {
        Add(i, Some(column), AtMost(high.value));
        OneFiled(g, i, Some(column), AtMost(high.value));
      }
      Touch(i, Some(column));  // an open range only asks that the column exist
      if low.Some? && high.Some? {
        TwoFiled(f, i, Some(column), AtLeast(low.value), AtMost(high.value));
      }
    }

    /** A single sub-check. */
    method AddOnly(i: nat, column: Option<string>, sub: SubCheck)
      requires column.None? ==> sub.Whole?
      modifies this
      ensures Filed() == old(Filed()).With(i, column, [sub])
    {
      OneFiled(Filed(), i, column, sub);
      Add(i, column, sub);
    }

    /** Two, in order. */
    method AddBoth(i: nat, column: Option<string>, sub: SubCheck, other: SubCheck)
      requires column.None? ==> sub.Whole? && other.Whole?
      modifies this
      ensures Filed() == old(Filed()).With(i, column, [sub] + [other])
    {
      TwoFiled(Filed(), i, column, sub, other);
      Add(i, column, sub);
      Add(i, column, other);
    }

    /** None, or one after touching: presence, with or without a type. */
    method AddPresence(i: nat, column: Option<string>, typed: Option<SubCheck>)
      requires column.None? && typed.Some? ==> typed.value.Whole?
      modifies this
      ensures Filed() == old(Filed()).With(i, column, if typed.Some? then [typed.value] else [])
    {
      ghost var f := Filed();
      Touch(i, column);
      if typed.Some? {
        Add(i, column, typed.value);
        OneFiled(f, i, column, typed.value);
      }
    }

    /** Compile check `i`: one branch per kind. */
    method Compile(i: nat, check: Check)
      requires Compiles(check) && i !in owners
      modifies this
      ensures Filed() == old(Filed()).With(i, OwnColumn(check.spec.value), SubChecks(check))
    {
      var spec := check.spec.value;
      var column := OwnColumn(spec);
      match spec {
        case ColumnPresent(_, dtype) =>
          AddPresence(i, column, if dtype.Some? then Some(Whole(check.fn)) else None);
        case NotNull(_, ceiling) =>
          AddOnly(i, column, if ceiling <= 0.0 then NotNa else Whole(check.fn));
        case InRange(name, low, high) =>
          AddRange(i, name, low, high);
        case Categorical(_, allowed) =>
          AddOnly(i, column, IsIn(allowed));
        case EmbeddingDim(_, dim) =>
          AddBoth(i, column, AnyNotNa, WidthIs(dim));
        case MinRows(_) =>
          AddOnly(i, column, Whole(check.fn));
        case FreshWithin(_, _) =>
          AddOnly(i, column, Whole(check.fn));
      }
    }
  }

  /** Touching first changes nothing about an append, nor does touching again. */
  lemma OneFiled(f: Filing, i: nat, column: Option<string>, sub: SubCheck)
    requires column.None? ==> sub.Whole?
    ensures f.With(i, column, [sub]) == f.Appended(i, column, sub) == f.Touched(i, column).Appended(i, column, sub)
    ensures f.Appended(i, column, sub).Touched(i, column) == f.Appended(i, column, sub)
  {
    assert [sub][..0] == [];
    assert f.With(i, column, []) == f.Touched(i, column);
    TouchedTwice(f, i, column);
  }

  lemma TouchedTwice(f: Filing, i: nat, column: Option<string>)
    ensures f.Touched(i, column).Touched(i, column) == f.Touched(i, column)
  {
  }

  lemma TwoFiled(f: Filing, i: nat, column: Option<string>, sub: SubCheck, other: SubCheck)
    requires column.None? ==> sub.Whole? && other.Whole?
    ensures f.With(i, column, [sub] + [other]) == f.Appended(i, column, sub).Appended(i, column, other)
  {
    assert ([sub] + [other])[..1] == [sub];
    OneFiled(f, i, column, sub);
  }

  ghost predicate OwnsItsOwn(f: Filing, k: nat, c: Check)
    requires Compiles(c)
  {
    f.Owns(k, OwnColumn(c.spec.value), SubChecks(c))
  }

  /** Filing the first `n` checks is done: each check the compiler knows owns its sub-checks. */
  ghost predicate FiledFirst(f: Filing, checks: seq<Check>, n: nat)
    requires n <= |checks|
  {
    && (forall k <- f.owners :: k < n && Compiles(checks[k]))
    && forall k: nat | k < n && Compiles(checks[k]) :: OwnsItsOwn(f, k, checks[k])
  }

  lemma FilingOneMore(f: Filing, checks: seq<Check>, n: nat)
    requires n < |checks| && Compiles(checks[n]) && FiledFirst(f, checks, n)
    ensures FiledFirst(f.With(n, OwnColumn(checks[n].spec.value), SubChecks(checks[n])), checks, n + 1)
  {
    var column, subs := OwnColumn(checks[n].spec.value), SubChecks(checks[n]);
    var later := f.With(n, column, subs);
    FiledChecksOwnTheirSubChecks(f, n, column, subs);
    forall k: nat | k < n + 1 && Compiles(checks[k])
      ensures OwnsItsOwn(later, k, checks[k])
    {
      if k < n {
        StillOwns(f, later, n, k, checks[k]);
      }
    }
  }

  lemma StillOwns(f: Filing, later: Filing, i: nat, k: nat, c: Check)
    requires Compiles(c) && f.GrewInto(later, i) && k != i && OwnsItsOwn(f, k, c)
    ensures OwnsItsOwn(later, k, c)
  {
    OwnershipIsStable(f, later, i, k, OwnColumn(c.spec.value), SubChecks(c));
  }

  /** The compiled engine: compile every check, validate once, map failures back to their owners. */
  method RunCompiled(checks: seq<Check>, t: Table) returns (results: seq<Verdict>)
    ensures results == CompiledVerdicts(checks, t)
  {
    var compiler := new SchemaCompiler();
    for i := 0 to |checks|
      invariant FiledFirst(compiler.Filed(), checks, i)
    {
      if Compiles(checks[i]) {
        FilingOneMore(compiler.Filed(), checks, i);
        compiler.Compile(i, checks[i]);
      }
    }
    var report := Validate(Schema(compiler.columnChecks, compiler.frameChecks), t);
    results := MapBack(checks, t, compiler.Filed(), compiler.owners, report);
  }

  /** The result loop: a missing column, or any failing position among its own, fails a check. */
  method MapBack(checks: seq<Check>, t: Table, ghost filed: Filing, owners: map<nat, seq<Position>>, report: Report)
    returns (results: seq<Verdict>)
    requires FiledFirst(filed, checks, |checks|) && owners == filed.owners
    requires report == Validate(Schema(filed.columns, filed.frame), t)
    ensures results == CompiledVerdicts(checks, t)
  {
    results := [];
    for i := 0 to |checks|
      invariant results == CompiledVerdicts(checks, t)[..i]
    {
      var passed := JudgeOne(i, checks[i], t, filed, owners, report);
      results := results + [Verdict(checks[i].name, checks[i].severity, passed)];
    }
  }

  method JudgeOne(i: nat, check: Check, t: Table, ghost filed: Filing, owners: map<nat, seq<Position>>, report: Report)
    returns (passed: bool)
    requires owners == filed.owners && report == Validate(Schema(filed.columns, filed.frame), t)
    requires i in owners <==> Compiles(check)
    requires Compiles(check) ==> filed.Owns(i, OwnColumn(check.spec.value), SubChecks(check))
    ensures passed == CompiledPasses(check, t)
  {
    if i !in owners {
      passed := check.fn(t) == Judged(true);
    } else {
      var column := OwnColumn(check.spec.value);
      if column.Some? && column.value in report.missing {
        passed := false;
      } else {
        passed := forall p <- owners[i] :: p !in report.failed;
        OwnersDecide(filed, i, check, t);
      }
    }
  }

  // ---- what each builder's check asks of a table ----------------------------

  lemma {:induction false} NonNullCells(cells: seq<Cell>, c: Cell)
    ensures c in NonNull(cells) <==> c in cells && !c.Null?
  {
    if cells != [] {
      NonNullCells(cells[1..], c);
    }
  }

  lemma {:induction false} NullCountOfBoth(a: seq<Cell>, b: seq<Cell>)
    ensures NullCount(a + b) == NullCount(a) + NullCount(b)
  {
    if a == [] {
      assert a + b == b;
    } else {
      assert (a + b)[1..] == a[1..] + b;
      NullCountOfBoth(a[1..], b);
    }
  }

  predicate IsNull(c: Cell) { c == Null }

  lemma {:induction false} NullsAreCounted(cells: seq<Cell>)
    ensures NullCount(cells) == Many(cells, IsNull)
  {
    if cells == [] {
      NoneOfNone(IsNull);
    } else {
      var init, last := cells[..|cells| - 1], cells[|cells| - 1];
      NullsAreCounted(init);
      assert cells == init + [last];
      NullCountOfBoth(init, [last]);
      ManyOfMore(init, last, IsNull);
    }
  }

  /** The share of nulls, an empty column having none, is at most the ceiling. */
  lemma NotNullPassesIff(c: Check, t: Table)
    requires Built(c) && c.spec.Some? && c.spec.value.NotNull?
    ensures
      ReferencePasses(c, t) <==>
      c.spec.value.column in t.columns &&
      var cells, ceiling := t.columns[c.spec.value.column].cells, c.spec.value.maxNullRate;
      if cells == [] then 0.0 <= ceiling
      else Many(cells, IsNull) as real <= ceiling * |cells| as real
  {
    assert c.fn(t) == Predicate(c.spec.value, t);
    if c.spec.value.column in t.columns {
      var cells, ceiling := t.columns[c.spec.value.column].cells, c.spec.value.maxNullRate;
      NullsAreCounted(cells);
      if cells != [] {
        ShareIsAtMost(NullCount(cells) as real, |cells| as real, ceiling);
      }
    }
  }

  lemma ShareIsAtMost(part: real, all: real, ceiling: real)
    requires all > 0.0
    ensures part / all <= ceiling <==> part <= ceiling * all
  {
    var share := part / all;
    assert part == share * all;
    if share <= ceiling {
      assert (ceiling - share) * all >= 0.0;
    } else {
      assert (share - ceiling) * all > 0.0;
    }
  }

  /** Every value that is not null is a number within the bounds there are; with none, any column will do. */
  lemma InRangePassesIff(c: Check, t: Table)
    requires Built(c) && c.spec.Some? && c.spec.value.InRange?
    ensures
      var InRange(column, low, high) := c.spec.value;
      ReferencePasses(c, t) <==>
      column in t.columns &&
      ((low.None? && high.None?) ||
       forall x <- t.columns[column].cells ::
         x.Null? || (x.Num? && (low.Some? ==> low.value <= x.r) && (high.Some? ==> x.r <= high.value)))
  {
    assert c.fn(t) == Predicate(c.spec.value, t);
    if c.spec.value.column in t.columns {
      forall x {
        NonNullCells(t.columns[c.spec.value.column].cells, x);
      }
    }
  }

  /** Every value that is not null can be hashed and is one of those allowed. */
  lemma CategoricalPassesIff(c: Check, t: Table)
    requires Built(c) && c.spec.Some? && c.spec.value.Categorical?
    ensures
      var Categorical(column, allowed) := c.spec.value;
      ReferencePasses(c, t) <==>
      column in t.columns && forall x <- t.columns[column].cells :: x.Null? || (!x.Vec? && x in allowed)
  {
    assert c.fn(t) == Predicate(c.spec.value, t);
    if c.spec.value.column in t.columns {
      forall x {
        NonNullCells(t.columns[c.spec.value.column].cells, x);
      }
    }
  }

  /** Some value is not null, and each such value has the dimension. */
  lemma EmbeddingPassesIff(c: Check, t: Table)
    requires Built(c) && c.spec.Some? && c.spec.value.EmbeddingDim?
    ensures
      var EmbeddingDim(column, dim) := c.spec.value;
      ReferencePasses(c, t) <==>
      column in t.columns &&
      (exists x <- t.columns[column].cells :: !x.Null?) &&
      forall x <- t.columns[column].cells :: x.Null? || (x.Vec? && x.width == dim)
  {
    assert c.fn(t) == Predicate(c.spec.value, t);
    if c.spec.value.column in t.columns {
      var cells := t.columns[c.spec.value.column].cells;
      forall x {
        NonNullCells(cells, x);
      }
      assert NonNull(cells) != [] ==> NonNull(cells)[0] in NonNull(cells);
    }
  }

  predicate OccursAt(needle: string, hay: string, i: nat) {
    i + |needle| <= |hay| && hay[i..i + |needle|] == needle
  }

  lemma OccursFurtherOn(needle: string, hay: string, i: nat)
    requires hay != ""
    ensures OccursAt(needle, hay, i + 1) == OccursAt(needle, hay[1..], i)
  {
    if i + 1 + |needle| <= |hay| {
      assert hay[1..][i..i + |needle|] == hay[i + 1..i + 1 + |needle|];
    }
  }

  lemma OccursFirst(needle: string, hay: string)
    ensures OccursAt(needle, hay, 0) <==> needle <= hay
  {
  }

  lemma {:induction false} SubstringIff(needle: string, hay: string)
    ensures IsSubstring(needle, hay) <==> exists i: nat :: OccursAt(needle, hay, i)
  {
    OccursFirst(needle, hay);
    if hay == "" {
      assert forall i: nat :: OccursAt(needle, hay, i) ==> i == 0;
    } else {
      SubstringIff(needle, hay[1..]);
      if i: nat :| OccursAt(needle, hay, i) {
        if i > 0 {
          OccursFurtherOn(needle, hay, i - 1);
        }
      }
      if i: nat :| OccursAt(needle, hay[1..], i) {
        OccursFurtherOn(needle, hay, i);
      }
    }
  }

  /** The column is there; "string" asks for strings and nothing else but nulls, any other type for a name that
      contains it. */
  lemma ColumnPassesIff(c: Check, t: Table)
    requires Built(c) && c.spec.Some? && c.spec.value.ColumnPresent?
    ensures
      var ColumnPresent(column, dtype) := c.spec.value;
      ReferencePasses(c, t) <==>
      column in t.columns &&
      var col := t.columns[column];
      if dtype.None? then true
      else if dtype.value == "string" then
        col.dtype.stringFamily ||
        (col.dtype.name == "object" && forall x <- col.cells :: x.Null? || x.Text?)
      else
        exists i: nat :: OccursAt(dtype.value, col.dtype.name, i)
  {
    var ColumnPresent(column, dtype) := c.spec.value;
    assert c.fn(t) == Predicate(c.spec.value, t);
    if column in t.columns && dtype.Some? {
      SubstringIff(dtype.value, t.columns[column].dtype.name);
      forall x {
        NonNullCells(t.columns[column].cells, x);
      }
    }
  }

  /** The rows, or those of the table a sample was taken from, are at least so many. */
  lemma MinRowsPassesIff(c: Check, t: Table)
    requires Built(c) && c.spec.Some? && c.spec.value.MinRows?
    ensures ReferencePasses(c, t) <==>
            if t.totalRows.Some? then c.spec.value.n <= t.totalRows.value else c.spec.value.n <= t.rows
  {
    assert c.fn(t) == Predicate(c.spec.value, t);
  }

  // ---- two engines, one verdict --------------------------------------------

  lemma {:induction false} NullCountZero(cells: seq<Cell>)
    ensures NullCount(cells) == 0 <==> Null !in cells
    ensures NullRate(cells) >= 0.0
    ensures NullRate(cells) <= 0.0 <==> Null !in cells
  {
    if cells != [] {
      NullCountZero(cells[1..]);
      assert cells == [cells[0]] + cells[1..];
      var n, len := NullCount(cells) as real, |cells| as real;
      assert n / len >= 0.0;
      assert n > 0.0 ==> n / len > 0.0;
    }
  }

  /** The whole-table predicate a compiled table-level check wraps reads only its own column. */
  lemma WholeSeesTheSame(c: Check, t: Table)
    requires Built(c) && Compiles(c) && OwnColumn(c.spec.value).Some?
    requires OwnColumn(c.spec.value).value in t.columns
    ensures var name := OwnColumn(c.spec.value).value;
            c.fn(Frame(name, t.columns[name])) == c.fn(t)
  {
    var name := OwnColumn(c.spec.value).value;
    var frame := Frame(name, t.columns[name]);
    assert frame.columns[name] == t.columns[name];
    if c.spec.value.FreshWithin? {
      assert c.fn(frame) == c.fn(Frame(name, frame.columns[name]));
    }
  }

  /** The one way the engines differ: a negative null-rate ceiling, which no column can meet and the
      compiled not-null mask does not look at. */
  predicate NegativeCeilingOnNullFreeColumn(c: Check, t: Table) {
    && c.spec.Some? && c.spec.value.NotNull? && c.spec.value.maxNullRate < 0.0
    && c.spec.value.column in t.columns
    && Null !in t.columns[c.spec.value.column].cells
  }

  /** Check by check, exactly where the two verdicts part. */
  lemma CheckVerdictsDifferExactly(c: Check, t: Table)
    requires Built(c)
    ensures CompiledPasses(c, t) != ReferencePasses(c, t) <==> NegativeCeilingOnNullFreeColumn(c, t)
    ensures NegativeCeilingOnNullFreeColumn(c, t) ==> CompiledPasses(c, t) && !ReferencePasses(c, t)
  {
    if Compiles(c) && !c.spec.value.MinRows? {
      var spec := c.spec.value;
      if spec.column in t.columns {
        var col := t.columns[spec.column];
        WholeSeesTheSame(c, t);
        match spec
        case ColumnPresent(_, dtype) =>
          if dtype.Some? {
            OneSubCheckDecides(c, t, Whole(c.fn));
          } else {
            assert SubChecks(c) == [] && c.fn(t) == Predicate(spec, t);
          }
        case NotNull(_, ceiling) =>
          assert c.fn(t) == Predicate(spec, t);
          NullCountZero(col.cells);
          OneSubCheckDecides(c, t, if ceiling <= 0.0 then NotNa else Whole(c.fn));
        case InRange(_, low, high) =>
          RangeAgrees(c, t);
        case Categorical(_, allowed) =>
          OneSubCheckDecides(c, t, IsIn(allowed));
        case EmbeddingDim(_, dim) =>
          EmbeddingAgrees(c, t);
        case FreshWithin(_, _) =>
          OneSubCheckDecides(c, t, Whole(c.fn));
      }
    }
  }

  lemma OneSubCheckDecides(c: Check, t: Table, sub: SubCheck)
    requires Compiles(c) && SubChecks(c) == [sub]
    requires OwnColumn(c.spec.value).Some? && c.spec.value.column in t.columns
    ensures CompiledPasses(c, t) <==> !SubFails(sub, c.spec.value.column, t.columns[c.spec.value.column])
  {
    assert SubChecks(c)[0] == sub;
  }

  lemma RangeAgrees(c: Check, t: Table)
    requires Built(c) && c.spec.Some? && c.spec.value.InRange? && c.spec.value.column in t.columns
    ensures CompiledPasses(c, t) == ReferencePasses(c, t)
  {
    var InRange(name, low, high) := c.spec.value;
    var col := t.columns[name];
    assert c.fn(t) == Predicate(c.spec.value, t);
    assert low.Some? ==> SubChecks(c)[0] == AtLeast(low.value);
    assert high.Some? ==> SubChecks(c)[|SubChecks(c)| - 1] == AtMost(high.value);
    assert CompiledPasses(c, t) <==>
           (low.Some? ==> !SubFails(AtLeast(low.value), name, col)) &&
           (high.Some? ==> !SubFails(AtMost(high.value), name, col));
  }

  lemma EmbeddingAgrees(c: Check, t: Table)
    requires Built(c) && c.spec.Some? && c.spec.value.EmbeddingDim? && c.spec.value.column in t.columns
    ensures CompiledPasses(c, t) == ReferencePasses(c, t)
  {
    var EmbeddingDim(name, dim) := c.spec.value;
    var col := t.columns[name];
    assert c.fn(t) == Predicate(c.spec.value, t);
    assert SubChecks(c)[0] == AnyNotNa && SubChecks(c)[1] == WidthIs(dim);
    assert CompiledPasses(c, t) <==> !SubFails(AnyNotNa, name, col) && !SubFails(WidthIs(dim), name, col);
    forall cell: Cell {
      NonNullCells(col.cells, cell);
    }
    if NonNull(col.cells) != [] {
      assert NonNull(col.cells)[0] in col.cells;
    }
  }

  /** Every not-null ceiling is a rate. */
  ghost predicate CeilingsAreRates(checks: seq<Check>) {
    forall c <- checks :: c.spec.Some? && c.spec.value.NotNull? ==> c.spec.value.maxNullRate >= 0.0
  }

  /** Two engines, one verdict: on every table, in contract order, for every list of checks - if and
      only if no check carries a negative null-rate ceiling. */
  lemma EnginesAgreeIff(checks: seq<Check>)
    requires forall c <- checks :: Built(c)
    ensures (forall t :: CompiledVerdicts(checks, t) == ReferenceVerdicts(checks, t)) <==>
            CeilingsAreRates(checks)
  {
    if CeilingsAreRates(checks) {
      forall t
        ensures CompiledVerdicts(checks, t) == ReferenceVerdicts(checks, t)
      {
        forall i | 0 <= i < |checks| {
          CheckVerdictsDifferExactly(checks[i], t);
        }
      }
    } else {
      var i :| 0 <= i < |checks| && checks[i].spec.Some? && checks[i].spec.value.NotNull? &&
               checks[i].spec.value.maxNullRate < 0.0;
      var t := Frame(checks[i].spec.value.column, Column(Dtype("float64", false), []));
      CheckVerdictsDifferExactly(checks[i], t);
      assert CompiledVerdicts(checks, t)[i].passed != ReferenceVerdicts(checks, t)[i].passed;
    }
  }

  // ---- the contract's result -----------------------------------------------

  datatype Engine = CompiledEngine | ReferenceEngine

  /** `score` before rounding. */
  datatype QualityResult = QualityResult(passed: bool, score: real, checks: seq<Verdict>, engine: Engine)

  function PassCount(results: seq<Verdict>): nat {
    if results == [] then 0 else (if results[0].passed then 1 else 0) + PassCount(results[1..])
  }

  function Quality(results: seq<Verdict>, engine: Engine): QualityResult {
    QualityResult(forall r <- results :: r.severity == Error ==> r.passed,
                  PassCount(results) as real / (if |results| == 0 then 1 else |results|) as real, results, engine)
  }

  lemma {:induction false} PassCountOfBoth(a: seq<Verdict>, b: seq<Verdict>)
    ensures PassCount(a + b) == PassCount(a) + PassCount(b)
  {
    if a == [] {
      assert a + b == b;
    } else {
      assert (a + b)[1..] == a[1..] + b;
      PassCountOfBoth(a[1..], b);
    }
  }

  predicate Passed(v: Verdict) { v.passed }

  lemma {:induction false} PassesAreCounted(results: seq<Verdict>)
    ensures PassCount(results) == Many(results, Passed)
  {
    if results == [] {
      NoneOfNone(Passed);
    } else {
      var init, last := results[..|results| - 1], results[|results| - 1];
      PassesAreCounted(init);
      assert results == init + [last];
      PassCountOfBoth(init, [last]);
      ManyOfMore(init, last, Passed);
    }
  }

  /** Whether the schema library can be imported and whether it answers. */
  datatype Library = Absent | Faulty | Working

  /** The result of a contract: it passes exactly when every check of severity Error did, and its score is the
      share of the checks that passed. */
  ghost predicate Summarises(result: QualityResult, checks: seq<Check>, passes: Check -> bool) {
    && |result.checks| == |checks|
    && (forall i | 0 <= i < |checks| ::
          result.checks[i] == Verdict(checks[i].name, checks[i].severity, passes(checks[i])))
    && (result.passed <==> forall c <- checks | c.severity == Error :: passes(c))
    && result.score == Many(checks, passes) as real / (if checks == [] then 1 else |checks|) as real
  }

  lemma QualitySummarises(results: seq<Verdict>, engine: Engine, checks: seq<Check>, passes: Check -> bool)
    requires |results| == |checks|
    requires forall i | 0 <= i < |checks| ::
               results[i] == Verdict(checks[i].name, checks[i].severity, passes(checks[i]))
    ensures Summarises(Quality(results, engine), checks, passes)
  {
    PassesAreCounted(results);
    AsManyOf(results, Passed, checks, passes);
    forall c | c in checks && c.severity == Error && Quality(results, engine).passed
      ensures passes(c)
    {
      var i :| 0 <= i < |checks| && checks[i] == c;
      assert results[i] in results;
    }
  }

  /** `DataContract.validate`: which engine judges depends on the setting and on the library, an engine fault
      falls back to the reference predicates, and none of it moves the verdict. */
  method ValidateContract(checks: seq<Check>, t: Table, auto: bool, library: Library)
    returns (result: QualityResult)
    requires forall c <- checks :: Built(c)
    ensures result.engine == if auto && library.Working? then CompiledEngine else ReferenceEngine
    ensures result.engine.CompiledEngine? ==> Summarises(result, checks, c => CompiledPasses(c, t))
    ensures result.engine.ReferenceEngine? || CeilingsAreRates(checks) ==>
              Summarises(result, checks, c => ReferencePasses(c, t))
  {
    var results;
    if auto && library.Working? {
      results := RunCompiled(checks, t);
      EnginesAgreeIff(checks);
      result := Quality(results, CompiledEngine);
      QualitySummarises(results, CompiledEngine, checks, c => CompiledPasses(c, t));
      if CeilingsAreRates(checks) {
        QualitySummarises(results, CompiledEngine, checks, c => ReferencePasses(c, t));
      }
    } else {
      results := ReferenceVerdicts(checks, t);
      result := Quality(results, ReferenceEngine);
      QualitySummarises(results, ReferenceEngine, checks, c => ReferencePasses(c, t));
    }
  }
}
