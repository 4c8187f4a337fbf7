/**
 The alias lifecycle, `promote_task`: walk the lifecycle rules, set every alias a new version qualifies
 for, ask the evaluation gate before the first alias past Staging, and roll the previous Production
 version into Archived. An attempt may crash anywhere and is retried.
 */
module Promotion {
  import opened Wrappers

  type Aliases = map<string, string>

  datatype Rule = Rule(stage: string, metric: string, threshold: real, lowerIsBetter: bool)

  /** `_evaluate_stage_rule`. */
  predicate Satisfies(value: real, r: Rule) {
    if r.lowerIsBetter then value <= r.threshold else value >= r.threshold
  }

  predicate Passes(r: Rule, metrics: map<string, real>) {
    r.metric in metrics && Satisfies(metrics[r.metric], r)
  }

  /** What is promoted: the version, its rules and its metrics. */
  datatype Candidate = Candidate(version: string, rules: seq<Rule>, metrics: map<string, real>)

  /** How one attempt fares: whether the current Production alias could be read, what the gate says, how
      many alias moves happen before it dies (if it does), whether it dies before archiving, and whether
      the alias listing and the Archived move succeed. */
  datatype Weather = Weather(readsProduction: bool, refuses: bool, moves: Option<nat>, diesLate: bool,
                             lists: bool, archives: bool)

  /** The aliases moved, in order; whether the attempt died on the way; how often the gate was asked. */
  datatype Climb = Climb(stages: seq<string>, died: bool, asked: nat)

  /** The loop over the rules, from rule `i`. */
  function ClimbFrom(c: Candidate, w: Weather, i: nat, moved: nat, checked: bool): Climb
    requires i <= |c.rules|
    decreases |c.rules| - i
  {
    if i == |c.rules| then Climb([], false, 0)
    else
      var r := c.rules[i];
      if !Passes(r, c.metrics) then ClimbFrom(c, w, i + 1, moved, checked)
      else
        var rest := ClimbFrom(c, w, i + 1, moved + 1, checked || r.stage != "Staging");
        Turn(r.stage, w.refuses, w.moves == Some(moved), checked, rest)
  }

  /** A rule the version passes: past Staging the gate is asked unless it has been, and its refusal ends the
      climb; dying ends it too; otherwise the alias moves and the climb goes on. */
  function Turn(stage: string, refuses: bool, dies: bool, checked: bool, rest: Climb): Climb {
    var gated := stage != "Staging";
    var cost := if gated && !checked then 1 else 0;
    if gated && refuses then Climb([], false, cost)
    else if dies then Climb([], true, cost)
    else Climb([stage] + rest.stages, rest.died, cost + rest.asked)
  }

  /** A climb that goes on after the stages moved and the questions asked so far. */
  function Onto(stages: seq<string>, asked: nat, rest: Climb): Climb {
    Climb(stages + rest.stages, rest.died, asked + rest.asked)
  }

  function Climbed(c: Candidate, w: Weather): Climb { ClimbFrom(c, w, 0, 0, false) }

  function MoveAll(aliases: Aliases, stages: seq<string>, version: string): Aliases
    decreases |stages|
  {
    if stages == [] then aliases else MoveAll(aliases[stages[0] := version], stages[1..], version)
  }

  function Previous(aliases: Aliases, w: Weather): Option<string> {
    if w.readsProduction && "Production" in aliases then Some(aliases["Production"]) else None
  }

  /** Some alias other than Archived still points at the version. */
  predicate Live(aliases: Aliases, version: string) {
    exists a <- aliases :: a != "Archived" && aliases[a] == version
  }

  /** The attempt gets as far as archiving the previous Production version. */
  predicate WouldArchive(aliases: Aliases, c: Candidate, w: Weather) {
    var previous := Previous(aliases, w);
    && !Climbed(c, w).died && !w.diesLate && "Production" in Climbed(c, w).stages
    && previous.Some? && previous.value != c.version
  }

  /** One attempt at promoting the candidate. */
  function Attempt(aliases: Aliases, c: Candidate, w: Weather): Aliases {
    var moved := MoveAll(aliases, Climbed(c, w).stages, c.version);
    if WouldArchive(aliases, c, w) && !(w.lists && Live(moved, Previous(aliases, w).value)) && w.archives then
      moved["Archived" := Previous(aliases, w).value]
    else moved
  }

  // ---- the code's loop -----------------------------------------------------

  class Registry {
    var aliases: Aliases

    constructor ()
      ensures aliases == map[]
    {
      aliases := map[];
    }

    /** The walk over the rules. */
    method WalkRules(c: Candidate, w: Weather) returns (setAliases: seq<string>, died: bool, asked: nat)
      modifies this
      ensures Climbed(c, w) == Climb(setAliases, died, asked)
      ensures aliases == MoveAll(old(aliases), setAliases, c.version)
    {
      var checked := false;
      setAliases, died, asked := [], false, 0;
      ghost var all := Climbed(c, w);
      for i := 0 to |c.rules|
        invariant !died
        invariant all == Onto(setAliases, asked, ClimbFrom(c, w, i, |setAliases|, checked))
        invariant aliases == MoveAll(old(aliases), setAliases, c.version)
      {
        var r := c.rules[i];
        if !Passes(r, c.metrics) {
          continue;
        }
        if r.stage != "Staging" {
          if !checked {
            checked, asked := true, asked + 1;
          }
          if w.refuses {
            return;
          }
        }
        if w.moves == Some(|setAliases|) {
          died := true;
          return;
        }
        MoveOneMore(old(aliases), setAliases, r.stage, c.version);
        aliases := aliases[r.stage := c.version];
        setAliases := setAliases + [r.stage];
      }
    }

    /** `promote_task`; `died` tells the scheduler to retry. */
    method Promote(c: Candidate, w: Weather) returns (died: bool, asked: nat)
      modifies this
      ensures aliases == Attempt(old(aliases), c, w)
      ensures died == (Climbed(c, w).died || w.diesLate) && asked == Climbed(c, w).asked
    {
      var previous := Previous(aliases, w);
      var setAliases;
      setAliases, died, asked := WalkRules(c, w);
      if died || w.diesLate {
        died := true;
        return;
      }
      if "Production" in setAliases && previous.Some? && previous.value != c.version {
        var stillReferenced := false;
        if w.lists {
          stillReferenced := exists a <- aliases :: a != "Archived" && aliases[a] == previous.value;
        }
        if !stillReferenced && w.archives {
          aliases := aliases["Archived" := previous.value];
        }
      }
    }
  }

  lemma {:induction false} MoveOneMore(aliases: Aliases, stages: seq<string>, stage: string, version: string)
    ensures MoveAll(aliases, stages + [stage], version) == MoveAll(aliases, stages, version)[stage := version]
    decreases |stages|
  {
    if stages != [] {
      assert (stages + [stage])[1..] == stages[1..] + [stage];
      MoveOneMore(aliases[stages[0] := version], stages[1..], stage, version);
    }
  }

  lemma {:induction false} MovedAliases(aliases: Aliases, stages: seq<string>, version: string)
    ensures MoveAll(aliases, stages, version).Keys == aliases.Keys + set s <- stages
    ensures forall a <- MoveAll(aliases, stages, version) ::
              MoveAll(aliases, stages, version)[a] == if a in stages then version else aliases[a]
    decreases |stages|
  {
    if stages != [] {
      MovedAliases(aliases[stages[0] := version], stages[1..], version);
    }
  }

  // ---- how far a version climbs --------------------------------------------

  /** The stages whose rules the version passes, in the order of the rules. */
  function Qualifying(rules: seq<Rule>, metrics: map<string, real>): seq<string> {
    if rules == [] then []
    else (if Passes(rules[0], metrics) then [rules[0].stage] else []) + Qualifying(rules[1..], metrics)
  }

  /** How many stages come before the first one the gate protects. */
  function Ungated(stages: seq<string>): (n: nat)
    ensures n <= |stages| && (forall i | 0 <= i < n :: stages[i] == "Staging")
    ensures n < |stages| ==> stages[n] != "Staging"
  {
    if stages == [] || stages[0] != "Staging" then 0 else 1 + Ungated(stages[1..])
  }

  /** How many of the qualifying stages the gate lets through. */
  function Allowed(stages: seq<string>, refuses: bool): (n: nat)
    ensures n <= |stages|
  {
    if refuses then Ungated(stages) else |stages|
  }

  predicate GateReached(stages: seq<string>, moves: Option<nat>) {
    Ungated(stages) < |stages| && (moves.Some? ==> Ungated(stages) <= moves.value)
  }

  /** The climb over qualifying stages `q` when `left` more moves succeed. */
  function Expected(q: seq<string>, left: Option<nat>, refuses: bool, checked: bool): Climb {
    var n := Allowed(q, refuses);
    var died := left.Some? && left.value < n;
    Climb(q[..if died then left.value else n], died, if !checked && GateReached(q, left) then 1 else 0)
  }

  function Fewer(left: Option<nat>): Option<nat> {
    if left.Some? && left.value > 0 then Some(left.value - 1) else None
  }

  lemma ExpectedStep(stage: string, rest: seq<string>, left: Option<nat>, refuses: bool, checked: bool)
    requires refuses ==> !checked
    ensures Expected([stage] + rest, left, refuses, checked) ==
            Turn(stage, refuses, left == Some(0), checked,
                 Expected(rest, Fewer(left), refuses, checked || stage != "Staging"))
  {
    var q := [stage] + rest;
    assert q[1..] == rest;
    if stage == "Staging" {
      assert Ungated(q) == 1 + Ungated(rest);
    } else {
      assert Ungated(q) == 0;
    }
    var next := Expected(rest, Fewer(left), refuses, checked || stage != "Staging");
    assert |next.stages| < |q| && q[..|next.stages| + 1] == [stage] + next.stages;
  }

  lemma QualifyingStep(rules: seq<Rule>, i: nat, metrics: map<string, real>)
    requires i < |rules|
    ensures Qualifying(rules[i..], metrics) ==
            (if Passes(rules[i], metrics) then [rules[i].stage] else []) + Qualifying(rules[i + 1..], metrics)
  {
    assert rules[i..][1..] == rules[i + 1..];
  }

  /** How many more moves succeed after the first `moved`. */
  function Left(w: Weather, moved: nat): Option<nat>
    requires w.moves.Some? ==> moved <= w.moves.value
  {
    if w.moves.Some? then Some(w.moves.value - moved) else None
  }

  lemma ClimbTurn(c: Candidate, w: Weather, i: nat, moved: nat, checked: bool)
    requires i < |c.rules|
    ensures ClimbFrom(c, w, i, moved, checked) ==
            if Passes(c.rules[i], c.metrics) then
              Turn(c.rules[i].stage, w.refuses, w.moves == Some(moved), checked,
                   ClimbFrom(c, w, i + 1, moved + 1, checked || c.rules[i].stage != "Staging"))
            else ClimbFrom(c, w, i + 1, moved, checked)
  {
  }

  lemma {:induction false} ClimbFromIs(c: Candidate, w: Weather, i: nat, moved: nat, checked: bool)
    requires i <= |c.rules| && (w.moves.Some? ==> moved <= w.moves.value) && (w.refuses ==> !checked)
    ensures ClimbFrom(c, w, i, moved, checked) ==
            Expected(Qualifying(c.rules[i..], c.metrics), Left(w, moved), w.refuses, checked)
    decreases |c.rules| - i
  {
    if i < |c.rules| {
      var r, rest := c.rules[i], Qualifying(c.rules[i + 1..], c.metrics);
      QualifyingStep(c.rules, i, c.metrics);
      ClimbTurn(c, w, i, moved, checked);
      if !Passes(r, c.metrics) {
        ClimbFromIs(c, w, i + 1, moved, checked);
        assert [] + rest == rest;
      } else {
        ExpectedStep(r.stage, rest, Left(w, moved), w.refuses, checked);
        assert w.moves == Some(moved) <==> Left(w, moved) == Some(0);
        if !(r.stage != "Staging" && w.refuses) && w.moves != Some(moved) {
          ClimbFromIs(c, w, i + 1, moved + 1, checked || r.stage != "Staging");
          assert Left(w, moved + 1) == Fewer(Left(w, moved));
        }
      }
    }
  }

  /** What one attempt sets is exactly the qualifying stages, cut at the first gated one when the gate
      refuses and at the crash when there is one; the gate is asked once at most, and exactly when the
      climb gets to a gated stage. */
  lemma ClimbIs(c: Candidate, w: Weather)
    ensures
      var q := Qualifying(c.rules, c.metrics);
      var n := Allowed(q, w.refuses);
      && Climbed(c, w).died == (w.moves.Some? && w.moves.value < n)
      && Climbed(c, w).stages == q[..if Climbed(c, w).died then w.moves.value else n]
      && Climbed(c, w).asked == if GateReached(q, w.moves) then 1 else 0
  {
    assert c.rules[0..] == c.rules;
    ClimbFromIs(c, w, 0, 0, false);
    assert Left(w, 0) == w.moves;
  }

  /** A refused gate: no alias but Staging moves, whatever else happens to the attempt. */
  lemma RefusedMovesOnlyStaging(aliases: Aliases, c: Candidate, w: Weather)
    requires w.refuses
    ensures Attempt(aliases, c, w) - {"Staging"} == aliases - {"Staging"}
  {
    ClimbIs(c, w);
    var stages := Climbed(c, w).stages;
    assert forall s <- stages :: s == "Staging";
    MovedAliases(aliases, stages, c.version);
    assert Attempt(aliases, c, w) == MoveAll(aliases, stages, c.version);
  }

  predicate OneMeasure(rules: seq<Rule>) {
    forall i, j | 0 <= i < |rules| && 0 <= j < |rules| ::
      rules[i].metric == rules[j].metric && rules[i].lowerIsBetter == rules[j].lowerIsBetter
  }

  predicate NoLooser(a: Rule, b: Rule) {
    if a.lowerIsBetter then b.threshold <= a.threshold else b.threshold >= a.threshold
  }

  predicate Tightens(rules: seq<Rule>) {
    forall i, j | 0 <= i < j < |rules| :: NoLooser(rules[i], rules[j])
  }

  predicate ClimbsInOrder(rules: seq<Rule>, metrics: map<string, real>) {
    forall i, j | 0 <= i < j < |rules| :: Passes(rules[j], metrics) ==> Passes(rules[i], metrics)
  }

  /** Rules on one metric and direction are climbed without a gap, for every value of the metric, exactly
      when their thresholds tighten. */
  lemma NoGapIffTightening(rules: seq<Rule>)
    requires OneMeasure(rules)
    ensures Tightens(rules) <==> forall metrics :: ClimbsInOrder(rules, metrics)
  {
    if !Tightens(rules) {
      var i, j :| 0 <= i < j < |rules| && !NoLooser(rules[i], rules[j]);
      var metrics := map[rules[j].metric := rules[j].threshold];
      assert Passes(rules[j], metrics) && !Passes(rules[i], metrics);
      assert !ClimbsInOrder(rules, metrics);
    } else {
      forall metrics
        ensures ClimbsInOrder(rules, metrics)
      {
        forall i, j | 0 <= i < j < |rules| && Passes(rules[j], metrics)
          ensures Passes(rules[i], metrics)
        {
          assert NoLooser(rules[i], rules[j]);
        }
      }
    }
  }

  function Stages(rules: seq<Rule>): (s: seq<string>)
    ensures |s| == |rules| && forall i | 0 <= i < |rules| :: s[i] == rules[i].stage
  {
    if rules == [] then [] else [rules[0].stage] + Stages(rules[1..])
  }

  lemma {:induction false} QualifyingIsAPrefix(rules: seq<Rule>, metrics: map<string, real>)
    requires ClimbsInOrder(rules, metrics)
    ensures Qualifying(rules, metrics) <= Stages(rules)
  {
    if rules != [] {
      assert forall i, j | 0 <= i < j < |rules[1..]| :: rules[1..][i] == rules[i + 1] && rules[1..][j] == rules[j + 1];
      QualifyingIsAPrefix(rules[1..], metrics);
      if !Passes(rules[0], metrics) {
        NothingQualifies(rules, metrics);
      }
    }
  }

  lemma {:induction false} NothingQualifies(rules: seq<Rule>, metrics: map<string, real>)
    requires forall r <- rules :: !Passes(r, metrics)
    ensures Qualifying(rules, metrics) == []
  {
    if rules != [] {
      NothingQualifies(rules[1..], metrics);
    }
  }

  /** When thresholds tighten on one metric, the aliases an attempt sets are a prefix of the ladder - with
      any metrics, any answer from the gate and a crash at any point. */
  lemma SetAliasesAreAPrefix(c: Candidate, w: Weather)
    requires OneMeasure(c.rules) && Tightens(c.rules)
    ensures Climbed(c, w).stages <= Stages(c.rules)
  {
    NoGapIffTightening(c.rules);
    QualifyingIsAPrefix(c.rules, c.metrics);
    ClimbIs(c, w);
  }

  // ---- Archived is never live ----------------------------------------------

  /** The Archived version carries no live alias. */
  predicate Sound(aliases: Aliases) {
    "Archived" in aliases ==> !Live(aliases, aliases["Archived"])
  }

  /** No lifecycle rule promotes to Archived. */
  predicate Ladder(c: Candidate) {
    forall r <- c.rules :: r.stage != "Archived"
  }

  predicate NotArchived(aliases: Aliases, version: string) {
    "Archived" in aliases ==> aliases["Archived"] != version
  }

  lemma {:induction false} StagesAreRules(c: Candidate, w: Weather, i: nat, moved: nat, checked: bool)
    requires i <= |c.rules|
    ensures forall s <- ClimbFrom(c, w, i, moved, checked).stages :: exists r <- c.rules :: r.stage == s
    decreases |c.rules| - i
  {
    if i < |c.rules| {
      StagesAreRules(c, w, i + 1, moved, checked);
      StagesAreRules(c, w, i + 1, moved + 1, checked || c.rules[i].stage != "Staging");
    }
  }

  /** The previous version was archived without knowing that another alias still pointed at it. */
  predicate ArchivedBlindly(aliases: Aliases, c: Candidate, w: Weather) {
    && WouldArchive(aliases, c, w) && w.archives && !w.lists
    && Live(MoveAll(aliases, Climbed(c, w).stages, c.version), Previous(aliases, w).value)
  }

  /** One attempt keeps Archived and the live aliases apart exactly unless the alias listing failed, the
      code archived regardless, and another alias did still point at the previous version. */
  lemma AttemptIsSoundIff(aliases: Aliases, c: Candidate, w: Weather)
    requires Sound(aliases) && NotArchived(aliases, c.version) && Ladder(c)
    ensures Sound(Attempt(aliases, c, w)) <==> !ArchivedBlindly(aliases, c, w)
    ensures NotArchived(Attempt(aliases, c, w), c.version)
  {
    var stages := Climbed(c, w).stages;
    var moved := MoveAll(aliases, stages, c.version);
    StagesAreRules(c, w, 0, 0, false);
    MovedAliases(aliases, stages, c.version);
    assert "Archived" !in stages;
    if "Archived" in aliases {
      assert moved["Archived"] == aliases["Archived"];
      forall a | a in moved && a != "Archived"
        ensures moved[a] != moved["Archived"]
      {
        assert a in stages || a in aliases;
      }
    }
    var after := Attempt(aliases, c, w);
    if after != moved {
      var p := Previous(aliases, w).value;
      assert after == moved["Archived" := p];
      assert Live(after, p) <==> Live(moved, p) by {
        if a :| a in moved && a != "Archived" && moved[a] == p {
          assert a in after && after[a] == p;
        }
      }
    }
  }

  /** A promotion: its attempts until one ends well or the retries run out. */
  datatype Promotion = Promotion(candidate: Candidate, attempts: seq<Weather>)

  function Promoted(aliases: Aliases, c: Candidate, attempts: seq<Weather>): Aliases
    decreases |attempts|
  {
    if attempts == [] then aliases else Promoted(Attempt(aliases, c, attempts[0]), c, attempts[1..])
  }

  /** Promotions of one model do not overlap, and each starts with a version no alias points at. */
  predicate FreshVersions(aliases: Aliases, promotions: seq<Promotion>)
    decreases |promotions|
  {
    promotions == [] ||
    (promotions[0].candidate.version !in aliases.Values && Ladder(promotions[0].candidate) &&
     FreshVersions(Promoted(aliases, promotions[0].candidate, promotions[0].attempts), promotions[1..]))
  }

  /** The aliases are sound after every attempt. */
  predicate StaysSound(aliases: Aliases, c: Candidate, attempts: seq<Weather>)
    decreases |attempts|
  {
    attempts != [] ==>
      var after := Attempt(aliases, c, attempts[0]);
      Sound(after) && StaysSound(after, c, attempts[1..])
  }

  predicate AllStaySound(aliases: Aliases, promotions: seq<Promotion>)
    decreases |promotions|
  {
    promotions != [] ==>
      var p := promotions[0];
      StaysSound(aliases, p.candidate, p.attempts) &&
      AllStaySound(Promoted(aliases, p.candidate, p.attempts), promotions[1..])
  }

  predicate NeverBlind(aliases: Aliases, c: Candidate, attempts: seq<Weather>)
    decreases |attempts|
  {
    attempts != [] ==>
      !ArchivedBlindly(aliases, c, attempts[0]) && NeverBlind(Attempt(aliases, c, attempts[0]), c, attempts[1..])
  }

  predicate NoneBlind(aliases: Aliases, promotions: seq<Promotion>)
    decreases |promotions|
  {
    promotions != [] ==>
      var p := promotions[0];
      NeverBlind(aliases, p.candidate, p.attempts) &&
      NoneBlind(Promoted(aliases, p.candidate, p.attempts), promotions[1..])
  }

  lemma {:induction false} RetriesStaySoundIff(aliases: Aliases, c: Candidate, attempts: seq<Weather>)
    requires Sound(aliases) && NotArchived(aliases, c.version) && Ladder(c)
    ensures StaysSound(aliases, c, attempts) <==> NeverBlind(aliases, c, attempts)
    ensures StaysSound(aliases, c, attempts) ==> Sound(Promoted(aliases, c, attempts))
    decreases |attempts|
  {
    if attempts != [] {
      AttemptIsSoundIff(aliases, c, attempts[0]);
      if Sound(Attempt(aliases, c, attempts[0])) {
        RetriesStaySoundIff(Attempt(aliases, c, attempts[0]), c, attempts[1..]);
      }
    }
  }

  /** Over any sequence of promotions of fresh versions, with crashes and retries at any point, the
      Archived version never also carries a live alias - if and only if no attempt, its listing failing,
      archives a version that another alias still points at. */
  lemma {:induction false} ArchivedIsNeverLiveIff(aliases: Aliases, promotions: seq<Promotion>)
    requires Sound(aliases) && FreshVersions(aliases, promotions)
    ensures AllStaySound(aliases, promotions) <==> NoneBlind(aliases, promotions)
    decreases |promotions|
  {
    if promotions != [] {
      var p := promotions[0];
      assert NotArchived(aliases, p.candidate.version) by {
        if "Archived" in aliases {
          assert aliases["Archived"] in aliases.Values;
        }
      }
      RetriesStaySoundIff(aliases, p.candidate, p.attempts);
      if StaysSound(aliases, p.candidate, p.attempts) {
        ArchivedIsNeverLiveIff(Promoted(aliases, p.candidate, p.attempts), promotions[1..]);
      }
    }
  }

  function ArchivedIn(aliases: Aliases): Option<string> {
    if "Archived" in aliases then Some(aliases["Archived"]) else None
  }

  /** Once an attempt has moved Production and died before archiving, no retry archives anything: each one
      reads the new version back as the previous Production. */
  lemma {:induction false} NoRetryArchives(aliases: Aliases, c: Candidate, attempts: seq<Weather>)
    requires "Production" in aliases && aliases["Production"] == c.version && Ladder(c)
    ensures ArchivedIn(Promoted(aliases, c, attempts)) == ArchivedIn(aliases)
    decreases |attempts|
  {
    if attempts != [] {
      var w := attempts[0];
      StagesAreRules(c, w, 0, 0, false);
      MovedAliases(aliases, Climbed(c, w).stages, c.version);
      NoRetryArchives(Attempt(aliases, c, w), c, attempts[1..]);
    }
  }

  predicate MovesProduction(c: Candidate, w: Weather) { "Production" in Climbed(c, w).stages }

  /** The first attempt that moves Production; the number of attempts when none does. */
  function FirstMover(c: Candidate, attempts: seq<Weather>): (k: nat)
    ensures k <= |attempts| && (forall i | 0 <= i < k :: !MovesProduction(c, attempts[i]))
    ensures k < |attempts| ==> MovesProduction(c, attempts[k])
  {
    if attempts == [] || MovesProduction(c, attempts[0]) then 0 else 1 + FirstMover(c, attempts[1..])
  }

  /** The attempt read Production, survived, found no other alias on the old version or could not list, and
      its Archived move succeeded. */
  predicate Archives(aliases: Aliases, c: Candidate, w: Weather, previous: string) {
    && w.readsProduction && !Climbed(c, w).died && !w.diesLate && w.archives
    && (w.lists ==> !Live(MoveAll(aliases, Climbed(c, w).stages, c.version), previous))
  }

  lemma OneAttemptArchivesIff(aliases: Aliases, c: Candidate, w: Weather)
    requires Ladder(c) && "Production" in aliases && aliases["Production"] != c.version
    ensures var after := Attempt(aliases, c, w);
            if MovesProduction(c, w) then
              && "Production" in after && after["Production"] == c.version
              && ArchivedIn(after) ==
                 if Archives(aliases, c, w, aliases["Production"])
                 then Some(aliases["Production"])
                 else ArchivedIn(aliases)
            else
              && "Production" in after && after["Production"] == aliases["Production"]
              && ArchivedIn(after) == ArchivedIn(aliases)
  {
    StagesAreRules(c, w, 0, 0, false);
    MovedAliases(aliases, Climbed(c, w).stages, c.version);
  }

  /** A version is set as Production: the version it replaces ends up Archived - over all attempts, crashes
      and retries included - if and only if the first attempt that moved Production archived it. */
  lemma {:induction false} PreviousIsArchivedIff(aliases: Aliases, c: Candidate, attempts: seq<Weather>)
    requires Ladder(c) && "Production" in aliases && aliases["Production"] != c.version
    requires ArchivedIn(aliases) != Some(aliases["Production"])
    ensures
      var k := FirstMover(c, attempts);
      ArchivedIn(Promoted(aliases, c, attempts)) == Some(aliases["Production"]) <==>
      k < |attempts| && Archives(Promoted(aliases, c, attempts[..k]), c, attempts[k], aliases["Production"])
    decreases |attempts|
  {
    if attempts != [] {
      var w, rest := attempts[0], attempts[1..];
      var after, k := Attempt(aliases, c, w), FirstMover(c, attempts);
      OneAttemptArchivesIff(aliases, c, w);
      if MovesProduction(c, w) {
        assert attempts[..0] == [];
        NoRetryArchives(after, c, rest);
      } else {
        PreviousIsArchivedIff(after, c, rest);
        assert k == 1 + FirstMover(c, rest);
        assert attempts[..k][1..] == rest[..k - 1];
      }
    }
  }

  function OneRule(): Candidate {
    Candidate("2", [Rule("Production", "rmse", 50.0, true)], map["rmse" := 40.0])
  }

  lemma OneRuleMovesProduction(w: Weather)
    requires !w.refuses && w.moves == None
    ensures Climbed(OneRule(), w).stages == ["Production"] && !Climbed(OneRule(), w).died && Ladder(OneRule())
  {
    var c := OneRule();
    assert ClimbFrom(c, w, 1, 1, true) == Climb([], false, 0);
  }

  /** A listing that fails once is enough: Canary still points at version 1 when it is archived. */
  lemma BlindArchivingBreaksIt()
    ensures exists aliases, c, w ::
              Sound(aliases) && Ladder(c) && c.version !in aliases.Values && !Sound(Attempt(aliases, c, w))
  {
    var aliases: Aliases := map["Production" := "1", "Canary" := "1"];
    var c := OneRule();
    var w := Weather(true, false, None, false, false, true);
    OneRuleMovesProduction(w);
    var moved := MoveAll(aliases, ["Production"], "2");
    assert ["Production"][1..] == [];
    assert moved == aliases["Production" := "2"];
    assert "Canary" in moved && moved["Canary"] == "1";
    assert ArchivedBlindly(aliases, c, w);
    AttemptIsSoundIff(aliases, c, w);
  }

  /** Each fault of the first attempt loses the archiving for good, though the next one goes well: dying once
      Production has moved, not being able to read it before, and failing to move Archived. */
  lemma OneFaultLosesTheArchiving(w: Weather, good: Weather)
    requires !w.refuses && w.moves == None && (w.diesLate || !w.readsProduction || !w.archives)
    ensures ArchivedIn(Promoted(map["Production" := "1"], OneRule(), [w, good])) != Some("1")
  {
    OneRuleMovesProduction(w);
    assert MovesProduction(OneRule(), w);
    PreviousIsArchivedIff(map["Production" := "1"], OneRule(), [w, good]);
  }
}
