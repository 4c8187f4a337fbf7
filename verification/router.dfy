/**
 The router's hop to the model server, `ModelRouter._attempts`: POST within the deadline, retry only
 what is worth retrying, and only while the deadline and the shared retry budget allow it.
 */
module Router {
  import opened Wrappers
  import opened Budgets
  import opened Counting

  const MIN_ATTEMPT_SECONDS: real := 0.05

  datatype Cause = Model | Timeout | Transport | ReplicaLost | Protocol | Pipeline

  datatype Answer =
    | Prediction
    | ModelNotFound
    | ValidationError
    | DeadlineExceeded
    | Overloaded
    | InferenceFailed(cause: Cause)

  /** `budgetSpent` marks the "retry budget spent" detail. */
  datatype Result = Result(answer: Answer, budgetSpent: bool)

  /** How one POST ended. `Crashed` is any exception that is not a transport error. */
  datatype Outcome = TimedOut | TransportError | Crashed | Responded(status: int, json: bool, parses: bool)

  /** Ray's proxy reporting a replica that died with the request on it. */
  predicate Lost(o: Outcome) {
    o.Responded? && o.status == 500 && !o.json
  }

  datatype Judgement = Final(answer: Answer, event: Option<BudgetEvent>) | Retryable(answer: Answer)

  function JudgeAnswered(status: int, parses: bool, expired: bool): Answer {
    if status == 404 then ModelNotFound
    else if status == 400 then ValidationError
    else if status == 504 && expired then DeadlineExceeded
    else if !(200 <= status < 300) then InferenceFailed(if status == 504 then Timeout else Model)
    else if parses then Prediction
    else InferenceFailed(Protocol)
  }

  function Judge(o: Outcome, expired: bool, lostOnce: bool): Judgement {
    match o
    case TimedOut => if expired then Final(DeadlineExceeded, Some(Failed(false)))
                     else Retryable(InferenceFailed(Transport))
    case TransportError => Retryable(InferenceFailed(Transport))
    case Crashed => Final(InferenceFailed(Pipeline), None)
    case Responded(status, _, parses) =>
      if status == 503 then Retryable(Overloaded)
      else if Lost(o) then
        if lostOnce then Final(InferenceFailed(ReplicaLost), Some(Failed(false)))
        else Retryable(InferenceFailed(ReplicaLost))
      else Final(JudgeAnswered(status, parses, expired), Some(Answered))
  }

  /** What the environment does during attempt `k`: the POST's outcome and duration, and what other
      requests do to the shared bucket before this one is judged. */
  datatype Try = Try(outcome: Outcome, elapsed: real, others: seq<BudgetEvent>)

  /** One request's own steps. */
  datatype Step = Sent | Judged(event: BudgetEvent) | Dropped

  /** Start and duration of each POST, lost-replica answers taken, the request's own steps, the time
      of return and the tokens then left. */
  datatype Log = Log(result: Result, posts: seq<real>, took: seq<real>, losses: nat, steps: seq<Step>,
                     finished: real, tokens: real)

  function Pow2(n: nat): nat { if n == 0 then 1 else 2 * Pow2(n - 1) }

  function Backoff(attempt: nat): (s: real)
    ensures s > 0.0
  {
    PowIsPositive(attempt);
    0.1 * Pow2(attempt) as real
  }

  lemma {:induction false} PowIsPositive(n: nat)
    ensures Pow2(n) > 0
  {
    if n > 0 {
      PowIsPositive(n - 1);
    }
  }

  function Loss(o: Outcome): nat { if Lost(o) then 1 else 0 }

  /** What one call is given: the bucket, `_ROUTE_RETRIES`, its deadline and its environment. */
  datatype Call = Call(b: Bucket, retries: int, d: Deadline, env: nat -> Try)

  /** The loop's variables. */
  datatype Cursor = Cursor(tokens: real, now: real, attempt: nat, lostOnce: bool, last: Result)

  /** One POST and its judgement; the flag says whether the loop goes round again. */
  function One(c: Call, s: Cursor): (Log, bool) {
    var t := c.env(s.attempt);
    var after, seen := s.now + t.elapsed, c.b.Run(s.tokens, t.others);
    var made := (result: Result, step: Step, left: real) =>
      Log(result, [s.now], [t.elapsed], Loss(t.outcome), [Sent, step], after, left);
    match Judge(t.outcome, c.d.Expired(after), s.lostOnce)
    case Final(answer, None) => (made(Result(answer, false), Dropped, seen), false)
    case Final(answer, Some(event)) => (made(Result(answer, false), Judged(event), c.b.Next(seen, event)), false)
    case Retryable(answer) =>
      var asks := s.attempt < c.retries && c.d.Remaining(after) > Backoff(s.attempt) + MIN_ATTEMPT_SECONDS;
      var left := c.b.Next(seen, Failed(asks));
      (made(Result(answer, asks), Judged(Failed(asks)), left), asks && c.b.Allows(left))
  }

  /** After the backoff; the last failure is kept as the answer so far. */
  function Advance(s: Cursor, part: Log): Cursor {
    Cursor(part.tokens, part.finished + Backoff(s.attempt), s.attempt + 1, s.lostOnce || part.losses > 0,
           part.result.(budgetSpent := false))
  }

  function Stopped(s: Cursor, result: Result): Log { Log(result, [], [], 0, [], s.now, s.tokens) }

  /** The attempts from the cursor on. */
  function Go(c: Call, s: Cursor): Log
    decreases c.retries + 1 - s.attempt
  {
    if s.attempt > c.retries then Stopped(s, s.last)
    else if c.d.Expired(s.now) then Stopped(s, Result(DeadlineExceeded, false))
    else
      var (part, again) := One(c, s);
      if again then Before(part, Go(c, Advance(s, part))) else part
  }

  /** `first` followed by the attempts of `rest`. */
  function Before(first: Log, rest: Log): Log {
    Log(rest.result, first.posts + rest.posts, first.took + rest.took, first.losses + rest.losses,
        first.steps + rest.steps, rest.finished, rest.tokens)
  }

  lemma BeforeIsAssociative(a: Log, b: Log, c: Log)
    ensures Before(Before(a, b), c) == Before(a, Before(b, c))
  {
    assert (a.posts + b.posts) + c.posts == a.posts + (b.posts + c.posts);
    assert (a.took + b.took) + c.took == a.took + (b.took + c.took);
    assert (a.steps + b.steps) + c.steps == a.steps + (b.steps + c.steps);
  }

  function Start(tokens: real, now: real): Cursor {
    Cursor(tokens, now, 0, false, Result(InferenceFailed(Pipeline), false))
  }

  // ---- the code's loop -----------------------------------------------------

  /** Other requests of the process use the same bucket while this one waits. */
  method OthersUse(budget: RetryBudget, events: seq<BudgetEvent>)
    requires budget.Valid()
    modifies budget
    ensures budget.Valid() && budget.tokens == budget.bucket.Run(old(budget.tokens), events)
  {
    for i := 0 to |events|
      invariant budget.Valid()
      invariant budget.bucket.Run(budget.tokens, events[i..]) == budget.bucket.Run(old(budget.tokens), events)
    {
      if events[i].Answered? {
        budget.RecordSuccess();
      } else {
        budget.RecordFailure();
      }
      assert events[i..][1..] == events[i + 1..];
    }
  }

  /** The loop body: one POST, its judgement, and whether the loop goes round again. */
  method Attempt(budget: RetryBudget, c: Call, s: Cursor) returns (part: Log, again: bool)
    requires budget.Valid() && budget.bucket == c.b && budget.tokens == s.tokens
    modifies budget
    ensures budget.Valid() && budget.tokens == part.tokens
    ensures (part, again) == One(c, s)
  {
    var t := c.env(s.attempt);
    OthersUse(budget, t.others);
    var after := s.now + t.elapsed;
    var judgement := Judge(t.outcome, c.d.Expired(after), s.lostOnce);
    again := false;
    var step, result := Dropped, Result(judgement.answer, false);
    if judgement.Retryable? {
      budget.RecordFailure();
      var asks := s.attempt < c.retries && c.d.Remaining(after) > Backoff(s.attempt) + MIN_ATTEMPT_SECONDS;
      step := Judged(Failed(asks));
      if asks {
        again := budget.CanRetry();
        result := Result(judgement.answer, true);
      }
    } else if judgement.event.Some? {
      step := Judged(judgement.event.value);
      if judgement.event.value.Answered? {
        budget.RecordSuccess();
      } else {
        budget.RecordFailure();
      }
    }
    part := Log(result, [s.now], [t.elapsed], Loss(t.outcome), [Sent, step], after, budget.tokens);
  }

  /** `_attempts`. The clock moves only in a POST or a sleep. */
  method Attempts(budget: RetryBudget, c: Call, start: real) returns (log: Log)
    requires budget.Valid() && budget.bucket == c.b
    modifies budget
    ensures budget.Valid() && budget.tokens == log.tokens
    ensures log == Go(c, Cursor(old(budget.tokens), start, 0, false, Result(InferenceFailed(Pipeline), false)))
  {
    var s := Start(budget.tokens, start);
    ghost var goal := Go(c, s);
    log := Stopped(s, s.last);
    while s.attempt <= c.retries
      invariant budget.Valid() && budget.tokens == s.tokens
      invariant Before(log, Go(c, s)) == goal
      decreases c.retries + 1 - s.attempt
    {
      if c.d.Expired(s.now) {
        log := Before(log, Stopped(s, Result(DeadlineExceeded, false)));
        return;
      }
      var part, again := Attempt(budget, c, s);
      BeforeIsAssociative(log, part, Go(c, Advance(s, part)));
      log := Before(log, part);
      if !again {
        return;
      }
      s := Advance(s, part);
    }
    log := Before(log, Stopped(s, s.last));
  }

  // ---- what the loop guarantees --------------------------------------------

  predicate Transient(o: Outcome) {
    o.TimedOut? || o.TransportError? || (o.Responded? && o.status == 503) || Lost(o)
  }

  predicate Predicted(o: Outcome) {
    o.Responded? && 200 <= o.status < 300 && o.parses
  }

  lemma OneAttempt(c: Call, s: Cursor)
    ensures var (part, again) := One(c, s);
            && part.posts == [s.now] && part.took == [c.env(s.attempt).elapsed]
            && part.finished == s.now + part.took[0]
            && part.losses <= 1 && (part.losses == 1 && s.lostOnce ==> !again)
            && (again ==> Transient(c.env(s.attempt).outcome))
            && (!again ==> (part.result.answer.Prediction? <==> Predicted(c.env(s.attempt).outcome)))
            && (again ==> s.attempt < c.retries && part.finished + Backoff(s.attempt) + MIN_ATTEMPT_SECONDS < c.d.at)
  {
  }

  /** The backoff doubles from a tenth of a second. */
  lemma BackoffDoubles(n: nat)
    ensures Backoff(0) == 0.1 && Backoff(n + 1) == 2.0 * Backoff(n)
  {
    assert Pow2(n + 1) == 2 * Pow2(n);
  }

  /** A turn of the loop starts at this time with this many tokens, a replica lost before or not. */
  datatype Point = Point(now: real, tokens: real, lost: bool)

  /** Where a call stands after `j` failed attempts, each paid for with a token and followed by a backoff. */
  function PointAt(c: Call, s: Cursor, j: nat): Point {
    if j == 0 then Point(s.now, s.tokens, s.lostOnce)
    else
      var p, t := PointAt(c, s, j - 1), c.env(s.attempt + j - 1);
      Point(p.now + t.elapsed + Backoff(s.attempt + j - 1), Max(0.0, c.b.Run(p.tokens, t.others) - 1.0),
            p.lost || (t.outcome.Responded? && t.outcome.status == 500 && !t.outcome.json))
  }

  /** Attempt `k` may be made again: it timed out before the deadline, another transport error ended it, a replica
      was overloaded or, for the first time, lost; an attempt is left; and there is time for the backoff and a
      twentieth of a second. */
  predicate MayGoAgain(c: Call, k: nat, p: Point) {
    var t := c.env(k);
    var after := p.now + t.elapsed;
    && match t.outcome {
         case TimedOut => after < c.d.at
         case TransportError => true
         case Crashed => false
         case Responded(status, json, _) => status == 503 || (status == 500 && !json && !p.lost)
       }
    && k < c.retries
    && after + Backoff(k) + 0.05 < c.d.at
  }

  /** And after this failure more than half of the tokens are left. */
  predicate WorthAnother(c: Call, k: nat, p: Point) {
    MayGoAgain(c, k, p) && c.b.Run(p.tokens, c.env(k).others) - 1.0 > c.b.maxTokens / 2.0
  }

  /** The loop goes round again exactly when the attempt is worth another. */
  lemma GoesRoundIff(c: Call, s: Cursor)
    requires c.b.Valid()
    ensures One(c, s).1 <==> WorthAnother(c, s.attempt, PointAt(c, s, 0))
    ensures One(c, s).1 ==>
              var next := Advance(s, One(c, s).0);
              next.attempt == s.attempt + 1 && PointAt(c, next, 0) == PointAt(c, s, 1)
  {
  }

  /** What one attempt answers, and what it does to the bucket, outcome by outcome. */
  lemma AttemptAnswers(c: Call, s: Cursor)
    ensures
      var t, part := c.env(s.attempt), One(c, s).0;
      var o, answer, late := t.outcome, part.result.answer, c.d.at <= s.now + t.elapsed;
      && (o.TimedOut? ==> answer == if late then DeadlineExceeded else InferenceFailed(Transport))
      && (o.TransportError? ==> answer == InferenceFailed(Transport))
      && (o.Crashed? ==> answer == InferenceFailed(Pipeline))
      && (o.Responded? ==>
            && (o.status == 503 ==> answer == Overloaded)
            && (o.status == 500 && !o.json ==> answer == InferenceFailed(ReplicaLost))
            && (o.status == 404 ==> answer == ModelNotFound)
            && (o.status == 400 ==> answer == ValidationError)
            && (o.status == 504 ==> answer == if late then DeadlineExceeded else InferenceFailed(Timeout))
            && (200 <= o.status < 300 ==> answer == if o.parses then Prediction else InferenceFailed(Protocol))
            && (o.status !in {400, 404, 503, 504} && !(200 <= o.status < 300) && !(o.status == 500 && !o.json) ==>
                  answer == InferenceFailed(Model)))
    ensures
      var t, part := c.env(s.attempt), One(c, s).0;
      var o, seen := t.outcome, c.b.Run(s.tokens, t.others);
      part.tokens ==
      if o.Crashed? then seen
      else if o.Responded? && o.status != 503 && !(o.status == 500 && !o.json) then
        Min(c.b.maxTokens, seen + c.b.ratio)
      else Max(0.0, seen - 1.0)
  {
  }

  /** The answer says that the retry budget was spent exactly when nothing but the tokens kept the loop from going
      round again. */
  lemma BudgetSpentIff(c: Call, s: Cursor)
    requires c.b.Valid()
    ensures var (part, again) := One(c, s);
            !again ==> (part.result.budgetSpent <==> MayGoAgain(c, s.attempt, PointAt(c, s, 0)))
  {
  }

  lemma {:induction false} PointsMove(c: Call, s: Cursor, j: nat)
    requires c.b.Valid() && One(c, s).1
    ensures PointAt(c, Advance(s, One(c, s).0), j) == PointAt(c, s, j + 1)
  {
    GoesRoundIff(c, s);
    if j > 0 {
      PointsMove(c, s, j - 1);
    }
  }

  predicate WorthAt(c: Call, s: Cursor, j: nat) { WorthAnother(c, s.attempt + j, PointAt(c, s, j)) }

  /** The first `k` attempts from the cursor on are each worth another. */
  predicate AllWorthAnother(c: Call, s: Cursor, k: nat) {
    forall j: nat | j < k :: WorthAt(c, s, j)
  }

  lemma AllButTheFirst(c: Call, s: Cursor, k: nat)
    requires c.b.Valid() && One(c, s).1 && k > 0
    ensures AllWorthAnother(c, s, k) <==> AllWorthAnother(c, Advance(s, One(c, s).0), k - 1)
  {
    var next := Advance(s, One(c, s).0);
    GoesRoundIff(c, s);
    assert WorthAt(c, s, 0);
    forall j: nat
      ensures WorthAt(c, next, j) == WorthAt(c, s, j + 1)
    {
      PointsMove(c, s, j);
    }
    if AllWorthAnother(c, next, k - 1) {
      forall j: nat | j < k
        ensures WorthAt(c, s, j)
      {
        assert j > 0 ==> WorthAt(c, next, j - 1);
      }
    }
  }

  lemma OneOrMore(c: Call, s: Cursor)
    requires s.attempt <= c.retries && !c.d.Expired(s.now)
    ensures var (part, again) := One(c, s);
            |Go(c, s).posts| == 1 + if again then |Go(c, Advance(s, part)).posts| else 0
    ensures One(c, s).1 ==> var next := Advance(s, One(c, s).0); next.attempt <= c.retries && next.now < c.d.at
  {
    OneAttempt(c, s);
  }

  /** A call makes more than `k` POSTs exactly when it can begin and its first `k` attempts were each worth
      another. */
  lemma {:induction false} PostsIff(c: Call, s: Cursor, k: nat)
    requires c.b.Valid()
    ensures |Go(c, s).posts| > k <==> s.attempt <= c.retries && s.now < c.d.at && AllWorthAnother(c, s, k)
    decreases k
  {
    if s.attempt <= c.retries && s.now < c.d.at {
      OneOrMore(c, s);
      if k > 0 {
        if One(c, s).1 {
          PostsIff(c, Advance(s, One(c, s).0), k - 1);
          AllButTheFirst(c, s, k);
        } else {
          GoesRoundIff(c, s);
          assert !WorthAt(c, s, 0);
        }
      }
    }
  }

  /** The loop's variables at attempt `j` from the cursor on, if it is come to. */
  function CursorAt(c: Call, s: Cursor, j: nat): Cursor {
    var p := PointAt(c, s, j);
    Cursor(p.tokens, p.now, s.attempt + j, p.lost, s.last)
  }

  /** The log ends like this attempt. */
  predicate EndsLike(log: Log, last: Log) {
    log.result == last.result && log.finished == last.finished && log.tokens == last.tokens
  }

  lemma EndsLikeTheRest(c: Call, s: Cursor)
    requires s.attempt <= c.retries && !c.d.Expired(s.now)
    ensures var (part, again) := One(c, s);
            EndsLike(Go(c, s), if again then Go(c, Advance(s, part)) else part)
  {
  }

  /** The answer so far does not matter to an attempt. */
  lemma OneIgnoresTheAnswerSoFar(c: Call, s: Cursor, last: Result)
    ensures One(c, s.(last := last)) == One(c, s)
  {
  }

  lemma SameAttempt(c: Call, s: Cursor, k: nat)
    requires c.b.Valid() && One(c, s).1 && k > 0
    ensures One(c, CursorAt(c, Advance(s, One(c, s).0), k - 1)) == One(c, CursorAt(c, s, k))
  {
    var next := Advance(s, One(c, s).0);
    PointsMove(c, s, k - 1);
    assert CursorAt(c, next, k - 1) == CursorAt(c, s, k).(last := next.last);
    OneIgnoresTheAnswerSoFar(c, CursorAt(c, s, k), next.last);
  }

  lemma EndsAtOnce(c: Call, s: Cursor)
    requires s.attempt <= c.retries && !c.d.Expired(s.now) && !One(c, s).1
    ensures EndsLike(Go(c, s), One(c, CursorAt(c, s, 0)).0)
  {
    assert CursorAt(c, s, 0) == s;
  }

  lemma EndsLater(c: Call, s: Cursor, k: nat)
    requires c.b.Valid() && s.attempt <= c.retries && !c.d.Expired(s.now) && One(c, s).1 && k > 0
    requires var next := Advance(s, One(c, s).0); EndsLike(Go(c, next), One(c, CursorAt(c, next, k - 1)).0)
    ensures EndsLike(Go(c, s), One(c, CursorAt(c, s, k)).0)
  {
    EndsLikeTheRest(c, s);
    SameAttempt(c, s, k);
  }

  lemma PostsLeft(c: Call, s: Cursor, k: nat)
    requires |Go(c, s).posts| == k + 1
    ensures s.attempt <= c.retries && !c.d.Expired(s.now)
    ensures if One(c, s).1 then k > 0 && |Go(c, Advance(s, One(c, s).0)).posts| == k else k == 0
  {
    OneOrMore(c, s);
    if One(c, s).1 {
      FirstPost(c, Advance(s, One(c, s).0));
    }
  }

  /** A call that posts ends with what its last attempt answers, and then. */
  lemma {:induction false} LastAttemptAnswers(c: Call, s: Cursor, k: nat)
    requires c.b.Valid() && |Go(c, s).posts| == k + 1
    ensures EndsLike(Go(c, s), One(c, CursorAt(c, s, k)).0)
    decreases k
  {
    PostsLeft(c, s, k);
    if One(c, s).1 {
      LastAttemptAnswers(c, Advance(s, One(c, s).0), k - 1);
      EndsLater(c, s, k);
    } else {
      EndsAtOnce(c, s);
    }
  }

  /** One that cannot begin answers at once. */
  lemma NoAttempt(c: Call, s: Cursor)
    requires Go(c, s).posts == []
    ensures Go(c, s).result == if s.attempt > c.retries then s.last else Result(DeadlineExceeded, false)
    ensures s.attempt > c.retries || c.d.at <= s.now
    ensures Go(c, s).finished == s.now && Go(c, s).tokens == s.tokens
  {
  }

  lemma PostsAre(c: Call, s: Cursor, k: nat)
    requires c.b.Valid() && s.attempt <= c.retries && s.now < c.d.at
    requires AllWorthAnother(c, s, k) && !WorthAt(c, s, k)
    ensures |Go(c, s).posts| == k + 1
  {
    PostsIff(c, s, k);
    PostsIff(c, s, k + 1);
  }

  lemma PredictionsEndIt(c: Call, s: Cursor, k: nat)
    requires var o := c.env(s.attempt + k).outcome; o.Responded? && 200 <= o.status < 300 && o.parses
    ensures One(c, CursorAt(c, s, k)).0.result.answer == Prediction && !WorthAt(c, s, k)
  {
  }

  /** The call makes `k + 1` POSTs and answers like the attempt at this cursor. */
  ghost predicate EndsAt(c: Call, s: Cursor, k: nat, last: Cursor) {
    |Go(c, s).posts| == k + 1 && EndsLike(Go(c, s), One(c, last).0)
  }

  lemma EndsWhereNotWorthAnother(c: Call, s: Cursor, k: nat)
    requires c.b.Valid() && s.attempt <= c.retries && s.now < c.d.at
    requires AllWorthAnother(c, s, k) && !WorthAt(c, s, k)
    ensures EndsAt(c, s, k, CursorAt(c, s, k))
  {
    PostsAre(c, s, k);
    LastAttemptAnswers(c, s, k);
  }

  /** So one whose first `k` attempts are each worth another, and whose next one brings a prediction, answers with
      it after `k + 1` POSTs. */
  lemma RetriesReachThePrediction(c: Call, s: Cursor, k: nat)
    requires c.b.Valid() && s.attempt <= c.retries && s.now < c.d.at && AllWorthAnother(c, s, k)
    requires var o := c.env(s.attempt + k).outcome; o.Responded? && 200 <= o.status < 300 && o.parses
    ensures |Go(c, s).posts| == k + 1 && Go(c, s).result.answer == Prediction
  {
    PredictionsEndIt(c, s, k);
    EndsWhereNotWorthAnother(c, s, k);
  }

  ghost predicate TakesTime(env: nat -> Try) {
    forall k :: env(k).elapsed >= 0.0
  }

  /** For every sequence of outcomes: at most `retries + 1` POSTs, every one before the deadline, and at
      most two lost-replica answers taken. */
  lemma {:induction false} AttemptsAreBounded(c: Call, s: Cursor)
    requires TakesTime(c.env)
    ensures var log := Go(c, s);
            && |log.posts| == |log.took|
            && |log.posts| <= (if s.attempt <= c.retries then c.retries + 1 - s.attempt else 0)
            && (forall k | 0 <= k < |log.posts| :: s.now <= log.posts[k] < c.d.at)
            && log.losses <= (if s.lostOnce then 1 else 2)
    decreases c.retries + 1 - s.attempt
  {
    if s.attempt <= c.retries && !c.d.Expired(s.now) {
      var (part, again) := One(c, s);
      OneAttempt(c, s);
      if again {
        AttemptsAreBounded(c, Advance(s, part));
      }
    }
  }

  /** Every POST took no longer than the timeout it was given, the time then left. */
  predicate HonoursTimeouts(log: Log, d: Deadline) {
    |log.took| == |log.posts| && forall k | 0 <= k < |log.posts| :: log.took[k] <= d.at - log.posts[k]
  }

  /** If every POST honours its timeout, the call returns by the deadline (or at once, when the deadline
      had passed already). */
  lemma {:induction false} ReturnsByTheDeadline(c: Call, s: Cursor)
    requires HonoursTimeouts(Go(c, s), c.d)
    ensures Go(c, s).finished <= Max(s.now, c.d.at)
    decreases c.retries + 1 - s.attempt
  {
    if s.attempt <= c.retries && !c.d.Expired(s.now) {
      var (part, again) := One(c, s);
      OneAttempt(c, s);
      var log := Go(c, s);
      assert log.posts[0] == s.now && log.took[0] == part.took[0];
      if again {
        var rest := Go(c, Advance(s, part));
        HonouredTail(part, rest, c.d);
        ReturnsByTheDeadline(c, Advance(s, part));
      }
    }
  }

  lemma HonouredTail(first: Log, rest: Log, d: Deadline)
    requires |first.posts| == |first.took| == 1 && HonoursTimeouts(Before(first, rest), d)
    ensures HonoursTimeouts(rest, d)
  {
    var log := Before(first, rest);
    assert |rest.took| == |rest.posts|;
    forall k | 0 <= k < |rest.posts|
      ensures rest.took[k] <= d.at - rest.posts[k]
    {
      assert log.posts[k + 1] == rest.posts[k] && log.took[k + 1] == rest.took[k];
    }
  }

  /** POST `k + 1` retries a transient failure, exactly one doubling backoff later, with room left. */
  predicate RetriesAt(c: Call, first: nat, log: Log, k: nat)
    requires |log.posts| == |log.took| && k + 1 < |log.posts|
  {
    && Transient(c.env(first + k).outcome)
    && log.posts[k + 1] == log.posts[k] + log.took[k] + Backoff(first + k)
    && log.posts[k + 1] + MIN_ATTEMPT_SECONDS < c.d.at
  }

  lemma BeforeShifts(first: Log, rest: Log, k: nat)
    requires |first.posts| == |first.took| == 1 && |rest.posts| == |rest.took| && k < |rest.posts|
    ensures var log := Before(first, rest);
            && |log.posts| == |log.took| == |rest.posts| + 1
            && log.posts[k + 1] == rest.posts[k] && log.took[k + 1] == rest.took[k]
  {
  }

  lemma LaterRetries(c: Call, attempt: nat, first: Log, rest: Log, k: nat)
    requires |first.posts| == |first.took| == 1 && |rest.posts| == |rest.took| && k + 1 < |rest.posts|
    requires RetriesAt(c, attempt + 1, rest, k)
    ensures var log := Before(first, rest);
            |log.posts| == |log.took| && k + 2 < |log.posts| && RetriesAt(c, attempt, log, k + 1)
  {
    BeforeShifts(first, rest, k);
    BeforeShifts(first, rest, k + 1);
    assert attempt + 1 + k == attempt + (k + 1);
  }

  lemma FirstRetry(c: Call, s: Cursor)
    requires s.attempt <= c.retries && !c.d.Expired(s.now) && One(c, s).1
    requires var rest := Go(c, Advance(s, One(c, s).0)); |rest.posts| == |rest.took| && rest.posts != []
    ensures var log := Before(One(c, s).0, Go(c, Advance(s, One(c, s).0)));
            |log.posts| == |log.took| && 1 < |log.posts| && RetriesAt(c, s.attempt, log, 0)
  {
    OneAttempt(c, s);
    FirstPost(c, Advance(s, One(c, s).0));
  }

  predicate AllRetries(c: Call, first: nat, log: Log) {
    |log.posts| == |log.took| && forall k: nat | k + 1 < |log.posts| :: RetriesAt(c, first, log, k)
  }

  lemma RetriesOfBoth(c: Call, attempt: nat, first: Log, rest: Log)
    requires |first.posts| == |first.took| == 1 && AllRetries(c, attempt + 1, rest)
    requires var log := Before(first, rest); |log.posts| > 1 ==> RetriesAt(c, attempt, log, 0)
    ensures AllRetries(c, attempt, Before(first, rest))
  {
    var log := Before(first, rest);
    forall k: nat | k + 1 < |log.posts|
      ensures RetriesAt(c, attempt, log, k)
    {
      if k > 0 {
        LaterRetries(c, attempt, first, rest, k - 1);
      }
    }
  }

  /** Only transient failures are retried. */
  lemma {:induction false} OnlyTransientFailuresAreRetried(c: Call, s: Cursor)
    requires TakesTime(c.env)
    ensures AllRetries(c, s.attempt, Go(c, s))
    decreases c.retries + 1 - s.attempt
  {
    if s.attempt <= c.retries && !c.d.Expired(s.now) {
      var (part, again) := One(c, s);
      OneAttempt(c, s);
      if again {
        var next := Advance(s, part);
        OnlyTransientFailuresAreRetried(c, next);
        if Go(c, next).posts != [] {
          FirstRetry(c, s);
        }
        RetriesOfBoth(c, s.attempt, part, Go(c, next));
      }
    }
  }

  predicate EndsInItsLastPost(env: nat -> Try, from: nat, log: Log) {
    log.result.answer.Prediction? <==> log.posts != [] && Predicted(env(from + |log.posts| - 1).outcome)
  }

  lemma LastOfBefore(env: nat -> Try, from: nat, first: Log, rest: Log)
    requires |first.posts| == 1 && !Predicted(env(from).outcome) && EndsInItsLastPost(env, from + 1, rest)
    ensures EndsInItsLastPost(env, from, Before(first, rest))
  {
  }

  /** The call answers with a prediction exactly when its last POST brought one. */
  lemma {:induction false} PredictionIffTheLastPostBroughtIt(c: Call, s: Cursor)
    requires !s.last.answer.Prediction?
    ensures EndsInItsLastPost(c.env, s.attempt, Go(c, s))
    decreases c.retries + 1 - s.attempt
  {
    if s.attempt <= c.retries && !c.d.Expired(s.now) {
      var (part, again) := One(c, s);
      OneAttempt(c, s);
      if again {
        var rest := Go(c, Advance(s, part));
        PredictionIffTheLastPostBroughtIt(c, Advance(s, part));
        FirstPost(c, Advance(s, part));
        LastOfBefore(c.env, s.attempt, part, rest);
      }
    }
  }

  lemma FirstPost(c: Call, s: Cursor)
    ensures Go(c, s).posts != [] ==> Go(c, s).posts[0] == s.now
    ensures s.attempt <= c.retries && !c.d.Expired(s.now) ==> Go(c, s).posts != []
  {
  }

  // ---- many requests at once -----------------------------------------------

  /** The steps a request may take: send; a failure that asks may be followed by another send. */
  predicate FollowsProtocol(steps: seq<Step>) {
    steps == [] ||
    (|steps| == 2 && steps[0].Sent? && !steps[1].Sent?) ||
    (|steps| > 2 && steps[0].Sent? && steps[1] == Judged(Failed(true)) && FollowsProtocol(steps[2..]))
  }

  lemma {:induction false} AttemptsFollowTheProtocol(c: Call, s: Cursor)
    ensures FollowsProtocol(Go(c, s).steps)
    decreases c.retries + 1 - s.attempt
  {
    if s.attempt <= c.retries && !c.d.Expired(s.now) {
      var (part, again) := One(c, s);
      if again {
        AttemptsFollowTheProtocol(c, Advance(s, part));
        var rest := Go(c, Advance(s, part)).steps;
        assert (part.steps + rest)[2..] == rest;
        assert rest == [] ==> part.steps + rest == part.steps;
      }
    }
  }

  datatype Phase = InFlight | MayRetry | Over

  /** Every request of one process, by number, and the bucket they share. */
  datatype Fleet = Fleet(phases: map<nat, Phase>, tokens: real)

  datatype FleetEvent = FleetEvent(request: nat, step: Step)

  predicate Enabled(f: Fleet, e: FleetEvent) {
    if e.step.Sent? then e.request !in f.phases || f.phases[e.request].MayRetry?
    else e.request in f.phases && f.phases[e.request].InFlight?
  }

  /** A judgement touches the bucket and asks it in one step: the code does not await in between. */
  function Apply(b: Bucket, f: Fleet, e: FleetEvent): Fleet {
    match e.step
    case Sent => f.(phases := f.phases[e.request := InFlight])
    case Dropped => f.(phases := f.phases[e.request := Over])
    case Judged(event) =>
      Fleet(f.phases[e.request := if b.Grants(f.tokens, event) then MayRetry else Over], b.Next(f.tokens, event))
  }

  /** A request that was dropped, or judged without a retry granted, takes no further step; one that was granted a
      retry can only send. */
  lemma WhatMayFollow(b: Bucket, f: Fleet, e: FleetEvent, step: Step)
    requires Enabled(f, e) && !e.step.Sent?
    ensures Enabled(Apply(b, f, e), FleetEvent(e.request, step)) <==>
            step.Sent? && e.step.Judged? && b.Grants(f.tokens, e.step.event)
  {
  }

  predicate Run(b: Bucket, f: Fleet, events: seq<FleetEvent>)
    decreases |events|
  {
    events == [] || (Enabled(f, events[0]) && Run(b, Apply(b, f, events[0]), events[1..]))
  }

  function BudgetEvents(events: seq<FleetEvent>): seq<BudgetEvent> {
    if events == [] then []
    else (if events[0].step.Judged? then [events[0].step.event] else []) + BudgetEvents(events[1..])
  }

  function Posts(events: seq<FleetEvent>): nat {
    if events == [] then 0 else (if events[0].step.Sent? then 1 else 0) + Posts(events[1..])
  }

  /** Requests whose first POST falls in the window. */
  function Begun(b: Bucket, f: Fleet, events: seq<FleetEvent>): nat
    decreases |events|
  {
    if events == [] then 0
    else (if events[0].step.Sent? && events[0].request !in f.phases then 1 else 0) +
         Begun(b, Apply(b, f, events[0]), events[1..])
  }

  function Requests(events: seq<FleetEvent>): set<nat> {
    if events == [] then {} else Requests(events[1..]) + {events[0].request}
  }

  lemma OneMoreRequest(later: set<nat>, known: set<nat>, r: nat)
    ensures |(later + {r}) - known| == |later - (known + {r})| + if r in known then 0 else 1
  {
    assert (later + {r}) - known == (later - (known + {r})) + if r in known then {} else {r};
  }

  lemma ApplyKnows(b: Bucket, f: Fleet, e: FleetEvent)
    requires Enabled(f, e)
    ensures Apply(b, f, e).phases.Keys == f.phases.Keys + {e.request}
    ensures e.request !in f.phases.Keys ==> e.step.Sent?
  {
  }

  lemma BegunStep(b: Bucket, f: Fleet, events: seq<FleetEvent>)
    requires events != [] && Run(b, f, events)
    ensures var g := Apply(b, f, events[0]);
            && Run(b, g, events[1..]) && g.phases.Keys == f.phases.Keys + {events[0].request}
            && Begun(b, f, events) ==
               Begun(b, g, events[1..]) + if events[0].request in f.phases.Keys then 0 else 1
  {
    ApplyKnows(b, f, events[0]);
  }

  /** The requests begun in a run are those of its events that were not there before. */
  lemma {:induction false} BegunAreCounted(b: Bucket, f: Fleet, events: seq<FleetEvent>, known: set<nat>)
    requires Run(b, f, events) && known == f.phases.Keys
    ensures Begun(b, f, events) == |Requests(events) - known|
    decreases |events|
  {
    if events == [] {
      NoneBegun(known);
    } else {
      var r := events[0].request;
      BegunStep(b, f, events);
      BegunAreCounted(b, Apply(b, f, events[0]), events[1..], known + {r});
      OneMoreRequest(Requests(events[1..]), known, r);
    }
  }

  lemma NoneBegun(known: set<nat>)
    ensures |Requests([]) - known| == 0
  {
    assert Requests([]) - known == {};
  }

  lemma {:induction false} PostsOfBoth(a: seq<FleetEvent>, b: seq<FleetEvent>)
    ensures Posts(a + b) == Posts(a) + Posts(b)
  {
    if a == [] {
      assert a + b == b;
    } else {
      assert (a + b)[1..] == a[1..] + b;
      PostsOfBoth(a[1..], b);
    }
  }

  predicate Sends(e: FleetEvent) { e.step == Sent }

  lemma {:induction false} PostsAreCounted(events: seq<FleetEvent>)
    ensures Posts(events) == Many(events, Sends)
  {
    if events == [] {
      NoneOfNone(Sends);
    } else {
      var init, last := events[..|events| - 1], events[|events| - 1];
      PostsAreCounted(init);
      assert events == init + [last];
      PostsOfBoth(init, [last]);
      PostsOfOne(last);
      ManyOfMore(init, last, Sends);
    }
  }

  lemma PostsOfOne(e: FleetEvent)
    ensures Posts([e]) == if e.step.Sent? then 1 else 0
  {
    assert [e][1..] == [];
  }

  function Waiting(f: Fleet): set<nat> {
    set r <- f.phases | f.phases[r].MayRetry?
  }

  /** A POST is a request's first or spends a granted retry. */
  lemma {:induction false} PostsAreAccountedFor(b: Bucket, f: Fleet, events: seq<FleetEvent>)
    requires Run(b, f, events)
    ensures Posts(events) <= Begun(b, f, events) + |Waiting(f)| + b.Granted(f.tokens, BudgetEvents(events))
    decreases |events|
  {
    if events != [] {
      var e, g := events[0], Apply(b, f, events[0]);
      PostsAreAccountedFor(b, g, events[1..]);
      if e.step.Sent? && e.request in f.phases {
        assert Waiting(f) == Waiting(g) + {e.request};
      } else if e.step.Judged? && b.Grants(f.tokens, e.step.event) {
        assert Waiting(g) == Waiting(f) + {e.request};
      } else {
        assert Waiting(g) == Waiting(f);
      }
      if e.step.Judged? {
        assert BudgetEvents(events)[1..] == BudgetEvents(events[1..]);
      } else {
        assert BudgetEvents(events) == BudgetEvents(events[1..]);
      }
    }
  }

  /** Retries do not amplify an outage: over any window of any interleaving of requests, the POSTs stay
      below the requests begun or already granted a retry, plus half the bucket, plus `ratio` for every
      attempt answered in the window. */
  lemma LoadIsNotAmplified(b: Bucket, f: Fleet, events: seq<FleetEvent>)
    requires b.Valid() && b.Holds(f.tokens) && Run(b, f, events)
    ensures Posts(events) as real <
            (Begun(b, f, events) + |Waiting(f)|) as real + b.maxTokens / 2.0 + Refill(b.ratio, BudgetEvents(events))
  {
    PostsAreAccountedFor(b, f, events);
    RetriesAreThrottled(b, f.tokens, BudgetEvents(events));
  }

  // ---- the calls of one process --------------------------------------------

  /** A call between two POSTs, with a POST under way, or done. */
  datatype Thread = Ready(s: Cursor) | Flying(s: Cursor) | Done

  /** The calls of the process by number, and the bucket they share. */
  datatype Process = Process(threads: map<nat, Thread>, tokens: real)

  /** A call arrives, posts, is judged, or stops before another POST. */
  datatype Move = Arrive(call: nat, now: real) | Post(call: nat) | Land(call: nat) | Stop(call: nat)

  predicate Possible(calls: nat -> Call, p: Process, m: Move) {
    if m.Arrive? then m.call !in p.threads
    else
      m.call in p.threads &&
      var t, c := p.threads[m.call], calls(m.call);
      if m.Land? then t.Flying? else t.Ready? && (m.Post? <==> t.s.attempt <= c.retries && !c.d.Expired(t.s.now))
  }

  /** What the loop body does when it is judged with these tokens in the bucket, nobody else in between. */
  function Judging(c: Call, s: Cursor, tokens: real): (Log, bool) {
    One(c.(env := (k: nat) => c.env(k).(others := [])), s.(tokens := tokens))
  }

  /** The loop body depends on other requests only through the tokens it finds. */
  lemma OneIsJudging(c: Call, s: Cursor)
    ensures One(c, s) == Judging(c, s, c.b.Run(s.tokens, c.env(s.attempt).others))
  {
  }

  function Moved(calls: nat -> Call, p: Process, m: Move): Process
    requires Possible(calls, p, m)
  {
    match m
    case Arrive(r, now) => p.(threads := p.threads[r := Ready(Start(p.tokens, now))])
    case Post(r) => p.(threads := p.threads[r := Flying(p.threads[r].s)])
    case Stop(r) => p.(threads := p.threads[r := Done])
    case Land(r) =>
      var s := p.threads[r].s;
      var (part, again) := Judging(calls(r), s, p.tokens);
      Process(p.threads[r := if again then Ready(Advance(s, part)) else Done], part.tokens)
  }

  predicate Moves(calls: nat -> Call, p: Process, run: seq<Move>)
    decreases |run|
  {
    run == [] || (Possible(calls, p, run[0]) && Moves(calls, Moved(calls, p, run[0]), run[1..]))
  }

  /** What the fleet sees of a move. */
  function StepOf(calls: nat -> Call, p: Process, m: Move): seq<FleetEvent>
    requires Possible(calls, p, m)
  {
    match m
    case Post(r) => [FleetEvent(r, Sent)]
    case Land(r) => [FleetEvent(r, Judging(calls(r), p.threads[r].s, p.tokens).0.steps[1])]
    case _ => []
  }

  function StepsOf(calls: nat -> Call, p: Process, run: seq<Move>): seq<FleetEvent>
    requires Moves(calls, p, run)
    decreases |run|
  {
    if run == [] then [] else StepOf(calls, p, run[0]) + StepsOf(calls, Moved(calls, p, run[0]), run[1..])
  }

  /** Between POSTs a call has none yet, or a granted retry; during one it is in flight. */
  ghost predicate Matches(p: Process, f: Fleet) {
    && p.tokens == f.tokens
    && (forall r <- f.phases :: r in p.threads)
    && (forall r <- p.threads ::
          match p.threads[r]
          case Ready(s) => if s.attempt == 0 then r !in f.phases else r in f.phases && f.phases[r].MayRetry?
          case Flying(_) => r in f.phases && f.phases[r].InFlight?
          case Done => true)
  }

  lemma JudgingGrants(c: Call, s: Cursor, tokens: real)
    ensures var (part, again) := Judging(c, s, tokens);
            && |part.steps| == 2 && part.steps[0] == Sent && !part.steps[1].Sent?
            && part.tokens == (if part.steps[1].Judged? then c.b.Next(tokens, part.steps[1].event) else tokens)
            && (again <==> part.steps[1].Judged? && c.b.Grants(tokens, part.steps[1].event))
  {
  }

  lemma MoveMatches(b: Bucket, calls: nat -> Call, p: Process, m: Move, f: Fleet)
    requires (forall r :: calls(r).b == b) && Possible(calls, p, m) && Matches(p, f)
    ensures
      var events := StepOf(calls, p, m);
      && (events == [] ==> Matches(Moved(calls, p, m), f))
      && (events != [] ==> |events| == 1 && Enabled(f, events[0]) &&
                           Matches(Moved(calls, p, m), Apply(b, f, events[0])))
  {
    if m.Land? {
      JudgingGrants(calls(m.call), p.threads[m.call].s, p.tokens);
    }
  }

  /** Every interleaving of calls, each running the loop, is a run of the fleet. */
  lemma {:induction false} CallsAreAFleet(b: Bucket, calls: nat -> Call, p: Process, run: seq<Move>, f: Fleet)
    requires (forall r :: calls(r).b == b) && Moves(calls, p, run) && Matches(p, f)
    ensures Run(b, f, StepsOf(calls, p, run))
    decreases |run|
  {
    if run != [] {
      var m, q := run[0], Moved(calls, p, run[0]);
      var first, rest := StepOf(calls, p, m), StepsOf(calls, q, run[1..]);
      MoveMatches(b, calls, p, m, f);
      if first == [] {
        CallsAreAFleet(b, calls, q, run[1..], f);
        assert first + rest == rest;
      } else {
        CallsAreAFleet(b, calls, q, run[1..], Apply(b, f, first[0]));
        assert (first + rest)[1..] == rest;
      }
    }
  }

  /** The moves of a call that is alone from here on. */
  function Alone(c: Call, r: nat, s: Cursor): seq<Move>
    decreases c.retries + 1 - s.attempt
  {
    if s.attempt > c.retries || c.d.Expired(s.now) then [Stop(r)]
    else
      var (part, again) := Judging(c, s, s.tokens);
      [Post(r), Land(r)] + if again then Alone(c, r, Advance(s, part)) else []
  }

  function Undisturbed(c: Call): Call { c.(env := (k: nat) => c.env(k).(others := [])) }

  function Tagged(r: nat, steps: seq<Step>): (events: seq<FleetEvent>)
    ensures |events| == |steps| && forall i | 0 <= i < |events| :: events[i] == FleetEvent(r, steps[i])
  {
    seq(|steps|, i requires 0 <= i < |steps| => FleetEvent(r, steps[i]))
  }

  function Finally(calls: nat -> Call, p: Process, run: seq<Move>): Process
    requires Moves(calls, p, run)
    decreases |run|
  {
    if run == [] then p else Finally(calls, Moved(calls, p, run[0]), run[1..])
  }

  lemma OneMove(calls: nat -> Call, p: Process, a: Move, rest: seq<Move>)
    requires Possible(calls, p, a) && Moves(calls, Moved(calls, p, a), rest)
    ensures
      var q := Moved(calls, p, a);
      && Moves(calls, p, [a] + rest) && Finally(calls, p, [a] + rest) == Finally(calls, q, rest)
      && StepsOf(calls, p, [a] + rest) == StepOf(calls, p, a) + StepsOf(calls, q, rest)
  {
    assert ([a] + rest)[1..] == rest;
  }

  lemma TwoMoves(calls: nat -> Call, p: Process, a: Move, b: Move, rest: seq<Move>)
    requires Possible(calls, p, a) && Possible(calls, Moved(calls, p, a), b)
    requires Moves(calls, Moved(calls, Moved(calls, p, a), b), rest)
    ensures
      var q := Moved(calls, Moved(calls, p, a), b);
      && Moves(calls, p, [a, b] + rest) && Finally(calls, p, [a, b] + rest) == Finally(calls, q, rest)
      && StepsOf(calls, p, [a, b] + rest) ==
         StepOf(calls, p, a) + StepOf(calls, Moved(calls, p, a), b) + StepsOf(calls, q, rest)
  {
    OneMove(calls, Moved(calls, p, a), b, rest);
    OneMove(calls, p, a, [b] + rest);
    assert [a, b] + rest == [a] + ([b] + rest);
  }

  /** One turn of a call that is alone. */
  lemma OneTurn(calls: nat -> Call, p: Process, r: nat, s: Cursor)
    requires r in p.threads && p.threads[r] == Ready(s) && p.tokens == s.tokens
    requires s.attempt <= calls(r).retries && !calls(r).d.Expired(s.now)
    ensures
      var (part, again) := Judging(calls(r), s, s.tokens);
      && Possible(calls, p, Post(r)) && Possible(calls, Moved(calls, p, Post(r)), Land(r))
      && Moved(calls, Moved(calls, p, Post(r)), Land(r)) ==
         Process(p.threads[r := if again then Ready(Advance(s, part)) else Done], part.tokens)
      && StepOf(calls, p, Post(r)) + StepOf(calls, Moved(calls, p, Post(r)), Land(r)) == Tagged(r, part.steps)
      && One(Undisturbed(calls(r)), s) == (part, again)
  {
    assert s.(tokens := s.tokens) == s;
    JudgingGrants(calls(r), s, s.tokens);
    var q := Moved(calls, p, Post(r));
    assert q.threads[r] == Flying(s) && q.threads[r := Done] == p.threads[r := Done];
  }

  lemma TaggedBoth(r: nat, a: seq<Step>, b: seq<Step>)
    ensures Tagged(r, a + b) == Tagged(r, a) + Tagged(r, b)
  {
  }

  /** The moves of a process are those of the loop: a call that is alone takes the steps of the whole call, leaves
      the tokens that it leaves, and is done. */
  lemma {:induction false} AloneIsTheCall(calls: nat -> Call, p: Process, r: nat, s: Cursor)
    requires r in p.threads && p.threads[r] == Ready(s) && p.tokens == s.tokens
    ensures
      var run, log := Alone(calls(r), r, s), Go(Undisturbed(calls(r)), s);
      && Moves(calls, p, run) && StepsOf(calls, p, run) == Tagged(r, log.steps)
      && Finally(calls, p, run) == Process(p.threads[r := Done], log.tokens)
    decreases calls(r).retries + 1 - s.attempt
  {
    var c := calls(r);
    if s.attempt > c.retries || c.d.Expired(s.now) {
      assert [Stop(r)][1..] == [];
    } else {
      var (part, again) := Judging(c, s, s.tokens);
      OneTurn(calls, p, r, s);
      var p2 := Moved(calls, Moved(calls, p, Post(r)), Land(r));
      var rest := if again then Alone(c, r, Advance(s, part)) else [];
      if again {
        AloneIsTheCall(calls, p2, r, Advance(s, part));
        TaggedBoth(r, part.steps, Go(Undisturbed(c), Advance(s, part)).steps);
      }
      TwoMoves(calls, p, Post(r), Land(r), rest);
      assert Alone(c, r, s) == [Post(r), Land(r)] + rest;
    }
  }

  /** From its arrival on. */
  lemma ACallAlone(calls: nat -> Call, p: Process, r: nat, now: real)
    requires r !in p.threads
    ensures
      var s := Cursor(p.tokens, now, 0, false, Result(InferenceFailed(Pipeline), false));
      var run, log := [Arrive(r, now)] + Alone(calls(r), r, s), Go(Undisturbed(calls(r)), s);
      && Moves(calls, p, run) && StepsOf(calls, p, run) == Tagged(r, log.steps)
      && Finally(calls, p, run) == Process(p.threads[r := Done], log.tokens)
  {
    var s := Start(p.tokens, now);
    var q := Moved(calls, p, Arrive(r, now));
    AloneIsTheCall(calls, q, r, s);
    OneMove(calls, p, Arrive(r, now), Alone(calls(r), r, s));
    assert q.threads[r := Done] == p.threads[r := Done];
  }

  /** So the calls of a process, from an empty start and whatever the outcomes, never post more than the
      requests begun plus half the bucket plus `ratio` for every answered attempt. */
  lemma CallsAreNotAmplified(b: Bucket, calls: nat -> Call, tokens: real, run: seq<Move>)
    requires b.Valid() && b.Holds(tokens) && forall r :: calls(r).b == b
    requires Moves(calls, Process(map[], tokens), run)
    ensures var events := StepsOf(calls, Process(map[], tokens), run);
            Posts(events) as real <
            Begun(b, Fleet(map[], tokens), events) as real + b.maxTokens / 2.0 + Refill(b.ratio, BudgetEvents(events))
  {
    var p, f := Process(map[], tokens), Fleet(map[], tokens);
    CallsAreAFleet(b, calls, p, run, f);
    assert Waiting(f) == {};
    LoadIsNotAmplified(b, f, StepsOf(calls, p, run));
  }
}
