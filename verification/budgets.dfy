/**
 Time and retry budgets of the inference path, `serving/budgets.py`.

 A deadline is a point on one process's clock; it crosses hops as whole milliseconds. A retry budget
 is a token bucket shared by every request of the process: a failed attempt takes one token, an
 answered one returns `ratio`, and a retry needs more than half of the tokens.
 */
module Budgets {
  import opened Wrappers

  function Max(x: real, y: real): real { if x >= y then x else y }

  function Min(x: real, y: real): real { if x <= y then x else y }

  // ---- deadlines -----------------------------------------------------------

  /** A received budget: absent or empty, not a number, or milliseconds. */
  datatype RawBudget = Absent | Malformed | Millis(ms: real)

  datatype Deadline = Deadline(at: real) {
    function Remaining(now: real): real { Max(0.0, at - now) }

    predicate Expired(now: real) { Remaining(now) <= 0.0 }

    /** What the next hop is told: the remaining time, floored to whole milliseconds. */
    function BudgetMs(now: real): (ms: nat)
      ensures ms as real <= Remaining(now) * 1000.0 < ms as real + 1.0
    {
      (Remaining(now) * 1000.0).Floor
    }
  }

  function After(seconds: real, now: real): Deadline { Deadline(now + Max(0.0, seconds)) }

  /** A missing or malformed budget gets the default, never no deadline; nothing exceeds the cap. */
  function FromBudget(raw: RawBudget, default: real, cap: real, now: real): (d: Deadline)
    ensures now <= d.at && d.at <= now + Max(0.0, cap)
  {
    After(Min(if raw.Millis? then raw.ms / 1000.0 else default, cap), now)
  }

  /** One hop: receive `ms`, spend `spent` seconds on this host, pass the rest on. The answer does not
      depend on the host's own clock. */
  function Hop(ms: nat, spent: real, cap: real): nat {
    FromBudget(Millis(ms as real), cap, cap, 0.0).BudgetMs(spent)
  }

  lemma HopIgnoresTheClock(ms: nat, spent: real, cap: real, default: real, now: real)
    ensures FromBudget(Millis(ms as real), default, cap, now).BudgetMs(now + spent) == Hop(ms, spent, cap)
  {
  }

  function Chain(ms: nat, spent: seq<real>, cap: real): nat
    decreases |spent|
  {
    if spent == [] then ms else Chain(Hop(ms, spent[0], cap), spent[1..], cap)
  }

  function Sum(xs: seq<real>): real {
    if xs == [] then 0.0 else xs[0] + Sum(xs[1..])
  }

  lemma OneHop(ms: nat, spent: real, cap: real)
    requires spent >= 0.0 && cap >= 0.0
    ensures Hop(ms, spent, cap) <= ms
    ensures Hop(ms, spent, cap) as real <= cap * 1000.0
    ensures Hop(ms, spent, cap) as real <= Max(0.0, ms as real - 1000.0 * spent)
    ensures ms as real <= cap * 1000.0 ==> Hop(ms, spent, cap) as real > ms as real - 1000.0 * spent - 1.0
  {
  }

  /** Along any chain of hops the budget never grows and never exceeds the cap, loses less than one
      millisecond per hop beyond the time spent on the hosts, and once spent stays spent. */
  lemma {:induction false} BudgetAlongHops(ms: nat, spent: seq<real>, cap: real)
    requires cap >= 0.0 && forall i | 0 <= i < |spent| :: spent[i] >= 0.0
    ensures Chain(ms, spent, cap) <= ms
    ensures spent != [] ==> Chain(ms, spent, cap) as real <= cap * 1000.0
    ensures Chain(ms, spent, cap) as real <= Max(0.0, ms as real - 1000.0 * Sum(spent))
    ensures spent != [] && ms as real <= cap * 1000.0 ==>
              Chain(ms, spent, cap) as real > ms as real - 1000.0 * Sum(spent) - |spent| as real
    ensures ms == 0 ==> Chain(ms, spent, cap) == 0
    decreases |spent|
  {
    if spent != [] {
      OneHop(ms, spent[0], cap);
      BudgetAlongHops(Hop(ms, spent[0], cap), spent[1..], cap);
    }
  }

  /** The milliseconds left after a hop, before they are floored. */
  function LeftAfter(ms: nat, spent: real, cap: real): real {
    Max(0.0, Min(ms as real, cap * 1000.0) - 1000.0 * spent)
  }

  predicate Whole(x: real) { x == x.Floor as real }

  /** A hop passes on less than what is left exactly when what is left is no whole number of milliseconds. */
  lemma HopErrsShortIff(ms: nat, spent: real, cap: real)
    requires spent >= 0.0 && cap >= 0.0
    ensures Hop(ms, spent, cap) == LeftAfter(ms, spent, cap).Floor
    ensures Hop(ms, spent, cap) as real < LeftAfter(ms, spent, cap) <==> !Whole(LeftAfter(ms, spent, cap))
  {
    var d := FromBudget(Millis(ms as real), cap, cap, 0.0);
    assert d.Remaining(spent) * 1000.0 == LeftAfter(ms, spent, cap);
  }

  /** A chain of hops passes on less than what is left exactly when something is left and some host spent no
      whole number of milliseconds. */
  lemma {:induction false} ChainErrsShortIff(ms: nat, spent: seq<real>, cap: real)
    requires cap >= 0.0 && ms as real <= cap * 1000.0 && forall i | 0 <= i < |spent| :: spent[i] >= 0.0
    ensures Chain(ms, spent, cap) as real < Max(0.0, ms as real - 1000.0 * Sum(spent)) <==>
            ms as real - 1000.0 * Sum(spent) > 0.0 && exists i | 0 <= i < |spent| :: !Whole(1000.0 * spent[i])
    decreases |spent|
  {
    BudgetAlongHops(ms, spent, cap);
    if spent != [] && ms as real - 1000.0 * Sum(spent) > 0.0 {
      var next, rest := Hop(ms, spent[0], cap), spent[1..];
      SumIsNotNegative(rest);
      HopErrsShortIff(ms, spent[0], cap);
      var left := ms as real - 1000.0 * spent[0];
      assert LeftAfter(ms, spent[0], cap) == left;
      WholeDifference(ms, 1000.0 * spent[0]);
      if Whole(1000.0 * spent[0]) {
        ChainErrsShortIff(next, rest, cap);
        assert forall i | 0 < i < |spent| :: spent[i] == rest[i - 1];
        assert forall i | 0 <= i < |rest| :: rest[i] == spent[i + 1];
      } else {
        BudgetAlongHops(next, rest, cap);
      }
    }
  }

  lemma {:induction false} SumIsNotNegative(xs: seq<real>)
    requires forall i | 0 <= i < |xs| :: xs[i] >= 0.0
    ensures Sum(xs) >= 0.0
  {
    if xs != [] {
      SumIsNotNegative(xs[1..]);
    }
  }

  lemma WholeDifference(n: int, x: real)
    ensures Whole(n as real - x) <==> Whole(x)
  {
    if Whole(x) {
      assert n as real - x == (n - x.Floor) as real;
    }
    if Whole(n as real - x) {
      assert x == (n - (n as real - x).Floor) as real;
    }
  }

  /** Half a millisecond spent of a hundred leaves ninety-nine. */
  lemma AHopErrsShort()
    ensures Hop(100, 0.0005, 300.0) == 99 && LeftAfter(100, 0.0005, 300.0) == 99.5
  {
    HopErrsShortIff(100, 0.0005, 300.0);
  }

  // ---- the retry budget ----------------------------------------------------

  /** What attempts do to the bucket. `Failed(true)` goes on, in the same step, to ask for a retry. */
  datatype BudgetEvent = Answered | Failed(asks: bool)

  datatype Bucket = Bucket(maxTokens: real, ratio: real) {
    predicate Valid() { maxTokens > 0.0 && ratio > 0.0 }

    predicate Holds(tokens: real) { 0.0 <= tokens <= maxTokens }

    predicate Allows(tokens: real) { tokens > maxTokens / 2.0 }

    function Next(tokens: real, e: BudgetEvent): real {
      if e.Answered? then Min(maxTokens, tokens + ratio) else Max(0.0, tokens - 1.0)
    }

    function Run(tokens: real, events: seq<BudgetEvent>): real
      decreases |events|
    {
      if events == [] then tokens else Run(Next(tokens, events[0]), events[1..])
    }

    predicate Grants(tokens: real, e: BudgetEvent) {
      e.Failed? && e.asks && Allows(Next(tokens, e))
    }

    /** Retries granted over a window of events that starts with `tokens`. */
    function Granted(tokens: real, events: seq<BudgetEvent>): nat
      decreases |events|
    {
      if events == [] then 0
      else (if Grants(tokens, events[0]) then 1 else 0) + Granted(Next(tokens, events[0]), events[1..])
    }

    function Spare(tokens: real): real { Max(0.0, tokens - maxTokens / 2.0) }
  }

  function AnsweredCount(events: seq<BudgetEvent>): nat {
    if events == [] then 0 else (if events[0].Answered? then 1 else 0) + AnsweredCount(events[1..])
  }

  lemma {:induction false} TokensStayInside(b: Bucket, tokens: real, events: seq<BudgetEvent>)
    requires b.Valid() && b.Holds(tokens)
    ensures b.Holds(b.Run(tokens, events))
    decreases |events|
  {
    if events != [] {
      TokensStayInside(b, b.Next(tokens, events[0]), events[1..]);
    }
  }

  function Answers(n: nat): seq<BudgetEvent> { if n == 0 then [] else [Answered] + Answers(n - 1) }

  function Failures(n: nat): seq<BudgetEvent> { if n == 0 then [] else [Failed(false)] + Failures(n - 1) }

  lemma OneMoreShare(n: nat, ratio: real)
    requires n > 0 && ratio > 0.0
    ensures n as real * ratio == (n - 1) as real * ratio + ratio && (n - 1) as real * ratio >= 0.0
  {
    assert n as real == (n - 1) as real + 1.0;
  }

  /** Answers refill the bucket by `ratio` each, up to its size. */
  lemma {:induction false} AnswersRefill(b: Bucket, tokens: real, n: nat)
    requires b.Valid() && b.Holds(tokens)
    ensures b.Run(tokens, Answers(n)) == Min(b.maxTokens, tokens + n as real * b.ratio)
    decreases n
  {
    if n > 0 {
      assert Answers(n)[1..] == Answers(n - 1);
      OneMoreShare(n, b.ratio);
      AnswersRefill(b, b.Next(tokens, Answered), n - 1);
    }
  }

  /** Failures take one token each, down to none. */
  lemma {:induction false} FailuresDrain(b: Bucket, tokens: real, n: nat)
    requires b.Valid() && b.Holds(tokens)
    ensures b.Run(tokens, Failures(n)) == Max(0.0, tokens - n as real)
    decreases n
  {
    if n > 0 {
      assert Failures(n)[1..] == Failures(n - 1);
      FailuresDrain(b, b.Next(tokens, Failed(false)), n - 1);
    }
  }

  /** `ratio` for every answered attempt. */
  function Refill(ratio: real, events: seq<BudgetEvent>): real {
    if events == [] then 0.0 else (if events[0].Answered? then ratio else 0.0) + Refill(ratio, events[1..])
  }

  lemma {:induction false} RefillIsPerAnswer(ratio: real, events: seq<BudgetEvent>)
    requires ratio > 0.0
    ensures Refill(ratio, events) >= 0.0
    ensures Refill(ratio, events) == ratio * AnsweredCount(events) as real
  {
    if events != [] {
      RefillIsPerAnswer(ratio, events[1..]);
      var n := AnsweredCount(events[1..]) as real;
      assert ratio * (n + 1.0) == ratio * n + ratio;
    }
  }

  /** Granted retries are paid from the tokens above half, which only answered attempts refill. */
  lemma {:induction false} GrantsArePaidFor(b: Bucket, tokens: real, events: seq<BudgetEvent>)
    requires b.Valid() && b.Holds(tokens)
    ensures b.Granted(tokens, events) > 0 ==>
              b.Granted(tokens, events) as real < b.Spare(tokens) + Refill(b.ratio, events)
    decreases |events|
  {
    if events != [] {
      GrantsArePaidFor(b, b.Next(tokens, events[0]), events[1..]);
      RefillIsPerAnswer(b.ratio, events[1..]);
    }
  }

  /** Over any window of any interleaving, whatever the clamping does, fewer retries are granted than
      half the bucket plus `ratio` for every answered attempt in the window. */
  lemma RetriesAreThrottled(b: Bucket, tokens: real, events: seq<BudgetEvent>)
    requires b.Valid() && b.Holds(tokens)
    ensures b.Granted(tokens, events) as real < b.maxTokens / 2.0 + Refill(b.ratio, events)
  {
    GrantsArePaidFor(b, tokens, events);
    RefillIsPerAnswer(b.ratio, events);
  }

  function Burst(n: nat): seq<BudgetEvent> {
    if n == 0 then [] else [Failed(true)] + Burst(n - 1)
  }

  lemma {:induction false} BurstFrom(b: Bucket, tokens: real, n: nat)
    requires b.Valid() && b.Holds(tokens) && b.Allows(tokens) && n as real < b.Spare(tokens)
    ensures b.Granted(tokens, Burst(n)) == n
  {
    if n > 0 {
      BurstFrom(b, tokens - 1.0, n - 1);
      assert Burst(n)[1..] == Burst(n - 1);
    }
  }

  /** The bound is reached: from a full bucket every failure of a burst of fewer than half the tokens
      gets its retry, and a longer burst does not. */
  lemma BurstIsRetriedIff(b: Bucket, n: nat)
    requires b.Valid()
    ensures b.Granted(b.maxTokens, Burst(n)) == n <==> n as real < b.maxTokens / 2.0
  {
    if n as real < b.maxTokens / 2.0 {
      BurstFrom(b, b.maxTokens, n);
    } else {
      RetriesAreThrottled(b, b.maxTokens, Burst(n));
      NoAnswersInBurst(n, b.ratio);
    }
  }

  lemma {:induction false} NoAnswersInBurst(n: nat, ratio: real)
    ensures Refill(ratio, Burst(n)) == 0.0
  {
    if n > 0 {
      NoAnswersInBurst(n - 1, ratio);
      assert Burst(n)[1..] == Burst(n - 1);
    }
  }

  /** The process-wide bucket. */
  class RetryBudget {
    const bucket: Bucket
    var tokens: real

    ghost predicate Valid()
      reads this
    {
      bucket.Valid() && bucket.Holds(tokens)
    }

    constructor (bucket: Bucket)
      requires bucket.Valid()
      ensures this.bucket == bucket && tokens == bucket.maxTokens && Valid()
    {
      this.bucket, tokens := bucket, bucket.maxTokens;
    }

    method RecordSuccess()
      requires Valid()
      modifies this
      ensures Valid() && tokens == bucket.Next(old(tokens), Answered)
    {
      tokens := Min(bucket.maxTokens, tokens + bucket.ratio);
    }

    method RecordFailure()
      requires Valid()
      modifies this
      ensures Valid() && tokens == bucket.Next(old(tokens), Failed(false))
    {
      tokens := Max(0.0, tokens - 1.0);
    }

    method CanRetry() returns (allowed: bool)
      requires Valid()
      ensures allowed == bucket.Allows(tokens)
    {
      allowed := tokens > bucket.maxTokens / 2.0;
    }
  }

  /** Sizes that are not positive are refused. */
  method NewRetryBudget(maxTokens: real, ratio: real) returns (b: Option<RetryBudget>)
    ensures b.Some? <==> Bucket(maxTokens, ratio).Valid()
    ensures b.Some? ==> fresh(b.value) && b.value.Valid() && b.value.bucket == Bucket(maxTokens, ratio) &&
                        b.value.tokens == maxTokens
  {
    if maxTokens <= 0.0 || ratio <= 0.0 {
      return None;
    }
    var budget := new RetryBudget(Bucket(maxTokens, ratio));
    b := Some(budget);
  }
}
