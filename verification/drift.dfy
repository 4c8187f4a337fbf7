/**
 Drift-triggered retraining, `DriftTracker`: a rolling window of outcomes per model, and a trigger that
 posts a retrain command unless the model is cooling down. Triggers run as concurrent tasks: the cooldown
 is taken before the post is awaited and given back afterwards if the command was refused.
 */
module Drift {
  import opened Wrappers
  import opened Counting

  // ---- the rolling window --------------------------------------------------

  function Failures(bucket: seq<bool>): (n: nat)
    ensures n <= |bucket|
  {
    if bucket == [] then 0 else (if bucket[0] then 0 else 1) + Failures(bucket[1..])
  }

  /** One outcome more, and the oldest dropped when the window overflows. */
  function Slide(window: int, bucket: seq<bool>, success: bool): seq<bool> {
    if |bucket| + 1 > window then (bucket + [success])[1..] else bucket + [success]
  }

  function SlideAll(window: int, outcomes: seq<bool>): seq<bool> {
    if outcomes == [] then [] else Slide(window, SlideAll(window, outcomes[..|outcomes| - 1]), outcomes[|outcomes| - 1])
  }

  /** The last `n` of the outcomes, or all of them when there are fewer. */
  function Recent(outcomes: seq<bool>, n: int): seq<bool> {
    if n <= 0 then [] else if |outcomes| <= n then outcomes else outcomes[|outcomes| - n..]
  }

  /** Appending and dropping one keeps exactly the last `window` outcomes. */
  lemma {:induction false} WindowIsTheRecentOutcomes(window: int, outcomes: seq<bool>)
    ensures SlideAll(window, outcomes) == Recent(outcomes, window)
  {
    if outcomes != [] {
      var before := outcomes[..|outcomes| - 1];
      WindowIsTheRecentOutcomes(window, before);
      assert before + [outcomes[|outcomes| - 1]] == outcomes;
      if 0 < window <= |before| {
        assert (before[|before| - window..] + [outcomes[|outcomes| - 1]])[1..] == outcomes[|outcomes| - window..];
      }
    }
  }

  datatype Recorded = Quiet | Breach(failures: nat) | DividesByZero

  /** The share of failures reaches the threshold. */
  predicate Reaches(failures: nat, size: nat, threshold: real)
    requires size > 0
  {
    failures as real / size as real >= threshold
  }

  /** What recording does once the bucket holds `bucket`. */
  function Verdict(window: int, threshold: real, bucket: seq<bool>): Recorded {
    if |bucket| < window then Quiet
    else if bucket == [] then DividesByZero
    else if Reaches(Failures(bucket), |bucket|, threshold) then Breach(Failures(bucket))
    else Quiet
  }

  lemma {:induction false} FailuresOfBoth(a: seq<bool>, b: seq<bool>)
    ensures Failures(a + b) == Failures(a) + Failures(b)
  {
    if a == [] {
      assert a + b == b;
    } else {
      assert (a + b)[1..] == a[1..] + b;
      FailuresOfBoth(a[1..], b);
    }
  }

  predicate Failed(success: bool) { !success }

  lemma {:induction false} FailuresAreCounted(bucket: seq<bool>)
    ensures Failures(bucket) == Many(bucket, Failed)
  {
    if bucket == [] {
      NoneOfNone(Failed);
    } else {
      var init, last := bucket[..|bucket| - 1], bucket[|bucket| - 1];
      FailuresAreCounted(init);
      assert bucket == init + [last];
      FailuresOfBoth(init, [last]);
      ManyOfMore(init, last, Failed);
    }
  }

  lemma ReachesIff(failures: nat, size: nat, threshold: real)
    requires size > 0
    ensures Reaches(failures, size, threshold) <==> threshold * size as real <= failures as real
  {
    var rate, n := failures as real / size as real, size as real;
    assert failures as real == rate * n;
    if rate >= threshold {
      assert (rate - threshold) * n >= 0.0;
    } else {
      assert (threshold - rate) * n > 0.0;
    }
  }

  /** After any outcomes: the trigger fires exactly when there are a window's worth of them and the failures
      among the last `window` reach the threshold; only a window below one divides by zero, and it does so
      on every outcome. */
  lemma TriggersIff(window: int, threshold: real, outcomes: seq<bool>)
    requires outcomes != []
    ensures
      var verdict := Verdict(window, threshold, SlideAll(window, outcomes));
      && (verdict.DividesByZero? <==> window <= 0)
      && (verdict.Breach? <==>
            1 <= window <= |outcomes| &&
            threshold * window as real <= Many(outcomes[|outcomes| - window..], Failed) as real)
      && (verdict.Breach? ==> verdict.failures == Many(outcomes[|outcomes| - window..], Failed))
  {
    WindowIsTheRecentOutcomes(window, outcomes);
    if |outcomes| == window {
      assert outcomes[0..] == outcomes;
    }
    if 1 <= window <= |outcomes| {
      FailuresAreCounted(outcomes[|outcomes| - window..]);
      ReachesIff(Failures(outcomes[|outcomes| - window..]), window, threshold);
    }
  }

  // ---- the tracker ---------------------------------------------------------

  /** How a post ends: with a success status, an error status, a transport error such as a read timeout, or
      an exception of another kind. In the last three, `taken` says whether the control plane had durably
      taken the command all the same. */
  datatype Reply = Accepted | Refused(taken: bool) | Broken(taken: bool) | Abandoned(taken: bool)

  /** An error status and a transport error give the cooldown back. */
  predicate Releases(reply: Reply) { reply.Refused? || reply.Broken? }

  /** A retrain follows. */
  predicate Taken(reply: Reply) { reply.Accepted? || reply.taken }

  predicate Cooling(last: Option<int>, now: int, cooldown: int) {
    now - (if last.Some? then last.value else 0) < cooldown
  }

  function Lookup(m: map<string, int>, k: string): Option<int> {
    if k in m then Some(m[k]) else None
  }

  class Tracker {
    const window: int
    const threshold: real
    const cooldown: int
    var results: map<string, seq<bool>>
    var lastRetrain: map<string, int>

    constructor (window: int, threshold: real, cooldown: int)
      ensures this.window == window && this.threshold == threshold && this.cooldown == cooldown
      ensures results == map[] && lastRetrain == map[]
    {
      this.window, this.threshold, this.cooldown := window, threshold, cooldown;
      results, lastRetrain := map[], map[];
    }

    /** `record`. */
    method Record(model: string, success: bool) returns (r: Recorded)
      modifies this`results
      ensures var before := if model in old(results) then old(results)[model] else [];
              && results == old(results)[model := Slide(window, before, success)]
              && r == Verdict(window, threshold, Slide(window, before, success))
    {
      if model !in results {
        results := results[model := []];
      }
      var bucket := results[model] + [success];
      if |bucket| > window {
        bucket := bucket[1..];
      }
      results := results[model := bucket];
      if |bucket| >= window {
        if |bucket| == 0 {
          return DividesByZero;
        }
        var failures := Failures(bucket);
        if Reaches(failures, |bucket|, threshold) {
          return Breach(failures);
        }
      }
      r := Quiet;
    }

    /** `_maybe_trigger` up to the post. */
    method Begin(model: string, now: int) returns (posts: bool)
      modifies this`lastRetrain
      ensures posts == !Cooling(Lookup(old(lastRetrain), model), now, cooldown)
      ensures lastRetrain == if posts then old(lastRetrain)[model := now] else old(lastRetrain)
    {
      var last := if model in lastRetrain then lastRetrain[model] else 0;
      if now - last < cooldown {
        return false;
      }
      lastRetrain := lastRetrain[model := now];
      posts := true;
    }

    /** `_maybe_trigger` after the post. */
    method End(model: string, reply: Reply)
      modifies this`lastRetrain
      ensures lastRetrain == if Releases(reply) then old(lastRetrain) - {model} else old(lastRetrain)
    {
      if Releases(reply) {
        lastRetrain := lastRetrain - {model};
      }
    }
  }

  // ---- the triggers of one model as a protocol -----------------------------

  datatype Event = Start(at: int) | Finish(post: nat, reply: Reply, at: int)

  /** `last` is the tracker's entry for the model; `open`, `accepted` and `abandoned` hold when the posts that
      are under way, that a retrain follows, and that another exception ended, were started. */
  datatype State = State(now: int, last: Option<int>, open: seq<int>, accepted: seq<int>, abandoned: seq<int>)

  const INITIAL := State(0, None, [], [], [])

  function Without(s: seq<int>, k: nat): seq<int>
    requires k < |s|
  {
    s[..k] + s[k + 1..]
  }

  /** How long a post may stay open, and whether an answer may be lost: whether a command can be taken though
      its post ends in an error status or a transport error. */
  datatype Network = Network(bound: nat, loses: bool)

  /** The clock does not go back, and the network keeps to its terms. */
  predicate Legal(net: Network, s: State, e: Event) {
    && s.now <= e.at
    && (forall k | 0 <= k < |s.open| :: e.at <= s.open[k] + net.bound)
    && (e.Finish? ==> e.post < |s.open| && (Releases(e.reply) && Taken(e.reply) ==> net.loses))
  }

  function Next(cooldown: int, s: State, e: Event): (t: State)
    requires e.Finish? ==> e.post < |s.open|
    ensures t.now == e.at
  {
    match e
    case Start(at) =>
      if Cooling(s.last, at, cooldown) then s.(now := at)
      else s.(now := at, last := Some(at), open := s.open + [at])
    case Finish(k, reply, at) =>
      var after := s.(now := at, open := Without(s.open, k), last := if Releases(reply) then None else s.last);
      after.(accepted := s.accepted + (if Taken(reply) then [s.open[k]] else []),
             abandoned := s.abandoned + (if reply.Abandoned? then [s.open[k]] else []))
  }

  predicate LegalRun(cooldown: int, net: Network, s: State, run: seq<Event>)
    decreases |run|
  {
    run == [] || (Legal(net, s, run[0]) && LegalRun(cooldown, net, Next(cooldown, s, run[0]), run[1..]))
  }

  function After(cooldown: int, net: Network, s: State, run: seq<Event>): State
    requires LegalRun(cooldown, net, s, run)
    decreases |run|
  {
    if run == [] then s else After(cooldown, net, Next(cooldown, s, run[0]), run[1..])
  }

  predicate Spaced(starts: seq<int>, cooldown: int) {
    forall i, j | 0 <= i < j < |starts| :: Apart(starts[i], starts[j], cooldown)
  }

  predicate Apart(a: int, b: int, cooldown: int) { b - a >= cooldown || a - b >= cooldown }

  /** At most one post is open and it holds the cooldown; each accepted one holds it or has outlasted it. */
  predicate OneAtATime(cooldown: int, s: State) {
    && |s.open| <= 1
    && (s.open != [] ==> s.last == Some(s.open[0]) && s.open[0] <= s.now)
    && (forall a <- s.accepted :: (s.last == Some(a) && s.open == []) || a + cooldown <= s.now)
    && (s.open != [] ==> forall a <- s.accepted :: a + cooldown <= s.open[0])
    && Spaced(s.accepted, cooldown)
  }

  lemma StepKeepsOneAtATime(cooldown: int, net: Network, s: State, e: Event)
    requires OneAtATime(cooldown, s) && net.bound < cooldown && !net.loses && Legal(net, s, e)
    ensures OneAtATime(cooldown, Next(cooldown, s, e))
  {
    var t := Next(cooldown, s, e);
    assert s.open != [] ==> e.at <= s.open[0] + net.bound;
    if e.Finish? {
      assert Without(s.open, e.post) == [];
      assert forall i | 0 <= i < |s.accepted| :: s.accepted[i] in s.accepted;
    } else if !Cooling(s.last, e.at, cooldown) {
      assert s.open == [];
      assert t.open == [e.at];
    }
  }

  lemma {:induction false} RunKeepsOneAtATime(cooldown: int, net: Network, s: State, run: seq<Event>)
    requires OneAtATime(cooldown, s) && net.bound < cooldown && !net.loses && LegalRun(cooldown, net, s, run)
    ensures OneAtATime(cooldown, After(cooldown, net, s, run))
    decreases |run|
  {
    if run != [] {
      StepKeepsOneAtATime(cooldown, net, s, run[0]);
      RunKeepsOneAtATime(cooldown, net, Next(cooldown, s, run[0]), run[1..]);
    }
  }

  lemma OneMoreEvent(cooldown: int, net: Network, s: State, e: Event, rest: seq<Event>)
    requires Legal(net, s, e) && LegalRun(cooldown, net, Next(cooldown, s, e), rest)
    ensures LegalRun(cooldown, net, s, [e] + rest)
    ensures After(cooldown, net, s, [e] + rest) == After(cooldown, net, Next(cooldown, s, e), rest)
  {
    assert ([e] + rest)[1..] == rest;
  }

  /** A post that outlives the cooldown and is then refused gives back the cooldown of a later, accepted
      one: the third trigger below is accepted at the very moment the second was. */
  lemma SlowPostsBreakIt(c: int, net: Network)
    requires 0 < c <= net.bound
    ensures exists run | LegalRun(c, net, INITIAL, run) :: !Spaced(After(c, net, INITIAL, run).accepted, c)
  {
    var run := SlowRun(c, 2 * c);
    SlowRunAccepts(c, net);
    assert !Apart([2 * c, 2 * c][0], [2 * c, 2 * c][1], c);
  }

  function SlowEnd(d: int): seq<Event> { [Finish(1, Accepted, d)] + ([Finish(0, Refused(false), d)] + Again(d)) }

  function SlowRun(c: int, d: int): seq<Event> { [Start(c)] + ([Start(d)] + SlowEnd(d)) }

  lemma SlowEndAccepts(c: int, net: Network)
    requires 0 < c <= net.bound
    ensures var d := 2 * c;
            var s2 := State(d, Some(d), [c, d], [], []);
            LegalRun(c, net, s2, SlowEnd(d)) && After(c, net, s2, SlowEnd(d)).accepted == [d, d]
  {
    var d := 2 * c;
    var s2, s3 := State(d, Some(d), [c, d], [], []), State(d, Some(d), [c], [d], []);
    SlowPostsOverlap(c);
    NextIsAccepted(c, net, State(d, None, [], [d], []), d);
    OneMoreEvent(c, net, s3, Finish(0, Refused(false), d), Again(d));
    OneMoreEvent(c, net, s2, Finish(1, Accepted, d), [Finish(0, Refused(false), d)] + Again(d));
  }

  lemma SlowRunAccepts(c: int, net: Network)
    requires 0 < c <= net.bound
    ensures LegalRun(c, net, INITIAL, SlowRun(c, 2 * c))
    ensures After(c, net, INITIAL, SlowRun(c, 2 * c)).accepted == [2 * c, 2 * c]
  {
    var d := 2 * c;
    var s1 := State(c, Some(c), [c], [], []);
    SlowPostsOverlap(c);
    SlowEndAccepts(c, net);
    OneMoreEvent(c, net, s1, Start(d), SlowEnd(d));
    OneMoreEvent(c, net, INITIAL, Start(c), [Start(d)] + SlowEnd(d));
  }

  /** A post that starts and is accepted at once. */
  function Again(d: int): seq<Event> { [Start(d)] + ([Finish(0, Accepted, d)] + []) }

  lemma SlowPostsOverlap(c: int)
    requires 0 < c
    ensures
      var d := 2 * c;
      var s1, s2 := State(c, Some(c), [c], [], []), State(d, Some(d), [c, d], [], []);
      var s3, s4 := State(d, Some(d), [c], [d], []), State(d, None, [], [d], []);
      && Next(c, INITIAL, Start(c)) == s1 && Next(c, s1, Start(d)) == s2
      && Next(c, s2, Finish(1, Accepted, d)) == s3 && Next(c, s3, Finish(0, Refused(false), d)) == s4
  {
    var d := 2 * c;
    assert Without([c, d], 1) == [c] && Without([c], 0) == [];
    assert [] + [c] == [c] && [] + [d] == [d];
  }

  lemma NextIsAccepted(c: int, net: Network, s: State, d: int)
    requires s == State(d, None, [], [d], []) && 0 < c <= d
    ensures LegalRun(c, net, s, Again(d)) && After(c, net, s, Again(d)).accepted == [d, d]
  {
    var s5 := State(d, Some(d), [d], [d], []);
    assert [] + [d] == [d] && Next(c, s, Start(d)) == s5;
    OneMoreEvent(c, net, s5, Finish(0, Accepted, d), []);
    OneMoreEvent(c, net, s, Start(d), [Finish(0, Accepted, d)] + []);
  }

  /** A command that is taken although its post breaks off gives its own cooldown back: the next trigger is
      accepted at the same moment, however quick the posts are. */
  lemma LostAnswersBreakIt(c: int, net: Network)
    requires 0 < c && net.loses
    ensures exists run | LegalRun(c, net, INITIAL, run) :: !Spaced(After(c, net, INITIAL, run).accepted, c)
  {
    var s1 := State(c, Some(c), [c], [], []);
    assert [] + [c] == [c] && Next(c, INITIAL, Start(c)) == s1;
    assert Without([c], 0) == [] && Next(c, s1, Finish(0, Broken(true), c)) == State(c, None, [], [c], []);
    NextIsAccepted(c, net, State(c, None, [], [c], []), c);
    OneMoreEvent(c, net, s1, Finish(0, Broken(true), c), Again(c));
    OneMoreEvent(c, net, INITIAL, Start(c), [Finish(0, Broken(true), c)] + Again(c));
    var run := [Start(c)] + ([Finish(0, Broken(true), c)] + Again(c));
    assert After(c, net, INITIAL, run).accepted == [c, c];
    assert !Apart([c, c][0], [c, c][1], c);
  }

  /** Any two retrains start a cooldown apart in every run exactly when every post ends before a cooldown has
      passed and no command is taken whose post fails (or there is no cooldown). */
  lemma CooldownHoldsIff(cooldown: int, net: Network)
    ensures (forall run | LegalRun(cooldown, net, INITIAL, run) ::
               Spaced(After(cooldown, net, INITIAL, run).accepted, cooldown))
       <==> (cooldown <= 0 || (net.bound < cooldown && !net.loses))
  {
    if 0 < cooldown <= net.bound {
      SlowPostsBreakIt(cooldown, net);
    } else if 0 < cooldown && net.loses {
      LostAnswersBreakIt(cooldown, net);
    } else {
      forall run | LegalRun(cooldown, net, INITIAL, run)
        ensures Spaced(After(cooldown, net, INITIAL, run).accepted, cooldown)
      {
        if 0 < cooldown {
          RunKeepsOneAtATime(cooldown, net, INITIAL, run);
        }
      }
    }
  }

  /** The model is only ever cooling down because of a post that is open, that a retrain follows, or
      that was abandoned: one that only failed never holds the cooldown. */
  predicate Earned(s: State) {
    s.last.Some? ==> s.last.value in s.open || s.last.value in s.accepted || s.last.value in s.abandoned
  }

  lemma {:induction false} CooldownIsEarned(cooldown: int, net: Network, s: State, run: seq<Event>)
    requires Earned(s) && LegalRun(cooldown, net, s, run)
    ensures Earned(After(cooldown, net, s, run))
    decreases |run|
  {
    if run != [] {
      var t := Next(cooldown, s, run[0]);
      if run[0].Finish? && t.last.Some? && t.last.value in s.open && t.last.value != s.open[run[0].post] {
        var k :| 0 <= k < |s.open| && s.open[k] == t.last.value;
        assert t.open[if k < run[0].post then k else k - 1] == t.last.value;
      }
      CooldownIsEarned(cooldown, net, t, run[1..]);
    }
  }
}
