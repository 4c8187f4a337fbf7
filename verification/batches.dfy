/**
 Batched requests at the feature transformer, `FeatureTransformer.handle_batch`: rejected and expired
 requests are answered on the spot, the rest are re-stamped, routed together and answered by position. The
 deadline is set up when the batch is handled, not when the request joins the queue.
 */
module Batches {
  import opened Wrappers
  import opened Budgets

  /** What transforming a request gives: a validation error, an exception of another kind, or a payload with
      the budget it came with. */
  datatype Request = Rejected | Raises | Ready(budget: RawBudget)

  datatype Routed = Replied(body: string) | Failed

  datatype Reply = ValidationError | DeadlineExceeded | InferenceFailed | Body(body: string) | Crashed

  /** When the request joined the queue, and when its deadline was set up, checked, and stamped on. */
  datatype Clock = Clock(arrived: real, read: real, checked: real, stamped: real) {
    predicate Ordered() { arrived <= read <= checked <= stamped }
  }

  /** The milliseconds a request is forwarded with, if it is forwarded. */
  function Forwarded(r: Request, c: Clock, default: real, cap: real): Option<nat> {
    if !r.Ready? then None
    else
      var deadline := FromBudget(r.budget, default, cap, c.read);
      if deadline.Expired(c.checked) then None else Some(deadline.BudgetMs(c.stamped))
  }

  /** What a request gets on its own. */
  function Alone(r: Request, c: Clock, default: real, cap: real, routed: nat -> Routed): Reply {
    var ms := Forwarded(r, c, default, cap);
    if ms.Some? then (match routed(ms.value) case Replied(body) => Body(body) case Failed => InferenceFailed)
    else if r.Rejected? then ValidationError
    else if r.Raises? then Crashed
    else DeadlineExceeded
  }

  /** What a request gets in the company of the others. */
  function InBatch(reqs: seq<Request>, clocks: seq<Clock>, default: real, cap: real, route: nat -> (nat -> Routed),
                   i: nat): Reply
    requires i < |reqs| == |clocks|
  {
    if Raises in reqs then Crashed else Alone(reqs[i], clocks[i], default, cap, route(i))
  }

  predicate Goes(reqs: seq<Request>, clocks: seq<Clock>, default: real, cap: real, i: nat)
    requires i < |reqs| == |clocks|
  {
    Forwarded(reqs[i], clocks[i], default, cap).Some?
  }

  type Posts = seq<(nat, nat)>

  /** Exactly the forwarded ones of the first `n` requests, in order, each with its own budget. */
  predicate PostsOf(reqs: seq<Request>, clocks: seq<Clock>, default: real, cap: real, n: nat, posts: Posts)
    requires n <= |reqs| == |clocks|
  {
    && (forall k | 0 <= k < |posts| ::
          posts[k].0 < n && Forwarded(reqs[posts[k].0], clocks[posts[k].0], default, cap) == Some(posts[k].1))
    && (forall j, k | 0 <= j < k < |posts| :: posts[j].0 < posts[k].0)
    && (forall i: nat | i < n && Goes(reqs, clocks, default, cap, i) :: exists p <- posts :: p.0 == i)
  }

  predicate Settled(reqs: seq<Request>, clocks: seq<Clock>, default: real, cap: real,
                    route: nat -> (nat -> Routed), i: nat, reply: Reply)
    requires i < |reqs| == |clocks|
  {
    reply == Alone(reqs[i], clocks[i], default, cap, route(i))
  }

  /** `_transform_all` gets through: no transform raises anything but a `ValueError`. */
  method TransformAll(reqs: seq<Request>) returns (through: bool)
    ensures through <==> Raises !in reqs
  {
    for i := 0 to |reqs|
      invariant Raises !in reqs[..i]
    {
      if reqs[i].Raises? {
        return false;
      }
    }
    through := true;
  }

  /** `handle_batch`. When a transform raises, the exception is every request's answer and nothing is
      forwarded; otherwise each request gets, at its own position, what it would have got alone. */
  method HandleBatch(reqs: seq<Request>, clocks: seq<Clock>, default: real, cap: real, route: nat -> (nat -> Routed))
    returns (results: seq<Reply>, posts: Posts)
    requires |clocks| == |reqs|
    ensures |results| == |reqs|
    ensures forall i: nat | i < |reqs| :: results[i] == InBatch(reqs, clocks, default, cap, route, i)
    ensures if Raises in reqs then posts == [] else PostsOf(reqs, clocks, default, cap, |reqs|, posts)
  {
    var through := TransformAll(reqs);
    if !through {
      return seq(|reqs|, _ => Crashed), [];
    }
    var replies := new Reply[|reqs|](_ => InferenceFailed);
    posts := [];
    for i := 0 to |reqs|
      invariant PostsOf(reqs, clocks, default, cap, i, posts)
      invariant forall k: nat | k < i && !Goes(reqs, clocks, default, cap, k) ::
          Settled(reqs, clocks, default, cap, route, k, replies[k])
    {
      if reqs[i].Rejected? {
        replies[i] := ValidationError;
        continue;
      }
      var deadline := FromBudget(reqs[i].budget, default, cap, clocks[i].read);
      if deadline.Expired(clocks[i].checked) {
        replies[i] := DeadlineExceeded;
        continue;
      }
      var ms := deadline.BudgetMs(clocks[i].stamped);
      OneMorePost(reqs, clocks, default, cap, i, posts, ms);
      posts := posts + [(i, ms)];
    }
    RouteAll(reqs, clocks, default, cap, route, posts, replies);
    results := replies[..];
    forall i: nat | i < |reqs|
      ensures results[i] == InBatch(reqs, clocks, default, cap, route, i)
    {
      assert Settled(reqs, clocks, default, cap, route, i, replies[i]);
    }
  }

  /** The forwarded requests, answered by position. */
  method RouteAll(reqs: seq<Request>, clocks: seq<Clock>, default: real, cap: real, route: nat -> (nat -> Routed),
                  posts: Posts, replies: array<Reply>)
    requires |clocks| == |reqs| == replies.Length && PostsOf(reqs, clocks, default, cap, |reqs|, posts)
    requires forall k: nat | k < |reqs| && !Goes(reqs, clocks, default, cap, k) ::
               Settled(reqs, clocks, default, cap, route, k, replies[k])
    modifies replies
    ensures forall k: nat | k < |reqs| :: Settled(reqs, clocks, default, cap, route, k, replies[k])
  {
    for j := 0 to |posts|
      invariant forall k: nat | k < |reqs| && !Goes(reqs, clocks, default, cap, k) ::
          Settled(reqs, clocks, default, cap, route, k, replies[k])
      invariant forall k | 0 <= k < j :: Settled(reqs, clocks, default, cap, route, posts[k].0, replies[posts[k].0])
    {
      var (i, ms) := posts[j];
      match route(i)(ms) {
        case Replied(body) => replies[i] := Body(body);
        case Failed => replies[i] := InferenceFailed;
      }
    }
    forall i: nat | i < |reqs|
      ensures Settled(reqs, clocks, default, cap, route, i, replies[i])
    {
      assert Goes(reqs, clocks, default, cap, i) ==> exists p <- posts :: p.0 == i;
    }
  }

  lemma OneMorePost(reqs: seq<Request>, clocks: seq<Clock>, default: real, cap: real, i: nat, posts: Posts, ms: nat)
    requires i < |reqs| == |clocks| && PostsOf(reqs, clocks, default, cap, i, posts)
    requires Forwarded(reqs[i], clocks[i], default, cap) == Some(ms)
    ensures PostsOf(reqs, clocks, default, cap, i + 1, posts + [(i, ms)])
  {
    var more := posts + [(i, ms)];
    assert more[|posts|] in more;
    forall k: nat | k < i && Goes(reqs, clocks, default, cap, k)
      ensures exists p <- more :: p.0 == k
    {
      var p :| p in posts && p.0 == k;
      assert p in more;
    }
  }

  // ---- isolation -----------------------------------------------------------

  /** A request is failed by its company exactly when its own transform gets through and another's raises. */
  lemma FailedByItsCompanyIff(reqs: seq<Request>, clocks: seq<Clock>, default: real, cap: real,
                              route: nat -> (nat -> Routed), i: nat)
    requires i < |reqs| == |clocks|
    ensures InBatch(reqs, clocks, default, cap, route, i) != Alone(reqs[i], clocks[i], default, cap, route(i)) <==>
            !reqs[i].Raises? && exists j | 0 <= j < |reqs| :: j != i && reqs[j].Raises?
  {
    if Raises in reqs {
      var j :| 0 <= j < |reqs| && reqs[j] == Raises;
    } else {
      assert forall j | 0 <= j < |reqs| :: reqs[j] in reqs;
    }
  }

  /** Whatever shares the queue with a request that gets through, it keeps its own answer if and only if no
      transform of the batch raises. */
  lemma IsolationIff(reqs: seq<Request>, clocks: seq<Clock>, default: real, cap: real, route: nat -> (nat -> Routed))
    requires |reqs| == |clocks| && exists r <- reqs :: !r.Raises?
    ensures (forall i: nat | i < |reqs| ::
               InBatch(reqs, clocks, default, cap, route, i) == Alone(reqs[i], clocks[i], default, cap, route(i)))
       <==> Raises !in reqs
  {
    var k :| 0 <= k < |reqs| && !reqs[k].Raises?;
    FailedByItsCompanyIff(reqs, clocks, default, cap, route, k);
  }

  /** A request with a second to spend, beside one whose transform raises. */
  lemma OneBadRequestFailsTheBatch(cap: real, body: string)
    requires cap >= 1.0
    ensures
      var c, route := Clock(0.0, 0.0, 0.0, 0.0), (i: nat) => (ms: nat) => Replied(body);
      var good := Ready(Millis(1000.0));
      && InBatch([good], [c], cap, cap, route, 0) == Body(body)
      && InBatch([good, Raises], [c, c], cap, cap, route, 0) == Crashed
  {
    assert [Ready(Millis(1000.0)), Raises][1] == Raises;
  }

  // ---- the wait in the queue -----------------------------------------------

  /** The milliseconds a received budget stands for. */
  function Granted(raw: RawBudget, default: real, cap: real): real {
    Max(0.0, Min(if raw.Millis? then raw.ms else default * 1000.0, cap * 1000.0))
  }

  /** What they leave at some instant, counted from when the request joined the queue. */
  function LeftAt(ms: real, c: Clock, now: real): real { ms - 1000.0 * (now - c.arrived) }

  /** The same, counted from when the deadline was set up. */
  function ChargedAt(ms: real, c: Clock, now: real): real { ms - 1000.0 * (now - c.read) }

  lemma RemainingIsCharged(raw: RawBudget, c: Clock, default: real, cap: real, now: real)
    ensures var d := FromBudget(raw, default, cap, c.read);
            d.Remaining(now) * 1000.0 == Max(0.0, ChargedAt(Granted(raw, default, cap), c, now))
  {
  }

  /** A request is dropped exactly when its budget is used up by the time between setting up its deadline and
      checking it. However long it waited in the queue, it is not dropped for that: when the two instants are
      one, it is dropped if and only if it came with a budget that is not positive. */
  lemma DroppedIff(raw: RawBudget, c: Clock, default: real, cap: real)
    requires c.Ordered()
    ensures Forwarded(Ready(raw), c, default, cap) == None <==>
            ChargedAt(Granted(raw, default, cap), c, c.checked) <= 0.0
    ensures c.read == c.checked && default > 0.0 && cap > 0.0 ==>
              (Forwarded(Ready(raw), c, default, cap) == None <==> raw.Millis? && raw.ms <= 0.0)
  {
    RemainingIsCharged(raw, c, default, cap, c.checked);
  }

  /** A forwarded budget stays within what the wait has left exactly when the wait is no longer than the
      fraction of a millisecond that flooring takes off. */
  lemma WaitIsChargedIff(raw: RawBudget, c: Clock, default: real, cap: real)
    requires c.Ordered() && ChargedAt(Granted(raw, default, cap), c, c.stamped) > 0.0
    ensures
      var f, ms := Forwarded(Ready(raw), c, default, cap), Granted(raw, default, cap);
      var charged := ChargedAt(ms, c, c.stamped);
      && f == Some(charged.Floor)
      && (f.value as real <= LeftAt(ms, c, c.stamped) <==>
          1000.0 * (c.read - c.arrived) <= charged - charged.Floor as real)
  {
    RemainingIsCharged(raw, c, default, cap, c.stamped);
    RemainingIsCharged(raw, c, default, cap, c.checked);
  }

  /** So, for a whole number of milliseconds and a clock that stands still while the request is handled: it is
      forwarded with all it came with, and that is within what the wait left if and only if it did not wait. */
  lemma WholeBudgetIgnoresTheWait(raw: RawBudget, n: nat, c: Clock, default: real, cap: real)
    requires 0 < n && Granted(raw, default, cap) == n as real && c.arrived <= c.read == c.checked == c.stamped
    ensures Forwarded(Ready(raw), c, default, cap) == Some(n)
    ensures n as real <= LeftAt(n as real, c, c.stamped) <==> c.arrived == c.read
  {
    WaitIsChargedIff(raw, c, default, cap);
  }

  /** Twenty milliseconds are forwarded in full after a wait of fifty. */
  lemma ForwardedThoughNobodyWaits(default: real, cap: real)
    requires cap >= 1.0
    ensures var c := Clock(0.0, 0.05, 0.05, 0.05);
            Forwarded(Ready(Millis(20.0)), c, default, cap) == Some(20) && LeftAt(20.0, c, c.checked) < 0.0
  {
    WholeBudgetIgnoresTheWait(Millis(20.0), 20, Clock(0.0, 0.05, 0.05, 0.05), default, cap);
  }
}
