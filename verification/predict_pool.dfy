/**
 The poisoned-pool accounting of a replica, `_note_predict_timeout` and `_recycle_predict_pool`: calls that
 time out while running are counted, calls that return after all are discounted - also those on a pool that
 has been abandoned since - and a pool whose workers all hang is replaced.
 */
module PredictPool {
  /** `leaked` and `recycles` are the server's counters; `timeouts` counts the calls that timed out while
      running; `pending` the threads that counted a full pool and have yet to recycle it. */
  datatype State = State(leaked: nat, recycles: nat, timeouts: nat, pending: nat)

  const INITIAL := State(0, 0, 0, 0)

  /** A timed-out call, cancelled in time or not; a counted call that returns; a thread that recycles. */
  datatype Event = Timeout(cancelled: bool) | Return | Recycle

  predicate Legal(s: State, e: Event) { e.Recycle? ==> s.pending > 0 }

  function Next(workers: nat, s: State, e: Event): State
    requires Legal(s, e)
  {
    match e
    case Timeout(true) => s
    case Timeout(false) =>
      var full := s.leaked + 1 >= workers;
      State(s.leaked + 1, s.recycles, s.timeouts + 1, if full then s.pending + 1 else s.pending)
    case Return => s.(leaked := if s.leaked == 0 then 0 else s.leaked - 1)
    case Recycle =>
      if s.leaked < workers then s.(pending := s.pending - 1)
      else State(0, s.recycles + 1, s.timeouts, s.pending - 1)
  }

  class Accounting {
    const workers: nat
    var leaked: nat
    var recycles: nat

    constructor (workers: nat)
      ensures this.workers == workers && leaked == 0 && recycles == 0
    {
      this.workers, leaked, recycles := workers, 0, 0;
    }

    /** `_note_predict_timeout` up to the call of `_recycle_predict_pool`; says whether it is made. */
    method Note(cancelled: bool, ghost s: State) returns (recycle: bool)
      requires s.leaked == leaked && s.recycles == recycles
      modifies this
      ensures var t := Next(workers, s, Timeout(cancelled));
              leaked == t.leaked && recycles == t.recycles && (recycle <==> t.pending == s.pending + 1)
    {
      if cancelled {
        return false;
      }
      leaked := leaked + 1;
      recycle := leaked >= workers;
    }

    /** The done-callback of a counted call. */
    method Release(ghost s: State)
      requires s.leaked == leaked && s.recycles == recycles
      modifies this
      ensures var t := Next(workers, s, Return); leaked == t.leaked && recycles == t.recycles
    {
      leaked := if leaked - 1 < 0 then 0 else leaked - 1;
    }

    method RecyclePool(ghost s: State)
      requires s.leaked == leaked && s.recycles == recycles && s.pending > 0
      modifies this
      ensures var t := Next(workers, s, Recycle); leaked == t.leaked && recycles == t.recycles
    {
      if leaked < workers {
        return;
      }
      leaked, recycles := 0, recycles + 1;
    }
  }

  predicate LegalRun(workers: nat, s: State, run: seq<Event>)
    decreases |run|
  {
    run == [] || (Legal(s, run[0]) && LegalRun(workers, Next(workers, s, run[0]), run[1..]))
  }

  function After(workers: nat, s: State, run: seq<Event>): State
    requires LegalRun(workers, s, run)
    decreases |run|
  {
    if run == [] then s else After(workers, Next(workers, s, run[0]), run[1..])
  }

  function Returns(n: nat): seq<Event> { if n == 0 then [] else [Return] + Returns(n - 1) }

  /** Each call that returns after all is discounted, as long as there is one to discount, and nothing else
      changes. */
  lemma {:induction false} ReturnsAreDiscounted(workers: nat, s: State, n: nat)
    ensures LegalRun(workers, s, Returns(n))
    ensures After(workers, s, Returns(n)) == s.(leaked := if n <= s.leaked then s.leaked - n else 0)
    decreases n
  {
    if n > 0 {
      assert Returns(n)[1..] == Returns(n - 1);
      ReturnsAreDiscounted(workers, Next(workers, s, Return), n - 1);
    }
  }

  /** What a timeout and a recycling thread do, in terms of the counters: a timeout that was not cancelled counts
      and, when it fills the pool, leaves a thread to recycle; that thread replaces a pool that is still full. */
  lemma TimeoutsAreCounted(workers: nat, s: State)
    ensures Next(workers, s, Timeout(true)) == s
    ensures var t := Next(workers, s, Timeout(false));
            && t.leaked == s.leaked + 1 && t.timeouts == s.timeouts + 1 && t.recycles == s.recycles
            && t.pending == s.pending + (if s.leaked + 1 < workers then 0 else 1)
    ensures s.pending > 0 ==>
              var t := Next(workers, s, Recycle);
              && t.pending == s.pending - 1 && t.timeouts == s.timeouts
              && (t.leaked, t.recycles) ==
                 if workers <= s.leaked then (0, s.recycles + 1) else (s.leaked, s.recycles)
  {
  }

  /** A pool is only replaced for as many running timeouts as it has workers, and a full pool is about to be. */
  predicate Accounted(workers: nat, s: State) {
    s.recycles * workers + s.leaked <= s.timeouts && (s.leaked >= workers ==> s.pending > 0)
  }

  /** In every interleaving of timeouts, late returns and recycling threads. */
  lemma {:induction false} RecyclesAreAccountedFor(workers: nat, s: State, run: seq<Event>)
    requires workers >= 1 && Accounted(workers, s) && LegalRun(workers, s, run)
    ensures Accounted(workers, After(workers, s, run))
    decreases |run|
  {
    if run != [] {
      assert (s.recycles + 1) * workers == s.recycles * workers + workers;
      RecyclesAreAccountedFor(workers, Next(workers, s, run[0]), run[1..]);
    }
  }
}
