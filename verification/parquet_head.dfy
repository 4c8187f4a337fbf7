/**
 The bounded head of a table, `_head_of_parquet`: the first rows across several files, read batch by batch
 so that nothing beyond them is read.
 */
module ParquetHead {
  const BATCH := 65536

  /** The first `n` parts, put together. */
  function Upto<T>(parts: seq<seq<T>>, n: nat): seq<T>
    requires n <= |parts|
  {
    if n == 0 then [] else Upto(parts, n - 1) + parts[n - 1]
  }

  function Flat<T>(parts: seq<seq<T>>): seq<T> { Upto(parts, |parts|) }

  function Take<T>(s: seq<T>, n: nat): seq<T> { if |s| <= n then s else s[..n] }

  function Min(a: nat, b: nat): nat { if a <= b then a else b }

  /** At least one row is asked for. */
  function Limit(maxRows: int): (n: nat)
    ensures n >= 1 && n >= maxRows && (n == 1 || n == maxRows)
  {
    if maxRows < 1 then 1 else maxRows
  }

  lemma {:induction false} UptoIgnoresLater<T>(parts: seq<seq<T>>, more: seq<seq<T>>, n: nat)
    requires n <= |parts|
    ensures Upto(parts + more, n) == Upto(parts, n)
  {
    if n > 0 {
      UptoIgnoresLater(parts, more, n - 1);
    }
  }

  lemma FlatOfMore<T>(parts: seq<seq<T>>, last: seq<T>)
    ensures Flat(parts + [last]) == Flat(parts) + last
  {
    UptoIgnoresLater(parts, [last], |parts|);
  }

  lemma {:induction false} UptoIsAPrefix<T>(parts: seq<seq<T>>, n: nat, m: nat)
    requires n <= m <= |parts|
    ensures Upto(parts, n) <= Upto(parts, m)
  {
    if n < m {
      UptoIsAPrefix(parts, n, m - 1);
    }
  }

  lemma TakeOfBoth<T>(a: seq<T>, b: seq<T>, n: nat)
    requires |a| <= n
    ensures Take(a + b, n) == a + Take(b, n - |a|)
  {
  }

  /** Once the parts read make `n` elements, the parts left to read add nothing. */
  lemma EnoughRead<T>(parts: seq<seq<T>>, read: nat, n: nat)
    requires read <= |parts| && |Upto(parts, read)| >= n
    ensures Take(Flat(parts), n) == Take(Upto(parts, read), n)
  {
    UptoIsAPrefix(parts, read, |parts|);
  }

  /** Taking from one part more. */
  lemma OneMorePart<T>(parts: seq<seq<T>>, read: nat, n: nat, left: nat, got: seq<T>)
    requires read < |parts| && got == Upto(parts, read) && left == n - |got| && left > 0
    ensures got + Take(parts[read], left) == Take(Upto(parts, read + 1), n)
    ensures |parts[read]| < left ==> got + Take(parts[read], left) == Upto(parts, read + 1)
    ensures |parts[read]| >= left ==> got + Take(parts[read], left) == Take(Flat(parts), n)
  {
    TakeOfBoth(got, parts[read], n);
    if |parts[read]| >= left {
      EnoughRead(parts, read + 1, n);
    }
  }

  /** No part was read that was not needed: the ones before the last read fall short. */
  predicate NoneNeedless<T>(parts: seq<seq<T>>, read: nat, n: nat) {
    read <= |parts| && (read > 0 ==> |Upto(parts, read - 1)| < n)
  }

  /** Nor was a batch of the last file read, which is split by what was still needed when it was come to. */
  predicate NoBatchNeedless<T>(files: seq<seq<T>>, split: (nat, nat) -> seq<seq<T>>, visited: nat, pulled: nat, n: nat)
    requires visited <= |files|
  {
    visited > 0 ==>
      var need := n - |Upto(files, visited - 1)|;
      need > 0 && NoneNeedless(split(visited - 1, Min(need, 65_536)), pulled, need)
  }

  /** The inner loop: the first `need` rows of one file, and how many of its batches were read. */
  method HeadOfFile<T>(batches: seq<seq<T>>, need: nat) returns (frame: seq<T>, left: nat, pulled: nat)
    requires need >= 1
    ensures frame == Take(Flat(batches), need) && left == need - |frame|
    ensures NoneNeedless(batches, pulled, need) && (pulled < |batches| ==> left == 0)
  {
    frame, left, pulled := [], need, 0;
    while pulled < |batches|
      invariant NoneNeedless(batches, pulled, need)
      invariant frame == Upto(batches, pulled) && left == need - |frame| && left > 0
    {
      OneMorePart(batches, pulled, need, left, frame);
      frame := frame + Take(batches[pulled], left);
      left := left - Min(left, |batches[pulled]|);
      pulled := pulled + 1;
      if left == 0 {
        return;
      }
    }
  }

  /** A frame is added unless the file had no rows. */
  function WithFrame<T>(frames: seq<seq<T>>, frame: seq<T>): seq<seq<T>> {
    if |frame| > 0 then frames + [frame] else frames
  }

  lemma OneMoreFile<T>(files: seq<seq<T>>, visited: nat, n: nat, need: nat, frames: seq<seq<T>>, frame: seq<T>)
    requires visited < |files| && Flat(frames) == Upto(files, visited) && need == n - |Flat(frames)| && need > 0
    requires frame == Take(files[visited], need)
    ensures var more := WithFrame(frames, frame);
            && |Flat(more)| == |Flat(frames)| + |frame|
            && (|frame| < need ==> Flat(more) == Upto(files, visited + 1))
            && (|frame| >= need ==> Flat(more) == Take(Flat(files), n) && |Flat(more)| == n)
  {
    OneMorePart(files, visited, n, need, Flat(frames));
    FlatOfMore(frames, frame);
  }

  /** `_head_of_parquet`: whatever the files are split into, the result is the first rows of all of them put
      together; no file and no batch is read once they are found. */
  method Head<T>(files: seq<seq<T>>, split: (nat, nat) -> seq<seq<T>>, maxRows: int)
    returns (rows: seq<T>, visited: nat, pulled: nat)
    requires forall i: nat, size: nat | i < |files| && size >= 1 :: Flat(split(i, size)) == files[i]
    ensures rows == Take(Flat(files), Limit(maxRows))
    ensures NoneNeedless(files, visited, Limit(maxRows)) && (visited < |files| ==> |rows| == Limit(maxRows))
    ensures NoBatchNeedless(files, split, visited, pulled, Limit(maxRows))
  {
    var frames: seq<seq<T>> := [];
    var need := Limit(maxRows);
    visited, pulled := 0, 0;
    while visited < |files|
      invariant NoneNeedless(files, visited, Limit(maxRows))
      invariant Flat(frames) == Upto(files, visited) && need == Limit(maxRows) - |Flat(frames)| && need > 0
      invariant NoBatchNeedless(files, split, visited, pulled, Limit(maxRows))
    {
      var frame, left, n := HeadOfFile(split(visited, Min(need, BATCH)), need);
      OneMoreFile(files, visited, Limit(maxRows), need, frames, frame);
      frames := WithFrame(frames, frame);
      need, pulled, visited := left, n, visited + 1;
      if need == 0 {
        return Flat(frames), visited, pulled;
      }
    }
    rows := Flat(frames);
  }
}
