/**
  The fold of analyze-log-v02.sh over the claims it is given: the interval that covers
  all operations, and the time spent in calls to the cloud.
 */
module LogAnalysis {
  import opened Wrappers

  /** A timestamp as `date +%s` reads it, with the part of a second that it drops. */
  datatype Stamp = Stamp(sec: int, fraction: nat)

  /** One claim's operation; `riaas` is None when the log has no call for it. */
  datatype Operation = Operation(start: Stamp, riaas: Option<Stamp>, end: Stamp)

  /** When the call to the cloud began; without one, the end of the operation. */
  function CallStart(op: Operation): Stamp {
    if op.riaas.None? then op.end else op.riaas.value
  }

  function CallTime(op: Operation): int {
    op.end.sec - CallStart(op).sec
  }

  function TotalOf(list: seq<int>): int {
    if list == [] then 0 else TotalOf(list[..|list| - 1]) + list[|list| - 1]
  }

  /** The interval [a, b], in whole seconds, contains every operation. */
  predicate Covers(a: int, b: int, ops: seq<Operation>) {
    forall op | op in ops :: a <= op.start.sec && op.end.sec <= b
  }

  /** `a` is the start of some operation and `b` the end of some operation. */
  predicate Attained(a: Stamp, b: Stamp, ops: seq<Operation>) {
    (exists op | op in ops :: op.start == a) && (exists op | op in ops :: op.end == b)
  }

  /** Of the first `n` operations, number `k` is the first that starts in the earliest second. */
  predicate FirstStart(ops: seq<Operation>, n: nat, k: nat) {
    && k < n <= |ops|
    && (forall j | 0 <= j < n :: ops[k].start.sec <= ops[j].start.sec)
    && (forall j | 0 <= j < k :: ops[k].start.sec < ops[j].start.sec)
  }

  /** And number `k` the first that ends in the latest. */
  predicate LastEnd(ops: seq<Operation>, n: nat, k: nat) {
    && k < n <= |ops|
    && (forall j | 0 <= j < n :: ops[j].end.sec <= ops[k].end.sec)
    && (forall j | 0 <= j < k :: ops[j].end.sec < ops[k].end.sec)
  }

  lemma FoundCovers(ops: seq<Operation>, lo: nat, hi: nat)
    requires FirstStart(ops, |ops|, lo) && LastEnd(ops, |ops|, hi)
    ensures Covers(ops[lo].start.sec, ops[hi].end.sec, ops) && Attained(ops[lo].start, ops[hi].end, ops)
    ensures forall op | op in ops :: ops[lo].start.sec <= op.start.sec && op.end.sec <= ops[hi].end.sec
  {
    assert ops[lo] in ops && ops[hi] in ops;
  }

  /** None in `opsStart` is the script's empty OPS_START: no operation has been seen. */
  method Analyse(ops: seq<Operation>)
    returns (opsStart: Option<Stamp>, opsEnd: Option<Stamp>, riaasTotal: int, callTimes: seq<int>)
    ensures opsStart.None? == opsEnd.None? == (ops == [])
    ensures ops != [] ==>
      Covers(opsStart.value.sec, opsEnd.value.sec, ops) && Attained(opsStart.value, opsEnd.value, ops)
    ensures riaasTotal == TotalOf(callTimes)
    ensures |callTimes| == |ops| && forall i | 0 <= i < |ops| :: callTimes[i] == CallTime(ops[i])
    ensures forall i | 0 <= i < |ops| ::
      callTimes[i] == if ops[i].riaas.Some? then ops[i].end.sec - ops[i].riaas.value.sec else 0
    ensures ops != [] ==> forall op | op in ops :: opsStart.value.sec <= op.start.sec && op.end.sec <= opsEnd.value.sec
    ensures ops != [] ==> exists lo: nat :: FirstStart(ops, |ops|, lo) && opsStart.value == ops[lo].start
    ensures ops != [] ==> exists hi: nat :: LastEnd(ops, |ops|, hi) && opsEnd.value == ops[hi].end
  {
    opsStart, opsEnd, riaasTotal, callTimes := None, None, 0, [];
    ghost var lo: nat, hi: nat := 0, 0;
    for i := 0 to |ops|
      invariant opsStart.None? == opsEnd.None? == (i == 0)
      invariant i > 0 ==> FirstStart(ops, i, lo) && opsStart.value == ops[lo].start
      invariant i > 0 ==> LastEnd(ops, i, hi) && opsEnd.value == ops[hi].end
      invariant riaasTotal == TotalOf(callTimes)
      invariant |callTimes| == i && forall j | 0 <= j < i :: callTimes[j] == CallTime(ops[j])
    {
      var riaasStart := ops[i].riaas;
      if riaasStart.None? {
        riaasStart := Some(ops[i].end);
      }
      var timediff := ops[i].end.sec - riaasStart.value.sec;
      assert (callTimes + [timediff])[..|callTimes|] == callTimes;
      callTimes := callTimes + [timediff];
      riaasTotal := riaasTotal + timediff;
      if opsStart.None? {
        lo, hi := i, i;
        opsStart := Some(ops[i].start);
        opsEnd := Some(ops[i].end);
      } else {
        timediff := opsStart.value.sec - ops[i].start.sec;
        if timediff > 0 {
          lo := i;
          opsStart := Some(ops[i].start);
        }
        timediff := opsEnd.value.sec - ops[i].end.sec;
        if !(timediff >= 0) {
          hi := i;
          opsEnd := Some(ops[i].end);
        }
      }
    }
    if ops != [] { FoundCovers(ops, lo, hi); }
  }

  /** The interval found is the smallest: any other that covers the operations contains it. */
  lemma SmallestCover(ops: seq<Operation>, a: Stamp, b: Stamp, a': int, b': int)
    requires Attained(a, b, ops) && Covers(a', b', ops)
    ensures a' <= a.sec && b.sec <= b'
  {
  }

  /** The call lies within its operation. */
  predicate CallInside(op: Operation) {
    op.start.sec <= CallStart(op).sec <= op.end.sec
  }

  lemma OneMore(n: nat, w: int)
    ensures (n + 1) * w == n * w + w
  {
  }

  /** The calls cannot take longer than one whole interval each. */
  lemma {:induction false} CallTimeBound(ops: seq<Operation>, callTimes: seq<int>, a: int, b: int)
    requires Covers(a, b, ops) && |callTimes| == |ops|
    requires forall i | 0 <= i < |ops| :: callTimes[i] == CallTime(ops[i]) && CallInside(ops[i])
    ensures 0 <= TotalOf(callTimes) <= |ops| * (b - a)
  {
    if ops != [] {
      var n := |ops| - 1;
      CallTimeBound(ops[..n], callTimes[..n], a, b);
      assert ops[n] in ops && 0 <= callTimes[n] <= b - a;
      OneMore(n, b - a);
    }
  }
}
