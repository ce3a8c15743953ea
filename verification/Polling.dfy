/**
  The bounded polling loops of vpc-deploy-1replica-multi-vols.sh, run against arbitrary
  answers from the cluster.
 */
module Polling {
  import opened Text
  import SplitJoin

  const IT_COUNT := 900
  const MAX_TIMEOUTS := 10

  // ---------- waiting for the claims to be bound ----------

  /** The exit status and the combined output of one `kubectl get pvc`. */
  datatype Response = Response(rc: int, text: string)

  datatype Reading = TimedOut | NoneFound | AllBound | Waiting

  predicate IsBound(word: string) {
    AfterLastColon(word) == "Bound"
  }

  /** A word counts as bound when its last colon, if any, is followed by Bound and nothing else. */
  lemma IsBoundMeans(word: string)
    ensures IsBound(word) <==> word == "Bound" || exists front :: word == front + ":Bound"
  {
    AfterLastColonIs(word, "Bound");
    assert forall front :: front + ":" + "Bound" == front + ":Bound";
  }

  /** The words of a list printed one line an item are its lines, all of them and in order. */
  lemma {:induction false} WordsOfLines(lines: seq<string>)
    requires forall l | l in lines :: l != "" && ' ' !in l && '\t' !in l && '\n' !in l
    ensures Words(SplitJoin.Join(lines, '\n')) == lines
    decreases |lines|
  {
    if |lines| == 1 {
      assert lines[0] in lines;
      OneWord(lines[0]);
    } else if |lines| > 1 {
      var tail := SplitJoin.Join(lines[1..], '\n');
      WordsPast(lines[0], ['\n'] + tail, "");
      assert lines[0] + (['\n'] + tail) == lines[0] + ['\n'] + tail && "" + lines[0] == lines[0];
      assert (['\n'] + tail)[1..] == tail;
      WordsOfLines(lines[1..]);
    }
  }

  /** What one response means to the loop; a failure without "timeout" is read as a list. */
  function Classify(r: Response): Reading {
    if r.rc != 0 && Contains(r.text, "timeout") then TimedOut
    else if r.text == "" then NoneFound
    else if forall w | w in Words(r.text) :: IsBound(w) then AllBound
    else Waiting
  }

  /** How many of the first `n` readings found some claim not bound yet. */
  function Waits(answers: nat -> Response, n: nat): nat {
    if n == 0 then 0 else Waits(answers, n - 1) + if Classify(answers(n - 1)) == Waiting then 1 else 0
  }

  /** How many of the first `n` readings were timeouts, counting back from the last. */
  function Timeouts(answers: nat -> Response, n: nat): nat {
    if n == 0 || Classify(answers(n - 1)) != TimedOut then 0 else Timeouts(answers, n - 1) + 1
  }

  predicate Goes(answers: nat -> Response, j: nat) {
    && (Classify(answers(j)) == Waiting || Classify(answers(j)) == TimedOut)
    && Timeouts(answers, j + 1) <= MAX_TIMEOUTS
  }

  /** None of the first `n` readings settles the matter, so one more is made. */
  ghost predicate Undecided(answers: nat -> Response, n: nat) {
    Waits(answers, n) < IT_COUNT && forall j | 0 <= j < n :: Goes(answers, j)
  }

  /** `exit 1` on the spot, or EXIT_CODE as the loop leaves it. */
  datatype Verdict = Aborted | Decided(exitCode: int)

  /** What reading `n` decides, when the ones before it decided nothing. */
  function VerdictAt(answers: nat -> Response, n: nat): Verdict {
    match Classify(answers(n))
    case TimedOut => Aborted
    case NoneFound => Decided(1)
    case AllBound => Decided(0)
    case Waiting => Decided(1)
  }

  lemma {:induction false} UndecidedIsShort(answers: nat -> Response, n: nat)
    requires forall j | 0 <= j < n :: Goes(answers, j)
    ensures n <= (MAX_TIMEOUTS + 1) * Waits(answers, n) + Timeouts(answers, n)
    ensures Timeouts(answers, n) <= MAX_TIMEOUTS
  {
    if n > 0 {
      UndecidedIsShort(answers, n - 1);
      assert Goes(answers, n - 1);
    }
  }

  /** The loop over one list: 1 if some claim is not bound. */
  method ScanClaims(words: seq<string>) returns (success: int)
    ensures success == if forall w | w in words :: IsBound(w) then 0 else 1
  {
    success := 0;
    for i := 0 to |words|
      invariant success == 0 || success == 1
      invariant success == 0 <==> forall j | 0 <= j < i :: IsBound(words[j])
    {
      var phase := AfterLastColon(words[i]);
      if phase != "Bound" {
        success := 1;
      }
    }
  }

  /**
    The loop reads on exactly while nothing is decided, and the first reading that
    settles the matter gives the verdict.
   */
  method WaitForBound(answers: nat -> Response) returns (verdict: Verdict, used: nat)
    ensures used > 0 && Undecided(answers, used - 1) && !Undecided(answers, used)
    ensures verdict == VerdictAt(answers, used - 1)
  {
    used := 0;
    var it, errc := 1, 0;
    var exitCode := 0;
    var pvclist := "";
    while 0 < it <= IT_COUNT
      invariant it == -1 || it == 1 + Waits(answers, used)
      invariant it != -1 ==> errc == Timeouts(answers, used) && forall j | 0 <= j < used :: Goes(answers, j)
      invariant it == -1 || it > IT_COUNT ==>
        used > 0 && Undecided(answers, used - 1) && pvclist == answers(used - 1).text && pvclist != ""
      invariant it == -1 ==> Classify(answers(used - 1)) == AllBound
      invariant it > IT_COUNT ==> Classify(answers(used - 1)) == Waiting
      decreases if it > 0 then IT_COUNT + 1 - it else 0, MAX_TIMEOUTS + 1 - errc
    {
      UndecidedIsShort(answers, used);
      var success := 0;
      var response := answers(used);
      used := used + 1;
      pvclist := response.text;
      if response.rc != 0 {
        if Contains(pvclist, "timeout") {
          errc := errc + 1;
          if errc > MAX_TIMEOUTS {
            assert !Goes(answers, used - 1);
            return Aborted, used;
          }
          assert Goes(answers, used - 1);
          continue;
        }
      }
      errc := 0;
      if pvclist == "" {
        assert !Goes(answers, used - 1);
        break;
      }
      success := ScanClaims(Words(pvclist));
      if success == 0 {
        it := -1;
      } else {
        it := it + 1;
        assert Goes(answers, used - 1);
      }
    }
    if it >= IT_COUNT {
      exitCode := 1;
    }
    if pvclist == "" {
      exitCode := 1;
    }
    verdict := Decided(exitCode);
    assert it == -1 ==> !Goes(answers, used - 1);
  }

  /**
    What the verdict tells: status 0 exactly when the last list read was there and wholly
    bound, an abort exactly after eleven timeouts in a row; and the reads are bounded.
   */
  lemma VerdictMeans(answers: nat -> Response, used: nat)
    requires used > 0 && Undecided(answers, used - 1) && !Undecided(answers, used)
    ensures VerdictAt(answers, used - 1) == Decided(0) <==> Classify(answers(used - 1)) == AllBound
    ensures VerdictAt(answers, used - 1) == Aborted <==> Timeouts(answers, used) > 10
    ensures VerdictAt(answers, used - 1) == Decided(1) <==>
      Classify(answers(used - 1)) == NoneFound || Waits(answers, used) == 900
    ensures used <= 11 * 900
  {
    UndecidedIsShort(answers, used - 1);
    assert !Goes(answers, used - 1) || Waits(answers, used) >= IT_COUNT;
  }

  /**
    Which reading is the last: an empty one, with status 1; one that finds everything bound;
    the 900th that finds some claim waiting; the eleventh timeout in a row.
   */
  lemma LastReadingExactly(answers: nat -> Response, n: nat)
    requires Undecided(answers, n)
    ensures !Undecided(answers, n + 1) <==>
      || Classify(answers(n)) == NoneFound || Classify(answers(n)) == AllBound
      || (Classify(answers(n)) == Waiting && Waits(answers, n) == 899)
      || (Classify(answers(n)) == TimedOut && Timeouts(answers, n) == 10)
    ensures answers(n).text == "" ==> !Undecided(answers, n + 1) && VerdictAt(answers, n) == Decided(1)
  {
    UndecidedIsShort(answers, n);
    assert "" == [] && !Contains("", "timeout");
    if !Undecided(answers, n + 1) && Waits(answers, n + 1) < IT_COUNT {
      assert !Goes(answers, n);
    }
    assert Undecided(answers, n + 1) ==> Goes(answers, n);
  }

  /** There is something in the answer, and none of it is part of a word. */
  predicate OnlyBlanks(text: string) {
    text != "" && forall c | c in text :: IsShellBlank(c)
  }

  lemma BlanksHaveNoTimeout(text: string)
    requires OnlyBlanks(text)
    ensures !Contains(text, "timeout")
  {
    if i: nat :| i <= |text| && OccursAt(text, "timeout", i) {
      assert text[i] == text[i..i + 7][0] == 't' && text[i] in text;
    }
  }

  /** Exactly the answers of blanks alone list no claim and are still taken for a bound list. */
  lemma BoundWithoutClaims(r: Response)
    ensures Classify(r) == AllBound && Words(r.text) == [] <==> OnlyBlanks(r.text)
  {
    NoWordsExactly(r.text, "");
    if OnlyBlanks(r.text) { BlanksHaveNoTimeout(r.text); }
  }

  /** The call succeeded and lists some claim, and every claim listed is bound. */
  predicate VouchedFor(r: Response) {
    r.rc == 0 && Words(r.text) != [] && forall w | w in Words(r.text) :: IsBound(w)
  }

  /**
    Status 0 vouches for a claim if and only if the call that settles the matter succeeded
    and did not print blanks alone.  An answer of blanks lists nothing, and the output of a
    failed call is taken for a list unless it is empty or mentions a timeout.
   */
  lemma ZeroMeansClaimsExactly(answers: nat -> Response, used: nat)
    requires used > 0 && Undecided(answers, used - 1) && !Undecided(answers, used)
    ensures var r, zero := answers(used - 1), VerdictAt(answers, used - 1) == Decided(0);
      && (zero && Words(r.text) == [] <==> OnlyBlanks(r.text))
      && (zero && r.rc != 0 <==>
          r.rc != 0 && r.text != "" && !Contains(r.text, "timeout") && forall w | w in Words(r.text) :: IsBound(w))
      && (VouchedFor(r) ==> zero)
      && (zero ==> (VouchedFor(r) <==> r.rc == 0 && !OnlyBlanks(r.text)))
  {
    var r := answers(used - 1);
    VerdictMeans(answers, used);
    BoundWithoutClaims(r);
    assert r.text == "" ==> Words(r.text) == [];
  }

  /**
    On a list of one line a claim, the loop looks at every line: the answer is taken for
    bound if and only if each line is Bound or ends in `:Bound`, and else it waits.
   */
  lemma EveryLineCounts(lines: seq<string>)
    requires lines != [] && forall l | l in lines :: l != "" && ' ' !in l && '\t' !in l && '\n' !in l
    ensures var reading := Classify(Response(0, SplitJoin.Join(lines, '\n')));
      && (reading == AllBound <==> forall l | l in lines :: l == "Bound" || exists front :: l == front + ":Bound")
      && (reading == AllBound || reading == Waiting)
  {
    WordsOfLines(lines);
    assert lines[0] in lines;
    forall l {
      IsBoundMeans(l);
    }
  }

  /** So the loop ends with 0 on such a list if and only if every claim on it is bound. */
  lemma ZeroOnLinesExactly(answers: nat -> Response, used: nat, lines: seq<string>)
    requires used > 0 && Undecided(answers, used - 1) && !Undecided(answers, used)
    requires lines != [] && forall l | l in lines :: l != "" && ' ' !in l && '\t' !in l && '\n' !in l
    requires answers(used - 1) == Response(0, SplitJoin.Join(lines, '\n'))
    ensures VerdictAt(answers, used - 1) == Decided(0) <==>
      forall l | l in lines :: l == "Bound" || exists front :: l == front + ":Bound"
  {
    EveryLineCounts(lines);
  }

  /** One answer that is taken for bound ends the loop with status 0 at once. */
  lemma BoundAnswerPasses(r: Response)
    requires Classify(r) == AllBound
    ensures var answers := (k: nat) => r;
      Undecided(answers, 0) && !Undecided(answers, 1) && VerdictAt(answers, 0) == Decided(0)
  {
    var answers := (k: nat) => r;
    assert !Goes(answers, 0);
  }

  /** A failed call that prints one word ending in Bound is taken for a bound list. */
  lemma FailedWordPasses(r: Response)
    requires r.rc != 0 && |r.text| < 7 && IsBound(r.text) && forall c | c in r.text :: !IsShellBlank(c)
    ensures Classify(r) == AllBound && !VouchedFor(r)
  {
    assert r.text != "";
    OneWord(r.text);
    assert !Contains(r.text, "timeout") by { assert forall i: nat :: !OccursAt(r.text, "timeout", i); }
  }

  /** A cluster that prints one space is enough, and so is a failed call that prints Bound. */
  lemma BlankOrFailedPasses()
    ensures Classify(Response(0, " ")) == AllBound && !VouchedFor(Response(0, " "))
    ensures Classify(Response(1, "Bound")) == AllBound && !VouchedFor(Response(1, "Bound"))
  {
    BoundWithoutClaims(Response(0, " "));
    OfTail("", "Bound");
    FailedWordPasses(Response(1, "Bound"));
  }

  /** Only one reading of a stream can settle the matter. */
  lemma VerdictIsUnique(answers: nat -> Response, k: nat, l: nat)
    requires Undecided(answers, k) && !Undecided(answers, k + 1)
    requires Undecided(answers, l) && !Undecided(answers, l + 1)
    ensures k == l
  {
    if k < l { StillUndecided(answers, k, l); }
    if l < k { StillUndecided(answers, l, k); }
  }

  lemma StillUndecided(answers: nat -> Response, k: nat, l: nat)
    requires k < l && Undecided(answers, l)
    ensures Undecided(answers, k + 1)
  {
    FewerWaits(answers, k + 1, l);
  }

  lemma {:induction false} FewerWaits(answers: nat -> Response, k: nat, n: nat)
    requires k <= n
    ensures Waits(answers, k) <= Waits(answers, n)
    decreases n
  {
    if k < n { FewerWaits(answers, k, n - 1); }
  }

  /** Ten timeouts between any two lists: the slowest cluster the loop puts up with. */
  function Slowest(k: nat): Response {
    if k % (MAX_TIMEOUTS + 1) == MAX_TIMEOUTS then Response(0, "x") else Response(1, "timeout")
  }

  lemma SlowestReadings(k: nat)
    ensures Classify(Slowest(k)) == if k % 11 == 10 then Waiting else TimedOut
  {
    assert OccursAt("timeout", "timeout", 0);
    OneWord("x");
    OfTail("", "x");
    assert "x" in Words("x") && !IsBound("x");
  }

  lemma {:induction false} TenTimeoutsEach(answers: nat -> Response, n: nat)
    requires forall k: nat :: Classify(answers(k)) == if k % 11 == 10 then Waiting else TimedOut
    ensures Waits(answers, n) == n / 11 && Timeouts(answers, n) == n % 11
  {
    if n > 0 {
      TenTimeoutsEach(answers, n - 1);
    }
  }

  /** The bound of eleven reads for each iteration is attained. */
  lemma ReadBoundIsTight()
    ensures Undecided(Slowest, 11 * IT_COUNT - 1)
  {
    forall k: nat ensures Classify(Slowest(k)) == if k % 11 == 10 then Waiting else TimedOut {
      SlowestReadings(k);
    }
    TenTimeoutsEach(Slowest, 11 * IT_COUNT - 1);
    forall j | 0 <= j < 11 * IT_COUNT - 1 ensures Goes(Slowest, j) {
      TenTimeoutsEach(Slowest, j + 1);
    }
  }

  // ---------- waiting for the volumes to be deleted ----------

  /** The shell pattern `*NotFound*name*`. */
  predicate ReportsNotFound(phase: string, name: string) {
    exists i: nat | i <= |phase| :: OccursAt(phase, "NotFound", i) && Contains(phase[i + 8..], name)
  }

  lemma NotFoundSplits(phase: string, name: string) returns (a: string, b: string, c: string)
    requires ReportsNotFound(phase, name)
    ensures phase == a + "NotFound" + b + name + c
  {
    var i: nat :| i <= |phase| && OccursAt(phase, "NotFound", i) && Contains(phase[i + 8..], name);
    var rest := phase[i + 8..];
    var j: nat :| j <= |rest| && OccursAt(rest, name, j);
    a, b, c := phase[..i], rest[..j], rest[j + |name|..];
    OccursSplits(phase, "NotFound", i);
    OccursSplits(rest, name, j);
    Reassociate(a + "NotFound", b, name, c);
  }

  lemma Reassociate(x: string, b: string, name: string, c: string)
    ensures x + (b + name + c) == x + b + name + c
  {
  }

  lemma NotFoundOccurs(a: string, b: string, name: string, c: string)
    ensures ReportsNotFound(a + "NotFound" + b + name + c, name)
  {
    var phase := a + "NotFound" + b + name + c;
    assert OccursAt(phase, "NotFound", |a|);
    assert phase[|a| + 8..] == b + name + c;
    assert OccursAt(b + name + c, name, |b|);
  }

  /** The pattern matches the texts made of anything, NotFound, anything, the name, anything. */
  lemma NotFoundPattern(phase: string, name: string)
    ensures ReportsNotFound(phase, name) <==> exists a, b, c :: phase == a + "NotFound" + b + name + c
  {
    if ReportsNotFound(phase, name) {
      var a, b, c := NotFoundSplits(phase, name);
    }
    if a, b, c :| phase == a + "NotFound" + b + name + c {
      NotFoundOccurs(a, b, name, c);
    }
  }

  /** Whether pass `q`, counting from one, finds the volume `name` of entry `i` gone. */
  type Probe = (nat, nat, string) -> bool

  /** The probe made of what `kubectl get pv` prints in pass `q` for entry `i`. */
  function KubectlProbe(phase: (nat, nat) -> string): Probe {
    (q: nat, i: nat, name: string) => ReportsNotFound(phase(q, i), name)
  }

  /** Entry `i` has been found gone in one of the first `p` passes. */
  predicate Gone(probe: Probe, word: string, i: nat, p: nat) {
    p > 0 && (probe(p, i, AfterLastColon(word)) || Gone(probe, word, i, p - 1))
  }

  lemma {:induction false} GoneInSomePass(probe: Probe, word: string, i: nat, p: nat)
    ensures Gone(probe, word, i, p) <==> exists q: nat | 1 <= q <= p :: probe(q, i, AfterLastColon(word))
  {
    if p > 0 {
      GoneInSomePass(probe, word, i, p - 1);
      if probe(p, i, AfterLastColon(word)) {
        assert exists q: nat | q == p :: 1 <= q <= p && probe(q, i, AfterLastColon(word));
      }
    }
  }

  ghost predicate AllGone(probe: Probe, words: seq<string>, p: nat) {
    forall i | 0 <= i < |words| :: Gone(probe, words[i], i, p)
  }

  /** What is left of entry `i` after `p` passes. */
  function Left(probe: Probe, words: seq<string>, i: nat, p: nat): string
    requires i < |words|
  {
    if Gone(probe, words[i], i, p) then "" else words[i]
  }

  /** The array the loop works on: the listed volumes, or one empty entry if there is none. */
  method MakePvArray(pvlist: string) returns (pvArray: array<string>)
    ensures fresh(pvArray)
    ensures pvArray[..] == if Words(pvlist) == [] then [""] else Words(pvlist)
    ensures forall lines: seq<string> | pvlist == SplitJoin.Join(lines, '\n') && lines != [] &&
      (forall l | l in lines :: l != "" && ' ' !in l && '\t' !in l && '\n' !in l) :: pvArray[..] == lines
  {
    var words := Words(pvlist);
    pvArray := new string[if |words| == 0 then 1 else |words|](_ => "");
    for ind := 0 to |words|
      invariant forall j | 0 <= j < ind :: pvArray[j] == words[j]
      invariant ind == 0 ==> forall j | 0 <= j < pvArray.Length :: pvArray[j] == ""
    {
      pvArray[ind] := words[ind];
    }
    forall lines: seq<string> | pvlist == SplitJoin.Join(lines, '\n') && lines != [] &&
      (forall l | l in lines :: l != "" && ' ' !in l && '\t' !in l && '\n' !in l)
      ensures pvArray[..] == lines
    {
      WordsOfLines(lines);
    }
  }

  /** What a pass makes of one entry, in pass `q`. */
  function Visited(probe: Probe, q: nat, i: nat, word: string): string {
    if probe(q, i, AfterLastColon(word)) then "" else word
  }

  ghost predicate Passed(was: seq<string>, now: seq<string>, probe: Probe, q: nat) {
    |now| == |was| && forall j | 0 <= j < |was| :: now[j] == Visited(probe, q, j, was[j])
  }

  ghost predicate AllClear(entries: seq<string>) {
    forall j | 0 <= j < |entries| :: entries[j] == ""
  }

  /**
    One pass over the entries.  It asks about every entry still there, clears the ones
    found gone, and says whether there was nothing to ask about.
   */
  method DeletionPass(pvArray: array<string>, probe: Probe, it: nat) returns (success: int)
    modifies pvArray
    ensures success == if AllClear(old(pvArray[..])) then 0 else 1
    ensures Passed(old(pvArray[..]), pvArray[..], probe, it)
  {
    ghost var was := pvArray[..];
    success := 0;
    for ind := 0 to pvArray.Length
      invariant success == 0 || success == 1
      invariant success == 0 <==> forall j | 0 <= j < ind :: was[j] == ""
      invariant forall j | ind <= j < pvArray.Length :: pvArray[j] == was[j]
      invariant forall j | 0 <= j < ind :: pvArray[j] == Visited(probe, it, j, was[j])
    {
      var pvname := pvArray[ind];
      if pvname == "" {
        continue;
      }
      pvname := AfterLastColon(pvname);
      success := 1;
      if probe(it, ind, pvname) {
        pvArray[ind] := "";
      }
    }
  }

  /** A pass takes what is left after `p` passes to what is left after one more. */
  lemma PassLeaves(probe: Probe, words: seq<string>, i: nat, p: nat)
    requires i < |words| && words[i] != ""
    ensures Visited(probe, p + 1, i, Left(probe, words, i, p)) == Left(probe, words, i, p + 1)
  {
  }

  lemma {:induction false} GoneStays(probe: Probe, words: seq<string>, p: nat, p': nat)
    requires p <= p' && AllGone(probe, words, p)
    ensures AllGone(probe, words, p')
    decreases p'
  {
    if p < p' {
      GoneStays(probe, words, p, p' - 1);
      assert forall i | 0 <= i < |words| :: Gone(probe, words[i], i, p' - 1) && Gone(probe, words[i], i, p');
    }
  }

  /** The array after `p` passes; beyond the listed volumes it has only empty entries. */
  ghost predicate Leaves(entries: seq<string>, probe: Probe, words: seq<string>, p: nat) {
    && |words| <= |entries| && (forall j | |words| <= j < |entries| :: entries[j] == "")
    && forall i | 0 <= i < |words| :: entries[i] == Left(probe, words, i, p)
  }

  lemma LeavesAfterPass(was: seq<string>, now: seq<string>, probe: Probe, words: seq<string>, p: nat)
    requires Leaves(was, probe, words, p) && forall w | w in words :: w != ""
    requires Passed(was, now, probe, p + 1)
    ensures Leaves(now, probe, words, p + 1)
    ensures AllClear(was) <==> AllGone(probe, words, p)
  {
    forall i | 0 <= i < |words|
      ensures now[i] == Left(probe, words, i, p + 1)
      ensures was[i] == "" <==> Gone(probe, words[i], i, p)
    {
      assert words[i] in words && was[i] == Left(probe, words, i, p);
      PassLeaves(probe, words, i, p);
    }
  }

  /** One pass, seen against the listed volumes. */
  method PassOver(pvArray: array<string>, probe: Probe, ghost words: seq<string>, it: nat) returns (success: int)
    requires it >= 1 && Leaves(pvArray[..], probe, words, it - 1) && forall w | w in words :: w != ""
    modifies pvArray
    ensures Leaves(pvArray[..], probe, words, it)
    ensures success == if AllGone(probe, words, it - 1) then 0 else 1
  {
    ghost var was := pvArray[..];
    success := DeletionPass(pvArray, probe, it);
    LeavesAfterPass(was, pvArray[..], probe, words, it - 1);
  }

  /**
    The return code is 0 exactly when every listed volume was found gone in one of the
    first IT_COUNT - 1 passes: the pass that finds nothing left is one more.  An entry is
    only ever cleared, and only when it was found gone.
   */
  method WaitForDeletion(pvlist: string, probe: Probe) returns (retcode: int, left: seq<string>, passes: nat)
    ensures retcode == if AllGone(probe, Words(pvlist), IT_COUNT - 1) then 0 else 1
    ensures 1 <= passes <= IT_COUNT && (retcode == 1 ==> passes == 900)
    ensures Leaves(left, probe, Words(pvlist), passes)
    ensures retcode == 0 ==> AllGone(probe, Words(pvlist), passes - 1)
    ensures retcode == 0 && passes > 1 ==> !AllGone(probe, Words(pvlist), passes - 2)
  {
    var words := Words(pvlist);
    retcode := 0;
    var pvArray := MakePvArray(pvlist);
    var it := 1;
    passes := 0;
    while 0 < it <= IT_COUNT
      invariant passes <= IT_COUNT && (it == -1 || it == passes + 1)
      invariant Leaves(pvArray[..], probe, words, passes)
      invariant it == -1 ==> passes >= 1 && AllGone(probe, words, passes - 1)
      invariant it == -1 && passes >= 2 ==> !AllGone(probe, words, passes - 2)
      invariant it != -1 && passes >= 1 ==> !AllGone(probe, words, passes - 1)
      decreases if it > 0 then IT_COUNT + 1 - it else 0
    {
      var success := PassOver(pvArray, probe, words, it);
      passes := passes + 1;
      if success == 0 {
        it := -1;
      } else {
        it := it + 1;
      }
    }
    if it >= IT_COUNT {
      retcode := 1;
    } else {
      GoneStays(probe, words, passes - 1, IT_COUNT - 1);
    }
    left := pvArray[..];
  }

  /** One of the first 899 passes printed, for entry `i`, that the volume does not exist. */
  ghost predicate SeenNotFound(phase: (nat, nat) -> string, i: nat, name: string) {
    exists q: nat | 1 <= q <= 899 :: ReportsNotFound(phase(q, i), name)
  }

  /**
    In terms of what `kubectl` lists and prints: a list of lines `claim:volume` ends in
    return code 0 exactly when each volume was reported not found, by its own name, in one
    of the first 899 passes.
   */
  lemma DeletedMeansReported(words: seq<string>, volumes: seq<string>, phase: (nat, nat) -> string)
    requires |volumes| == |words| && forall i | 0 <= i < |words| ::
      ':' !in volumes[i] && exists claim :: words[i] == claim + ":" + volumes[i]
    ensures AllGone(KubectlProbe(phase), words, IT_COUNT - 1) <==>
      forall i | 0 <= i < |words| :: SeenNotFound(phase, i, volumes[i])
  {
    var probe := KubectlProbe(phase);
    forall i | 0 <= i < |words|
      ensures Gone(probe, words[i], i, IT_COUNT - 1) <==> SeenNotFound(phase, i, volumes[i])
    {
      AfterLastColonIs(words[i], volumes[i]);
      GoneInSomePass(probe, words[i], i, IT_COUNT - 1);
      assert forall q: nat :: probe(q, i, volumes[i]) == ReportsNotFound(phase(q, i), volumes[i]);
    }
  }

  /** The whole wait on a list of such lines: 0 exactly when all the volumes were reported. */
  method WaitForVolumes(lines: seq<string>, volumes: seq<string>, phase: (nat, nat) -> string)
    returns (retcode: int)
    requires lines != [] && forall l | l in lines :: l != "" && ' ' !in l && '\t' !in l && '\n' !in l
    requires |volumes| == |lines| && forall i | 0 <= i < |lines| ::
      ':' !in volumes[i] && exists claim :: lines[i] == claim + ":" + volumes[i]
    ensures retcode == 0 || retcode == 1
    ensures retcode == 0 <==> forall i | 0 <= i < |lines| :: SeenNotFound(phase, i, volumes[i])
  {
    var left, passes;
    retcode, left, passes := WaitForDeletion(SplitJoin.Join(lines, '\n'), KubectlProbe(phase));
    WordsOfLines(lines);
    DeletedMeansReported(lines, volumes, phase);
  }
}
