/** Client-side retry discipline around `terraform workspace select/new` and
    `terraform init`, as embedded in the generated step scripts.

    The improved generator (generate_cloudbuild_improved.py) embeds two
    bounded loops: `setup_workspace` (select, else create, else sleep with
    capped doubling; at most 10 rounds, then `exit 1`) and `init_terraform`
    (at most 3 attempts, a fixed pause only between attempts). The earlier
    generators embed an unbounded `while ! select; do sleep 10; done`.

    What terraform answers is an oracle: for the bounded loops a total
    function from the 0-based attempt number to the outcomes, for the
    unbounded loop the finite window of select outcomes observed so far. */
module LockProtocol {
  import opened Common

  const BaseWait: nat := 5
  const MaxWait: nat := 120
  const MaxAttempts: nat := 10
  const InitAttempts: nat := 3
  const InitPause: nat := 10
  const LegacyPause: nat := 10

  /** What one round of `setup_workspace` would observe: whether `select`
      succeeds, and whether `new` would succeed if it were tried. */
  datatype Round = Round(selectOk: bool, createOk: bool) {
    predicate Succeeds() { selectOk || createOk }
  }

  /** The external commands the loops run, in order. */
  datatype Call = Select | Create | Init | Sleep(seconds: nat)

  datatype LockResult = Acquired(attempt: nat, created: bool) | Exhausted

  // ---------------------------------------------------------------------------
  // setup_workspace: specification

  function Pow2(n: nat): (p: nat)
    ensures p >= 1
  {
    if n == 0 then 1 else 2 * Pow2(n - 1)
  }

  /** The length of the sleep after the (j+1)-th failed round, in closed form:
      min(5 * 2^j, 120). */
  function WaitAt(j: nat): nat {
    Min(BaseWait * Pow2(j), MaxWait)
  }

  /** The first round (from `from` on, below the attempt bound) in which select
      or create succeeds, or MaxAttempts if there is none. */
  function FirstLockSuccess(rounds: nat -> Round, from: nat): (k: nat)
    requires from <= MaxAttempts
    ensures from <= k <= MaxAttempts
    decreases MaxAttempts - from
  {
    if from == MaxAttempts || rounds(from).Succeeds() then from
    else FirstLockSuccess(rounds, from + 1)
  }

  /** No round before the first success succeeds, and the first success,
      if below the attempt bound, does. */
  lemma {:induction false} FirstLockSuccessSpec(rounds: nat -> Round, from: nat)
    requires from <= MaxAttempts
    ensures forall j :: from <= j < FirstLockSuccess(rounds, from) ==> !rounds(j).Succeeds()
    ensures FirstLockSuccess(rounds, from) < MaxAttempts ==> rounds(FirstLockSuccess(rounds, from)).Succeeds()
    decreases MaxAttempts - from
  {
    if from < MaxAttempts && !rounds(from).Succeeds() {
      FirstLockSuccessSpec(rounds, from + 1);
    }
  }

  /** The calls of n fully failed rounds. */
  function FailedRounds(n: nat): seq<Call> {
    if n == 0 then [] else FailedRounds(n - 1) + [Select, Create, Sleep(WaitAt(n - 1))]
  }

  /** Everything `setup_workspace` runs for the given oracle. */
  function LockCalls(rounds: nat -> Round): seq<Call> {
    var k := FirstLockSuccess(rounds, 0);
    if k == MaxAttempts then FailedRounds(MaxAttempts)
    else FailedRounds(k) + (if rounds(k).selectOk then [Select] else [Select, Create])
  }

  /** How `setup_workspace` ends: `return 0` in round k+1 (having created the
      workspace when select failed), or `exit 1` after the last round. */
  function LockOutcome(rounds: nat -> Round): (r: LockResult)
    ensures r.Acquired? ==> 1 <= r.attempt <= MaxAttempts
  {
    var k := FirstLockSuccess(rounds, 0);
    if k == MaxAttempts then Exhausted else Acquired(k + 1, !rounds(k).selectOk)
  }

  // ---------------------------------------------------------------------------
  // setup_workspace: the loop

  lemma WaitDoublesUpToCap(j: nat)
    ensures WaitAt(j + 1) == Min(2 * WaitAt(j), MaxWait)
  {
    assert Pow2(j + 1) == 2 * Pow2(j);
  }

  /** The loop's update of wait_time (double, then cap) yields the next
      wait. */
  lemma NextWait(j: nat, w: nat)
    requires w == WaitAt(j)
    ensures WaitAt(j + 1) == if w * 2 > MaxWait then MaxWait else w * 2
  {
    WaitDoublesUpToCap(j);
  }

  method SetupWorkspace(rounds: nat -> Round) returns (calls: seq<Call>, result: LockResult)
    ensures calls == LockCalls(rounds)
    ensures result == LockOutcome(rounds)
  {
    var waitTime := BaseWait;
    var attempt := 1;
    calls := [];
    while attempt <= MaxAttempts
      invariant 1 <= attempt <= MaxAttempts + 1
      invariant waitTime == WaitAt(attempt - 1)
      invariant calls == FailedRounds(attempt - 1)
      invariant FirstLockSuccess(rounds, 0) == FirstLockSuccess(rounds, attempt - 1)
    {
      if rounds(attempt - 1).selectOk {
        LockSelected(rounds, attempt - 1);
        return calls + [Select], Acquired(attempt, false);
      }
      if rounds(attempt - 1).createOk {
        LockCreated(rounds, attempt - 1);
        return calls + [Select, Create], Acquired(attempt, true);
      }
      LockRoundFailed(rounds, attempt - 1);
      calls := calls + [Select, Create, Sleep(waitTime)];
      NextWait(attempt - 1, waitTime);
      waitTime := waitTime * 2;
      if waitTime > MaxWait {
        waitTime := MaxWait;
      }
      attempt := attempt + 1;
    }
    LockGivesUp(rounds);
    result := Exhausted;
  }

  /** Round a, after a rounds without success, ends the loop when select
      succeeds. */
  lemma LockSelected(rounds: nat -> Round, a: nat)
    requires a < MaxAttempts && FirstLockSuccess(rounds, 0) == FirstLockSuccess(rounds, a)
    requires rounds(a).selectOk
    ensures LockCalls(rounds) == FailedRounds(a) + [Select] && LockOutcome(rounds) == Acquired(a + 1, false)
  {
  }

  /** ... or when select fails and new succeeds. */
  lemma LockCreated(rounds: nat -> Round, a: nat)
    requires a < MaxAttempts && FirstLockSuccess(rounds, 0) == FirstLockSuccess(rounds, a)
    requires !rounds(a).selectOk && rounds(a).createOk
    ensures LockCalls(rounds) == FailedRounds(a) + [Select, Create] && LockOutcome(rounds) == Acquired(a + 1, true)
  {
  }

  /** Otherwise the round is one more failed round. */
  lemma LockRoundFailed(rounds: nat -> Round, a: nat)
    requires a < MaxAttempts && FirstLockSuccess(rounds, 0) == FirstLockSuccess(rounds, a)
    requires !rounds(a).Succeeds()
    ensures FirstLockSuccess(rounds, 0) == FirstLockSuccess(rounds, a + 1)
    ensures FailedRounds(a + 1) == FailedRounds(a) + [Select, Create, Sleep(WaitAt(a))]
  {
  }

  /** After MaxAttempts failed rounds the loop gives up. */
  lemma LockGivesUp(rounds: nat -> Round)
    requires FirstLockSuccess(rounds, 0) == FirstLockSuccess(rounds, MaxAttempts)
    ensures LockCalls(rounds) == FailedRounds(MaxAttempts) && LockOutcome(rounds) == Exhausted
  {
  }

  // ---------------------------------------------------------------------------
  // setup_workspace: properties

  /** The sleep lengths, in order, of a call sequence. */
  function Sleeps(calls: seq<Call>): (s: seq<nat>)
    ensures |s| <= |calls|
  {
    if calls == [] then []
    else (if calls[0].Sleep? then [calls[0].seconds] else []) + Sleeps(calls[1..])
  }

  function CountCall(calls: seq<Call>, c: Call): nat {
    if calls == [] then 0
    else (if calls[0] == c then 1 else 0) + CountCall(calls[1..], c)
  }

  lemma SleepsAppend(a: seq<Call>, b: seq<Call>)
    ensures Sleeps(a + b) == Sleeps(a) + Sleeps(b)
    ensures CountCall(a + b, Select) == CountCall(a, Select) + CountCall(b, Select)
    ensures CountCall(a + b, Create) == CountCall(a, Create) + CountCall(b, Create)
    ensures CountCall(a + b, Init) == CountCall(a, Init) + CountCall(b, Init)
  {
    SleepsOfAppend(a, b);
    CountOfAppend(a, b, Select);
    CountOfAppend(a, b, Create);
    CountOfAppend(a, b, Init);
  }

  lemma {:induction false} SleepsOfAppend(a: seq<Call>, b: seq<Call>)
    ensures Sleeps(a + b) == Sleeps(a) + Sleeps(b)
    decreases |a|
  {
    if a == [] {
      assert a + b == b;
    } else {
      var head: seq<nat> := if a[0].Sleep? then [a[0].seconds] else [];
      assert (a + b)[0] == a[0] && (a + b)[1..] == a[1..] + b;
      assert Sleeps(a + b) == head + Sleeps(a[1..] + b);
      SleepsOfAppend(a[1..], b);
      assert head + (Sleeps(a[1..]) + Sleeps(b)) == (head + Sleeps(a[1..])) + Sleeps(b);
    }
  }

  lemma {:induction false} CountOfAppend(a: seq<Call>, b: seq<Call>, c: Call)
    ensures CountCall(a + b, c) == CountCall(a, c) + CountCall(b, c)
    decreases |a|
  {
    if a == [] {
      assert a + b == b;
    } else {
      assert (a + b)[1..] == a[1..] + b;
      CountOfAppend(a[1..], b, c);
    }
  }

  lemma ConsCall(c: Call, rest: seq<Call>)
    ensures Sleeps([c] + rest) == (if c.Sleep? then [c.seconds] else []) + Sleeps(rest)
    ensures forall d :: CountCall([c] + rest, d) == (if c == d then 1 else 0) + CountCall(rest, d)
  {
    assert ([c] + rest)[1..] == rest;
  }

  lemma OneCall(c: Call)
    ensures Sleeps([c]) == (if c.Sleep? then [c.seconds] else [])
    ensures forall d :: CountCall([c], d) == if c == d then 1 else 0
  {
    ConsCall(c, []);
    assert [c] + [] == [c];
  }

  /** The calls of one failed round: one select, one create, one sleep. */
  lemma FailedRoundCounts(w: nat)
    ensures Sleeps([Select, Create, Sleep(w)]) == [w]
    ensures CountCall([Select, Create, Sleep(w)], Select) == 1
    ensures CountCall([Select, Create, Sleep(w)], Create) == 1
  {
    OneCall(Sleep(w));
    ConsCall(Create, [Sleep(w)]);
    assert [Create] + [Sleep(w)] == [Create, Sleep(w)];
    ConsCall(Select, [Create, Sleep(w)]);
    assert [Select] + [Create, Sleep(w)] == [Select, Create, Sleep(w)];
  }

  lemma LastRoundCounts()
    ensures Sleeps([Select]) == [] && Sleeps([Select, Create]) == []
    ensures CountCall([Select], Select) == 1 && CountCall([Select], Create) == 0
    ensures CountCall([Select, Create], Select) == 1 && CountCall([Select, Create], Create) == 1
  {
    OneCall(Select);
    OneCall(Create);
    ConsCall(Select, [Create]);
    assert [Select] + [Create] == [Select, Create];
  }

  lemma {:induction false} FailedRoundsShape(n: nat)
    ensures Sleeps(FailedRounds(n)) == seq(n, j requires 0 <= j => WaitAt(j))
    ensures CountCall(FailedRounds(n), Select) == n
    ensures CountCall(FailedRounds(n), Create) == n
  {
    if n > 0 {
      FailedRoundsShape(n - 1);
      var tail := [Select, Create, Sleep(WaitAt(n - 1))];
      SleepsAppend(FailedRounds(n - 1), tail);
      FailedRoundCounts(WaitAt(n - 1));
    }
  }

  /** The waits grow 5, 10, 20, 40, 80 and then stay at the 120 cap. */
  lemma {:induction false} WaitSchedule(j: nat)
    ensures j == 0 ==> WaitAt(j) == BaseWait
    ensures WaitAt(j) <= MaxWait
    ensures WaitAt(j) <= WaitAt(j + 1)
    ensures j >= 5 ==> WaitAt(j) == MaxWait
    ensures j < 5 ==> WaitAt(j) == BaseWait * Pow2(j)
  {
    WaitDoublesUpToCap(j);
    if j >= 5 {
      PowGrows(j);
    } else {
      assert Pow2(1) == 2 && Pow2(2) == 4 && Pow2(3) == 8 && Pow2(4) == 16;
    }
  }

  lemma {:induction false} PowGrows(j: nat)
    requires j >= 5
    ensures Pow2(j) >= 32
  {
    if j > 5 { PowGrows(j - 1); } else {
      assert Pow2(5) == 2 * Pow2(4) == 4 * Pow2(3) == 8 * Pow2(2) == 16 * Pow2(1);
    }
  }

  /** The k-th sleep of setup_workspace is min(5 * 2^(k-1), 120); there is one
      sleep per failed round; the sequence never decreases and never exceeds
      the cap. */
  lemma LockSleepSchedule(rounds: nat -> Round)
    ensures var s := Sleeps(LockCalls(rounds));
      |s| == FirstLockSuccess(rounds, 0) &&
      (forall k :: 0 <= k < |s| ==> s[k] == WaitAt(k) && s[k] <= MaxWait) &&
      (forall i, j :: 0 <= i <= j < |s| ==> s[i] <= s[j])
  {
    LockSleeps(rounds);
    var s := Sleeps(LockCalls(rounds));
    forall k' | 0 <= k' < |s| ensures s[k'] <= MaxWait { WaitSchedule(k'); }
    forall i, j | 0 <= i <= j < |s| ensures s[i] <= s[j] { WaitMonotone(i, j); }
  }

  lemma LockSleeps(rounds: nat -> Round)
    ensures Sleeps(LockCalls(rounds)) == seq(FirstLockSuccess(rounds, 0), j requires 0 <= j => WaitAt(j))
  {
    var k := FirstLockSuccess(rounds, 0);
    FailedRoundsShape(k);
    if k < MaxAttempts {
      var last := if rounds(k).selectOk then [Select] else [Select, Create];
      SleepsAppend(FailedRounds(k), last);
      LastRoundCounts();
      assert Sleeps(last) == [];
    }
  }

  lemma {:induction false} WaitMonotone(i: nat, j: nat)
    requires i <= j
    ensures WaitAt(i) <= WaitAt(j)
    decreases j - i
  {
    if i < j {
      WaitMonotone(i, j - 1);
      WaitSchedule(j - 1);
    }
  }

  /** setup_workspace exits with status 1 exactly when all ten rounds fail;
      it has then slept ten times, 755 seconds in all, and never reports
      success. */
  lemma LockExhaustion(rounds: nat -> Round)
    ensures LockOutcome(rounds) == Exhausted <==>
      forall j :: 0 <= j < MaxAttempts ==> !rounds(j).Succeeds()
    ensures LockOutcome(rounds) == Exhausted ==>
      Sleeps(LockCalls(rounds)) == [5, 10, 20, 40, 80, 120, 120, 120, 120, 120]
  {
    if LockOutcome(rounds) == Exhausted {
      FailedRoundsShape(MaxAttempts);
      var s := Sleeps(LockCalls(rounds));
      forall j | 0 <= j < 10 ensures s[j] == [5, 10, 20, 40, 80, 120, 120, 120, 120, 120][j] {
        WaitSchedule(j);
        assert Pow2(1) == 2 && Pow2(2) == 4 && Pow2(3) == 8 && Pow2(4) == 16;
      }
    }
  }

  /** A successful select ends the round at once: create is tried only in the
      rounds whose select failed, and the loop never makes more than ten
      select calls. */
  lemma SelectSkipsCreate(rounds: nat -> Round)
    ensures var calls := LockCalls(rounds);
      match LockOutcome(rounds)
      case Acquired(a, created) =>
        1 <= a <= MaxAttempts &&
        (created <==> !rounds(a - 1).selectOk) &&
        CountCall(calls, Select) == a &&
        CountCall(calls, Create) == (if created then a else a - 1) &&
        calls[|calls| - 1] == (if created then Create else Select)
      case Exhausted =>
        CountCall(calls, Select) == MaxAttempts && CountCall(calls, Create) == MaxAttempts
  {
    var k := FirstLockSuccess(rounds, 0);
    FailedRoundsShape(k);
    if k < MaxAttempts {
      var last := if rounds(k).selectOk then [Select] else [Select, Create];
      SleepsAppend(FailedRounds(k), last);
      LastRoundCounts();
    }
  }

  // ---------------------------------------------------------------------------
  // init_terraform

  function FirstInitSuccess(inits: nat -> bool, from: nat): (k: nat)
    requires from <= InitAttempts
    ensures from <= k <= InitAttempts
    decreases InitAttempts - from
  {
    if from == InitAttempts || inits(from) then from else FirstInitSuccess(inits, from + 1)
  }

  /** No attempt before the first success succeeds, and the first success,
      if below the attempt bound, does. */
  lemma {:induction false} FirstInitSuccessSpec(inits: nat -> bool, from: nat)
    requires from <= InitAttempts
    ensures forall j :: from <= j < FirstInitSuccess(inits, from) ==> !inits(j)
    ensures FirstInitSuccess(inits, from) < InitAttempts ==> inits(FirstInitSuccess(inits, from))
    decreases InitAttempts - from
  {
    if from < InitAttempts && !inits(from) {
      FirstInitSuccessSpec(inits, from + 1);
    }
  }

  /** n failed attempts, each followed by the pause. */
  function FailedInits(n: nat): seq<Call> {
    if n == 0 then [] else FailedInits(n - 1) + [Init, Sleep(InitPause)]
  }

  function InitCalls(inits: nat -> bool): (calls: seq<Call>)
    ensures |calls| >= 1 && calls[|calls| - 1] == Init
  {
    var k := FirstInitSuccess(inits, 0);
    if k < InitAttempts then FailedInits(k) + [Init] else FailedInits(InitAttempts - 1) + [Init]
  }

  predicate InitSucceeds(inits: nat -> bool) {
    FirstInitSuccess(inits, 0) < InitAttempts
  }

  method InitTerraform(inits: nat -> bool) returns (calls: seq<Call>, ok: bool)
    ensures calls == InitCalls(inits)
    ensures ok == InitSucceeds(inits)
  {
    var attempt := 1;
    calls := [];
    while attempt <= InitAttempts
      invariant 1 <= attempt <= InitAttempts + 1
      invariant attempt <= InitAttempts ==> calls == FailedInits(attempt - 1)
      invariant attempt == InitAttempts + 1 ==> calls == FailedInits(InitAttempts - 1) + [Init]
      invariant FirstInitSuccess(inits, 0) == FirstInitSuccess(inits, attempt - 1)
    {
      calls := calls + [Init];
      if inits(attempt - 1) {
        return calls, true;
      }
      attempt := attempt + 1;
      if attempt <= InitAttempts {
        calls := calls + [Sleep(InitPause)];
      }
    }
    ok := false;
  }

  /** init is tried at most three times; success is reported exactly when one
      of them succeeds; every pause lasts 10 seconds and is followed by
      another attempt, so there is no pause after the last one. */
  lemma InitRetryShape(inits: nat -> bool)
    ensures var calls := InitCalls(inits);
      |calls| >= 1 && calls[|calls| - 1] == Init &&
      CountCall(calls, Init) == Min(FirstInitSuccess(inits, 0) + 1, InitAttempts) &&
      (forall i :: 0 <= i < |calls| && calls[i].Sleep? ==>
        calls[i].seconds == InitPause && i + 1 < |calls| && calls[i + 1] == Init)
    ensures InitSucceeds(inits) <==> exists j :: 0 <= j < InitAttempts && inits(j)
  {
    var k := FirstInitSuccess(inits, 0);
    FirstInitSuccessSpec(inits, 0);
    var n := if k < InitAttempts then k else InitAttempts - 1;
    FailedInitsShape(n);
    SleepsAppend(FailedInits(n), [Init]);
    OneCall(Init);
    var calls := InitCalls(inits);
    assert calls == FailedInits(n) + [Init];
    forall i | 0 <= i < |calls| && calls[i].Sleep?
      ensures calls[i].seconds == InitPause && i + 1 < |calls| && calls[i + 1] == Init
    {
      assert i < |FailedInits(n)|;
    }
  }

  lemma {:induction false} FailedInitsShape(n: nat)
    ensures |FailedInits(n)| == 2 * n
    ensures forall i :: 0 <= i < 2 * n ==> FailedInits(n)[i] == if i % 2 == 0 then Init else Sleep(InitPause)
    ensures CountCall(FailedInits(n), Init) == n
  {
    if n > 0 {
      FailedInitsShape(n - 1);
      SleepsAppend(FailedInits(n - 1), [Init, Sleep(InitPause)]);
      OneCall(Sleep(InitPause));
      ConsCall(Init, [Sleep(InitPause)]);
      assert [Init] + [Sleep(InitPause)] == [Init, Sleep(InitPause)];
    }
  }

  // ---------------------------------------------------------------------------
  // The earlier generators: retry the select, sleeping 10 s after each
  // failure, with no bound (generate_cloudbuild.py:39-42)

  function FirstSelect(selects: seq<bool>): (k: nat)
    ensures k <= |selects|
    ensures forall j :: 0 <= j < k ==> !selects[j]
    ensures k < |selects| ==> selects[k]
  {
    if selects == [] || selects[0] then 0 else 1 + FirstSelect(selects[1..])
  }

  /** Runs the unbounded wait over the observed select outcomes. It sleeps
      10 seconds after every failed select, and is still waiting when the
      window runs out without a success. */
  method WaitForWorkspace(selects: seq<bool>) returns (sleeps: seq<nat>, acquired: bool)
    ensures acquired <==> exists j :: 0 <= j < |selects| && selects[j]
    ensures |sleeps| == FirstSelect(selects)
    ensures acquired ==> selects[|sleeps|]
    ensures !acquired ==> |sleeps| == |selects|
    ensures forall k :: 0 <= k < |sleeps| ==> sleeps[k] == LegacyPause
  {
    var i := 0;
    sleeps := [];
    while i < |selects| && !selects[i]
      invariant 0 <= i <= |selects|
      invariant forall j :: 0 <= j < i ==> !selects[j]
      invariant |sleeps| == i
      invariant forall k :: 0 <= k < i ==> sleeps[k] == LegacyPause
    {
      sleeps := sleeps + [LegacyPause];
      i := i + 1;
    }
    acquired := i < |selects|;
    FirstSelectIsFirst(selects, i);
  }

  lemma FirstSelectIsFirst(selects: seq<bool>, i: nat)
    requires i <= |selects|
    requires forall j :: 0 <= j < i ==> !selects[j]
    requires i < |selects| ==> selects[i]
    ensures FirstSelect(selects) == i
  {
  }

  /** The old wait has no attempt bound: however many selects fail, it has
      slept once per failure and is still waiting, never failing the step. */
  lemma LegacyWaitUnbounded(n: nat)
    ensures FirstSelect(seq(n, _ => false)) == n
  {
    FirstSelectIsFirst(seq(n, _ => false), n);
  }
}
