/** provisioning/provision_stage_3_warp2.py `shift_report_item` and `retry_ztest`: repeated
    electrical tests keep the earlier attempts in the report under `_prev` keys. */
module TestHistory {

  datatype TestResult = TestResult(passed: bool, aborted: bool, details: string)

  type Items = map<string, TestResult>

  const PREV := "_prev"

  /** The key of the n-th older attempt. */
  function Older(key: string, n: nat): (k: string)
    ensures |k| == |key| + 5 * n
  {
    if n == 0 then key else Older(key, n - 1) + PREV
  }

  lemma OlderKeys(key: string)
    ensures Older(key, 0) == key && Older(key, 1) == key + "_prev" && Older(key, 2) == key + "_prev" + "_prev"
  {
  }

  lemma {:induction false} OlderOfPrev(key: string, n: nat)
    ensures Older(key + PREV, n) == Older(key, n + 1)
  {
    if n > 0 {
      OlderOfPrev(key, n - 1);
    }
  }

  /** Keys at least as long as n: what the recursion along the chain uses up. */
  function LongKeys(items: Items, n: nat): set<string> {
    set k | k in items && |k| >= n
  }

  lemma LongKeysShrink(items: Items, key: string)
    requires key in items
    ensures |LongKeys(items, |key + PREV|)| < |LongKeys(items, |key|)|
  {
    var a, b := LongKeys(items, |key + PREV|), LongKeys(items, |key|);
    assert a <= b - {key};
    SubsetSize(a, b - {key});
  }

  lemma {:induction false} SubsetSize(a: set<string>, b: set<string>)
    requires a <= b
    ensures |a| <= |b|
  {
    if a != {} {
      var x :| x in a;
      SubsetSize(a - {x}, b - {x});
    }
  }

  /** Length of the unbroken chain key, key_prev, key_prev_prev, ... */
  function ChainLength(items: Items, key: string): nat
    decreases |LongKeys(items, |key|)|
  {
    if key !in items then 0
    else
      LongKeysShrink(items, key);
      1 + ChainLength(items, key + PREV)
  }

  /** The report after the chain at `key` was moved one place. */
  function Shifted(items: Items, key: string): Items
    decreases |LongKeys(items, |key|)|
  {
    if key !in items then items
    else
      LongKeysShrink(items, key);
      Shifted(items, key + PREV)[key + PREV := items[key]] - {key}
  }

  class Report {
    var items: Items

    /** `shift_report_item`. */
    method ShiftReportItem(key: string)
      modifies this
      ensures items == Shifted(old(items), key)
      decreases |LongKeys(items, |key|)|
    {
      if key !in items {
        return;
      }
      LongKeysShrink(items, key);
      ShiftReportItem(key + PREV);
      ShiftKeepsShorter(old(items), key + PREV, key);
      items := items[key + PREV := items[key]];
      items := items - {key};
    }

    /** `retry_ztest`: `test(i)` is the outcome of attempt i, `recovered(i)` says that the charger
        returned to IEC state C before the next attempt. */
    method RetryZtest(key: string, test: nat -> TestResult, maxTries: int, recovered: nat -> bool)
      returns (end: End, attempts: nat)
      modifies this
      ensures 1 <= attempts && (attempts <= maxTries || attempts == 1)
      ensures forall i :: 0 <= i < attempts - 1 ==> !test(i).passed && test(i).aborted && recovered(i)
      ensures end == if test(attempts - 1).passed then Passed
                     else if !test(attempts - 1).aborted then Failed
                     else if attempts >= maxTries then AbortedTooOften
                     else WrongState
      ensures end.WrongState? ==> !recovered(attempts - 1)
      ensures items == Pushed(old(items), key, test, attempts)
    {
      var tryCount := 0;
      end, attempts := Passed, 0;
      while true
        invariant tryCount == attempts && (attempts > 0 ==> attempts < maxTries)
        invariant forall i :: 0 <= i < attempts ==> !test(i).passed && test(i).aborted && recovered(i)
        invariant items == Pushed(old(items), key, test, attempts)
        decreases if attempts == 0 then maxTries + 1 else maxTries - attempts, if attempts == 0 then 1 else 0
      {
        tryCount := tryCount + 1;
        ShiftReportItem(key);
        items := items[key := test(attempts)];
        attempts := attempts + 1;
        if items[key].passed {
          return Passed, attempts;
        }
        if !items[key].aborted {
          return Failed, attempts;
        }
        if tryCount >= maxTries {
          return AbortedTooOften, attempts;
        }
        if !recovered(attempts - 1) {
          return WrongState, attempts;
        }
      }
    }
  }

  datatype End = Passed | Failed | AbortedTooOften | WrongState

  /** The report after n attempts were stored, each time shifting the chain first. */
  function Pushed(items: Items, key: string, test: nat -> TestResult, n: nat): Items {
    if n == 0 then items else Shifted(Pushed(items, key, test, n - 1), key)[key := test(n - 1)]
  }

  // ---- What shifting does ----

  lemma {:induction false} ShiftKeepsShorter(items: Items, key: string, other: string)
    requires |other| < |key|
    ensures other in Shifted(items, key) <==> other in items
    ensures other in items ==> Shifted(items, key)[other] == items[other]
    decreases |LongKeys(items, |key|)|
  {
    if key in items {
      LongKeysShrink(items, key);
      ShiftKeepsShorter(items, key + PREV, other);
    }
  }

  /** Every entry of the unbroken chain moves exactly one place and the key itself is freed. */
  lemma {:induction false} ShiftMovesChain(items: Items, key: string, i: nat)
    requires i < ChainLength(items, key)
    ensures key !in Shifted(items, key)
    ensures Older(key, i) in items && Older(key, i + 1) in Shifted(items, key)
    ensures Shifted(items, key)[Older(key, i + 1)] == items[Older(key, i)]
    decreases |LongKeys(items, |key|)|
  {
    LongKeysShrink(items, key);
    if i == 0 {
      assert Older(key, 1) == key + PREV;
    } else {
      ShiftMovesChain(items, key + PREV, i - 1);
      OlderOfPrev(key, i - 1);
      OlderOfPrev(key, i);
    }
  }

  /** Keys that are not on the chain are untouched, and the first free place was free. */
  lemma {:induction false} ShiftKeepsOthers(items: Items, key: string, other: string)
    requires forall i :: 0 <= i <= ChainLength(items, key) ==> other != Older(key, i)
    ensures other in Shifted(items, key) <==> other in items
    ensures other in items ==> Shifted(items, key)[other] == items[other]
    ensures Older(key, ChainLength(items, key)) !in items
    decreases |LongKeys(items, |key|)|
  {
    if key in items {
      LongKeysShrink(items, key);
      var n := ChainLength(items, key + PREV);
      forall i | 0 <= i <= n ensures other != Older(key + PREV, i) {
        OlderOfPrev(key, i);
      }
      ShiftKeepsOthers(items, key + PREV, other);
      OlderOfPrev(key, n);
      assert other != Older(key, 0) && other != Older(key, 1);
    }
  }

  // ---- The history along the chain ----

  /** The entries at the first m places of the chain, newest first, gaps left out. */
  function History(items: Items, key: string, m: nat): seq<TestResult> {
    if m == 0 then []
    else History(items, key, m - 1) + (if Older(key, m - 1) in items then [items[Older(key, m - 1)]] else [])
  }

  /** The chain has no entry at place m or later. */
  ghost predicate EndsBefore(items: Items, key: string, m: nat) {
    forall i: nat :: i >= m ==> Older(key, i) !in items
  }

  /** How the places of the chain look after shifting and storing x. */
  lemma PushedPlace(items: Items, key: string, x: TestResult, i: nat)
    ensures var r := Shifted(items, key)[key := x];
      if i == 0 then Older(key, i) in r && r[Older(key, i)] == x
      else if i <= ChainLength(items, key) then
        Older(key, i) in r && Older(key, i - 1) in items && r[Older(key, i)] == items[Older(key, i - 1)]
      else
        && (Older(key, i) in r <==> Older(key, i) in items)
        && (Older(key, i) in items ==> r[Older(key, i)] == items[Older(key, i)])
  {
    var n := ChainLength(items, key);
    if 0 < i <= n {
      ShiftMovesChain(items, key, i - 1);
    } else if i > n {
      ShiftKeepsOthers(items, key, Older(key, i));
    }
  }

  lemma {:induction false} PushedHistoryUpTo(items: Items, key: string, x: TestResult, j: nat)
    requires j <= ChainLength(items, key)
    ensures History(Shifted(items, key)[key := x], key, j + 1) == [x] + History(items, key, j)
    decreases j
  {
    PushedPlace(items, key, x, j);
    if j > 0 {
      PushedHistoryUpTo(items, key, x, j - 1);
    } else {
      assert History(Shifted(items, key)[key := x], key, 0) == [];
    }
  }

  lemma FreePlace(items: Items, key: string)
    ensures Older(key, ChainLength(items, key)) !in items
  {
    var n := ChainLength(items, key);
    ShiftKeepsOthers(items, key, Older(key, n + 1));
  }

  lemma {:induction false} PushedHistoryFrom(items: Items, key: string, x: TestResult, j: nat)
    requires j > ChainLength(items, key)
    ensures History(Shifted(items, key)[key := x], key, j) == [x] + History(items, key, j)
    decreases j
  {
    var n := ChainLength(items, key);
    if j == n + 1 {
      PushedHistoryUpTo(items, key, x, n);
      FreePlace(items, key);
      assert History(items, key, n + 1) == History(items, key, n);
    } else {
      PushedHistoryFrom(items, key, x, j - 1);
      PushedPlace(items, key, x, j - 1);
    }
  }

  lemma {:induction false} ChainPresent(items: Items, key: string, i: nat)
    requires i < ChainLength(items, key)
    ensures Older(key, i) in items
  {
    ShiftMovesChain(items, key, i);
  }

  /** Storing a new attempt puts it in front of the history and loses nothing behind it. */
  lemma PushKeepsHistory(items: Items, key: string, x: TestResult, m: nat)
    requires EndsBefore(items, key, m)
    ensures EndsBefore(Shifted(items, key)[key := x], key, m + 1)
    ensures History(Shifted(items, key)[key := x], key, m + 1) == [x] + History(items, key, m)
  {
    var n, r := ChainLength(items, key), Shifted(items, key)[key := x];
    if n > m {
      ChainPresent(items, key, m);
    }
    PushedHistoryFrom(items, key, x, m + 1);
    assert History(items, key, m + 1) == History(items, key, m);
    forall i: nat | i >= m + 1 ensures Older(key, i) !in r {
      PushedPlace(items, key, x, i);
    }
  }

  /** The attempts, newest first. */
  function Newest(test: nat -> TestResult, n: nat): seq<TestResult> {
    if n == 0 then [] else [test(n - 1)] + Newest(test, n - 1)
  }

  /** After n attempts the history is the attempts in reverse order, followed by everything
      that was there before, in its old order. */
  lemma {:induction false} AttemptsKeepHistory(items: Items, key: string, test: nat -> TestResult, n: nat, m: nat)
    requires EndsBefore(items, key, m)
    ensures EndsBefore(Pushed(items, key, test, n), key, m + n)
    ensures History(Pushed(items, key, test, n), key, m + n) == Newest(test, n) + History(items, key, m)
    decreases n
  {
    if n > 0 {
      AttemptsKeepHistory(items, key, test, n - 1, m);
      PushKeepsHistory(Pushed(items, key, test, n - 1), key, test(n - 1), m + n - 1);
    }
  }

  /** The last attempt is under the key, and the i-th older one i places further. */
  lemma {:induction false} AttemptPlaces(items: Items, key: string, test: nat -> TestResult, n: nat, i: nat)
    requires i < n
    ensures Older(key, i) in Pushed(items, key, test, n)
    ensures Pushed(items, key, test, n)[Older(key, i)] == test(n - 1 - i)
    ensures ChainLength(Pushed(items, key, test, n), key) >= n
    decreases n
  {
    var before := Pushed(items, key, test, n - 1);
    if n > 1 {
      AttemptPlaces(items, key, test, n - 1, if i > 0 then i - 1 else 0);
    }
    PushedPlace(before, key, test(n - 1), i);
    forall j | 0 <= j < n ensures Older(key, j) in Pushed(items, key, test, n) {
      PushedPlace(before, key, test(n - 1), j);
    }
    ChainAtLeast(Pushed(items, key, test, n), key, n);
  }

  lemma {:induction false} ChainAtLeast(items: Items, key: string, n: nat)
    requires forall j :: 0 <= j < n ==> Older(key, j) in items
    ensures ChainLength(items, key) >= n
    decreases n
  {
    if n > 0 {
      assert Older(key, 0) in items;
      forall j | 0 <= j < n - 1 ensures Older(key + PREV, j) in items {
        OlderOfPrev(key, j);
        assert Older(key, j + 1) in items;
      }
      ChainAtLeast(items, key + PREV, n - 1);
    }
  }

  /** Keys off the chain are never touched. */
  lemma {:induction false} AttemptsKeepOthers(items: Items, key: string, test: nat -> TestResult, n: nat, other: string)
    requires forall i: nat :: other != Older(key, i)
    ensures other in Pushed(items, key, test, n) <==> other in items
    ensures other in items ==> Pushed(items, key, test, n)[other] == items[other]
    decreases n
  {
    if n > 0 {
      AttemptsKeepOthers(items, key, test, n - 1, other);
      ShiftKeepsOthers(Pushed(items, key, test, n - 1), key, other);
      assert other != Older(key, 0);
    }
  }
}
