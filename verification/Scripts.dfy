/**
 What a script of results, one for each call to the library below, makes of calls in a row and of
 attempts that are repeated after errors of the connection.
 */
module Scripts {
  import opened Options

  datatype Error = ServerDown | Unavailable | ConnectError | Timeout | RuntimeError | Refused(text: string) {
    /** The errors after which the operation is run again. */
    predicate Retryable() { ServerDown? || Unavailable? || ConnectError? || Timeout? }
  }

  /** The result of the k-th call. */
  type Script = nat -> Option<Error>

  /** How many calls in a row succeed, of at most n. */
  function Succeeding(outcome: Script, from: nat, n: nat): (k: nat)
    ensures k <= n
    decreases n
  {
    if n == 0 || outcome(from).Some? then 0 else 1 + Succeeding(outcome, from + 1, n - 1)
  }

  predicate AllSucceed(outcome: Script, from: nat, n: nat) {
    forall i :: from <= i < from + n ==> outcome(i).None?
  }

  lemma {:induction false} SucceedingUntil(outcome: Script, from: nat, n: nat)
    ensures var k := Succeeding(outcome, from, n); AllSucceed(outcome, from, k) && (k < n ==> outcome(from + k).Some?)
    ensures AllSucceed(outcome, from, n) <==> Succeeding(outcome, from, n) == n
    decreases n
  {
    if n > 0 && outcome(from).None? {
      SucceedingUntil(outcome, from + 1, n - 1);
      assert AllSucceed(outcome, from, n) <==> AllSucceed(outcome, from + 1, n - 1);
    }
  }

  lemma {:induction false} SucceedingJoin(outcome: Script, from: nat, m: nat, n: nat)
    ensures var k := Succeeding(outcome, from, m);
            Succeeding(outcome, from, m + n) == if k < m then k else m + Succeeding(outcome, from + m, n)
    decreases m
  {
    if m > 0 && outcome(from).None? {
      SucceedingJoin(outcome, from + 1, m - 1, n);
    }
  }

  /** The result of n calls in a row that stop at the first error. */
  function InARow(outcome: Script, from: nat, n: nat): Option<Error> {
    var k := Succeeding(outcome, from, n);
    if k == n then None else outcome(from + k)
  }

  /** How many calls that takes. */
  function Used(outcome: Script, from: nat, n: nat): nat {
    var k := Succeeding(outcome, from, n);
    if k == n then n else k + 1
  }

  lemma OneCall(outcome: Script, from: nat)
    ensures InARow(outcome, from, 1) == outcome(from) && Used(outcome, from, 1) == 1
    ensures InARow(outcome, from, 0) == None && Used(outcome, from, 0) == 0
  {
    assert Succeeding(outcome, from + 1, 0) == 0;
  }

  /** Calls in a row, and more of them if these go through. */
  lemma ThenMore(outcome: Script, from: nat, m: nat, n: nat)
    ensures InARow(outcome, from, m).None? ==>
              && Used(outcome, from, m) == m
              && InARow(outcome, from, m + n) == InARow(outcome, from + m, n)
              && Used(outcome, from, m + n) == m + Used(outcome, from + m, n)
    ensures InARow(outcome, from, m).Some? ==>
              && InARow(outcome, from, m + n) == InARow(outcome, from, m)
              && Used(outcome, from, m + n) == Used(outcome, from, m) <= m
  {
    SucceedingJoin(outcome, from, m, n);
    SucceedingUntil(outcome, from, m);
  }

  /** A call on which the others depend. */
  lemma ConnectFirst(outcome: Script, from: nat, n: nat)
    requires n > 0
    ensures InARow(outcome, from, n) == if outcome(from).Some? then outcome(from) else InARow(outcome, from + 1, n - 1)
    ensures Used(outcome, from, n) == if outcome(from).Some? then 1 else 1 + Used(outcome, from + 1, n - 1)
    ensures AllSucceed(outcome, from, n) <==> outcome(from).None? && InARow(outcome, from + 1, n - 1).None?
  {
    InARowExactly(outcome, from, n);
    ThenMore(outcome, from, 1, n - 1);
    OneCall(outcome, from);
  }

  lemma RowEnd(outcome: Script, from: nat, n: nat)
    requires InARow(outcome, from, n).None?
    ensures Succeeding(outcome, from, n) == Used(outcome, from, n) == n
  {
    SucceedingUntil(outcome, from, n);
  }

  /** The next of n calls after i that went through. */
  lemma RowStep(outcome: Script, from: nat, i: nat, n: nat)
    requires i < n && InARow(outcome, from, i).None?
    ensures outcome(from + i).None? ==> InARow(outcome, from, i + 1).None?
    ensures outcome(from + i).Some? ==>
              && InARow(outcome, from, n) == outcome(from + i) && Used(outcome, from, n) == i + 1
              && Succeeding(outcome, from, n) == i
  {
    OneCall(outcome, from + i);
    ThenMore(outcome, from, i, 1);
    ThenMore(outcome, from, i, n - i);
    ThenMore(outcome, from + i, 1, n - i - 1);
    RowEnd(outcome, from, i);
    SucceedingJoin(outcome, from, i, n - i);
  }

  /** All calls succeed, or the first that does not gives the result. */
  lemma InARowExactly(outcome: Script, from: nat, n: nat)
    ensures InARow(outcome, from, n).None? <==> AllSucceed(outcome, from, n)
    ensures InARow(outcome, from, n).Some? ==>
              exists k: nat :: k < n && AllSucceed(outcome, from, k) && InARow(outcome, from, n) == outcome(from + k)
                       && Used(outcome, from, n) == k + 1
  {
    SucceedingUntil(outcome, from, n);
  }

  // ----- attempts -----

  /** The errors of the attempts, the calls to the library, and how often the operation itself was run. */
  datatype Tries = Tries(failures: seq<Error>, calls: nat, ran: nat)

  /**
   Up to left attempts, the first of m calls before the operation and each further one of again calls
   before it. Only errors of the connection are tried again.
   */
  function Tried(outcome: Script, from: nat, m: nat, again: nat, left: nat): (t: Tries)
    ensures |t.failures| <= left
    decreases left
  {
    if left == 0 then Tries([], 0, 0)
    else
      var ran := if InARow(outcome, from, m).None? then 1 else 0;
      var error, used := InARow(outcome, from, m + 1), Used(outcome, from, m + 1);
      if error.None? then Tries([], used, ran)
      else if !error.value.Retryable() then Tries([error.value], used, ran)
      else
        var t := Tried(outcome, from + used, again, again, left - 1);
        Tries([error.value] + t.failures, used + t.calls, ran + t.ran)
  }

  /** The end of it: the last error, unless an attempt went through. */
  function Final(t: Tries, attempts: nat): Option<Error> {
    if attempts == 0 then Some(RuntimeError)
    else if t.failures == [] then None
    else
      var last := t.failures[|t.failures| - 1];
      if |t.failures| == attempts || !last.Retryable() then Some(last) else None
  }

  /** An operation that goes through at once. */
  lemma GoesThrough(outcome: Script, from: nat, again: nat, attempts: nat)
    requires attempts > 0 && outcome(from).None?
    ensures Tried(outcome, from, 0, again, attempts) == Tries([], 1, 1)
    ensures Final(Tried(outcome, from, 0, again, attempts), attempts) == None
  {
    OneCall(outcome, from);
  }

  /** After one error of the connection, a reconnect that goes through and a second run bring it to its end. */
  lemma Recovers(outcome: Script, from: nat, again: nat, attempts: nat)
    requires attempts > 1 && AllSucceed(outcome, from + 1, again + 1)
    requires outcome(from) in {Some(ServerDown), Some(Unavailable), Some(ConnectError), Some(Timeout)}
    ensures Tried(outcome, from, 0, again, attempts) == Tries([outcome(from).value], again + 2, 2)
    ensures Final(Tried(outcome, from, 0, again, attempts), attempts) == None
  {
    OneCall(outcome, from);
    SucceedingUntil(outcome, from + 1, again);
    SucceedingUntil(outcome, from + 1, again + 1);
    assert Tried(outcome, from + 1, again, again, attempts - 1) == Tries([], again + 1, 1);
  }

  /** Any other error of the operation ends the call at once. */
  lemma EndsAtOnce(outcome: Script, from: nat, again: nat, attempts: nat)
    requires attempts > 0 && outcome(from).Some?
    requires outcome(from) !in {Some(ServerDown), Some(Unavailable), Some(ConnectError), Some(Timeout)}
    ensures Tried(outcome, from, 0, again, attempts) == Tries([outcome(from).value], 1, 1)
    ensures Final(Tried(outcome, from, 0, again, attempts), attempts) == outcome(from)
  {
    OneCall(outcome, from);
  }

  /** As long as errors of the connection come back, every attempt is used, and the last error comes out. */
  lemma {:induction false} GivesUp(outcome: Script, from: nat, m: nat, again: nat, attempts: nat)
    requires attempts > 0
    requires forall i :: from <= i ==>
               outcome(i) in {Some(ServerDown), Some(Unavailable), Some(ConnectError), Some(Timeout)}
    ensures |Tried(outcome, from, m, again, attempts).failures| == attempts
    ensures exists i :: from <= i && Final(Tried(outcome, from, m, again, attempts), attempts) == outcome(i)
    decreases attempts
  {
    SucceedingUntil(outcome, from, m + 1);
    SucceedingUntil(outcome, from, 1);
    if attempts > 1 {
      GivesUp(outcome, from + Used(outcome, from, m + 1), again, again, attempts - 1);
    }
  }

  lemma FirstTry(outcome: Script, from: nat, again: nat, attempts: nat)
    ensures var first := outcome(from);
            var t := Tried(outcome, from, 0, again, attempts);
            var lost := first in {Some(ServerDown), Some(Unavailable), Some(ConnectError), Some(Timeout)};
            attempts > 0 ==>
              && (first.None? ==> t == Tries([], 1, 1))
              && (first.Some? && !lost ==> t == Tries([first.value], 1, 1))
              && (lost && attempts > 1 && AllSucceed(outcome, from + 1, again + 1) ==>
                    t == Tries([first.value], again + 2, 2))
  {
    hide Tried, AllSucceed;
    var first := outcome(from);
    if attempts > 0 {
      if first.None? {
        GoesThrough(outcome, from, again, attempts);
      } else if first !in {Some(ServerDown), Some(Unavailable), Some(ConnectError), Some(Timeout)} {
        EndsAtOnce(outcome, from, again, attempts);
      } else if attempts > 1 && AllSucceed(outcome, from + 1, again + 1) {
        Recovers(outcome, from, again, attempts);
      }
    }
  }

  /** Which errors come out, and after how many attempts. */
  lemma {:induction false} FinalFacts(outcome: Script, from: nat, m: nat, again: nat, attempts: nat)
    ensures var t := Tried(outcome, from, m, again, attempts);
            var error := Final(t, attempts);
            var n := |t.failures| + if error.None? then 1 else 0;
            if attempts == 0 then t == Tries([], 0, 0) && error == Some(RuntimeError)
            else
              && t.ran <= n <= attempts
              && (forall i :: 0 <= i < n - 1 ==> t.failures[i] in {ServerDown, Unavailable, ConnectError, Timeout})
              && (error.Some? ==> t.failures != [] && error.value == t.failures[|t.failures| - 1])
              && (error.Some? && error.value in {ServerDown, Unavailable, ConnectError, Timeout} ==> n == attempts)
    decreases attempts
  {
    if attempts > 0 {
      TriedStep(outcome, from, m, again, attempts);
      FinalFacts(outcome, from + Used(outcome, from, m + 1), again, again, attempts - 1);
    }
  }

  /** One attempt more. */
  lemma TriedStep(outcome: Script, from: nat, m: nat, again: nat, left: nat)
    requires left > 0
    ensures var t := Tried(outcome, from, m, again, left);
            var ran := if InARow(outcome, from, m).None? then 1 else 0;
            var error, used := InARow(outcome, from, m + 1), Used(outcome, from, m + 1);
            if error.None? then t == Tries([], used, ran)
            else if !error.value.Retryable() then t == Tries([error.value], used, ran)
            else
              var u := Tried(outcome, from + used, again, again, left - 1);
              && t == Tries([error.value] + u.failures, used + u.calls, ran + u.ran)
              && (left == 1 ==> u == Tries([], 0, 0))
  {
  }

  /** All of it is what is done so far, and the attempts to come. */
  ghost predicate Ahead(all: Tries, so: Tries, outcome: Script, from: nat, m: nat, again: nat, left: nat) {
    var t := Tried(outcome, from, m, again, left);
    all == Tries(so.failures + t.failures, so.calls + t.calls, so.ran + t.ran)
  }

  lemma AheadAll(outcome: Script, from: nat, m: nat, again: nat, left: nat)
    ensures Ahead(Tried(outcome, from, m, again, left), Tries([], 0, 0), outcome, from, m, again, left)
  {
    hide Tried;
    var t := Tried(outcome, from, m, again, left);
    assert [] + t.failures == t.failures;
  }

  lemma AheadNone(all: Tries, so: Tries, outcome: Script, from: nat, m: nat, again: nat)
    requires Ahead(all, so, outcome, from, m, again, 0)
    ensures all == so
  {
    assert so.failures + [] == so.failures;
  }

  lemma AheadStep(all: Tries, so: Tries, outcome: Script, from: nat, m: nat, again: nat, left: nat)
    requires left > 0 && Ahead(all, so, outcome, from, m, again, left)
    ensures var error, used := InARow(outcome, from, m + 1), Used(outcome, from, m + 1);
            var ran := so.ran + if InARow(outcome, from, m).None? then 1 else 0;
            if error.None? then all == Tries(so.failures, so.calls + used, ran)
            else
              var next := Tries(so.failures + [error.value], so.calls + used, ran);
              if error.value.Retryable() then Ahead(all, next, outcome, from + used, again, again, left - 1)
              else all == next
  {
    hide Tried, InARow, Used;
    TriedStep(outcome, from, m, again, left);
    assert so.failures + [] == so.failures;
    var error := InARow(outcome, from, m + 1);
    if error.Some? {
      var u := Tried(outcome, from + Used(outcome, from, m + 1), again, again, left - 1);
      Joined(so.failures, [error.value], u.failures);
    }
  }

  /** What comes out if no attempt is left: the last error. */
  ghost predicate Ending(so: Tries, left: nat, attempts: nat, error: Option<Error>) {
    && |so.failures| + left == attempts
    && (attempts == 0 ==> error == Some(RuntimeError))
    && (forall e <- so.failures :: e.Retryable())
    && (so.failures != [] ==> error == Some(so.failures[|so.failures| - 1]))
  }

  lemma EndingMore(so: Tries, left: nat, attempts: nat, before: Option<Error>, error: Option<Error>, calls: nat,
                   ran: nat)
    requires Ending(so, left, attempts, before) && left > 0
    ensures if error.None? then Final(Tries(so.failures, calls, ran), attempts) == None
            else
              var next := Tries(so.failures + [error.value], calls, ran);
              if error.value.Retryable() then Ending(next, left - 1, attempts, error)
              else Final(next, attempts) == error
  {
  }

  /** What is done after one attempt more. */
  function After(so: Tries, outcome: Script, from: nat, m: nat): Tries {
    var error := InARow(outcome, from, m + 1);
    Tries(if error.None? then so.failures else so.failures + [error.value],
          so.calls + Used(outcome, from, m + 1),
          so.ran + if InARow(outcome, from, m).None? then 1 else 0)
  }

  /** The calls and the errors of a run of attempts are on their way to all of them. */
  ghost predicate Going(all: Tries, so: Tries, outcome: Script, from: nat, m: nat, again: nat, left: nat, attempts: nat,
                        error: Option<Error>)
  {
    Ahead(all, so, outcome, from, m, again, left) && Ending(so, left, attempts, error)
  }

  lemma Gone(all: Tries, so: Tries, outcome: Script, from: nat, m: nat, again: nat, attempts: nat, error: Option<Error>)
    requires Going(all, so, outcome, from, m, again, 0, attempts, error)
    ensures all == so && Final(so, attempts) == error
  {
    AheadNone(all, so, outcome, from, m, again);
  }

  predicate Over(error: Option<Error>) { error.None? || !error.value.Retryable() }

  lemma Turn(all: Tries, so: Tries, outcome: Script, from: nat, m: nat, again: nat, left: nat, attempts: nat,
             before: Option<Error>)
    requires left > 0 && Going(all, so, outcome, from, m, again, left, attempts, before)
    ensures var next, error := After(so, outcome, from, m), InARow(outcome, from, m + 1);
            && |so.failures| + left == attempts
            && (if Over(error) then all == next && Final(next, attempts) == error
                else
                  && error.Some? && |next.failures| == |so.failures| + 1
                  && Going(all, next, outcome, from + Used(outcome, from, m + 1), again, again, left - 1, attempts,
                           error))
  {
    hide Ahead, InARow, Used;
    var error := InARow(outcome, from, m + 1);
    AheadStep(all, so, outcome, from, m, again, left);
    EndingMore(so, left, attempts, before, error, After(so, outcome, from, m).calls, After(so, outcome, from, m).ran);
  }
}
