/** What a connection remembers so that it can be rebuilt: the option log, the last bind, and retrying. */
module Session {
  import opened Options
  import opened Scripts

  datatype Write<V> = Write(option: string, value: V)

  datatype Credentials = Credentials(authzid: Option<string>, password: Option<string>)

  datatype Op = Request(text: string) | Bind(credentials: Credentials)

  /** What an operation finds on the connection when it runs. */
  datatype State<V> = State(live: map<string, V>, identity: Option<Credentials>)

  /** The options after all writes, in order, on top of given ones. */
  function Replayed<V>(options: map<string, V>, log: seq<Write<V>>): map<string, V> {
    if log == [] then options
    else
      var n := |log| - 1;
      Replayed(options, log[..n])[log[n].option := log[n].value]
  }

  function LastWrite<V>(log: seq<Write<V>>, option: string): Option<V> {
    if log == [] then None
    else if log[|log| - 1].option == option then Some(log[|log| - 1].value)
    else LastWrite(log[..|log| - 1], option)
  }

  /** Replaying is reading the log with the last write winning. */
  lemma {:induction false} ReplayIsLastWrite<V>(options: map<string, V>, log: seq<Write<V>>, option: string)
    ensures Lookup(Replayed(options, log), option) ==
            if LastWrite(log, option).Some? then LastWrite(log, option) else Lookup(options, option)
  {
    if log != [] {
      ReplayIsLastWrite(options, log[..|log| - 1], option);
    }
  }

  lemma SameOptions<V>(a: map<string, V>, b: map<string, V>)
    requires forall o :: Lookup(a, o) == Lookup(b, o)
    ensures a == b
  {
    forall o ensures o in a <==> o in b {
      assert Lookup(a, o) == Lookup(b, o);
    }
    forall o | o in a ensures a[o] == b[o] {
      assert Lookup(a, o) == Lookup(b, o);
    }
  }

  /** A connection that kept its options, or some of them from the same log, ends up the same. */
  lemma ReplayAbsorbs<V>(options: map<string, V>, log: seq<Write<V>>, n: nat)
    requires n <= |log|
    ensures Replayed(Replayed(options, log[..n]), log) == Replayed(options, log)
  {
    forall o ensures Lookup(Replayed(Replayed(options, log[..n]), log), o) == Lookup(Replayed(options, log), o) {
      ReplayIsLastWrite(options, log, o);
      ReplayIsLastWrite(options, log[..n], o);
      ReplayIsLastWrite(Replayed(options, log[..n]), log, o);
      LastWriteOfPrefix(log, n, o);
    }
    SameOptions(Replayed(Replayed(options, log[..n]), log), Replayed(options, log));
  }

  lemma {:induction false} LastWriteOfPrefix<V>(log: seq<Write<V>>, n: nat, option: string)
    requires n <= |log|
    ensures LastWrite(log, option).None? ==> LastWrite(log[..n], option).None?
  {
    if n < |log| {
      LastWriteOfPrefix(log[..|log| - 1], n, option);
      assert log[..|log| - 1][..n] == log[..n];
    } else {
      assert log[..n] == log;
    }
  }

  lemma ReplayMore<V>(options: map<string, V>, log: seq<Write<V>>, write: Write<V>)
    ensures Replayed(options, log + [write]) == Replayed(options, log)[write.option := write.value]
  {
    assert (log + [write])[..|log|] == log;
  }

  /** A connection at one moment. */
  datatype Past<V> = Past(calls: nat, log: seq<Write<V>>, auth: Option<Credentials>, live: map<string, V>,
                          identity: Option<Credentials>, epoch: nat, done: seq<Op>, runs: seq<State<V>>)

  /** The operation finds the connection as it was, and later as it is rebuilt. */
  predicate Found<V(==)>(states: seq<State<V>>, first: State<V>, rebuilt: State<V>) {
    && (states != [] ==> states[0] == first)
    && (forall i :: 0 < i < |states| ==> states[i] == rebuilt)
  }

  lemma FoundMore<V>(states: seq<State<V>>, more: seq<State<V>>, first: State<V>, rebuilt: State<V>)
    requires Found(states, first, rebuilt)
    requires more == [] || more == [if states == [] then first else rebuilt]
    ensures Found(states + more, first, rebuilt)
  {
  }

  class Session<V(==)> {
    /** What a new connection starts with. */
    const defaults: map<string, V>
    const maxAttempts: nat
    /** The result of the k-th call to the library below, whatever it is. */
    const outcome: Script
    var calls: nat
    /** _options and _last_auth_state. */
    var log: seq<Write<V>>
    var auth: Option<Credentials>
    /** The connection below. */
    var live: map<string, V>
    var identity: Option<Credentials>
    /** Which connection to the server this is. */
    var epoch: nat
    /** The operations that were carried out, and the states in which operations were run. */
    var done: seq<Op>
    ghost var runs: seq<State<V>>

    constructor (defaults: map<string, V>, maxAttempts: nat, outcome: Script)
      ensures this.defaults == defaults && this.maxAttempts == maxAttempts && this.outcome == outcome
      ensures log == [] && auth == None && done == [] && runs == [] && Faithful()
    {
      this.defaults, this.maxAttempts, this.outcome := defaults, maxAttempts, outcome;
      calls, log, auth, live, identity, epoch, done, runs := 0, [], None, defaults, None, 0, [], [];
    }

    /** The connection is what its log and its recorded bind say. */
    ghost predicate Faithful()
      reads this
    {
      live == Replayed(defaults, log) && identity == auth
    }

    method Call() returns (error: Option<Error>)
      modifies this`calls
      ensures calls == old(calls) + 1 && error == outcome(old(calls))
    {
      error := outcome(calls);
      calls := calls + 1;
    }

    /** set_option: what is to be replayed is logged before the library is called. */
    method SetOption(option: string, value: V, append: bool) returns (error: Option<Error>)
      modifies this`calls, this`log, this`live
      ensures calls == old(calls) + 1 && error == outcome(old(calls))
      ensures log == old(log) + if append then [Write(option, value)] else []
      ensures live == if error.None? then old(live)[option := value] else old(live)
      ensures append && old(Faithful()) ==>
                (Faithful() <==> error.None? || (option in old(live) && old(live)[option] == value))
    {
      if append {
        log := log + [Write(option, value)];
        ReplayMore(defaults, old(log), Write(option, value));
      }
      error := Call();
      if error.None? {
        live := live[option := value];
      }
      if append && old(Faithful()) {
        assert live == Replayed(defaults, log) <==>
          error.None? || (option in old(live) && old(live)[option] == value) by {
          assert option in old(live) && old(live)[option] == value ==> old(live) == old(live)[option := value];
          assert option in Replayed(defaults, log) && Replayed(defaults, log)[option] == value;
        }
      }
    }

    /** _restore_options. */
    method RestoreOptions() returns (error: Option<Error>)
      modifies this`calls, this`log, this`live
      ensures log == old(log)
      ensures error == InARow(outcome, old(calls), |log|) && calls == old(calls) + Used(outcome, old(calls), |log|)
      ensures live == Replayed(old(live), log[..Succeeding(outcome, old(calls), |log|)])
    {
      error := None;
      var i := 0;
      OneCall(outcome, calls);
      assert live == Replayed(old(live), log[..0]);
      hide Replayed, InARow, Used, Succeeding;
      while i < |log|
        invariant 0 <= i <= |log| && log == old(log) && error.None? && calls == old(calls) + i
        invariant InARow(outcome, old(calls), i).None?
        invariant live == Replayed(old(live), log[..i])
      {
        RowStep(outcome, old(calls), i, |log|);
        ReplayMore(old(live), log[..i], log[i]);
        assert log[..i + 1] == log[..i] + [log[i]];
        error := SetOption(log[i].option, log[i].value, false);
        if error.Some? {
          return;
        }
        i := i + 1;
      }
      assert log[..i] == log;
      RowEnd(outcome, old(calls), i);
    }

    /** _restore_auth_state. */
    method RestoreAuthState() returns (error: Option<Error>)
      modifies this`calls, this`identity
      ensures var n := if auth.Some? then 1 else 0;
              error == InARow(outcome, old(calls), n) && calls == old(calls) + Used(outcome, old(calls), n)
      ensures identity == if error.None? && auth.Some? then auth else old(identity)
    {
      OneCall(outcome, calls);
      error := None;
      if auth.Some? {
        error := Call();
        if error.None? {
          identity := auth;
        }
      }
    }

    /** What reconnect does on a new connection. */
    method RestoreState() returns (error: Option<Error>)
      requires live == defaults && identity == None
      modifies this`calls, this`log, this`live, this`identity
      ensures log == old(log)
      ensures error == InARow(outcome, old(calls), ReconnectCalls() - 1)
      ensures calls == old(calls) + Used(outcome, old(calls), ReconnectCalls() - 1)
      ensures error.None? ==> Faithful()
      ensures error.Some? ==> identity == None
    {
      ThenMore(outcome, calls, |log|, if auth.Some? then 1 else 0);
      if InARow(outcome, calls, |log|).None? {
        RowEnd(outcome, calls, |log|);
      }
      assert log[..|log|] == log;
      hide Replayed, InARow, Used, Succeeding, AllSucceed;
      error := RestoreOptions();
      if error.Some? {
        return;
      }
      error := RestoreAuthState();
    }

    /** The calls of a reconnect that goes through: the connection, each logged option, the bind if there was one. */
    function ReconnectCalls(): nat
      reads this`log, this`auth
    {
      1 + |log| + if auth.Some? then 1 else 0
    }

    /** reconnect: the old connection is given up first; a new one starts from the defaults, with no identity. */
    method Reconnect() returns (error: Option<Error>)
      modifies this`calls, this`log, this`live, this`identity, this`epoch
      ensures log == old(log) && epoch == old(epoch) + 1
      ensures error == InARow(outcome, old(calls), ReconnectCalls())
      ensures calls == old(calls) + Used(outcome, old(calls), ReconnectCalls())
      ensures error.None? <==> AllSucceed(outcome, old(calls), ReconnectCalls())
      ensures error.None? ==> Faithful()
      ensures error.Some? ==> identity == None
    {
      ConnectFirst(outcome, calls, ReconnectCalls());
      hide Faithful, InARow, Used, AllSucceed;
      live, identity, epoch := map[], None, epoch + 1;
      error := Call();
      if error.Some? {
        return;
      }
      live := defaults;
      error := RestoreState();
    }

    /** Running an operation once. */
    method Run(op: Op) returns (error: Option<Error>)
      modifies this`calls, this`identity, this`done, this`runs
      ensures calls == old(calls) + 1 && error == outcome(old(calls))
      ensures runs == old(runs) + [State(live, old(identity))]
      ensures done == old(done) + if error.None? then [op] else []
      ensures identity == if error.None? && op.Bind? then Some(op.credentials) else old(identity)
    {
      runs := runs + [State(live, identity)];
      error := Call();
      if error.None? {
        done := done + [op];
        if op.Bind? {
          identity := Some(op.credentials);
        }
      }
    }

    /** How a request that is made now will end. */
    ghost function NextResult(): Option<Error>
      reads this
    {
      Final(Tried(outcome, calls, 0, ReconnectCalls(), maxAttempts), maxAttempts)
    }

    /** One attempt: a reconnect first if it is not the first one, then the operation, if that went well. */
    method Attempt(op: Op, first: bool, ghost m: nat) returns (error: Option<Error>, ghost states: seq<State<V>>)
      requires m == if first then 0 else ReconnectCalls()
      modifies this`calls, this`log, this`live, this`identity, this`epoch, this`done, this`runs
      ensures log == old(log) && epoch == old(epoch) + if first then 0 else 1
      ensures error == InARow(outcome, old(calls), m + 1) && calls == old(calls) + Used(outcome, old(calls), m + 1)
      ensures |states| == if InARow(outcome, old(calls), m).None? then 1 else 0
      ensures runs == old(runs) + states && done == old(done) + if error.None? then [op] else []
      ensures states != [] ==>
                states == [if first then old(State(live, identity)) else State(Replayed(defaults, log), auth)]
      ensures first ==> live == old(live)
      ensures error.None? ==> live == if first then old(live) else Replayed(defaults, log)
      ensures error.None? ==>
                identity == if op.Bind? then Some(op.credentials) else if first then old(identity) else auth
    {
      ThenMore(outcome, calls, m, 1);
      OneCall(outcome, calls);
      OneCall(outcome, calls + m);
      hide Replayed, InARow, Used, Succeeding, AllSucceed;
      error, states := None, [];
      if !first {
        error := Reconnect();
      }
      if error.None? {
        states := [State(live, identity)];
        error := Run(op);
      }
    }

    /** The connection as it is now. */
    ghost function Present(): Past<V>
      reads this
    {
      Past(calls, log, auth, live, identity, epoch, done, runs)
    }

    /** After failed attempts: nothing was carried out, and each attempt but the first took a new connection. */
    ghost predicate Failing(past: Past<V>, calls: nat, states: seq<State<V>>, failed: nat)
      reads this
    {
      && log == past.log && auth == past.auth && done == past.done && this.calls == past.calls + calls
      && epoch == past.epoch + (if failed == 0 then 0 else failed - 1)
      && (failed <= 1 ==> live == past.live)
      && (failed == 0 ==> identity == past.identity && states == [])
      && (failed != 0 ==> states != [])
      && runs == past.runs + states
      && Found(states, State(past.live, past.identity), State(Replayed(defaults, log), auth))
    }

    /** After failed attempts and one that went through. */
    ghost predicate Succeeded(past: Past<V>, calls: nat, states: seq<State<V>>, failed: nat, op: Op)
      reads this
    {
      && log == past.log && auth == past.auth && done == past.done + [op] && this.calls == past.calls + calls
      && epoch == past.epoch + failed
      && live == (if failed == 0 then past.live else Replayed(defaults, log))
      && identity == (if op.Bind? then Some(op.credentials) else if failed == 0 then past.identity else auth)
      && runs == past.runs + states
      && Found(states, State(past.live, past.identity), State(Replayed(defaults, log), auth))
    }

    /** So many attempts are left, and what is done so far is on its way to all of it. */
    ghost predicate Underway(past: Past<V>, all: Tries, so: Tries, states: seq<State<V>>, left: nat,
                             error: Option<Error>)
      reads this
    {
      && left <= maxAttempts && error.Some?
      && Failing(past, so.calls, states, |so.failures|) && |states| == so.ran && |so.failures| == maxAttempts - left
      && Going(all, so, outcome, calls, if left == maxAttempts then 0 else ReconnectCalls(), ReconnectCalls(),
               left, maxAttempts, error)
    }

    ghost predicate Finished(past: Past<V>, all: Tries, states: seq<State<V>>, op: Op, error: Option<Error>)
      reads this
    {
      && |states| == all.ran && error == Final(all, maxAttempts)
      && if error.Some? then Failing(past, all.calls, states, |all.failures|)
         else Succeeded(past, all.calls, states, |all.failures|, op)
    }

    /** The next attempt. */
    method Next(op: Op, left: nat, before: Option<Error>,
                ghost past: Past<V>, ghost all: Tries, ghost so: Tries, ghost found: seq<State<V>>)
        returns (error: Option<Error>, ghost next: Tries, ghost states: seq<State<V>>)
      requires left > 0 && Underway(past, all, so, found, left, before)
      modifies this`calls, this`log, this`live, this`identity, this`epoch, this`done, this`runs
      ensures if Over(error) then Finished(past, all, states, op, error)
              else Underway(past, all, next, states, left - 1, error)
    {
      ghost var m := if left == maxAttempts then 0 else ReconnectCalls();
      Turn(all, so, outcome, calls, m, ReconnectCalls(), left, maxAttempts, before);
      OneCall(outcome, calls);
      hide Replayed, InARow, Used, Succeeding, Found, Going, Final;
      next := After(so, outcome, calls, m);
      ghost var more;
      error, more := Attempt(op, left == maxAttempts, m);
      FoundMore(found, more, State(past.live, past.identity), State(Replayed(defaults, log), auth));
      Joined(past.runs, found, more);
      states := found + more;
    }

    /** _retry: over any script of results, how it ends, how often, and what every run of the operation finds. */
    method Retry(op: Op) returns (error: Option<Error>, ghost failures: seq<Error>, ghost states: seq<State<V>>)
      modifies this`calls, this`log, this`live, this`identity, this`epoch, this`done, this`runs
      ensures log == old(log)
      ensures var t := Tried(outcome, old(calls), 0, ReconnectCalls(), maxAttempts);
              && error == old(NextResult()) && failures == t.failures
              && calls == old(calls) + t.calls && |states| == t.ran
      ensures maxAttempts > 0 && outcome(old(calls)).None? ==> error.None? && failures == []
      ensures maxAttempts > 1 && AllSucceed(outcome, old(calls) + 1, ReconnectCalls() + 1)
              && outcome(old(calls)) in {Some(ServerDown), Some(Unavailable), Some(ConnectError), Some(Timeout)} ==>
                error.None? && failures == [outcome(old(calls)).value] && |states| == 2
      ensures maxAttempts > 0 && outcome(old(calls)).Some?
              && outcome(old(calls)) !in {Some(ServerDown), Some(Unavailable), Some(ConnectError), Some(Timeout)} ==>
                error == outcome(old(calls)) && failures == [outcome(old(calls)).value] && |states| == 1
      ensures epoch == old(epoch) + if maxAttempts == 0 || error.None? then |failures| else |failures| - 1
      ensures epoch == old(epoch) ==> live == old(live)
      ensures runs == old(runs) + states && |states| <= |failures| + (if error.None? then 1 else 0) <= maxAttempts
      ensures Found(states, old(State(live, identity)), State(Replayed(defaults, log), auth))
      ensures done == old(done) + if error.None? then [op] else []
      ensures forall i :: 0 <= i < |failures| - (if error.None? then 0 else 1) ==>
                failures[i] in {ServerDown, Unavailable, ConnectError, Timeout}
      ensures maxAttempts == 0 ==> error == Some(RuntimeError)
      ensures maxAttempts > 0 && error.Some? ==> failures != [] && error.value == failures[|failures| - 1]
      ensures maxAttempts > 0 && error.Some? && error.value in {ServerDown, Unavailable, ConnectError, Timeout} ==>
                |failures| == maxAttempts
      ensures error.None? ==> live == if failures == [] then old(live) else Replayed(defaults, log)
      ensures error.None? ==> identity == if op.Bind? then Some(op.credentials)
                else if |failures| == 0 then old(identity) else auth
    {
      ghost var past, all := Present(), Tried(outcome, calls, 0, ReconnectCalls(), maxAttempts);
      ghost var again := ReconnectCalls();
      hide Replayed, AllSucceed, Tried, Final, Found;
      error, states := Repeat(op, past, all);
      failures := all.failures;
      FirstTry(outcome, past.calls, again, maxAttempts);
      FinalFacts(outcome, past.calls, 0, again, maxAttempts);
    }

    /** Its loop. */
    method Repeat(op: Op, ghost past: Past<V>, ghost all: Tries)
        returns (error: Option<Error>, ghost states: seq<State<V>>)
      requires past == Present() && all == Tried(outcome, calls, 0, ReconnectCalls(), maxAttempts)
      modifies this`calls, this`log, this`live, this`identity, this`epoch, this`done, this`runs
      ensures Finished(past, all, states, op, error)
    {
      states, error := [], Some(RuntimeError);
      var attempts := maxAttempts;
      ghost var so := Tries([], 0, 0);
      AheadAll(outcome, calls, 0, ReconnectCalls(), attempts);
      assert Underway(past, all, so, states, attempts, error);
      hide Underway, Finished, Over, Tried;
      while attempts != 0
        invariant 0 <= attempts && Underway(past, all, so, states, attempts, error)
        decreases attempts
      {
        error, so, states := Next(op, attempts, error, past, all, so, states);
        if Over(error) {
          return;
        }
        attempts := attempts - 1;
      }
      NoneLeft(past, all, so, states, op, error);
    }

    lemma NoneLeft(past: Past<V>, all: Tries, so: Tries, states: seq<State<V>>, op: Op, error: Option<Error>)
      requires Underway(past, all, so, states, 0, error)
      ensures Finished(past, all, states, op, error)
    {
      var again := ReconnectCalls();
      Gone(all, so, outcome, calls, if maxAttempts == 0 then 0 else again, again, maxAttempts, error);
    }

    /** bind: the credentials are recorded before the request, and used by its own retries. */
    method Authenticate(credentials: Credentials) returns (error: Option<Error>)
      modifies this`calls, this`log, this`auth, this`live, this`identity, this`epoch, this`done, this`runs
      ensures log == old(log) && auth == Some(credentials)
      ensures error == Final(Tried(outcome, old(calls), 0, |log| + 2, maxAttempts), maxAttempts)
      ensures maxAttempts > 0 && outcome(old(calls)).None? ==> error.None?
      ensures error.None? ==> identity == Some(credentials)
      ensures error.None? && old(live == Replayed(defaults, log)) ==> Faithful()
    {
      auth := Some(credentials);
      ghost var failures, states;
      error, failures, states := Retry(Bind(credentials));
    }
  }
}
