/** The transaction bracket, against a server with transactions as in section 3 of RFC 5805. */
module Transaction {
  import opened Options
  import opened Scripts
  import opened Session

  const SERVER_CONTROLS := "ServerControls"
  const OPERATIONS_ERROR := Refused("operationsError")

  datatype Control = Specification(id: nat) | Other(oid: string)

  datatype End = End(id: nat, commit: bool, controls: seq<Control>)

  /** What the body of the bracket does; the error of an action may be caught there. */
  datatype Action =
    | Update(text: string, caught: bool)
    | SetOption(option: string, value: seq<Control>, caught: bool)
    | Reconnect(caught: bool)

  /** How an action ended, and whether the connection is still the one it found. */
  datatype Answer = Answer(error: Option<Error>, kept: bool)

  /** The transaction a list of controls names. */
  function Named(controls: seq<Control>): (id: Option<nat>)
    ensures id.None? <==> forall c <- controls :: !c.Specification?
    ensures id.Some? ==> Specification(id.value) in controls
  {
    if controls == [] then None
    else if controls[0].Specification? then Some(controls[0].id)
    else Named(controls[1..])
  }

  function ControlsIn(options: map<string, seq<Control>>): seq<Control> {
    if SERVER_CONTROLS in options then options[SERVER_CONTROLS] else []
  }

  /** The updates that were answered with success, in order. */
  function Accepted(actions: seq<Action>, answers: seq<Answer>): seq<string>
    requires |answers| <= |actions|
  {
    if answers == [] then []
    else
      var n := |answers| - 1;
      var one := if actions[n].Update? && answers[n].error.None? then [actions[n].text] else [];
      Accepted(actions, answers[..n]) + one
  }

  /** The options that were set, whether or not that succeeded. */
  function Logged(actions: seq<Action>): seq<Write<seq<Control>>> {
    if actions == [] then []
    else
      var n := |actions| - 1;
      var one := if actions[n].SetOption? then [Write(actions[n].option, actions[n].value)] else [];
      Logged(actions[..n]) + one
  }

  /** The part of the body that ran set no server controls, and caught no error of a connection that was given up. */
  predicate Undisturbed(actions: seq<Action>, answers: seq<Answer>)
    requires |answers| <= |actions|
  {
    forall i :: 0 <= i < |answers| ==> LeavesAlone(actions[i], answers[i])
  }

  /** Every error so far was caught. */
  predicate Survived(actions: seq<Action>, answers: seq<Answer>)
    requires |answers| <= |actions|
  {
    forall i :: 0 <= i < |answers| ==> answers[i].error.None? || actions[i].caught
  }

  predicate LeavesAlone(action: Action, answer: Answer) {
    && (action.SetOption? ==> action.option != SERVER_CONTROLS)
    && (answer.error.Some? && action.caught ==> answer.kept)
  }

  /** An update, or an option that is not the server controls. */
  predicate Plain(action: Action) { action.Update? || (action.SetOption? && action.option != SERVER_CONTROLS) }

  predicate AllFine(answers: seq<Answer>) { forall i :: 0 <= i < |answers| ==> answers[i] == Answer(None, true) }

  lemma FineMore(answers: seq<Answer>, answer: Answer)
    ensures AllFine(answers + [answer]) <==> AllFine(answers) && answer == Answer(None, true)
  {
    var all := answers + [answer];
    assert all[|answers|] == answer;
    assert forall i :: 0 <= i < |answers| ==> all[i] == answers[i];
  }

  lemma BodyMore(actions: seq<Action>, answers: seq<Answer>, answer: Answer, log: seq<Write<seq<Control>>>)
    requires |answers| < |actions|
    ensures var n := |answers|;
            var next, action := answers + [answer], actions[n];
            && Accepted(actions, next) ==
               Accepted(actions, answers) + (if action.Update? && answer.error.None? then [action.text] else [])
            && log + Logged(actions[..n + 1]) ==
               log + Logged(actions[..n]) + (if action.SetOption? then [Write(action.option, action.value)] else [])
            && (Undisturbed(actions, next) <==> Undisturbed(actions, answers) && LeavesAlone(action, answer))
            && (Survived(actions, next) <==> Survived(actions, answers) && (answer.error.None? || action.caught))
            && (AllFine(next) <==> AllFine(answers) && answer == Answer(None, true))
  {
    hide LeavesAlone, Accepted, Logged, Undisturbed, Survived, AllFine;
    var n := |answers|;
    AcceptedMore(actions, answers, answer);
    LoggedMore(actions, n);
    var write := if actions[n].SetOption? then [Write(actions[n].option, actions[n].value)] else [];
    Joined(log, Logged(actions[..n]), write);
    UndisturbedMore(actions, answers, answer);
    FineMore(answers, answer);
  }

  /** A body of updates and other options that all go through. */
  lemma FineIsAll(actions: seq<Action>, answers: seq<Answer>)
    requires |answers| == |actions| && AllFine(answers) && forall a <- actions :: Plain(a)
    ensures Undisturbed(actions, answers) && Accepted(actions, answers) == Updates(actions)
  {
    AllAccepted(actions, answers, |answers|);
    assert answers[..|answers|] == answers && actions[..|answers|] == actions;
    forall i | 0 <= i < |answers| ensures LeavesAlone(actions[i], answers[i]) {
      assert actions[i] in actions;
    }
  }

  function Updates(actions: seq<Action>): seq<string> {
    if actions == [] then []
    else
      var n := |actions| - 1;
      Updates(actions[..n]) + if actions[n].Update? then [actions[n].text] else []
  }

  lemma {:induction false} AllAccepted(actions: seq<Action>, answers: seq<Answer>, n: nat)
    requires n <= |answers| <= |actions| && forall a <- answers :: a.error.None?
    ensures Accepted(actions, answers[..n]) == Updates(actions[..n])
  {
    if n > 0 {
      AllAccepted(actions, answers, n - 1);
      assert answers[..n][..n - 1] == answers[..n - 1] && actions[..n][..n - 1] == actions[..n - 1];
      assert answers[n - 1] in answers;
    }
  }

  lemma AcceptedMore(actions: seq<Action>, answers: seq<Answer>, answer: Answer)
    requires |answers| < |actions|
    ensures Accepted(actions, answers + [answer]) ==
            Accepted(actions, answers) +
            if actions[|answers|].Update? && answer.error.None? then [actions[|answers|].text] else []
  {
    assert (answers + [answer])[..|answers|] == answers;
  }

  lemma LoggedMore(actions: seq<Action>, n: nat)
    requires n < |actions|
    ensures Logged(actions[..n + 1]) ==
            Logged(actions[..n]) + if actions[n].SetOption? then [Write(actions[n].option, actions[n].value)] else []
  {
    assert actions[..n + 1][..n] == actions[..n];
  }

  lemma UndisturbedMore(actions: seq<Action>, answers: seq<Answer>, answer: Answer)
    requires |answers| < |actions|
    ensures Undisturbed(actions, answers + [answer]) <==>
              Undisturbed(actions, answers) && LeavesAlone(actions[|answers|], answer)
    ensures Survived(actions, answers + [answer]) <==>
              Survived(actions, answers) && (answer.error.None? || actions[|answers|].caught)
  {
    hide LeavesAlone;
    var n, all := |answers|, answers + [answer];
    assert all[n] == answer;
    assert forall i :: 0 <= i < n ==> all[i] == answers[i];
  }

  /** What happened in one bracket: the start, the body and how it ended, the option reset, the answer to the end. */
  datatype Trace = Trace(started: bool, entered: bool, id: nat, epoch: nat, body: Option<Error>, answers: seq<Answer>,
                         reset: bool, reached: bool, answer: Option<Error>)
  {
    predicate Committed() { entered && body.None? && reset && answer.None? }
  }

  /** What entering the bracket adds to the option log. */
  function Entered(setControls: bool, id: nat): seq<Write<seq<Control>>> {
    if setControls then [Write(SERVER_CONTROLS, [Specification(id)])] else []
  }

  /** The whole of what a bracket adds to the option log. */
  function Written(setControls: bool, t: Trace, actions: seq<Action>): seq<Write<seq<Control>>>
    requires |t.answers| <= |actions|
  {
    if !t.started then []
    else if !t.entered then Entered(setControls, t.id)
    else Entered(setControls, t.id) + Logged(actions[..|t.answers|]) + [Write(SERVER_CONTROLS, [])]
  }

  lemma ControlsAfterWrite(options: map<string, seq<Control>>, log: seq<Write<seq<Control>>>,
                           write: Write<seq<Control>>)
    ensures ControlsIn(Replayed(options, log + [write])) ==
            if write.option == SERVER_CONTROLS then write.value else ControlsIn(Replayed(options, log))
  {
    ReplayMore(options, log, write);
  }

  /**
   Replaying the option log after a bracket names a transaction exactly when the bracket failed on setting its control.
   An entered bracket leaves no server controls at all to a replay, neither its own nor earlier ones.
   */
  lemma ReplayNames(options: map<string, seq<Control>>, log: seq<Write<seq<Control>>>, setControls: bool, t: Trace,
                    actions: seq<Action>)
    requires Named(ControlsIn(Replayed(options, log))) == None
    requires |t.answers| <= |actions| && (t.entered ==> t.started) && (t.started && !t.entered ==> setControls)
    ensures Named(ControlsIn(Replayed(options, log + Written(setControls, t, actions)))) ==
            if t.started && !t.entered then Some(t.id) else None
    ensures t.entered ==> ControlsIn(Replayed(options, log + Written(setControls, t, actions))) == []
  {
    if !t.started {
      assert log + [] == log;
    } else if !t.entered {
      ControlsAfterWrite(options, log, Write(SERVER_CONTROLS, [Specification(t.id)]));
      assert Named([Specification(t.id)]) == Some(t.id);
    } else {
      var front := Entered(setControls, t.id) + Logged(actions[..|t.answers|]);
      Joined(log, front, [Write(SERVER_CONTROLS, [])]);
      ControlsAfterWrite(options, log + front, Write(SERVER_CONTROLS, []));
    }
  }

  /** A body that ends normally without catching errors had every update of it accepted. */
  lemma NormalEndIsAll(actions: seq<Action>, answers: seq<Answer>)
    requires |answers| == |actions| && forall a <- actions :: !a.caught
    requires Survived(actions, answers)
    ensures Accepted(actions, answers) == Updates(actions)
  {
    forall a <- answers ensures a.error.None? {
      var i :| 0 <= i < |answers| && answers[i] == a;
      assert actions[i] in actions;
    }
    AllAccepted(actions, answers, |answers|);
    assert answers[..|answers|] == answers && actions[..|answers|] == actions;
  }

  /** Updates that arrived in the transaction the requests name, or in the store when they name none. */
  predicate Received(id: Option<nat>, store: seq<string>, open: map<nat, seq<string>>,
                     store': seq<string>, open': map<nat, seq<string>>, updates: seq<string>)
  {
    if id.None? then store' == store + updates && forall t <- open' :: t in open && open'[t] == open[t]
    else store' == store && (id.value in open' ==> id.value in open && open'[id.value] == open[id.value] + updates)
  }

  lemma ReceivedMore(id: Option<nat>, store: seq<string>, open: map<nat, seq<string>>, midStore: seq<string>,
                     midOpen: map<nat, seq<string>>, store': seq<string>,
                     open': map<nat, seq<string>>, first: seq<string>, second: seq<string>)
    ensures Received(id, store, open, midStore, midOpen, first)
              && Received(id, midStore, midOpen, store', open', second) ==>
              Received(id, store, open, store', open', first + second)
  {
    Joined(store, first, second);
    if id.Some? && id.value in open {
      Joined(open[id.value], first, second);
    }
  }

  /** Where a body begins. */
  datatype Beginning = Beginning(log: seq<Write<seq<Control>>>, epoch: nat, store: seq<string>,
                                 open: map<nat, seq<string>>, inForce: bool, smooth: bool)

  class Client {
    const session: Session<seq<Control>>
    /** Whether the server refuses to commit a transaction. */
    const refusal: nat -> Option<Error>
    /** What it answers for a transaction it does not know. */
    const unknown: Error
    var store: seq<string>
    /** The pending updates of the transactions that are open on the connection. */
    var open: map<nat, seq<string>>
    var nextId: nat
    var ends: seq<End>

    constructor (session: Session<seq<Control>>, refusal: nat -> Option<Error>, unknown: Error)
      ensures this.session == session && this.refusal == refusal && this.unknown == unknown
      ensures store == [] && open == map[] && ends == [] && Valid()
    {
      this.session, this.refusal, this.unknown := session, refusal, unknown;
      store, open, nextId, ends := [], map[], 0, [];
    }

    /** No call to the library below ever fails. */
    ghost predicate Healthy() { session.maxAttempts > 0 && forall k: nat :: session.outcome(k).None? }

    ghost predicate Valid()
      reads this
    {
      forall id <- open :: id < nextId
    }

    /** The controls every request carries. */
    function Controls(): seq<Control>
      reads this, session
    {
      ControlsIn(session.live)
    }

    /** The controls every request carries after a reconnect. */
    ghost function LoggedControls(): seq<Control>
      reads this, session
    {
      ControlsIn(Replayed(session.defaults, session.log))
    }

    /** What the requests name, now and after any reconnect. */
    ghost predicate InForce(id: Option<nat>)
      reads this, session
    {
      Named(Controls()) == id == Named(LoggedControls())
    }

    /** A request, retried over new connections if need be; with a connection the server forgets its transactions. */
    method Send(text: string) returns (error: Option<Error>, ghost states: seq<State<seq<Control>>>)
      modifies this`open, session`calls, session`log, session`live, session`identity, session`epoch, session`done,
        session`runs
      ensures error == old(session.NextResult())
      ensures session.log == old(session.log) && session.epoch >= old(session.epoch)
      ensures open == if session.epoch == old(session.epoch) then old(open) else map[]
      ensures session.epoch == old(session.epoch) ==> session.live == old(session.live)
      ensures error.None? && session.epoch != old(session.epoch) ==>
                session.live == Replayed(session.defaults, session.log)
      ensures session.maxAttempts > 0 && session.outcome(old(session.calls)).None? ==>
                error.None? && session.epoch == old(session.epoch)
      ensures |states| <= session.maxAttempts
      ensures forall s <- states :: ControlsIn(s.live) == old(Controls()) || ControlsIn(s.live) == LoggedControls()
    {
      var before := session.epoch;
      ghost var failures;
      error, failures, states := session.Retry(Request(text));
      if session.epoch != before {
        open := map[];
      }
      forall s <- states ensures ControlsIn(s.live) == old(Controls()) || ControlsIn(s.live) == LoggedControls() {
        var i :| 0 <= i < |states| && states[i] == s;
        assert i == 0 ==> s == old(State(session.live, session.identity));
      }
    }

    method Start() returns (error: Option<Error>, id: nat)
      requires Valid()
      modifies this`open, this`nextId
      modifies session`calls, session`log, session`live, session`identity, session`epoch, session`done, session`runs
      ensures Valid() && id == old(nextId) && session.log == old(session.log) && error == old(session.NextResult())
      ensures error.None? ==> id in open && open[id] == [] && nextId == id + 1
      ensures error.None? && old(InForce(None)) ==> InForce(None)
      ensures session.maxAttempts > 0 && session.outcome(old(session.calls)).None? ==> error.None?
    {
      id := nextId;
      ghost var states;
      error, states := Send("start transaction");
      if error.None? {
        open, nextId := open[id := []], id + 1;
      }
    }

    /** An update that names a transaction waits in it; one that names an unknown transaction is refused. */
    method Apply(text: string) returns (error: Option<Error>)
      modifies this`store, this`open
      modifies session`calls, session`log, session`live, session`identity, session`epoch, session`done, session`runs
      ensures session.log == old(session.log) && session.epoch >= old(session.epoch)
      ensures session.epoch == old(session.epoch) ==> session.live == old(session.live)
      ensures error.None? && session.epoch != old(session.epoch) ==>
                session.live == Replayed(session.defaults, session.log)
      ensures var named := Named(Controls());
              var known := if session.epoch == old(session.epoch) then old(open) else map[];
              && store == old(store) + (if error.None? && named.None? then [text] else [])
              && open == (if error.None? && named.Some? && named.value in known
                          then known[named.value := known[named.value] + [text]] else known)
              && error == (if old(session.NextResult()).Some? then old(session.NextResult())
                           else if named.Some? && named.value !in known then Some(unknown) else None)
      ensures session.maxAttempts > 0 && session.outcome(old(session.calls)).None? ==>
                session.epoch == old(session.epoch)
                && (Named(Controls()).None? || Named(Controls()).value in old(open) ==> error.None?)
    {
      ghost var states;
      error, states := Send(text);
      if error.None? {
        var named := Named(Controls());
        if named.None? {
          store := store + [text];
        } else if named.value in open {
          open := open[named.value := open[named.value] + [text]];
        } else {
          error := Some(unknown);
          assert named.value !in open;
        }
      }
    }

    /** The end request: a commit makes the pending updates permanent, unless the server refuses it. */
    method Finish(id: nat, commit: bool)
        returns (error: Option<Error>, ghost reached: bool, ghost states: seq<State<seq<Control>>>)
      modifies this`store, this`open, this`ends
      modifies session`calls, session`log, session`live, session`identity, session`epoch, session`done, session`runs
      ensures session.log == old(session.log) && session.epoch >= old(session.epoch)
      ensures ends == old(ends) + [End(id, commit, old(Controls()))]
      ensures |states| <= session.maxAttempts
      ensures forall s <- states :: ControlsIn(s.live) == old(Controls()) || ControlsIn(s.live) == LoggedControls()
      ensures session.epoch == old(session.epoch) ==> session.live == old(session.live)
      ensures reached && session.epoch != old(session.epoch) ==> session.live == Replayed(session.defaults, session.log)
      ensures reached <==> old(session.NextResult()).None?
      ensures !reached ==> error == old(session.NextResult())
      ensures var known := if session.epoch == old(session.epoch) then old(open) else map[];
              && (reached ==> error == if id !in known then Some(unknown) else if commit then refusal(id) else None)
              && open == (if reached && id in known then known - {id} else known)
              && (error.None? ==> id in known)
              && store == old(store) + if error.None? && commit then old(open)[id] else []
      ensures session.maxAttempts > 0 && session.outcome(old(session.calls)).None? ==>
                reached && session.epoch == old(session.epoch)
    {
      ends := ends + [End(id, commit, Controls())];
      error, states := Send("end transaction");
      reached := error.None?;
      if error.None? {
        if id !in open {
          error := Some(unknown);
        } else {
          if commit {
            error := refusal(id);
            if error.None? {
              store := store + open[id];
            }
          }
          open := open - {id};
        }
      }
    }

    /** The session reconnects at the body's wish. */
    method Renew() returns (error: Option<Error>)
      modifies this`open, session`calls, session`log, session`live, session`identity, session`epoch
      ensures open == map[] && session.log == old(session.log) && session.epoch == old(session.epoch) + 1
      ensures error == InARow(session.outcome, old(session.calls), old(session.ReconnectCalls()))
      ensures error.None? ==> session.Faithful()
    {
      open := map[];
      error := session.Reconnect();
    }

    /** One action of a body, while requests name a transaction or none. */
    method Act(action: Action, ghost id: Option<nat>) returns (answer: Answer)
      modifies this`store, this`open
      modifies session`calls, session`log, session`live, session`identity, session`epoch, session`done, session`runs
      ensures session.epoch >= old(session.epoch)
      ensures session.log == old(session.log) + if action.SetOption? then [Write(action.option, action.value)] else []
      ensures open.Keys == if session.epoch == old(session.epoch) then old(open.Keys) else {}
      ensures old(InForce(id)) && LeavesAlone(action, answer) && (answer.error.None? || action.caught) ==> InForce(id)
      ensures old(InForce(id)) ==>
                Received(id, old(store), old(open), store, open,
                         if action.Update? && answer.error.None? then [action.text] else [])
      ensures action.Update? ==>
                var known := if answer.kept then old(open) else map[];
                var named := Named(Controls());
                answer.error == (if old(session.NextResult()).Some? then old(session.NextResult())
                                 else if named.Some? && named.value !in known then Some(unknown) else None)
      ensures action.SetOption? ==> answer.error == session.outcome(old(session.calls))
      ensures action.Reconnect? ==>
                answer.error == InARow(session.outcome, old(session.calls), old(session.ReconnectCalls()))
      ensures answer.kept == (session.epoch == old(session.epoch))
      ensures Healthy() && Plain(action) && old(InForce(id)) && (id.Some? ==> id.value in old(open)) ==>
                answer == Answer(None, true) && InForce(id)
    {
      hide Named, ControlsIn, Replayed;
      var before := session.epoch;
      var error;
      match action {
        case Update(text, _) => error := Apply(text);
        case SetOption(option, value, _) =>
          OptionWrite(session.live, session.defaults, session.log, Write(option, value));
          error := session.SetOption(option, value, true);
        case Reconnect(_) => error := Renew();
      }
      answer := Answer(error, session.epoch == before);
    }

    /** What a body has done so far, seen from where it began. */
    ghost predicate Running(start: Beginning, id: Option<nat>, actions: seq<Action>, answers: seq<Answer>)
      requires |answers| <= |actions|
      reads this, session
    {
      && session.epoch >= start.epoch && session.log == start.log + Logged(actions[..|answers|])
      && open.Keys == (if session.epoch == start.epoch then start.open.Keys else {})
      && (start.smooth ==> AllFine(answers) && InForce(id) && session.epoch == start.epoch)
      && (start.inForce && Undisturbed(actions, answers) ==>
            && (Survived(actions, answers) ==> InForce(id))
            && Received(id, start.store, start.open, store, open, Accepted(actions, answers)))
    }

    /** No call fails, the body has only updates and other options, and the transaction it names is open. */
    ghost predicate Smooth(id: Option<nat>, actions: seq<Action>)
      reads this, session
    {
      Healthy() && (forall a <- actions :: Plain(a)) && InForce(id) && (id.Some? ==> id.value in open)
    }

    ghost function Now(id: Option<nat>, actions: seq<Action>): Beginning
      reads this, session
    {
      Beginning(session.log, session.epoch, store, open, InForce(id), Smooth(id, actions))
    }

    lemma BodyStarts(id: Option<nat>, actions: seq<Action>)
      ensures Running(Now(id, actions), id, actions, []) && Survived(actions, [])
    {
      assert session.log + [] == session.log && actions[..0] == [] && store + [] == store;
      assert forall t <- open :: open[t] + [] == open[t];
    }

    /** The next action of a body. */
    method Take(actions: seq<Action>, i: nat, ghost start: Beginning, ghost id: Option<nat>, ghost answers: seq<Answer>)
        returns (answer: Answer)
      requires i == |answers| < |actions| && Running(start, id, actions, answers) && Survived(actions, answers)
      requires start.smooth ==> Healthy() && (forall a <- actions :: Plain(a)) && (id.Some? ==> id.value in start.open)
      modifies this`store, this`open
      modifies session`calls, session`log, session`live, session`identity, session`epoch, session`done, session`runs
      ensures Running(start, id, actions, answers + [answer])
      ensures Survived(actions, answers + [answer]) <==> answer.error.None? || actions[i].caught
    {
      hide Accepted, Logged, Undisturbed, Survived, LeavesAlone, Received, Named, ControlsIn, Replayed, AllFine, Plain;
      ghost var midStore, midOpen := store, open;
      assert actions[i] in actions;
      answer := Act(actions[i], id);
      BodyMore(actions, answers, answer, start.log);
      ghost var one := if actions[i].Update? && answer.error.None? then [actions[i].text] else [];
      ReceivedMore(id, start.store, start.open, midStore, midOpen, store, open, Accepted(actions, answers), one);
    }

    /** Any body: actions up to the first error that is not caught, and then perhaps an exception of its own. */
    method Body(actions: seq<Action>, raised: Option<Error>, ghost id: Option<nat>)
        returns (error: Option<Error>, answers: seq<Answer>)
      modifies this`store, this`open
      modifies session`calls, session`log, session`live, session`identity, session`epoch, session`done, session`runs
      ensures |answers| <= |actions| && session.epoch >= old(session.epoch)
      ensures session.log == old(session.log) + Logged(actions[..|answers|])
      ensures error.None? ==> |answers| == |actions| && raised.None?
      ensures error.None? ==> Survived(actions, answers)
      ensures Survived(actions, answers) ==> |answers| == |actions| && error == raised
      ensures !Survived(actions, answers) ==>
                && answers != [] && !actions[|answers| - 1].caught
                && error.Some? && error == answers[|answers| - 1].error
      ensures open.Keys == if session.epoch == old(session.epoch) then old(open.Keys) else {}
      ensures old(InForce(id)) && Undisturbed(actions, answers) ==>
                Received(id, old(store), old(open), store, open, Accepted(actions, answers))
      ensures old(Smooth(id, actions)) ==>
                error == raised && session.epoch == old(session.epoch) && |answers| == |actions| && AllFine(answers)
    {
      answers, error := [], None;
      ghost var start := Now(id, actions);
      BodyStarts(id, actions);
      hide Accepted, Logged, Undisturbed, Survived, LeavesAlone, Received, Named, ControlsIn, Replayed, AllFine,
        Running;
      var i := 0;
      while i < |actions|
        invariant 0 <= i <= |actions| && |answers| == i
        invariant Running(start, id, actions, answers) && Survived(actions, answers)
      {
        var answer := Take(actions, i, start, id, answers);
        answers := answers + [answer];
        if answer.error.Some? && !actions[i].caught {
          error := answer.error;
          RunningIs(start, id, actions, answers);
          return;
        }
        i := i + 1;
      }
      error := raised;
      RunningIs(start, id, actions, answers);
    }

    lemma RunningIs(start: Beginning, id: Option<nat>, actions: seq<Action>, answers: seq<Answer>)
      requires |answers| <= |actions| && Running(start, id, actions, answers)
      ensures session.epoch >= start.epoch && session.log == start.log + Logged(actions[..|answers|])
      ensures open.Keys == if session.epoch == start.epoch then start.open.Keys else {}
      ensures start.smooth ==> AllFine(answers) && session.epoch == start.epoch
      ensures start.inForce && Undisturbed(actions, answers) ==>
                Received(id, start.store, start.open, store, open, Accepted(actions, answers))
    {
    }

    /** Connection.transaction up to its yield. */
    method Enter(setControls: bool) returns (error: Option<Error>, id: nat, ghost started: bool)
      requires Valid()
      modifies this`open, this`nextId
      modifies session`calls, session`log, session`live, session`identity, session`epoch, session`done, session`runs
      ensures Valid() && id == old(nextId)
      ensures session.log == old(session.log) + if started then Entered(setControls, id) else []
      ensures error.None? ==> started && id in open && open[id] == []
      ensures started <==> old(session.NextResult()).None?
      ensures !started ==> error == old(session.NextResult())
      ensures error.Some? && started ==> setControls
      ensures error.None? && setControls ==> InForce(Some(id))
      ensures error.None? && !setControls && old(InForce(None)) ==> InForce(None)
      ensures Healthy() ==> error.None?
    {
      error, id := Start();
      started := error.None?;
      if error.None? && setControls {
        ControlsAfterWrite(session.defaults, session.log, Write(SERVER_CONTROLS, [Specification(id)]));
        error := session.SetOption(SERVER_CONTROLS, [Specification(id)], true);
        assert Named([Specification(id)]) == Some(id);
      }
    }

    /** Connection.transaction after its yield: the body ended normally or with an exception. */
    method Exit(id: nat, body: Option<Error>)
        returns (error: Option<Error>, ghost reset: bool, ghost reached: bool, ghost answer: Option<Error>,
                 ghost sent: seq<State<seq<Control>>>)
      modifies this`store, this`open, this`ends
      modifies session`calls, session`log, session`live, session`identity, session`epoch, session`done, session`runs
      ensures session.log == old(session.log) + [Write(SERVER_CONTROLS, [])] && LoggedControls() == []
      ensures session.epoch >= old(session.epoch)
      ensures reset <==> session.outcome(old(session.calls)).None?
      ensures !reset ==> error == session.outcome(old(session.calls))
      ensures !reset ==> ends == old(ends) && store == old(store) && open == old(open)
      ensures reset ==> ends == old(ends) + [End(id, body.None?, [])] && (reached ==> Controls() == [])
      ensures |sent| <= session.maxAttempts && forall s <- sent :: ControlsIn(s.live) == []
      ensures var known := if session.epoch == old(session.epoch) then old(open) else map[];
              && (reset && reached ==>
                    answer == if id !in known then Some(unknown) else if body.None? then refusal(id) else None)
              && (reset && !reached ==> answer.Some?)
              && (reset ==> id !in open || !reached)
              && (reset && answer.None? ==> id in known)
              && (reset ==> store == old(store) + if body.None? && answer.None? then old(open)[id] else [])
      ensures reset ==> error == if body.None? then (if answer == Some(OPERATIONS_ERROR) then None else answer)
                                 else if answer.Some? then answer else body
      ensures Healthy() ==> reset && reached && session.epoch == old(session.epoch)
    {
      answer, reached, sent := None, false, [];
      ControlsAfterWrite(session.defaults, session.log, Write(SERVER_CONTROLS, []));
      error := session.SetOption(SERVER_CONTROLS, [], true);
      reset := error.None?;
      if error.Some? {
        return;
      }
      var ended;
      if body.Some? {
        ended, reached, sent := Finish(id, false);
        error := if ended.Some? then ended else body;
      } else {
        ended, reached, sent := Finish(id, true);
        error := if ended == Some(OPERATIONS_ERROR) then None else ended;
      }
      answer := ended;
    }

    /** No call fails, the body has only updates and other options, and no other transaction is named. */
    ghost predicate CanRun(setControls: bool, actions: seq<Action>)
      reads this, session
    {
      Healthy() && (forall a <- actions :: Plain(a)) && (setControls || InForce(None))
    }

    /** Connection.transaction around a body, with what happened at each stage as a ghost. */
    method Bracket(setControls: bool, actions: seq<Action>, raised: Option<Error>)
        returns (error: Option<Error>, ghost t: Trace, ghost sent: seq<State<seq<Control>>>)
      requires Valid()
      modifies this
      modifies session`calls, session`log, session`live, session`identity, session`epoch, session`done, session`runs
      ensures |t.answers| <= |actions| && (t.entered ==> t.started) && (t.started && !t.entered ==> setControls)
      ensures !t.entered ==> error.Some? && store == old(store) && ends == old(ends)
      ensures session.log == old(session.log) + Written(setControls, t, actions)
      ensures forall options: map<string, seq<Control>> ::
                Named(ControlsIn(Replayed(options, old(session.log)))).None? ==>
                (Named(ControlsIn(Replayed(options, session.log))).Some? <==> t.started && !t.entered)
      ensures t.entered ==> ends == old(ends) + if t.reset then [End(t.id, t.body.None?, [])] else []
      ensures |sent| <= session.maxAttempts && forall s <- sent :: ControlsIn(s.live) == []
      ensures t.entered ==> LoggedControls() == []
      ensures t.entered && t.reset && t.reached ==> Controls() == [] && t.id !in open
      ensures t.entered && t.body.None? ==> |t.answers| == |actions| && raised.None? && Survived(actions, t.answers)
      ensures t.entered && setControls && Undisturbed(actions, t.answers) ==>
                store == old(store) + if t.Committed() then Accepted(actions, t.answers) else []
      ensures t.entered && !setControls && old(InForce(None)) && Undisturbed(actions, t.answers) ==>
                store == old(store) + Accepted(actions, t.answers)
      ensures t.entered && t.reset && t.reached ==>
                t.answer ==
                if session.epoch != t.epoch then Some(unknown) else if t.body.None? then refusal(t.id) else None
      ensures t.entered && t.reset && !t.reached ==> t.answer.Some?
      ensures t.Committed() ==> session.epoch == t.epoch
      ensures t.entered ==>
                (error.None? <==> t.body.None? && t.reset && (t.answer.None? || t.answer == Some(OPERATIONS_ERROR)))
      ensures t.entered && t.body.Some? && t.reset && t.answer.None? ==> error == t.body
      ensures old(CanRun(setControls, actions)) && raised.None? && refusal(old(nextId)).None? ==>
                && error.None? && store == old(store) + Updates(actions)
                && ends == old(ends) + [End(old(nextId), true, [])]
      ensures old(CanRun(setControls, actions)) && raised.Some? ==>
                && error == raised && |t.answers| == |actions| && AllFine(t.answers)
                && store == old(store) + (if setControls then [] else Updates(actions))
                && ends == old(ends) + [End(old(nextId), false, [])]
    {
      hide Accepted, Named, ControlsIn, Replayed, Logged, Undisturbed, Survived, LeavesAlone, Entered, Written,
        InForce, Healthy, Plain, AllFine, Updates;
      t, sent := Trace(false, false, 0, 0, None, [], false, false, None), [];
      var id;
      ghost var started;
      error, id, started := Enter(setControls);
      t := t.(started := started, id := id, epoch := session.epoch);
      if error.Some? {
        AfterBracket(old(session.log), setControls, t, actions);
        WrittenEarly(setControls, t, actions);
        return;
      }
      ghost var smooth := Smooth(if setControls then Some(id) else None, actions);
      var body, answers := Body(actions, raised, if setControls then Some(id) else None);
      ghost var reset, reached, answer;
      error, reset, reached, answer, sent := Exit(id, body);
      t := Trace(true, true, id, t.epoch, body, answers, reset, reached, answer);
      if smooth {
        FineIsAll(actions, answers);
      }
      AfterBracket(old(session.log), setControls, t, actions);
      WrittenInThree(old(session.log), setControls, t, actions);
    }
  }

  lemma AfterBracket(log: seq<Write<seq<Control>>>, setControls: bool, t: Trace, actions: seq<Action>)
    requires |t.answers| <= |actions| && (t.entered ==> t.started) && (t.started && !t.entered ==> setControls)
    ensures forall options: map<string, seq<Control>> :: Named(ControlsIn(Replayed(options, log))).None? ==>
              (Named(ControlsIn(Replayed(options, log + Written(setControls, t, actions)))).Some? <==>
                t.started && !t.entered)
  {
    hide Named, ControlsIn, Replayed, Written;
    forall options: map<string, seq<Control>> | Named(ControlsIn(Replayed(options, log))).None?
      ensures Named(ControlsIn(Replayed(options, log + Written(setControls, t, actions)))).Some? <==>
                t.started && !t.entered
    {
      ReplayNames(options, log, setControls, t, actions);
    }
  }

  lemma WrittenEarly(setControls: bool, t: Trace, actions: seq<Action>)
    requires |t.answers| <= |actions| && !t.entered
    ensures Written(setControls, t, actions) == if t.started then Entered(setControls, t.id) else []
  {
  }

  lemma WrittenInThree(log: seq<Write<seq<Control>>>, setControls: bool, t: Trace, actions: seq<Action>)
    requires |t.answers| <= |actions| && t.started && t.entered
    ensures log + Written(setControls, t, actions) ==
            log + Entered(setControls, t.id) + Logged(actions[..|t.answers|]) + [Write(SERVER_CONTROLS, [])]
  {
    hide Entered, Logged;
  }

  /** A body that sets the server controls itself: its update is applied although the transaction is aborted. */
  method OptionEscapes(client: Client, text: string, raised: Error) returns (error: Option<Error>)
    requires client.Valid() && client.Healthy()
    modifies client
    modifies client.session`calls, client.session`log, client.session`live, client.session`identity,
      client.session`epoch
    modifies client.session`done, client.session`runs
    ensures error == Some(raised) && client.store == old(client.store) + [text]
    ensures exists id :: client.ends == old(client.ends) + [End(id, false, [])]
  {
    var id;
    ghost var started, reset, reached, answer, sent;
    error, id, started := client.Enter(true);
    var _ := client.session.SetOption(SERVER_CONTROLS, [], true);
    assert client.Controls() == [] && Named([]) == None;
    error := client.Apply(text);
    error, reset, reached, answer, sent := client.Exit(id, Some(raised));
  }

  lemma OptionWrite(live: map<string, seq<Control>>, options: map<string, seq<Control>>, log: seq<Write<seq<Control>>>,
                    write: Write<seq<Control>>)
    ensures write.option != SERVER_CONTROLS ==>
              && ControlsIn(Replayed(options, log + [write])) == ControlsIn(Replayed(options, log))
              && ControlsIn(live[write.option := write.value]) == ControlsIn(live)
  {
    ControlsAfterWrite(options, log, write);
  }
}
