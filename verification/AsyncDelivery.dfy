/** How one operation's responses reach its consumer: the event loop and the polling coroutine as interleaved steps. */
module AsyncDelivery {
  import opened Options

  datatype Kind = SearchEntry | SearchResult | OtherKind

  datatype Response = Response(kind: Kind, tag: nat)

  datatype Error = NoResultsReturned | OsError | LdapError(text: string) | TimeoutError | CancelledError

  /** What the library finds when it is asked for a result: an unfinished message, a response, or an error. */
  datatype Packet = Part | Whole(response: Response) | Broken(error: Error)

  datatype Future = Pending | Result(response: Response) | Failed(error: Error) | Cancelled {
    predicate Completed() { Result? || Failed? }
  }

  /** Where the coroutine stands: before its loop, at the await, at the yield, or over. */
  datatype Phase = Fresh | Waiting | Yielded(response: Response) | Ended | Raised(error: Error) | Closed {
    predicate Over() { Ended? || Raised? || Closed? }
  }

  datatype State = State(
    limited: bool,                 // there is a timeout
    arrived: seq<Packet>,          // everything the server sent so far
    read: nat,                     // how much of it the library was asked for
    futures: seq<Future>,          // one per round of the loop
    completions: seq<nat>,         // how often each was completed
    reader: Option<nat>,           // the future the registered reader holds
    phase: Phase,
    delivered: seq<Response>,      // what the consumer got
    orphaned: bool)                // the task was cancelled while its reader was registered
  {
    predicate AwaitsPending() { phase.Waiting? && futures != [] && futures[|futures| - 1].Pending? }

    /** A response that is in the future but has not been picked up. */
    function Undelivered(): seq<Response> {
      if phase.Waiting? && futures != [] && futures[|futures| - 1].Result?
      then [futures[|futures| - 1].response]
      else []
    }
  }

  datatype Event = Arrive(packet: Packet) | Ready | Resume | Next(fdValid: bool) | Close | Expire | Cancel

  function Start(limited: bool): State { State(limited, [], 0, [], [], None, Fresh, [], false) }

  /** set_result or set_exception, then removing the reader; on a future that is done it raises before that. */
  function Complete(s: State, n: nat, future: Future): State
    requires n < |s.futures| == |s.completions|
  {
    var t := s.(completions := s.completions[n := s.completions[n] + 1]);
    if s.futures[n].Pending? then t.(futures := s.futures[n := future], reader := None) else t
  }

  /** The callback of the reader. */
  function OnReady(s: State): Option<State> {
    if s.reader.None? || s.reader.value >= |s.futures| || |s.futures| != |s.completions| || s.read >= |s.arrived|
    then None
    else
      var t := s.(read := s.read + 1);
      match s.arrived[s.read]
      case Part => Some(t)
      case Whole(r) => Some(Complete(t, s.reader.value, Result(r)))
      case Broken(e) => Some(Complete(t, s.reader.value, Failed(e)))
  }

  /** The coroutine behind its await. */
  function OnResume(s: State): Option<State> {
    if !s.phase.Waiting? || s.futures == [] then None
    else match s.futures[|s.futures| - 1]
      case Result(r) => Some(s.(phase := Yielded(r), delivered := s.delivered + [r]))
      case Failed(e) => Some(s.(phase := if e.NoResultsReturned? then Ended else Raised(e), reader := None))
      case _ => None
  }

  /** The coroutine before its await, when the consumer asks for more: the next round, or the end. */
  function OnNext(s: State, fdValid: bool): Option<State> {
    if s.phase.Yielded? && !s.phase.response.kind.SearchEntry? then Some(s.(phase := Ended))
    else if !s.phase.Fresh? && !s.phase.Yielded? then None
    else if !fdValid then Some(s.(phase := Raised(OsError)))
    else
      Some(s.(futures := s.futures + [Pending], completions := s.completions + [0],
              reader := Some(|s.futures|), phase := Waiting))
  }

  function Step(s: State, e: Event): Option<State> {
    match e
    case Arrive(p) => Some(s.(arrived := s.arrived + [p]))
    case Ready => OnReady(s)
    case Resume => OnResume(s)
    case Next(fdValid) => OnNext(s, fdValid)
    case Close => if s.phase.Fresh? || s.phase.Yielded? then Some(s.(phase := Closed)) else None
    case Expire =>
      if s.limited && s.AwaitsPending() then
        Some(s.(futures := s.futures[|s.futures| - 1 := Cancelled], reader := None, phase := Raised(TimeoutError)))
      else None
    case Cancel =>
      if s.AwaitsPending() then
        Some(s.(futures := s.futures[|s.futures| - 1 := Cancelled], phase := Raised(CancelledError), orphaned := true))
      else if s.phase.Waiting? then Some(s.(phase := Raised(CancelledError)))
      else None
  }

  function Run(s: State, events: seq<Event>): Option<State> {
    if events == [] then Some(s)
    else
      var n := |events| - 1;
      var before := Run(s, events[..n]);
      if before.None? then None else Step(before.value, events[n])
  }

  function Responses(packets: seq<Packet>): seq<Response> {
    if packets == [] then []
    else
      var last := packets[|packets| - 1];
      Responses(packets[..|packets| - 1]) + if last.Whole? then [last.response] else []
  }

  /** The same steps as the code takes them: the stretches between two awaits, on the shared fields. */
  class Poll {
    const limited: bool
    var arrived: seq<Packet>
    var read: nat
    var futures: seq<Future>
    var completions: seq<nat>
    var reader: Option<nat>
    var phase: Phase
    var delivered: seq<Response>
    var orphaned: bool

    constructor (limited: bool)
      ensures View() == Start(limited)
    {
      this.limited, arrived, read, futures, completions := limited, [], 0, [], [];
      reader, phase, delivered, orphaned := None, Fresh, [], false;
    }

    function View(): State
      reads this
    {
      State(limited, arrived, read, futures, completions, reader, phase, delivered, orphaned)
    }

    /** set_result and set_exception raise on a future that is done. */
    method Set(n: nat, future: Future) returns (raised: bool)
      requires n < |futures| == |completions|
      modifies this`futures, this`completions
      ensures raised <==> !old(futures[n]).Pending?
      ensures completions == old(completions)[n := old(completions)[n] + 1]
      ensures futures == if raised then old(futures) else old(futures)[n := future]
    {
      completions := completions[n := completions[n] + 1];
      raised := !futures[n].Pending?;
      if !raised {
        futures := futures[n := future];
      }
    }

    method AddReader(n: nat)
      modifies this`reader
      ensures reader == Some(n)
    {
      reader := Some(n);
    }

    method RemoveReader()
      modifies this`reader
      ensures reader == None
    {
      reader := None;
    }

    /** Connection._ready. An exception of set_result leaves the reader where it is. */
    method Ready()
      requires OnReady(View()).Some?
      modifies this`read, this`futures, this`completions, this`reader
      ensures View() == old(OnReady(View())).value
    {
      var future := reader.value;
      var packet := arrived[read];
      read := read + 1;
      var raised := false;
      match packet {
        case Part => return;
        case Whole(response) => raised := Set(future, Result(response));
        case Broken(error) => raised := Set(future, Failed(error));
      }
      if !raised {
        RemoveReader();
      }
    }

    /** Connection._poll from the top of its loop to the await; it is entered anew behind a search entry. */
    method Round(fdValid: bool)
      requires OnNext(View(), fdValid).Some?
      modifies this`futures, this`completions, this`reader, this`phase
      ensures View() == old(OnNext(View(), fdValid)).value
    {
      if phase.Yielded? && !phase.response.kind.SearchEntry? {
        phase := Ended;
        return;
      }
      if !fdValid {
        phase := Raised(OsError);
        return;
      }
      futures, completions := futures + [Pending], completions + [0];
      AddReader(|futures| - 1);
      phase := Waiting;
    }

    /** Connection._poll from the await to its yield, or to the handlers of what the future raised. */
    method Awaken()
      requires OnResume(View()).Some?
      modifies this`reader, this`phase, this`delivered
      ensures View() == old(OnResume(View())).value
    {
      match futures[|futures| - 1] {
        case Result(response) =>
          phase := Yielded(response);
          delivered := delivered + [response];
        case Failed(error) =>
          RemoveReader();
          phase := if error.NoResultsReturned? then Ended else Raised(error);
      }
    }

    /** The timeout of Connection._wait_for, with the handler behind it. */
    method Expire()
      requires Step(View(), Event.Expire).Some?
      modifies this`futures, this`reader, this`phase
      ensures View() == old(Step(View(), Event.Expire)).value
    {
      futures := futures[|futures| - 1 := Cancelled];
      RemoveReader();
      phase := Raised(TimeoutError);
    }
  }

  // ----- what every step keeps -----

  predicate RightReader(s: State) {
    if s.orphaned then
      && s.phase == Raised(CancelledError) && s.futures != [] && s.futures[|s.futures| - 1].Cancelled?
      && s.reader == Some(|s.futures| - 1)
    else s.reader == if s.AwaitsPending() then Some(|s.futures| - 1) else None
  }

  predicate OnceEach(s: State) {
    && |s.completions| == |s.futures|
    && (s.phase.Waiting? ==> s.futures != [] && !s.futures[|s.futures| - 1].Cancelled?)
    && (forall i :: 0 <= i < |s.futures| && !(s.orphaned && i == |s.futures| - 1) ==>
          s.completions[i] == if s.futures[i].Completed() then 1 else 0)
    && (forall i :: 0 <= i < |s.futures| && s.futures[i].Pending? ==> i == |s.futures| - 1 && s.phase.Waiting?)
  }

  predicate InOrder(s: State) {
    && s.read <= |s.arrived|
    && s.delivered + s.Undelivered() <= Responses(s.arrived[..s.read])
    && (!s.phase.Raised? ==> s.delivered + s.Undelivered() == Responses(s.arrived[..s.read]))
  }

  /** Only the last response can be one that ends the operation, and nothing is asked for behind it. */
  predicate RightEnd(s: State) {
    && (forall i :: 0 <= i < |s.delivered| - 1 ==> s.delivered[i].kind.SearchEntry?)
    && (s.phase.Fresh? || s.phase.Waiting? ==> forall r <- s.delivered :: r.kind.SearchEntry?)
    && (s.phase.Yielded? ==> s.delivered != [] && s.delivered[|s.delivered| - 1] == s.phase.response)
    && (s.phase.Ended? ==> NormalEnd(s))
  }

  predicate NormalEnd(s: State) {
    || (s.delivered != [] && !s.delivered[|s.delivered| - 1].kind.SearchEntry?)
    || (s.futures != [] && s.futures[|s.futures| - 1] == Failed(NoResultsReturned))
  }

  predicate Sound(s: State) { RightReader(s) && OnceEach(s) && InOrder(s) && RightEnd(s) }

  lemma ResponsesMore(packets: seq<Packet>, k: nat)
    requires k < |packets|
    ensures Responses(packets[..k + 1]) ==
              Responses(packets[..k]) + if packets[k].Whole? then [packets[k].response] else []
  {
    assert packets[..k + 1][..k] == packets[..k];
  }

  lemma ReadyKeeps(s: State)
    requires Sound(s) && OnReady(s).Some?
    ensures Sound(OnReady(s).value)
  {
    hide Responses;
    var t := OnReady(s).value;
    ResponsesMore(s.arrived, s.read);
    assert t.arrived[..t.read] == s.arrived[..s.read + 1];
    if s.orphaned {
      assert InOrder(t);
    } else {
      assert s.AwaitsPending();
      assert s.delivered + s.Undelivered() == s.delivered;
      hide RightEnd;
      assert InOrder(t) && OnceEach(t);
    }
    ReadyKeepsEnd(s);
  }

  lemma ReadyKeepsEnd(s: State)
    requires Sound(s) && OnReady(s).Some?
    ensures RightEnd(OnReady(s).value)
  {
    hide Responses, InOrder;
  }

  lemma ArriveKeeps(s: State, p: Packet)
    requires Sound(s)
    ensures Sound(Step(s, Arrive(p)).value)
  {
    hide Responses;
    assert (s.arrived + [p])[..s.read] == s.arrived[..s.read];
  }

  lemma ResumeKeeps(s: State)
    requires Sound(s) && OnResume(s).Some?
    ensures Sound(OnResume(s).value)
  {
    hide Responses;
  }

  lemma NextKeeps(s: State, fdValid: bool)
    requires Sound(s) && OnNext(s, fdValid).Some?
    ensures Sound(OnNext(s, fdValid).value)
  {
    hide Responses;
  }

  lemma StopKeeps(s: State, e: Event)
    requires Sound(s) && (e.Close? || e.Expire? || e.Cancel?) && Step(s, e).Some?
    ensures Sound(Step(s, e).value)
  {
    hide Responses;
  }

  /** In every run, whatever the order of the steps. */
  lemma {:induction false} Safe(limited: bool, events: seq<Event>)
    ensures Run(Start(limited), events).Some? ==> Sound(Run(Start(limited), events).value)
  {
    if events != [] && Run(Start(limited), events).Some? {
      var n := |events| - 1;
      Safe(limited, events[..n]);
      var s := Run(Start(limited), events[..n]).value;
      hide Sound;
      match events[n] {
        case Ready => ReadyKeeps(s);
        case Arrive(p) => ArriveKeeps(s, p);
        case Resume => ResumeKeeps(s);
        case Next(fdValid) => NextKeeps(s, fdValid);
        case _ => StopKeeps(s, events[n]);
      }
    }
  }

  // ----- what that means -----

  /** No reader outlives the operation, unless the task was cancelled at the await. */
  lemma OverMeansUnregistered(s: State)
    requires Sound(s) && s.phase.Over()
    ensures s.reader.Some? <==> s.orphaned
  {
  }

  /** Somewhere in the run the task is cancelled while it awaits a future that is not done. */
  ghost predicate CancelledAtAwait(limited: bool, events: seq<Event>) {
    exists k :: 0 <= k < |events| && CancelsAt(limited, events, k)
  }

  predicate CancelsAt(limited: bool, events: seq<Event>, k: nat)
    requires k < |events|
  {
    var before := Run(Start(limited), events[..k]);
    events[k].Cancel? && before.Some? && before.value.AwaitsPending()
  }

  /** The flag of the state says what happened in the run. */
  lemma {:induction false} OrphanedExactly(limited: bool, events: seq<Event>)
    requires Run(Start(limited), events).Some?
    ensures Run(Start(limited), events).value.orphaned <==> CancelledAtAwait(limited, events)
  {
    if events != [] {
      var n := |events| - 1;
      var earlier := events[..n];
      OrphanedExactly(limited, earlier);
      OrphanedStep(Run(Start(limited), earlier).value, events[n]);
      OneEventMore(limited, events);
    }
  }

  lemma OneEventMore(limited: bool, events: seq<Event>)
    requires events != []
    ensures var n := |events| - 1;
            CancelledAtAwait(limited, events) <==>
              CancelledAtAwait(limited, events[..n]) || CancelsAt(limited, events, n)
  {
    hide Run, Step;
    var n := |events| - 1;
    forall k | 0 <= k < n ensures CancelsAt(limited, events, k) <==> CancelsAt(limited, events[..n], k) {
      assert events[..k] == events[..n][..k] && events[k] == events[..n][k];
    }
  }

  lemma OrphanedStep(s: State, e: Event)
    requires Step(s, e).Some?
    ensures Step(s, e).value.orphaned <==> s.orphaned || (e.Cancel? && s.AwaitsPending())
  {
  }

  /** After a run that is over a reader is left exactly when the run has such a cancellation. */
  lemma ReaderLeftExactly(limited: bool, events: seq<Event>)
    requires Run(Start(limited), events).Some? && Run(Start(limited), events).value.phase.Over()
    ensures Run(Start(limited), events).value.reader.Some? <==> CancelledAtAwait(limited, events)
  {
    hide Run, Sound, CancelledAtAwait;
    Safe(limited, events);
    OverMeansUnregistered(Run(Start(limited), events).value);
    OrphanedExactly(limited, events);
  }

  /** What the consumer has is a prefix of what arrived: each response at most once, and in order. */
  lemma DeliveredInOrder(s: State)
    requires Sound(s)
    ensures s.delivered <= Responses(s.arrived)
  {
    ResponsesPrefix(s.arrived, s.read);
  }

  lemma {:induction false} ResponsesPrefix(packets: seq<Packet>, k: nat)
    requires k <= |packets|
    ensures Responses(packets[..k]) <= Responses(packets)
  {
    if k < |packets| {
      var n := |packets| - 1;
      ResponsesPrefix(packets[..n], k);
      assert packets[..n][..k] == packets[..k];
    } else {
      assert packets[..k] == packets;
    }
  }

  /** A normal end comes after every response up to the one that ends the operation, or after the library's own end. */
  lemma EndedIsComplete(s: State)
    requires Sound(s) && s.phase.Ended?
    ensures s.delivered == Responses(s.arrived[..s.read]) && NormalEnd(s)
    ensures forall i :: 0 <= i < |s.delivered| - 1 ==> s.delivered[i].kind.SearchEntry?
  {
    hide Responses;
    assert s.delivered + s.Undelivered() == s.delivered;
  }

  /** The last packet that was read is this error. */
  predicate LastRead(s: State, e: Error) { 0 < s.read <= |s.arrived| && s.arrived[s.read - 1] == Broken(e) }

  /** Where a raised error comes from: an invalid descriptor, a timeout, a cancelled task, or the library. */
  ghost predicate Explained(s: State, events: seq<Event>) {
    && (forall e :: s.phase.Waiting? && s.futures != [] && s.futures[|s.futures| - 1] == Failed(e) ==> LastRead(s, e))
    && (s.orphaned ==> Cancel in events)
    && (s.phase.Raised? ==>
          || (s.phase.error == OsError && Next(false) in events)
          || (s.phase.error == TimeoutError && Expire in events)
          || (s.phase.error == CancelledError && Cancel in events)
          || (s.phase.error != NoResultsReturned && LastRead(s, s.phase.error)))
  }

  /** An error of the library reaches the consumer as it was read. */
  lemma {:induction false} ErrorsAreRead(limited: bool, events: seq<Event>)
    requires Run(Start(limited), events).Some?
    ensures Explained(Run(Start(limited), events).value, events)
  {
    hide Sound;
    if events != [] {
      var n := |events| - 1;
      assert events == events[..n] + [events[n]];
      Safe(limited, events[..n]);
      ErrorsAreRead(limited, events[..n]);
      ExplainedMore(Run(Start(limited), events[..n]).value, events[..n], events[n]);
    }
  }

  lemma ExplainedMore(s: State, events: seq<Event>, e: Event)
    requires Sound(s) && Explained(s, events) && Step(s, e).Some?
    ensures Explained(Step(s, e).value, events + [e])
  {
    hide Responses, InOrder, RightEnd;
    assert e in events + [e] && forall x <- events :: x in events + [e];
  }

  /** The steps the client's own side can take. */
  predicate Internal(e: Event) { e.Ready? || e.Resume? || e == Next(true) }

  function Measure(s: State): nat
    requires s.read <= |s.arrived|
  {
    3 * (|s.arrived| - s.read) +
    if s.phase.Fresh? || s.phase.Yielded? then 1 else if s.phase.Waiting? && !s.AwaitsPending() then 2 else 0
  }

  /** The client's own steps come to an end. */
  lemma InternalEnds(s: State, e: Event)
    requires Sound(s) && !s.orphaned && Internal(e) && Step(s, e).Some?
    ensures s.read <= |s.arrived| && Step(s, e).value.read <= |s.arrived| == |Step(s, e).value.arrived|
    ensures Measure(Step(s, e).value) < Measure(s)
  {
    hide Responses;
  }

  /** When none is left, the operation is over, or everything that arrived is delivered and the reader is on. */
  lemma NeverStuck(s: State)
    requires Sound(s) && forall e: Event :: Internal(e) ==> Step(s, e).None?
    ensures || s.phase.Over()
            || (s.AwaitsPending() && s.reader.Some? && s.read == |s.arrived| && s.delivered == Responses(s.arrived))
  {
    hide Responses;
    assert Step(s, Ready).None? && Step(s, Resume).None? && Step(s, Next(true)).None?;
    assert s.arrived[..|s.arrived|] == s.arrived;
    assert s.AwaitsPending() ==> s.delivered + s.Undelivered() == s.delivered;
  }

  /** Cancelling the task at the await leaves the reader on; the next response hits a finished future and is lost. */
  lemma CancelLosesResponse(s: State, r: Response)
    requires Sound(s) && s.AwaitsPending() && s.read == |s.arrived|
    ensures var t := Run(s, [Cancel, Arrive(Whole(r)), Ready]);
            && t.Some? && t.value.phase.Over() && t.value.reader == s.reader && s.reader.Some?
            && t.value.futures[s.reader.value].Cancelled? && t.value.completions[s.reader.value] == 1
            && t.value.delivered == s.delivered && t.value.read == |t.value.arrived|
  {
    hide Responses;
    var c := Step(s, Cancel).value;
    var a := Step(c, Arrive(Whole(r))).value;
    var events := [Cancel, Arrive(Whole(r)), Ready];
    assert events[..2] == [Cancel, Arrive(Whole(r))] && events[..2][..1] == [Cancel] && events[..2][..1][..0] == [];
    assert Run(s, events[..2][..1]) == Some(c);
    assert Run(s, events[..2]) == Some(a);
    assert Run(s, events) == OnReady(a);
  }
}
