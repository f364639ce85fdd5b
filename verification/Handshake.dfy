/**
 * The stop/continue handshake between one client thread, the server thread that answers its
 * requests, and the event thread. A move is one step of one of them; runs interleave them freely.
 */
module Handshake {

  /** The client asks, runs into the breakpoint, and awaits the reply. */
  datatype Client = Idle | Requested | AtBreakpoint | Awaiting

  /** `StoppedThread.__enter__`, the body of the `with` statement, and `__exit__`. */
  datatype Server = Listening | Entering | Waiting | Inspecting | Replying

  datatype Event = StopEvent | RunEvent

  /**
   * `LLDBEventMachine.run` and `onEvent`. `Iterating(i)` is the `for` loop about to look at index
   * `i` of the callback list, which may have changed since; a callback is named by its request.
   */
  datatype Pump =
    | Polling
    | Delivering(event: Event)
    | Iterating(index: nat)
    | Calling(index: nat, callback: nat)
    | Firing(index: nat, callback: nat)
    | Removing(index: nat, callback: nat)
    | Resuming

  /**
   * `stopped` is the process, stopped by the client's breakpoint. `round` counts the requests.
   * `missed` records that `onEvent` found no callback for a stop; `stops`, `continues`,
   * `wasted` and `fired` count what happened.
   */
  datatype State = State(
    client: Client,
    server: Server,
    pump: Pump,
    stopped: bool,
    round: nat,
    requested: bool,
    replied: bool,
    callbacks: seq<nat>,
    queue: seq<Event>,
    signalled: set<nat>,
    missed: bool,
    stops: nat,
    continues: nat,
    wasted: nat,
    fired: multiset<nat>)

  const START := State(Idle, Listening, Polling, false, 0, false, false, [], [], {}, false, 0, 0, 0, multiset{})

  // ----- Moves

  datatype Move =
    | Begin | Hit | Resume | Finish
    | Accept | Register | Wake | Leave | Reply
    | Poll | Test | Look | Check | Set | Discard | FallBack

  predicate Enabled(s: State, m: Move) {
    match m
    case Begin => s.client.Idle? && !s.stopped
    case Hit => s.client.Requested? && !s.stopped
    case Resume => s.client.AtBreakpoint? && !s.stopped
    case Finish => s.client.Awaiting? && !s.stopped && s.replied
    case Accept => s.server.Listening? && s.requested
    case Register => s.server.Entering?
    case Wake => s.server.Waiting? && s.round in s.signalled
    case Leave => s.server.Inspecting?
    case Reply => s.server.Replying?
    case Poll => s.pump.Polling? && |s.queue| > 0
    case Test => s.pump.Delivering?
    case Look => s.pump.Iterating?
    case Check => s.pump.Calling?
    case Set => s.pump.Firing?
    case Discard => s.pump.Removing?
    case FallBack => s.pump.Resuming?
  }

  /** `SBProcess.Continue`: an error, and no effect, unless the process is stopped. */
  function Continue(s: State): State {
    if s.stopped then s.(stopped := false, queue := s.queue + [RunEvent], continues := s.continues + 1)
    else s.(wasted := s.wasted + 1)
  }

  /** Python's `list.remove`: the first occurrence. */
  function RemoveFirst(xs: seq<nat>, x: nat): seq<nat> {
    if |xs| == 0 then [] else if xs[0] == x then xs[1..] else [xs[0]] + RemoveFirst(xs[1..], x)
  }

  function Apply(s: State, m: Move): State
    requires Enabled(s, m)
  {
    match m
    case Begin => s.(client := Requested, round := s.round + 1, requested := true)
    case Hit => s.(client := AtBreakpoint, stopped := true, queue := s.queue + [StopEvent], stops := s.stops + 1)
    case Resume => s.(client := Awaiting)
    case Finish => s.(client := Idle, replied := false)
    case Accept => s.(server := Entering, requested := false)
    case Register => s.(server := Waiting, callbacks := s.callbacks + [s.round])
    case Wake => s.(server := Inspecting)
    case Leave => Continue(s.(server := Replying))
    case Reply => s.(server := Listening, replied := true)
    case Poll => s.(pump := Delivering(s.queue[0]), queue := s.queue[1..])
    case Test =>
      if s.pump.event.RunEvent? then s.(pump := Polling)
      else if |s.callbacks| > 0 then s.(pump := Iterating(0))
      else s.(pump := Resuming, missed := true)
    case Look =>
      if s.pump.index < |s.callbacks| then s.(pump := Calling(s.pump.index, s.callbacks[s.pump.index]))
      else s.(pump := Polling)
    case Check =>
      if s.stopped && s.client.AtBreakpoint? then s.(pump := Firing(s.pump.index, s.pump.callback))
      else s.(pump := Iterating(s.pump.index + 1))
    case Set =>
      s.(pump := Removing(s.pump.index, s.pump.callback), signalled := s.signalled + {s.pump.callback},
         fired := s.fired + multiset{s.pump.callback})
    case Discard =>
      s.(pump := Iterating(s.pump.index + 1), callbacks := RemoveFirst(s.callbacks, s.pump.callback))
    case FallBack => Continue(s.(pump := Polling))
  }

  // ----- Invariant

  /** The callback of the current request is registered and has not fired. */
  predicate Armed(s: State) {
    s.server.Waiting? && s.round !in s.signalled
  }

  /** The event thread is between taking the stop event and firing its callback or falling back. */
  predicate PumpHasStop(s: State) {
    || s.pump == Delivering(StopEvent)
    || s.pump == Iterating(0)
    || s.pump.Calling? || s.pump.Firing? || s.pump.Resuming?
  }

  predicate StopQueued(s: State) {
    |s.queue| > 0 && s.queue[|s.queue| - 1] == StopEvent
  }

  /** Only the last event in the queue can be a stop. */
  predicate QueueKnown(s: State) {
    forall i | 0 <= i < |s.queue| - 1 :: s.queue[i] == RunEvent
  }

  /** Where the one unanswered stop is: on its way to a callback, or with the server. */
  predicate StopAccounted(s: State) {
    if s.stopped && s.round !in s.signalled then StopQueued(s) != PumpHasStop(s)
    else !StopQueued(s) && !PumpHasStop(s)
  }

  /** What the event thread is doing with a stop. */
  predicate PumpKnown(s: State) {
    && (s.pump.Iterating? && s.pump.index == 0 ==> Armed(s))
    && (s.pump.Calling? || s.pump.Firing? ==> Armed(s) && s.pump.index == 0 && s.pump.callback == s.round)
    && (s.pump.Resuming? ==> s.missed)
  }

  /** The list holds the callback being discarded, if any, and then the armed one, if any. */
  predicate CallbacksKnown(s: State) {
    && s.callbacks == (if s.pump.Removing? then [s.pump.callback] else []) + (if Armed(s) then [s.round] else [])
    && (s.pump.Removing? ==> s.pump.index == 0 && s.pump.callback in s.signalled)
  }

  predicate RoundsKnown(s: State) {
    && (forall k | k in s.signalled :: 0 < k <= s.round)
    && s.fired == multiset(s.signalled)
    && s.stops == s.continues + (if s.stopped then 1 else 0)
    && s.wasted == 0
    && (!s.client.Idle? ==> s.round > 0)
  }

  /** How far the current request has got, seen from the client. */
  predicate ClientKnown(s: State) {
    && (s.stopped ==> s.client.AtBreakpoint?)
    && (s.client.Idle? ==> s.server.Listening? && !s.requested && !s.replied && !s.missed)
    && (s.client.Requested? ==> s.round !in s.signalled && !s.missed)
    && (s.client.AtBreakpoint? && !s.stopped ==> s.round in s.signalled || s.missed)
    && (s.client.Awaiting? ==> s.round in s.signalled || s.missed)
    && (s.missed ==> s.round !in s.signalled && (s.stopped ==> s.pump.Resuming?))
  }

  /** How far it has got, seen from the server. */
  predicate ServerKnown(s: State) {
    && (s.requested ==> s.server.Listening? && !s.replied)
    && (!s.server.Listening? ==> !s.replied && !s.client.Idle?)
    && (s.server.Listening? && !s.requested && !s.client.Idle? ==> s.replied)
    && (s.requested || s.server.Entering? ==> s.round !in s.signalled)
    && (s.server.Waiting? && s.round in s.signalled ==> s.stopped)
    && (s.server.Inspecting? ==> s.stopped && s.round in s.signalled)
    && (s.server.Replying? || s.replied ==> s.round in s.signalled && !s.stopped)
  }

  predicate Inv(s: State) {
    && QueueKnown(s) && StopAccounted(s) && PumpKnown(s) && CallbacksKnown(s)
    && RoundsKnown(s) && ClientKnown(s) && ServerKnown(s)
  }

  lemma StartHolds()
    ensures Inv(START)
  {
  }

  predicate OfPump(m: Move) {
    m.Poll? || m.Test? || m.Look? || m.Check? || m.Set? || m.Discard? || m.FallBack?
  }

  lemma StopStaysAccounted(s: State, m: Move)
    requires Inv(s) && Enabled(s, m)
    ensures StopAccounted(Apply(s, m))
  {
    if OfPump(m) {
      PumpAccountsForStop(s, m);
    }
  }

  lemma PumpAccountsForStop(s: State, m: Move)
    requires Inv(s) && Enabled(s, m) && OfPump(m)
    ensures StopAccounted(Apply(s, m))
  {
    if m.Poll? {
      PollAccountsForStop(s);
    } else if m.FallBack? {
      FallBackAccountsForStop(s);
    } else if m.Test? {
      TestAccountsForStop(s);
    } else if m.Look? || m.Check? {
      CallbackAccountsForStop(s, m);
    } else {
      SignalAccountsForStop(s, m);
    }
  }

  /** A stop that is taken from the queue is then with the event thread. */
  lemma PollAccountsForStop(s: State)
    requires Inv(s) && Enabled(s, Poll)
    ensures StopAccounted(Apply(s, Poll))
  {
    if |s.queue| > 1 {
      assert s.queue[0] == RunEvent && s.queue[1..][|s.queue| - 2] == s.queue[|s.queue| - 1];
    }
  }

  lemma TestAccountsForStop(s: State)
    requires Inv(s) && Enabled(s, Test)
    ensures StopAccounted(Apply(s, Test))
  {
    assert StopQueued(Apply(s, Test)) == StopQueued(s);
  }

  lemma CallbackAccountsForStop(s: State, m: Move)
    requires Inv(s) && Enabled(s, m) && (m.Look? || m.Check?)
    ensures StopAccounted(Apply(s, m))
  {
    assert StopQueued(Apply(s, m)) == StopQueued(s);
  }

  lemma SignalAccountsForStop(s: State, m: Move)
    requires Inv(s) && Enabled(s, m) && (m.Set? || m.Discard?)
    ensures StopAccounted(Apply(s, m))
  {
    assert StopQueued(Apply(s, m)) == StopQueued(s);
  }

  lemma FallBackAccountsForStop(s: State)
    requires Inv(s) && Enabled(s, FallBack)
    ensures StopAccounted(Apply(s, FallBack))
  {
    assert s.missed && s.round !in s.signalled;
  }

  lemma PumpStaysKnown(s: State, m: Move)
    requires Inv(s) && Enabled(s, m)
    ensures PumpKnown(Apply(s, m))
  {
  }

  lemma QueueStaysKnown(s: State, m: Move)
    requires Inv(s) && Enabled(s, m)
    ensures QueueKnown(Apply(s, m))
  {
    var q := Apply(s, m).queue;
    if m.Hit? || m.Leave? || m.FallBack? {
      assert !StopQueued(s);
      assert q[..|s.queue|] == s.queue;
    } else if m.Poll? {
      assert q == s.queue[1..];
    } else {
      assert q == s.queue;
    }
  }

  lemma CallbacksStayKnown(s: State, m: Move)
    requires Inv(s) && Enabled(s, m)
    ensures CallbacksKnown(Apply(s, m))
  {
  }

  lemma RoundsStayKnown(s: State, m: Move)
    requires Inv(s) && Enabled(s, m)
    ensures RoundsKnown(Apply(s, m))
  {
    if m.Set? {
      assert multiset(s.signalled + {s.round}) == multiset(s.signalled) + multiset{s.round};
      assert Apply(s, m).signalled == s.signalled + {s.round};
    } else {
      assert Apply(s, m).signalled == s.signalled && Apply(s, m).fired == s.fired;
    }
  }

  lemma ClientStaysKnown(s: State, m: Move)
    requires Inv(s) && Enabled(s, m)
    ensures ClientKnown(Apply(s, m))
  {
  }

  lemma ServerStaysKnown(s: State, m: Move)
    requires Inv(s) && Enabled(s, m)
    ensures ServerKnown(Apply(s, m))
  {
  }

  // ----- Runs

  predicate Possible(s: State, moves: seq<Move>)
    decreases |moves|
  {
    |moves| == 0 || (Enabled(s, moves[0]) && Possible(Apply(s, moves[0]), moves[1..]))
  }

  function Run(s: State, moves: seq<Move>): State
    requires Possible(s, moves)
    decreases |moves|
  {
    if |moves| == 0 then s else Run(Apply(s, moves[0]), moves[1..])
  }

  lemma MoveKeeps(s: State, m: Move)
    requires Inv(s) && Enabled(s, m)
    ensures Inv(Apply(s, m))
  {
    QueueStaysKnown(s, m);
    StopStaysAccounted(s, m);
    PumpStaysKnown(s, m);
    CallbacksStayKnown(s, m);
    RoundsStayKnown(s, m);
    ClientStaysKnown(s, m);
    ServerStaysKnown(s, m);
  }

  lemma {:induction false} RunKeeps(s: State, moves: seq<Move>)
    requires Inv(s) && Possible(s, moves)
    ensures Inv(Run(s, moves))
    decreases |moves|
  {
    if |moves| > 0 {
      MoveKeeps(s, moves[0]);
      RunKeeps(Apply(s, moves[0]), moves[1..]);
    }
  }

  /**
   * Safety, in every interleaving: the body of the `with` statement runs only while the process
   * is stopped at the breakpoint by the client of the request being served; each callback fires
   * at most once; every stop but a present one has been answered by exactly one Continue, and
   * no Continue was called on a running process.
   */
  lemma StopSafety(moves: seq<Move>)
    requires Possible(START, moves)
    ensures var s := Run(START, moves);
            && (s.server.Inspecting? ==> s.stopped && s.client.AtBreakpoint? && s.fired[s.round] == 1)
            && (forall k :: s.fired[k] <= 1)
            && s.stops == s.continues + (if s.stopped then 1 else 0)
            && s.wasted == 0
  {
    StartHolds();
    RunKeeps(START, moves);
  }

  // ----- The body runs

  /** The requests whose body a run entered, in order. */
  function Bodies(s: State, moves: seq<Move>): seq<nat>
    requires Possible(s, moves)
    decreases |moves|
  {
    if |moves| == 0 then []
    else
      var next := Apply(s, moves[0]);
      (if !s.server.Inspecting? && next.server.Inspecting? then [next.round] else []) + Bodies(next, moves[1..])
  }

  /** The current request has reached its body, or what comes after it. */
  predicate Served(s: State) {
    s.server.Inspecting? || s.server.Replying? || s.replied || s.client.Idle?
  }

  /** How many requests have. */
  function ServedCount(s: State): nat {
    if Served(s) || s.round == 0 then s.round else s.round - 1
  }

  /** The numbers after `from`, up to `to`. */
  function Upto(from: nat, to: nat): (r: seq<nat>)
    requires from <= to
  {
    seq(to - from, i requires 0 <= i < to - from => from + 1 + i)
  }

  /** Only entering the body serves a request. */
  lemma MoveServes(s: State, m: Move)
    requires Inv(s) && Enabled(s, m)
    ensures ServedCount(Apply(s, m)) ==
            ServedCount(s) + if !s.server.Inspecting? && Apply(s, m).server.Inspecting? then 1 else 0
    ensures !s.server.Inspecting? && Apply(s, m).server.Inspecting? ==>
              ServedCount(Apply(s, m)) == Apply(s, m).round
  {
  }

  lemma UptoStep(from: nat, to: nat)
    requires from < to
    ensures Upto(from, to) == [from + 1] + Upto(from + 1, to)
  {
  }

  lemma {:induction false} BodiesFrom(s: State, moves: seq<Move>)
    requires Inv(s) && Possible(s, moves)
    ensures ServedCount(s) <= ServedCount(Run(s, moves))
    ensures Bodies(s, moves) == Upto(ServedCount(s), ServedCount(Run(s, moves)))
    decreases |moves|
  {
    if |moves| > 0 {
      MoveKeeps(s, moves[0]);
      MoveServes(s, moves[0]);
      BodiesFrom(Apply(s, moves[0]), moves[1..]);
      if ServedCount(s) < ServedCount(Apply(s, moves[0])) {
        UptoStep(ServedCount(s), ServedCount(Run(s, moves)));
      }
    }
  }

  /**
   * Every request is served by one run of the body, in the order of the requests: in every
   * interleaving the bodies entered are 1, 2, .., up to the last request that has got so far, so
   * none is replied to, and no later one begun, whose body has not run.
   */
  lemma EachBodyRunsOnce(moves: seq<Move>)
    requires Possible(START, moves)
    ensures var s := Run(START, moves);
            && Bodies(START, moves) == Upto(0, ServedCount(s))
            && s.round <= ServedCount(s) + 1
            && (s.server.Replying? || s.replied || s.client.Idle? ==> ServedCount(s) == s.round)
  {
    StartHolds();
    BodiesFrom(START, moves);
  }

  // ----- Progress

  function EventWeight(e: Event): nat {
    if e.StopEvent? then 12 else 3
  }

  function QueueWeight(q: seq<Event>): nat {
    if |q| == 0 then 0 else EventWeight(q[0]) + QueueWeight(q[1..])
  }

  function PumpWeight(p: Pump): nat {
    match p
    case Polling => 0
    case Delivering(e) => if e.StopEvent? then 11 else 2
    case Iterating(i) => if i == 0 then 9 else 1
    case Calling(_, _) => 8
    case Firing(_, _) => 7
    case Removing(_, _) => 6
    case Resuming => 5
  }

  function ClientWeight(c: Client): nat {
    match c
    case Idle => 0
    case Requested => 20
    case AtBreakpoint => 4
    case Awaiting => 2
  }

  function ServerWeight(p: Server): nat {
    match p
    case Listening => 0
    case Entering => 10
    case Waiting => 9
    case Inspecting => 8
    case Replying => 3
  }

  /** How many steps the current request can still take, at most. */
  function Measure(s: State): nat {
    ClientWeight(s.client) + ServerWeight(s.server) + PumpWeight(s.pump) + QueueWeight(s.queue)
    + (if s.requested then 12 else 0) + (if s.replied then 1 else 0)
  }

  lemma {:induction false} QueueWeightAppend(q: seq<Event>, e: Event)
    ensures QueueWeight(q + [e]) == QueueWeight(q) + EventWeight(e)
  {
    if |q| > 0 {
      assert (q + [e])[1..] == q[1..] + [e];
      QueueWeightAppend(q[1..], e);
    }
  }

  /** Every step but the beginning of a new request makes the measure smaller. */
  lemma MovesDescend(s: State, m: Move)
    requires Inv(s) && Enabled(s, m) && m != Begin
    ensures Measure(Apply(s, m)) < Measure(s)
  {
    if OfPump(m) {
      PumpDescends(s, m);
    } else if m.Hit? {
      QueueWeightAppend(s.queue, StopEvent);
    } else if m.Leave? {
      QueueWeightAppend(s.queue, RunEvent);
    }
  }

  lemma PumpDescends(s: State, m: Move)
    requires Inv(s) && Enabled(s, m) && OfPump(m)
    ensures Measure(Apply(s, m)) < Measure(s)
  {
    if m.FallBack? {
      QueueWeightAppend(s.queue, RunEvent);
    }
  }

  /** While a request that was not missed is under way, some thread can move. */
  lemma NotStuck(s: State)
    requires Inv(s) && !s.client.Idle? && !s.missed
    ensures exists m: Move :: m != Begin && Enabled(s, m)
  {
    var m :=
      if s.client.Requested? then Hit
      else if s.client.AtBreakpoint? && !s.stopped then Resume
      else if s.client.Awaiting? then (if s.server.Replying? then Reply else Finish)
      else if s.round in s.signalled then (if s.server.Waiting? then Wake else Leave)
      else
        match s.pump
        case Polling => Poll
        case Delivering(_) => Test
        case Iterating(_) => Look
        case Calling(_, _) => Check
        case Firing(_, _) => Set
        case Removing(_, _) => Discard
        case Resuming => FallBack;
    assert m != Begin && Enabled(s, m);
  }

  /** A request whose stop found no callback is lost: nothing any thread does lets the client finish. */
  lemma {:induction false} MissedForEver(s: State, moves: seq<Move>)
    requires Inv(s) && s.missed && Possible(s, moves)
    ensures Run(s, moves).missed && !Run(s, moves).client.Idle?
    decreases |moves|
  {
    if |moves| > 0 {
      MoveKeeps(s, moves[0]);
      MissedForEver(Apply(s, moves[0]), moves[1..]);
    }
  }

  predicate NoBegin(moves: seq<Move>) {
    forall i | 0 <= i < |moves| :: moves[i] != Begin
  }

  lemma {:induction false} RunsDescend(s: State, moves: seq<Move>)
    requires Inv(s) && Possible(s, moves) && NoBegin(moves)
    ensures Measure(Run(s, moves)) + |moves| <= Measure(s)
    decreases |moves|
  {
    if |moves| > 0 {
      MoveKeeps(s, moves[0]);
      MovesDescend(s, moves[0]);
      RunsDescend(Apply(s, moves[0]), moves[1..]);
    }
  }

  /**
   * Progress: from any reachable state, a run that begins no new request is no longer than the
   * measure, and when it can go no further the client is idle again exactly if no stop was
   * missed, that is, if `onEvent` found the callback registered. Missed or not, no event is left
   * and the process is not left stopped.
   */
  lemma RequestsFinish(before: seq<Move>, moves: seq<Move>)
    requires Possible(START, before) && Possible(Run(START, before), moves) && NoBegin(moves)
    ensures var s := Run(START, before);
            var s' := Run(s, moves);
            && |moves| <= Measure(s)
            && ((forall m: Move | m != Begin :: !Enabled(s', m)) ==>
                  && (s'.client.Idle? <==> !s'.missed)
                  && !s'.stopped && s'.queue == [] && s'.pump.Polling?)
  {
    StartHolds();
    RunKeeps(START, before);
    var s := Run(START, before);
    RunsDescend(s, moves);
    RunKeeps(s, moves);
    var s' := Run(s, moves);
    if !s'.client.Idle? && !s'.missed {
      NotStuck(s');
    }
    if forall m: Move | m != Begin :: !Enabled(s', m) {
      PumpRests(s');
    }
  }

  /** Where the event thread rests it has nothing left to deliver, and the process runs. */
  lemma PumpRests(s: State)
    requires Inv(s) && forall m: Move | m != Begin :: !Enabled(s, m)
    ensures !s.stopped && s.queue == [] && s.pump.Polling?
  {
    assert !Enabled(s, Poll) && !Enabled(s, Test) && !Enabled(s, Look) && !Enabled(s, Check);
    assert !Enabled(s, Set) && !Enabled(s, Discard) && !Enabled(s, FallBack);
    assert !Enabled(s, Wake) && !Enabled(s, Leave);
  }

  /** A stop is missed exactly when it is tested before its callback is registered. */
  lemma MissedExactly(s: State, m: Move)
    requires Inv(s) && Enabled(s, m) && !s.missed
    ensures Apply(s, m).missed <==> m.Test? && s.pump.event.StopEvent? && !Armed(s)
  {
  }

  /** The race exists: the client hits its breakpoint before the server has registered a callback. */
  lemma StopCanBeLost()
    ensures var race := [Begin, Hit, Poll, Test];
            Possible(START, race) && Run(START, race).missed
  {
  }

  lemma {:induction false} RunsChain(s: State, a: seq<Move>, b: seq<Move>)
    requires Possible(s, a) && Possible(Run(s, a), b)
    ensures Possible(s, a + b) && Run(s, a + b) == Run(Run(s, a), b)
    decreases |a|
  {
    if |a| == 0 {
      assert a + b == b;
    } else {
      assert (a + b)[1..] == a[1..] + b && (a + b)[0] == a[0];
      RunsChain(Apply(s, a[0]), a[1..], b);
    }
  }

  const ASK := [Begin, Accept, Register]
  const HIT := [Hit, Poll, Test]
  const FIRE := [Look, Check, Set]
  const SERVE := [Discard, Wake, Leave]
  const RETURN := [Resume, Reply, Finish]

  const ASKED := START.(client := Requested, server := Waiting, round := 1, callbacks := [1])
  const STOPPED := ASKED.(client := AtBreakpoint, stopped := true, stops := 1, pump := Iterating(0))
  const FIRED := STOPPED.(pump := Removing(0, 1), signalled := {1}, fired := multiset{1})
  const SERVED := FIRED.(pump := Iterating(1), callbacks := [], server := Replying, stopped := false, continues := 1,
                         queue := [RunEvent])

  lemma AskPhase()
    ensures Possible(START, ASK) && Run(START, ASK) == ASKED
  {
  }

  lemma HitPhase()
    ensures Possible(ASKED, HIT) && Run(ASKED, HIT) == STOPPED
  {
  }

  lemma FirePhase()
    ensures Possible(STOPPED, FIRE) && Run(STOPPED, FIRE) == FIRED
  {
  }

  lemma ServePhase()
    ensures Possible(FIRED, SERVE) && Run(FIRED, SERVE) == SERVED
  {
  }

  lemma ReturnPhase()
    ensures Possible(SERVED, RETURN) && Run(SERVED, RETURN).client.Idle? && Run(SERVED, RETURN).round == 1
  {
  }

  const WHOLE := ASK + (HIT + (FIRE + (SERVE + RETURN)))

  lemma WholeRun()
    ensures Possible(START, WHOLE) && Run(START, WHOLE).client.Idle? && Run(START, WHOLE).round == 1
  {
    AskPhase();
    HitPhase();
    FirePhase();
    ServePhase();
    ReturnPhase();
    RunsChain(FIRED, SERVE, RETURN);
    RunsChain(STOPPED, FIRE, SERVE + RETURN);
    RunsChain(ASKED, HIT, FIRE + (SERVE + RETURN));
    RunsChain(START, ASK, HIT + (FIRE + (SERVE + RETURN)));
  }

  /** A request whose callback is registered before the hit: its body runs, and the client is idle again. */
  lemma RequestCanFinish()
    ensures Possible(START, WHOLE)
    ensures Run(START, WHOLE).client.Idle? && Run(START, WHOLE).round == 1 && Bodies(START, WHOLE) == [1]
  {
    WholeRun();
    EachBodyRunsOnce(WHOLE);
  }
}
