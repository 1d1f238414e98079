/** Closing a client: exactly when its threads are certain to end, so that the joins of
    `clientCloseIsolated` return. */
module Shutdown {
  import opened Wrappers
  import EventRuns
  import opened Threads

  /** Steps that may follow a close: the application does not go online, identify, restore or close again. */
  predicate Quiet(l: Label) {
    match l
    case Call(c) => !c.SetOnline? && !c.Identify? && !c.RestorePut? && !c.Close?
    case _ => true
  }

  predicate Continuation(labels: seq<Label>) {
    forall i :: 0 <= i < |labels| ==> Quiet(labels[i])
  }

  predicate PollerIdle(p: Poller) {
    !p.PFetch? && !p.PPut? && p != PStatus(true)
  }

  predicate StreamerIdle(r: Streamer) {
    r.RTop? || r.RReport? || r.RDone?
  }

  /** No thread is fetching or streaming, and no successful put is waiting to be reported. */
  predicate NoPutInFlight(st: State) {
    PollerIdle(st.poller) && StreamerIdle(st.streamer) && true !in st.restored
  }

  // ---------------------------------------------------------------- the status stays

  /** The client is closing or has failed, and nothing can change that. */
  predicate Settled(st: State) {
    Ending(st.client.status) && NoPutInFlight(st)
  }

  /** What settled threads can still do: the steps left to each of them. */
  function SenderLeft(s: Sender, status: Status): nat {
    if s.SDone? then 0
    else if Last(s) || s.SWait? || status == Failed then 1 + StepsToTop(s)
    else 8 + StepsToTop(s)
  }

  function PollerLeft(p: Poller): nat {
    match p
    case PDone => 0
    case PTop => 1
    case PWait(_) => 2
    case PCallback => 2
    case _ => 3
  }

  function StreamerLeft(r: Streamer): nat {
    if r.RDone? then 0 else 1
  }

  /** The poller's next step. */
  predicate PollerMoves(p: Poller, l: PollLabel) {
    match p
    case PTop => l.PollTop?
    case PWait(_) => l.PollWake?
    case PFetch => l.PollFetch?
    case PPut => l.PollPut?
    case PStatus(_) => l.PollStatus?
    case PReport => l.PollReport?
    case PCallback => l.PollReturn?
    case PDone => false
  }

  /** The streamer's next step, when it is not connected. */
  predicate StreamerMoves(r: Streamer, l: StreamLabel) {
    (r.RTop? && l.StreamTop?) || (r.RReport? && l.StreamReport?)
  }

  /** The step a label is of the sender, the poller, the streamer. */
  function Moved(st: State, l: Label): (int, int, int) {
    (if l.Send? && Moves(st.sender, l.s) then 1 else 0,
     if l.Poll? && PollerMoves(st.poller, l.p) then 1 else 0,
     if l.Stream? && StreamerMoves(st.streamer, l.r) then 1 else 0)
  }

  /** Progress of a settled client: it stays settled, and each thread's own steps use up what it has left. */
  ghost predicate Progress(st: State, st': State, moved: (int, int, int)) {
    && Settled(st') && (st.client.status == Failed ==> st'.client.status == Failed)
    && moved.0 + SenderLeft(st'.sender, st'.client.status) <= SenderLeft(st.sender, st.client.status)
    && moved.1 + PollerLeft(st'.poller) <= PollerLeft(st.poller)
    && moved.2 + StreamerLeft(st'.streamer) <= StreamerLeft(st.streamer)
  }

  lemma SenderSettled(st: State, l: SenderLabel)
    requires Settled(st)
    ensures Progress(st, SenderStep(st, l), Moved(st, Send(l)))
  {
    hide Bundled, SenderLog, NoPutInFlight;
    SenderStays(st, l);
  }

  lemma SenderStays(st: State, l: SenderLabel)
    requires NoPutInFlight(st)
    ensures NoPutInFlight(SenderStep(st, l))
  {
    hide Bundled, SenderLog, SenderNext;
  }

  lemma PollSettled(st: State, l: PollLabel)
    requires Settled(st)
    ensures Progress(st, PollStep(st, l), Moved(st, Poll(l)))
  {
    hide StepsToTop, Last;
    FailedIsShorter(st.sender, st.client.status, PollStep(st, l).client.status);
  }

  lemma FailedIsShorter(s: Sender, before: Status, after: Status)
    requires Ending(before) && (after == before || after == Failed)
    ensures SenderLeft(s, after) <= SenderLeft(s, before)
  {
  }

  lemma StreamSettled(st: State, l: StreamLabel)
    requires Settled(st)
    ensures Progress(st, StreamStep(st, l), Moved(st, Stream(l)))
  {
    hide StepsToTop, Last;
    FailedIsShorter(st.sender, st.client.status, StreamStep(st, l).client.status);
  }

  lemma CallSettled(st: State, l: CallLabel)
    requires Settled(st) && Quiet(Call(l))
    ensures Progress(st, CallStep(st, l), Moved(st, Call(l)))
  {
    hide StepsToTop, Last;
    FailedIsShorter(st.sender, st.client.status, CallStep(st, l).client.status);
  }

  lemma StepSettled(st: State, l: Label)
    requires Settled(st) && Quiet(l)
    ensures Progress(st, Step(st, l), Moved(st, l))
  {
    hide Progress, Settled, SenderStep, PollStep, StreamStep, CallStep;
    match l
    case Send(s) => SenderSettled(st, s);
    case Poll(p) => PollSettled(st, p);
    case Stream(r) => StreamSettled(st, r);
    case Call(c) => CallSettled(st, c);
    case Record(op) => RecordSettled(st, op);
  }

  lemma RecordSettled(st: State, op: EventRuns.Op)
    requires Settled(st)
    ensures Progress(st, RecordStep(st, op), Moved(st, Record(op)))
  {
    hide StepsToTop, Last;
  }

  /** The steps each thread takes in a run. */
  function Steps(st: State, labels: seq<Label>): (int, int, int) {
    if labels == [] then (0, 0, 0) else
      var init := labels[..|labels| - 1];
      var before, now := Steps(st, init), Moved(Run(st, init), labels[|labels| - 1]);
      (before.0 + now.0, before.1 + now.1, before.2 + now.2)
  }

  /** With no put in flight at the close, every thread ends: the sender within thirteen of its own steps, the
      poller within three and the streamer within one, whatever the others do. */
  lemma {:induction false} CloseEndsThreads(st: State, labels: seq<Label>)
    requires Settled(st) && Continuation(labels)
    ensures Progress(st, Run(st, labels), Steps(st, labels))
    ensures SenderLeft(st.sender, st.client.status) <= 13 && PollerLeft(st.poller) <= 3 && StreamerLeft(st.streamer) <= 1
    ensures var st' := Run(st, labels);
      && (SenderLeft(st'.sender, st'.client.status) == 0 <==> st'.sender.SDone?)
      && (PollerLeft(st'.poller) == 0 <==> st'.poller.PDone?) && (StreamerLeft(st'.streamer) == 0 <==> st'.streamer.RDone?)
  {
    hide Step, Moved, Quiet, Settled;
    if labels != [] {
      var init := labels[..|labels| - 1];
      CloseEndsThreads(st, init);
      StepSettled(Run(st, init), labels[|labels| - 1]);
    }
  }

  /** The bundles left to the sender of a settled client. */
  function FlushesLeft(s: Sender, status: Status): nat {
    if status == Failed || Last(s) then (if s.SBundle? || s.SWait? then 1 else 0)
    else if s.SBundle? then 2 else 1
  }

  lemma FailedFlushesLess(s: Sender, before: Status, after: Status)
    requires Ending(before) && (after == before || after == Failed)
    ensures FlushesLeft(s, after) <= FlushesLeft(s, before)
  {
  }

  lemma SenderFlushes(s: Sender, log: Log, c: Client, l: SenderLabel, payload: Option<Cargo>)
    requires Ending(c.status)
    ensures var s', log' := SenderNext(s, c, l, payload), SenderLog(log, s, l, payload);
      var status := if l.Report? && s.SReport? then Failed else c.status;
      Flushes(log'.ops) + FlushesLeft(s', status) <= Flushes(log.ops) + FlushesLeft(s, c.status)
  {
    hide Flushes;
    if l.Bundle? { FlushesSnoc(log.ops, EventRuns.Flush(l.now)); }
  }

  lemma StepFlushes(st: State, l: Label)
    requires Settled(st) && Quiet(l)
    ensures var st' := Step(st, l);
      Flushes(st'.log.ops) + FlushesLeft(st'.sender, st'.client.status) <= Flushes(st.log.ops) + FlushesLeft(st.sender, st.client.status)
  {
    hide Flushes, FlushesLeft, SenderNext, SenderLog, Bundled, PollerNext, StreamerNext, PollerClient, StreamerClient, CallClient;
    StepSettled(st, l);
    FailedFlushesLess(st.sender, st.client.status, Failed);
    match l
    case Send(s) => SenderFlushes(st.sender, st.log, st.client, s, Bundled(st, s));
    case Record(op) => FlushesSnoc(st.log.ops, op);
    case _ =>
  }

  /** With no put in flight at the close the sender bundles at most twice more. */
  lemma {:induction false} CloseFlushes(st: State, labels: seq<Label>)
    requires Settled(st) && Continuation(labels)
    ensures var st' := Run(st, labels);
      Flushes(st'.log.ops) + FlushesLeft(st'.sender, st'.client.status) <= Flushes(st.log.ops) + FlushesLeft(st.sender, st.client.status)
    ensures FlushesLeft(st.sender, st.client.status) <= 2
  {
    hide Step, Flushes, Settled, Quiet;
    if labels != [] {
      var init := labels[..|labels| - 1];
      CloseFlushes(st, init);
      CloseEndsThreads(st, init);
      StepFlushes(Run(st, init), labels[|labels| - 1]);
    }
  }

  // ---------------------------------------------------------------- a put in flight

  /** How far a put in flight is from its report. */
  function Distance(st: State): nat {
    match st.poller
    case PFetch => 3
    case PPut => 2
    case PStatus(true) => 1
    case _ =>
      match st.streamer
      case RStatus(false) => 5
      case RConnect => 4
      case RCallback => 4
      case RStream => 3
      case RPut => 2
      case _ => 1
  }

  /** The next step of a put in flight. */
  function PutLabel(st: State): Label {
    match st.poller
    case PFetch => Poll(PollFetch(200, true))
    case PPut => Poll(PollPut(true))
    case PStatus(true) => Poll(PollStatus)
    case _ =>
      match st.streamer
      case RConnect => Stream(StreamStart)
      case RStream => Stream(StreamPut)
      case RPut => Stream(StreamStore(true))
      case RStatus(_) => Stream(StreamStatus)
      case RCallback => Stream(StreamReturn)
      case _ => Call(RestoreStatus(true))
  }

  lemma PutStep(st: State)
    requires !NoPutInFlight(st)
    ensures var l := PutLabel(st); var st' := Step(st, l);
      && Quiet(l) && !l.Send? && st'.sender == st.sender
      && (st'.client.status == Initialized || (!NoPutInFlight(st') && Distance(st') < Distance(st)))
  {
    hide SenderStep, CallStep, PollStep, StreamStep;
    if !PollerIdle(st.poller) {
      PollerPuts(st);
    } else if !StreamerIdle(st.streamer) {
      StreamerPuts(st);
    } else {
      RestorePuts(st);
    }
  }

  lemma PollerPuts(st: State)
    requires !PollerIdle(st.poller)
    ensures PutLabel(st).Poll?
    ensures var st' := PollStep(st, PutLabel(st).p);
      && st'.sender == st.sender
      && (st'.client.status == Initialized || (!PollerIdle(st'.poller) && Distance(st') < Distance(st)))
  {
  }

  lemma StreamerPuts(st: State)
    requires PollerIdle(st.poller) && !StreamerIdle(st.streamer)
    ensures PutLabel(st).Stream?
    ensures var st' := StreamStep(st, PutLabel(st).r);
      && st'.sender == st.sender
      && (st'.client.status == Initialized || (!StreamerIdle(st'.streamer) && Distance(st') < Distance(st)))
  {
  }

  lemma RestorePuts(st: State)
    requires PollerIdle(st.poller) && StreamerIdle(st.streamer) && true in st.restored
    ensures PutLabel(st) == Call(RestoreStatus(true))
    ensures var st' := CallStep(st, RestoreStatus(true)); st'.sender == st.sender && st'.client.status == Initialized
  {
  }

  lemma RunCons(st: State, l: Label, rest: seq<Label>)
    ensures Run(st, [l] + rest) == Run(Step(st, l), rest)
  {
    hide Step, Run;
    RunNothing(st);
    RunSnoc(st, [], l);
    assert [] + [l] == [l];
    RunAppend(st, [l], rest);
  }

  /** A put in flight can be reported in spite of the close. */
  lemma {:induction false} ReportFollows(st: State) returns (labels: seq<Label>)
    requires !NoPutInFlight(st)
    ensures Continuation(labels)
    ensures Run(st, labels).client.status == Initialized && Run(st, labels).sender == st.sender
    decreases Distance(st)
  {
    hide Step, Run, NoPutInFlight, Distance, PutLabel;
    PutStep(st);
    var l := PutLabel(st);
    var st' := Step(st, l);
    RunNothing(st');
    RunCons(st, l, []);
    labels := [l] + [];
    if st'.client.status != Initialized {
      var rest := ReportFollows(st');
      RunCons(st, l, rest);
      labels := [l] + rest;
    }
  }

  /** At the close: the status stays ShuttingDown or Failed in every continuation if, and only if, no put is in
      flight. */
  lemma StatusStaysIff(st: State)
    requires Ending(st.client.status)
    ensures NoPutInFlight(st) <==> forall labels :: Continuation(labels) ==> Ending(Run(st, labels).client.status)
  {
    hide Run, NoPutInFlight, Continuation;
    if NoPutInFlight(st) {
      forall labels | Continuation(labels) ensures Ending(Run(st, labels).client.status) {
        CloseEndsThreads(st, labels);
      }
    } else {
      var labels := ReportFollows(st);
    }
  }

  // ---------------------------------------------------------------- what it costs

  lemma {:induction false} SenderStepsAppend(st: State, labels: seq<Label>, more: seq<Label>)
    ensures SenderSteps(st, labels + more) == SenderSteps(st, labels) + SenderSteps(Run(st, labels), more)
    decreases |more|
  {
    hide Run, Moves;
    if more == [] {
      assert labels + more == labels;
    } else {
      var n := |more| - 1;
      assert (labels + more)[..|labels + more| - 1] == labels + more[..n];
      SenderStepsAppend(st, labels, more[..n]);
      RunAppend(st, labels, more[..n]);
    }
  }

  /** A step a sender can always take without reporting a failure. */
  function NextLabel(s: Sender): SenderLabel {
    match s
    case STop(_) => Top
    case SWait(_) => Read
    case SBundle(_) => Bundle(None, 0.0, true)
    case SPost(_, _) => Post(200)
    case SReport(_) => Threads.Report
    case _ => Return
  }

  /** An initialized client whose sender has heard of no shutdown. */
  predicate Unaware(st: State) {
    st.client.status == Initialized && !Last(st.sender) && !st.sender.SReport?
  }

  lemma UnawareStep(st: State)
    requires Unaware(st)
    ensures Unaware(Step(st, Send(NextLabel(st.sender)))) && Moves(st.sender, NextLabel(st.sender))
  {
    hide Bundled, SenderLog;
  }

  /** A sender that has missed the shutdown can go on for ever. */
  lemma {:induction false} GoesOn(st: State, n: nat) returns (labels: seq<Label>)
    requires Unaware(st)
    ensures Continuation(labels) && SenderSteps(st, labels) == n && Unaware(Run(st, labels))
  {
    hide Step, Unaware, Moves;
    if n == 0 {
      labels := [];
    } else {
      var init := GoesOn(st, n - 1);
      var now := Run(st, init);
      UnawareStep(now);
      var l := Send(NextLabel(now.sender));
      labels := init + [l];
      assert labels[..|labels| - 1] == init;
    }
  }

  lemma ReportFirst(st: State)
    requires st.sender.SReport? && !Last(st.sender)
    ensures var st' := Step(st, Send(Threads.Report));
      !Last(st'.sender) && !st'.sender.SReport? && (NoPutInFlight(st') <==> NoPutInFlight(st))
  {
    hide Bundled, SenderLog;
  }

  /** With a put in flight at the close there is, for every number, a continuation in which the sender takes
      that many steps and has not ended: the join of the close may never return. */
  lemma JoinMayNotReturn(st: State, n: nat) returns (labels: seq<Label>)
    requires !NoPutInFlight(st) && !Last(st.sender)
    ensures Continuation(labels) && SenderSteps(st, labels) >= n && !Run(st, labels).sender.SDone?
  {
    hide Step, Run, NoPutInFlight, SenderSteps;
    var first := if st.sender.SReport? then [Send(Threads.Report)] else [];
    var st1 := Run(st, first);
    if st.sender.SReport? {
      ReportFirst(st);
      RunNothing(st);
      RunSnoc(st, [], Send(Threads.Report));
      assert [] + [Send(Threads.Report)] == first;
    } else {
      RunNothing(st);
    }
    var put := ReportFollows(st1);
    var st2 := Run(st1, put);
    var rest := GoesOn(st2, n);
    SenderStepsAppend(st1, put, rest);
    SenderStepsAppend(st, first, put + rest);
    RunAppend(st1, put, rest);
    RunAppend(st, first, put + rest);
    labels := first + (put + rest);
  }

  /** At the close of a client whose sender has not yet heard of it: the sender is certain to end, within
      thirteen of its own steps, if and only if no put is in flight. */
  lemma CloseReturnsIff(st: State)
    requires st.client.status == ShuttingDown && !Last(st.sender)
    ensures NoPutInFlight(st) <==> forall labels :: Continuation(labels) ==> SenderSteps(st, labels) <= 13
  {
    hide Run, NoPutInFlight, Continuation, SenderSteps, Steps;
    if NoPutInFlight(st) {
      forall labels | Continuation(labels) ensures SenderSteps(st, labels) <= 13 {
        CloseEndsThreads(st, labels);
        StepsOfSender(st, labels);
      }
    } else {
      var labels := JoinMayNotReturn(st, 14);
    }
  }

  lemma {:induction false} StepsOfSender(st: State, labels: seq<Label>)
    ensures Steps(st, labels).0 == SenderSteps(st, labels)
  {
    hide Run, Moves;
    if labels != [] { StepsOfSender(st, labels[..|labels| - 1]); }
  }
}
