/** Why the client's status changes and what makes its threads start something, over every interleaving: responses
    decide what the threads report, calls decide what they may start. */
module ThreadCauses {
  import opened Wrappers
  import opened Threads
  import EventRuns

  // ---------------------------------------------------------------- what each thread does with a response

  predicate NoSends(labels: seq<Label>) { forall i :: 0 <= i < |labels| ==> !labels[i].Send? }

  predicate NoPolls(labels: seq<Label>) { forall i :: 0 <= i < |labels| ==> !labels[i].Poll? }

  predicate NoStreamings(labels: seq<Label>) { forall i :: 0 <= i < |labels| ==> !labels[i].Stream? }

  /** A thread stays where it is while the others go on. */
  lemma {:induction false} Untouched(st: State, labels: seq<Label>)
    ensures NoSends(labels) ==> Run(st, labels).sender == st.sender
    ensures NoPolls(labels) ==> Run(st, labels).poller == st.poller
    ensures NoStreamings(labels) ==> Run(st, labels).streamer == st.streamer
  {
    hide SenderNext, SenderLog, PollerNext, StreamerNext, PollerClient, StreamerClient, CallClient, CallRestored, Bundled;
    if labels != [] { Untouched(st, labels[..|labels| - 1]); }
  }

  /** After a post the sender is done with the payload if the response was 200 or 202 or it was the second one.
      After a first 401 or 403 its next step, whatever happens before it, makes the client fail, and it is done
      too.  After any other first response it posts once more. */
  lemma PostAnswered(st: State, response: int, others: seq<Label>)
    requires st.sender.SPost? && NoSends(others)
    ensures var last, now := st.sender.last, Run(Step(st, Send(Post(response))), others);
      if response in {200, 202} || st.sender.sendFailed then
        now.sender == STop(last)
      else if response in {401, 403} then
        var reported := Step(now, Send(Report));
        reported.client == now.client.(status := Failed) && Step(reported, Send(Return)).sender == STop(last)
      else
        now.sender == SPost(last, true)
  {
    hide Run, SenderLog;
    Untouched(Step(st, Send(Post(response))), others);
  }

  /** After a fetch the poller's next step, whatever happens before it, is: for a 200 with data, the put, after which
      the client is initialized if the put succeeded and failed if not; for a 401 or 403, to make the client fail;
      for anything else, to start over. */
  lemma FetchAnswered(st: State, response: int, usable: bool, ok: bool, others: seq<Label>, more: seq<Label>)
    requires st.poller.PFetch? && NoPolls(others) && NoPolls(more)
    ensures var now := Run(Step(st, Poll(PollFetch(response, usable))), others);
      if response == 200 && usable then
        var put := Step(now, Poll(PollPut(ok)));
        && put.client == now.client.(stored := now.client.stored || ok)
        && (var later := Run(put, more);
            Step(later, Poll(PollStatus)).client == later.client.(status := if ok then Initialized else Failed))
      else if response in {401, 403} then
        Step(now, Poll(PollReport)).client == now.client.(status := Failed)
      else
        now.poller == PTop
  {
    hide Run;
    var now := Run(Step(st, Poll(PollFetch(response, usable))), others);
    Untouched(Step(st, Poll(PollFetch(response, usable))), others);
    if response == 200 && usable { Untouched(Step(now, Poll(PollPut(ok))), more); }
  }

  /** A put event on the stream is stored, and then reported as initialized or failed; the stream goes on. */
  lemma PutStreamed(st: State, ok: bool, others: seq<Label>, more: seq<Label>)
    requires st.streamer.RStream? && NoStreamings(others) && NoStreamings(more)
    ensures var now := Run(Step(st, Stream(StreamPut)), others);
            var put := Step(now, Stream(StreamStore(ok)));
            var later := Run(put, more);
            var reported := Step(later, Stream(StreamStatus));
      && put.client == now.client.(stored := now.client.stored || ok)
      && reported.client == later.client.(status := if ok then Initialized else Failed)
      && Step(reported, Stream(StreamReturn)).streamer == RStream
  {
    hide Run;
    var now := Run(Step(st, Stream(StreamPut)), others);
    Untouched(Step(st, Stream(StreamPut)), others);
    Untouched(Step(now, Stream(StreamStore(ok))), more);
  }

  /** A stream that ends with a response from 400 to 499 other than 400, 408 and 429 makes the client fail and ends
      the streamer with its next step; after any other response it starts over. */
  lemma StreamAnswered(st: State, response: int, others: seq<Label>)
    requires st.streamer.RStream? && NoStreamings(others)
    ensures var now := Run(Step(st, Stream(StreamEnd(response))), others);
      if 400 < response < 500 && response !in {408, 429} then
        var reported := Step(now, Stream(StreamReport));
        reported.client == now.client.(status := Failed) && reported.streamer == RDone
      else
        now.streamer == RTop
  {
    hide Run;
    Untouched(Step(st, Stream(StreamEnd(response))), others);
  }

  // ---------------------------------------------------------------- causes of failure

  /** A step that cannot make the client fail: no refused key, no permanent stream error, no put that fails. */
  predicate Harmless(l: Label) {
    match l
    case Send(Post(response)) => response !in {401, 403}
    case Poll(PollFetch(response, _)) => response !in {401, 403}
    case Poll(PollPut(ok)) => ok
    case Stream(StreamStore(ok)) => ok
    case Stream(StreamEnd(response)) => !(400 < response < 500) || response in {408, 429}
    case Call(RestorePut(ok)) => ok
    case _ => true
  }

  /** Nobody has failed or is about to report that. */
  predicate Sound(st: State) {
    && st.client.status != Failed && !st.sender.SReport?
    && !st.poller.PReport? && st.poller != PStatus(false)
    && !st.streamer.RReport? && st.streamer != RStatus(false) && false !in st.restored
  }

  lemma StepSound(st: State, l: Label)
    requires Sound(st) && Harmless(l)
    ensures Sound(Step(st, l))
  {
    hide SenderStep, PollStep, StreamStep, CallStep, RecordStep;
    match l
    case Send(s) => SendSound(st, s);
    case Poll(p) => PollSound(st, p);
    case Stream(r) => StreamSound(st, r);
    case Call(c) => CallSound(st, c);
    case Record(op) => RecordSound(st, op);
  }

  lemma SendSound(st: State, l: SenderLabel)
    requires Sound(st) && Harmless(Send(l))
    ensures Sound(SenderStep(st, l))
  {
    hide SenderLog, Bundled;
  }

  lemma PollSound(st: State, l: PollLabel)
    requires Sound(st) && Harmless(Poll(l))
    ensures Sound(PollStep(st, l))
  {
  }

  lemma StreamSound(st: State, l: StreamLabel)
    requires Sound(st) && Harmless(Stream(l))
    ensures Sound(StreamStep(st, l))
  {
  }

  lemma CallSound(st: State, l: CallLabel)
    requires Sound(st) && Harmless(Call(l))
    ensures Sound(CallStep(st, l))
  {
  }

  lemma RecordSound(st: State, op: EventRuns.Op)
    requires Sound(st)
    ensures Sound(RecordStep(st, op))
  {
  }

  /** A client fails only for a cause: while no response refuses the key, no stream ends in a permanent error and no
      put fails, its status is never Failed, whatever else happens. */
  lemma {:induction false} FailsOnlyForCause(st: State, labels: seq<Label>)
    requires Initial(st) && forall i :: 0 <= i < |labels| ==> Harmless(labels[i])
    ensures Sound(Run(st, labels))
  {
    hide Step, Harmless;
    if labels != [] {
      FailsOnlyForCause(st, labels[..|labels| - 1]);
      StepSound(Run(st, labels[..|labels| - 1]), labels[|labels| - 1]);
    }
  }

  // ---------------------------------------------------------------- what calls decide

  /** Whether the client is offline after these steps: the last call decides. */
  function OfflineAfter(was: bool, labels: seq<Label>): bool {
    if labels == [] then was else
      match labels[|labels| - 1]
      case Call(SetOffline) => true
      case Call(SetOnline) => false
      case _ => OfflineAfter(was, labels[..|labels| - 1])
  }

  function BackgroundAfter(was: bool, labels: seq<Label>): bool {
    if labels == [] then was else
      match labels[|labels| - 1]
      case Call(SetBackground(background)) => background
      case _ => BackgroundAfter(was, labels[..|labels| - 1])
  }

  /** Being offline and being in the background are what the last calls about them said, whatever the threads do. */
  lemma {:induction false} LastCallDecides(st: State, labels: seq<Label>)
    ensures var st' := Run(st, labels);
      && st'.config == st.config
      && st'.client.offline == OfflineAfter(st.client.offline, labels)
      && st'.client.background == BackgroundAfter(st.client.background, labels)
  {
    hide Step;
    if labels != [] {
      LastCallDecides(st, labels[..|labels| - 1]);
      StepDecides(Run(st, labels[..|labels| - 1]), labels[|labels| - 1]);
    }
  }

  lemma StepDecides(st: State, l: Label)
    ensures var st' := Step(st, l);
      && st'.config == st.config
      && st'.client.offline == (if l == Call(SetOffline) then true else if l == Call(SetOnline) then false else st.client.offline)
      && st'.client.background == if l.Call? && l.c.SetBackground? then l.c.background else st.client.background
  {
    hide SenderNext, SenderLog, PollerNext, StreamerNext, Bundled, CallRestored;
  }

  /** What calls do to the status: going online and identifying start over, closing shuts down. */
  lemma CallsSetStatus(st: State)
    ensures Step(st, Call(SetOnline)).client.status == Initializing && Step(st, Call(Identify)).client.status == Initializing
    ensures Step(st, Call(Close)).client.status == ShuttingDown
    ensures Step(st, Call(SetOffline)).client.status == st.client.status
  {
    hide SenderStep, PollStep, StreamStep, RecordStep, CallRestored;
  }

  /** A restore stores what its put came to, and reports that once as initialized or failed. */
  lemma RestoreReports(c: Client, restored: multiset<bool>, ok: bool)
    ensures CallClient(c, restored, RestorePut(ok)) == c.(stored := c.stored || ok)
    ensures var waiting := CallRestored(restored, RestorePut(ok));
      && CallClient(c, waiting, RestoreStatus(ok)) == c.(status := if ok then Initialized else Failed)
      && CallRestored(waiting, RestoreStatus(ok)) == restored
  {
    assert restored + multiset{ok} - multiset{ok} == restored;
  }

  /** Whether the client may poll, and whether it may stream, if it is not offline. */
  predicate MayPoll(config: Config, background: bool) {
    if background then config.backgroundUpdating else !config.streaming
  }

  predicate MayStream(config: Config, background: bool) {
    config.streaming && !background
  }

  /** Nothing has been started, and nobody has decided to start something, that the mode forbids. */
  predicate Obedient(st: State, fetches: nat, streams: nat, polling: bool, streaming: bool) {
    && (!polling ==> st.fetches == fetches && st.poller != PWait(false) && !st.poller.PFetch?)
    && (!streaming ==> st.streams == streams && !st.streamer.RConnect?)
  }

  lemma StepObedient(st: State, l: Label, fetches: nat, streams: nat, polling: bool, streaming: bool)
    requires Obedient(st, fetches, streams, polling, streaming)
    requires !polling ==> st.client.offline || !MayPoll(st.config, st.client.background)
    requires !streaming ==> st.client.offline || !MayStream(st.config, st.client.background)
    ensures Obedient(Step(st, l), fetches, streams, polling, streaming)
  {
    hide SenderLog, SenderNext, Bundled, PollerClient, StreamerClient, CallClient;
  }

  /** Before each of these steps the client is offline or the mode does not poll. */
  ghost predicate NeverPolls(st: State, labels: seq<Label>) {
    forall n :: 0 <= n < |labels| ==>
      var was := st.client;
      OfflineAfter(was.offline, labels[..n]) || !MayPoll(st.config, BackgroundAfter(was.background, labels[..n]))
  }

  /** Before each of these steps the client is offline or the mode does not stream. */
  ghost predicate NeverStreams(st: State, labels: seq<Label>) {
    forall n :: 0 <= n < |labels| ==>
      var was := st.client;
      OfflineAfter(was.offline, labels[..n]) || !MayStream(st.config, BackgroundAfter(was.background, labels[..n]))
  }

  /** From a client's start nothing is ever fetched while at every moment the client is offline or the mode does not
      poll: in the foreground a streaming client, in the background one without background updating.  Nothing is
      ever streamed while at every moment it is offline, in the background or not a streaming client. */
  lemma ModeDecides(st: State, labels: seq<Label>)
    requires Initial(st)
    ensures NeverPolls(st, labels) ==> Run(st, labels).fetches == st.fetches
    ensures NeverStreams(st, labels) ==> Run(st, labels).streams == st.streams
  {
    hide Run, Initial, NeverPolls, NeverStreams;
    StaysObedient(st, labels, !NeverPolls(st, labels), !NeverStreams(st, labels));
  }

  lemma {:induction false} StaysObedient(st: State, labels: seq<Label>, polling: bool, streaming: bool)
    requires Initial(st) && (polling || NeverPolls(st, labels)) && (streaming || NeverStreams(st, labels))
    ensures Obedient(Run(st, labels), st.fetches, st.streams, polling, streaming)
  {
    hide Step, OfflineAfter, BackgroundAfter, MayPoll, MayStream;
    if labels != [] {
      var init := labels[..|labels| - 1];
      assert forall n :: 0 <= n < |init| ==> labels[..n] == init[..n];
      StaysObedient(st, init, polling, streaming);
      LastCallDecides(st, init);
      StepObedient(Run(st, init), labels[|labels| - 1], st.fetches, st.streams, polling, streaming);
    }
  }

  /** A client that is online, has not ended and may poll does poll: the poller's next steps, whatever happens in
      between, lead to a fetch, unless the client ends before it. */
  lemma PollsWhenDue(st: State, others: seq<Label>, more: seq<Label>, response: int, usable: bool)
    requires st.poller == PTop && NoPolls(others) && NoPolls(more)
    requires st.client.status !in {Failed, ShuttingDown} && !st.client.offline && MayPoll(st.config, st.client.background)
    requires Run(Step(st, Poll(PollTop)), others).client.status !in {Failed, ShuttingDown}
    ensures var later := Run(Step(Run(Step(st, Poll(PollTop)), others), Poll(PollWake)), more);
      Step(later, Poll(PollFetch(response, usable))).fetches == later.fetches + 1
  {
    hide Run, PollerClient;
    Untouched(Step(st, Poll(PollTop)), others);
    Untouched(Step(Run(Step(st, Poll(PollTop)), others), Poll(PollWake)), more);
  }

  /** A client that is online, has not ended and may stream does stream. */
  lemma StreamsWhenDue(st: State, others: seq<Label>)
    requires st.streamer == RTop && NoStreamings(others)
    requires st.client.status !in {Failed, ShuttingDown} && !st.client.offline && MayStream(st.config, st.client.background)
    ensures var now := Run(Step(st, Stream(StreamTop)), others);
      Step(now, Stream(StreamStart)).streams == now.streams + 1 && Step(now, Stream(StreamStart)).streamer == RStream
  {
    hide Run, StreamerClient;
    Untouched(Step(st, Stream(StreamTop)), others);
  }

  /** A sender at the top of its loop, while the client has not failed, comes to bundle if the client is online when it
      reads that, and posts what it bundled if there was something that can be serialized. */
  lemma SendsWhenDue(st: State, others: seq<Label>, more: seq<Label>, id: nat, time: real, prints: bool)
    requires st.sender == STop(false) && st.client.status != Failed && NoSends(others) && NoSends(more)
    requires !Run(Step(st, Send(Top)), others).client.offline
    ensures var now := Run(Step(st, Send(Top)), others);
            var later := Run(Step(now, Send(Read)), more);
            var cargo := Loaded(later.config.capacity, later.log.ops, time, prints);
            var sender := Step(later, Send(Bundle(Some(id), time, prints))).sender;
      sender.SPost? <==> cargo.Some? && cargo.value.serialized
  {
    hide Run, Loaded;
    Untouched(Step(st, Send(Top)), others);
    Untouched(Step(Run(Step(st, Send(Top)), others), Send(Read)), more);
  }

  // ---------------------------------------------------------------- the last flush

  /** A sender that still owes a flush: it has not recorded the shutdown, or is about to bundle. */
  predicate Owing(st: State, flushes: nat) {
    !Last(st.sender) || st.sender.SBundle? || Flushes(st.log.ops) > flushes
  }

  lemma StepOwing(st: State, l: Label, flushes: nat)
    requires Owing(st, flushes) && flushes <= Flushes(st.log.ops)
    requires st.client.status != Failed && !st.client.offline && (l.Send? && l.s.Bundle? ==> l.s.id.Some?)
    ensures Owing(Step(st, l), flushes) && flushes <= Flushes(Step(st, l).log.ops)
  {
    hide Flushes, Loaded, PollerNext, StreamerNext, PollerClient, StreamerClient, CallClient;
    if l.Send? && l.s.Bundle? {
      FlushesSnoc(st.log.ops, EventRuns.Flush(l.s.now));
    } else if l.Record? {
      FlushesSnoc(st.log.ops, l.op);
    }
  }

  /** The client is online and has not failed before any of these steps, and each bundle gets an id. */
  ghost predicate Healthy(st: State, labels: seq<Label>) {
    forall n :: 0 <= n < |labels| ==>
      var st' := Run(st, labels[..n]);
      st'.client.status != Failed && !st'.client.offline && (labels[n].Send? && labels[n].s.Bundle? ==> labels[n].s.id.Some?)
  }

  /** A sender that has not yet recorded a shutdown does not end without flushing once more, as long as the client is
      online and does not fail. */
  lemma {:induction false} FlushesBeforeEnd(st: State, labels: seq<Label>)
    requires !Last(st.sender) && Healthy(st, labels)
    ensures Owing(Run(st, labels), Flushes(st.log.ops)) && Flushes(st.log.ops) <= Flushes(Run(st, labels).log.ops)
    ensures Run(st, labels).sender.SDone? ==> Flushes(Run(st, labels).log.ops) > Flushes(st.log.ops)
  {
    hide Step, Flushes;
    if labels != [] {
      var init := labels[..|labels| - 1];
      assert forall n :: 0 <= n < |init| ==> labels[..n] == init[..n];
      FlushesBeforeEnd(st, init);
      StepOwing(Run(st, init), labels[|labels| - 1], Flushes(st.log.ops));
    }
  }
}
