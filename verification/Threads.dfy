/** The client's background threads as a step system.  A step is what a thread does in one locked region,
    or one call out of the client; steps of all threads and of the application interleave freely. */
module Threads {
  import opened Wrappers
  import opened Text
  import opened Json
  import JsonPrint
  import JsonPrinter
  import JsonRoundTrip
  import EventRuns

  datatype Status = Initializing | Initialized | Failed | ShuttingDown

  predicate Ending(s: Status) {
    s == Failed || s == ShuttingDown
  }

  /** What the threads share; `stored` says whether a put has completed. */
  datatype Client = Client(status: Status, offline: bool, background: bool, stored: bool)

  datatype Config = Config(capacity: nat, streaming: bool, backgroundUpdating: bool)

  predicate Unauthorized(response: int) {
    response == 401 || response == 403
  }

  // ---------------------------------------------------------------- the event sender

  /** `LDi_bgeventsender`; `last` is its `finalflush`. */
  datatype Sender =
    | STop(last: bool)
    | SWait(last: bool)
    | SBundle(last: bool)
    | SPost(last: bool, sendFailed: bool)
    | SReport(last: bool)
    | SCallback(last: bool)
    | SDone

  /** A bundle may get no id; `prints` is whether a payload whose text the model does not give can be printed. */
  datatype SenderLabel = Top | Read | Bundle(id: Option<nat>, now: real, prints: bool)
                       | Post(response: int) | Report | Return

  /** What a bundle gives: the entries of a payload, and whether they can be serialized. */
  datatype Cargo = Cargo(items: seq<Json>, serialized: bool)

  /** A payload with the id it is sent under; one that cannot be serialized is dropped. */
  datatype Parcel = Parcel(id: nat, cargo: Cargo)

  /** `LDJSONSerialize` of a payload: it fails when the text does not fit the printer. */
  predicate Serializes(items: seq<Json>, prints: bool) {
    if Printable(Array(items)) then |JsonPrint.Print(Array(items), false)| + 2 <= JsonPrinter.INT_MAX else prints
  }

  /** One `LDi_sendevents` call: the number of the payload, what is sent, and the response. */
  datatype Attempt = Attempt(payload: nat, parcel: Parcel, response: int)

  /** The history of the event processor, the payloads bundled, and the posts. */
  datatype Log = Log(ops: seq<EventRuns.Op>, parcels: seq<Parcel>, attempts: seq<Attempt>)

  /** The payloads bundled so far. */
  function Sent(capacity: nat, ops: seq<EventRuns.Op>): seq<EventRuns.Payload> {
    EventRuns.Run(capacity, ops).sent
  }

  /** What bundling now gives. */
  function Payload(capacity: nat, ops: seq<EventRuns.Op>, now: real): Option<seq<Json>> {
    var before, after := Sent(capacity, ops), Sent(capacity, ops + [EventRuns.Flush(now)]);
    if |after| > |before| then Some(after[|before|].items) else None
  }

  function Loaded(capacity: nat, ops: seq<EventRuns.Op>, now: real, prints: bool): Option<Cargo> {
    match Payload(capacity, ops, now)
    case None => None
    case Some(items) => Some(Cargo(items, Serializes(items, prints)))
  }

  /** Where the sender goes; `payload` is what a bundle gave. */
  function SenderNext(s: Sender, c: Client, l: SenderLabel, payload: Option<Cargo>): Sender {
    match (l, s)
    case (Top, STop(last)) => if c.status == Failed || last then SDone else SWait(last)
    case (Read, SWait(last)) =>
      var last' := last || c.status == ShuttingDown;
      if c.offline then STop(last') else SBundle(last')
    case (Bundle(id, _, _), SBundle(last)) =>
      if id.Some? && payload.Some? && payload.value.serialized then SPost(last, false) else STop(last)
    case (Post(response), SPost(last, sendFailed)) =>
      if response == 200 || response == 202 || sendFailed then STop(last)
      else if Unauthorized(response) then SReport(last)
      else SPost(last, true)
    case (Report, SReport(last)) => SCallback(last)
    case (Return, SCallback(last)) => STop(last)
    case _ => s
  }

  function SenderLog(log: Log, s: Sender, l: SenderLabel, payload: Option<Cargo>): Log {
    match (l, s)
    case (Bundle(id, now, _), SBundle(_)) =>
      if id.None? then log else
      Log(log.ops + [EventRuns.Flush(now)],
          if payload.Some? then log.parcels + [Parcel(id.value, payload.value)] else log.parcels, log.attempts)
    case (Post(response), SPost(_, _)) =>
      if log.parcels == [] then log else
      var n := |log.parcels| - 1;
      Log(log.ops, log.parcels, log.attempts + [Attempt(n, log.parcels[n], response)])
    case _ => log
  }

  // ---------------------------------------------------------------- the poller and the streamer

  /** `LDi_bgfeaturepoller`. */
  datatype Poller = PTop | PWait(skip: bool) | PFetch | PPut | PStatus(ok: bool) | PReport | PCallback | PDone

  datatype PollLabel = PollTop | PollWake | PollFetch(response: int, usable: bool) | PollPut(ok: bool)
                     | PollStatus | PollReport | PollReturn

  function PollerNext(p: Poller, c: Client, config: Config, l: PollLabel): Poller {
    match (l, p)
    case (PollTop, PTop) =>
      if Ending(c.status) then PDone
      else PWait(c.offline || (if c.background then !config.backgroundUpdating else config.streaming))
    case (PollWake, PWait(skip)) => if skip || Ending(c.status) then PTop else PFetch
    case (PollFetch(response, usable), PFetch) =>
      if response == 200 then (if usable then PPut else PTop) else if Unauthorized(response) then PReport else PTop
    case (PollPut(ok), PPut) => PStatus(ok)
    case (PollStatus, PStatus(_)) => PCallback
    case (PollReport, PReport) => PCallback
    case (PollReturn, PCallback) => PTop
    case _ => p
  }

  function PollerClient(c: Client, p: Poller, l: PollLabel): Client {
    match (l, p)
    case (PollPut(ok), PPut) => c.(stored := c.stored || ok)
    case (PollStatus, PStatus(ok)) => c.(status := if ok then Initialized else Failed)
    case (PollReport, PReport) => c.(status := Failed)
    case _ => c
  }

  /** `LDi_bgfeaturestreamer`. */
  datatype Streamer = RTop | RConnect | RStream | RPut | RStatus(ok: bool) | RCallback | RReport | RDone

  datatype StreamLabel = StreamTop | StreamStart | StreamPut | StreamStore(ok: bool) | StreamStatus | StreamReturn
                       | StreamEnd(response: int) | StreamReport

  /** Stream responses after which the streamer gives up. */
  predicate Permanent(response: int) {
    400 <= response < 500 && response != 400 && response != 408 && response != 429
  }

  function StreamerNext(r: Streamer, c: Client, config: Config, l: StreamLabel): Streamer {
    match (l, r)
    case (StreamTop, RTop) =>
      if Ending(c.status) then RDone
      else if !config.streaming || c.offline || c.background then RTop
      else RConnect
    case (StreamStart, RConnect) => RStream
    case (StreamPut, RStream) => RPut
    case (StreamStore(ok), RPut) => RStatus(ok)
    case (StreamStatus, RStatus(_)) => RCallback
    case (StreamReturn, RCallback) => RStream
    case (StreamEnd(response), RStream) => if Permanent(response) then RReport else RTop
    case (StreamReport, RReport) => RDone
    case _ => r
  }

  function StreamerClient(c: Client, r: Streamer, l: StreamLabel): Client {
    match (l, r)
    case (StreamStore(ok), RPut) => c.(stored := c.stored || ok)
    case (StreamStatus, RStatus(ok)) => c.(status := if ok then Initialized else Failed)
    case (StreamReport, RReport) => c.(status := Failed)
    case _ => c
  }

  // ---------------------------------------------------------------- the application

  datatype CallLabel = SetOffline | SetOnline | SetBackground(background: bool) | Identify | Close
                     | RestorePut(ok: bool) | RestoreStatus(ok: bool)

  /** API calls; `restored` are the puts, and whether they succeeded, whose status is not yet reported. */
  function CallClient(c: Client, restored: multiset<bool>, l: CallLabel): Client {
    match l
    case SetOffline => c.(offline := true)
    case SetOnline => c.(offline := false, status := Initializing)
    case SetBackground(background) => c.(background := background)
    case Identify => c.(status := Initializing)
    case Close => c.(status := ShuttingDown)
    case RestorePut(ok) => c.(stored := c.stored || ok)
    case RestoreStatus(ok) => if ok in restored then c.(status := if ok then Initialized else Failed) else c
  }

  function CallRestored(restored: multiset<bool>, l: CallLabel): multiset<bool> {
    match l
    case RestorePut(ok) => restored + multiset{ok}
    case RestoreStatus(ok) => restored - multiset{ok}
    case _ => restored
  }

  // ---------------------------------------------------------------- runs

  datatype State = State(config: Config, client: Client, sender: Sender, log: Log, poller: Poller, fetches: nat,
                         streamer: Streamer, streams: nat, restored: multiset<bool>)

  /** A client as it starts. */
  predicate Initial(st: State) {
    && st.client.status == Initializing && !st.client.stored && st.restored == multiset{}
    && st.sender == STop(false) && st.log == Log([], [], []) && st.poller == PTop && st.streamer == RTop
  }

  datatype Label = Send(s: SenderLabel) | Poll(p: PollLabel) | Stream(r: StreamLabel) | Call(c: CallLabel)
                 | Record(op: EventRuns.Op)

  function Bundled(st: State, l: SenderLabel): Option<Cargo> {
    if l.Bundle? then Loaded(st.config.capacity, st.log.ops, l.now, l.prints) else None
  }

  function SenderStep(st: State, l: SenderLabel): State {
    var payload := Bundled(st, l);
    st.(sender := SenderNext(st.sender, st.client, l, payload), log := SenderLog(st.log, st.sender, l, payload),
        client := if l.Report? && st.sender.SReport? then st.client.(status := Failed) else st.client)
  }

  function PollStep(st: State, l: PollLabel): State {
    st.(poller := PollerNext(st.poller, st.client, st.config, l), client := PollerClient(st.client, st.poller, l),
        fetches := st.fetches + if l.PollFetch? && st.poller.PFetch? then 1 else 0)
  }

  function StreamStep(st: State, l: StreamLabel): State {
    st.(streamer := StreamerNext(st.streamer, st.client, st.config, l),
        client := StreamerClient(st.client, st.streamer, l),
        streams := st.streams + if l.StreamStart? && st.streamer.RConnect? then 1 else 0)
  }

  function CallStep(st: State, l: CallLabel): State {
    st.(client := CallClient(st.client, st.restored, l), restored := CallRestored(st.restored, l))
  }

  /** The application queues an event or evaluates a flag; only the sender flushes. */
  function RecordStep(st: State, op: EventRuns.Op): State {
    if op.Flush? then st else st.(log := Log(st.log.ops + [op], st.log.parcels, st.log.attempts))
  }

  /** A step; a label whose thread is elsewhere does nothing. */
  function Step(st: State, l: Label): State {
    match l
    case Send(s) => SenderStep(st, s)
    case Poll(p) => PollStep(st, p)
    case Stream(r) => StreamStep(st, r)
    case Call(c) => CallStep(st, c)
    case Record(op) => RecordStep(st, op)
  }

  /** Steps taken in order. */
  function Run(st: State, labels: seq<Label>): State {
    if labels == [] then st else Step(Run(st, labels[..|labels| - 1]), labels[|labels| - 1])
  }

  // ---------------------------------------------------------------- attempts

  /** The responses to the posts of a payload, in order. */
  function Responses(attempts: seq<Attempt>, n: nat): seq<int> {
    if attempts == [] then [] else
      var a := attempts[|attempts| - 1];
      Responses(attempts[..|attempts| - 1], n) + if a.payload == n then [a.response] else []
  }

  lemma ResponsesSnoc(attempts: seq<Attempt>, a: Attempt, n: nat)
    ensures Responses(attempts + [a], n) == Responses(attempts, n) + if a.payload == n then [a.response] else []
  {
    assert (attempts + [a])[..|attempts|] == attempts;
  }

  lemma {:induction false} NoResponses(attempts: seq<Attempt>, n: nat)
    requires forall i :: 0 <= i < |attempts| ==> attempts[i].payload != n
    ensures Responses(attempts, n) == []
  {
    if attempts != [] { NoResponses(attempts[..|attempts| - 1], n); }
  }

  ghost predicate Identified(log: Log) {
    forall i :: 0 <= i < |log.attempts| ==>
      log.attempts[i].payload < |log.parcels| && log.attempts[i].parcel == log.parcels[log.attempts[i].payload]
  }

  /** The responses after which a payload is not posted again: success, or a key that is not authorized. */
  predicate Decided(response: int) {
    response in {200, 202, 401, 403}
  }

  /** A payload the sender is done with: if it could be serialized it was posted once when the first response
      decided, and twice otherwise; if it could not, never. */
  predicate PostsMatch(cargo: Cargo, responses: seq<int>) {
    if cargo.serialized then responses != [] && |responses| == if Decided(responses[0]) then 1 else 2
    else responses == []
  }

  /** Every payload but the one in hand is settled; the one in hand has been posted once, without a decision, or not
      at all; a report is about to be made because the last payload's only response was 401 or 403. */
  ghost predicate Posted(log: Log, s: Sender) {
    var last := |log.parcels| - 1;
    if s.SPost? then
      && log.parcels != [] && log.parcels[last].cargo.serialized
      && (forall n :: 0 <= n < last ==> PostsMatch(log.parcels[n].cargo, Responses(log.attempts, n)))
      && (var rs := Responses(log.attempts, last);
          if s.sendFailed then |rs| == 1 && !Decided(rs[0]) else rs == [])
    else
      && (forall n :: 0 <= n < |log.parcels| ==> PostsMatch(log.parcels[n].cargo, Responses(log.attempts, n)))
      && (s.SReport? || s.SCallback? ==> log.parcels != [] && Responses(log.attempts, last) in {[401], [403]})
  }

  ghost predicate AttemptsOk(capacity: nat, log: Log, s: Sender) {
    Identified(log) && Posted(log, s) && Matching(log.parcels, Sent(capacity, log.ops))
  }

  /** The payloads as sent are the payloads bundled; whether one was serialized is what its text says. */
  ghost predicate Matching(parcels: seq<Parcel>, sent: seq<EventRuns.Payload>) {
    && |parcels| == |sent|
    && forall n :: 0 <= n < |sent| ==> parcels[n].cargo.items == sent[n].items && Truthful(parcels[n].cargo)
  }

  ghost predicate Truthful(cargo: Cargo) {
    Printable(Array(cargo.items)) ==>
      (cargo.serialized <==> |JsonPrint.Print(Array(cargo.items), false)| + 2 <= JsonPrinter.INT_MAX)
  }

  /** Only a flush adds a payload, and it adds at most one. */
  lemma SentSnoc(capacity: nat, ops: seq<EventRuns.Op>, op: EventRuns.Op)
    ensures var sent, sent' := Sent(capacity, ops), Sent(capacity, ops + [op]);
            if op.Flush? then |sent| <= |sent'| <= |sent| + 1 && sent == sent'[..|sent|] else sent' == sent
  {
    assert (ops + [op])[..|ops|] == ops;
  }

  lemma SenderAttempts(capacity: nat, log: Log, s: Sender, c: Client, l: SenderLabel, payload: Option<Cargo>)
    requires AttemptsOk(capacity, log, s) && (l.Bundle? ==> payload == Loaded(capacity, log.ops, l.now, l.prints))
    ensures AttemptsOk(capacity, SenderLog(log, s, l, payload), SenderNext(s, c, l, payload))
  {
    hide Responses, Sent, Printable, JsonPrint.Print;
    if l.Bundle? && s.SBundle? {
      SentSnoc(capacity, log.ops, EventRuns.Flush(l.now));
      NoResponses(log.attempts, |log.parcels|);
    } else if l.Post? && s.SPost? {
      PostAttempts(log, s, c, l);
    }
  }

  lemma PostAttempts(log: Log, s: Sender, c: Client, l: SenderLabel)
    requires Identified(log) && Posted(log, s) && s.SPost? && l.Post?
    ensures Identified(SenderLog(log, s, l, None)) && Posted(SenderLog(log, s, l, None), SenderNext(s, c, l, None))
  {
    hide Responses;
    var n := |log.parcels| - 1;
    var a := Attempt(n, log.parcels[n], l.response);
    forall k: nat ensures Responses(log.attempts + [a], k) == Responses(log.attempts, k) + if k == n then [l.response] else [] {
      ResponsesSnoc(log.attempts, a, k);
    }
    assert !s.sendFailed ==> Responses(log.attempts + [a], n) == [l.response];
  }

  lemma StepAttempts(st: State, l: Label)
    requires AttemptsOk(st.config.capacity, st.log, st.sender)
    ensures var st' := Step(st, l); AttemptsOk(st'.config.capacity, st'.log, st'.sender)
  {
    hide Responses, Sent, SenderNext, SenderLog, PollerNext, StreamerNext;
    if l.Send? {
      hide AttemptsOk;
      SenderAttempts(st.config.capacity, st.log, st.sender, st.client, l.s,
        Bundled(st, l.s));
    } else if l.Record? {
      SentSnoc(st.config.capacity, st.log.ops, l.op);
    }
  }

  /** In every interleaving each bundled payload is posted at most twice, always under one id; before the sender
      goes on it has been posted, if it could be serialized, exactly once when the first response was 200, 202, 401
      or 403 and exactly twice otherwise. */
  lemma {:induction false} AtMostTwice(st: State, labels: seq<Label>)
    requires AttemptsOk(st.config.capacity, st.log, st.sender)
    ensures var st' := Run(st, labels); AttemptsOk(st'.config.capacity, st'.log, st'.sender)
    ensures forall n: nat :: |Responses(Run(st, labels).log.attempts, n)| <= 2
  {
    hide AttemptsOk, Step;
    if labels != [] {
      AtMostTwice(st, labels[..|labels| - 1]);
      StepAttempts(Run(st, labels[..|labels| - 1]), labels[|labels| - 1]);
    }
    var st' := Run(st, labels);
    TwiceForAll(st'.config.capacity, st'.log, st'.sender);
  }

  lemma TwiceForAll(capacity: nat, log: Log, s: Sender)
    requires AttemptsOk(capacity, log, s)
    ensures forall n: nat :: |Responses(log.attempts, n)| <= 2
  {
    hide Responses, Sent;
    forall n: nat ensures |Responses(log.attempts, n)| <= 2 {
      if n >= |log.parcels| { NoResponses(log.attempts, n); }
    }
  }

  /** End to end, from a client's start: every event accepted by the queue is in exactly one payload or still
      waiting; a payload the sender has left was posted exactly once if the first response was 200, 202, 401 or 403
      and exactly twice otherwise, or never if it could not be serialized, which where the model gives its text is
      whether that fits the printer; the one in hand was posted once, with another response, or not yet; each post
      has exactly the contents of its payload, always under the same id; and nothing else is ever posted. */
  lemma EventsPostedAtMostTwice(st: State, labels: seq<Label>, n: nat)
    requires Initial(st)
    ensures var st' := Run(st, labels); var capacity, log := st'.config.capacity, st'.log;
      var sent, responses := Sent(capacity, log.ops), Responses(log.attempts, n);
      && EventRuns.Flatten(sent) + EventRuns.Run(capacity, log.ops).p.events == EventRuns.Accepted(capacity, log.ops)
      && |log.parcels| == |sent|
      && (n < |sent| && log.parcels[n].cargo.serialized ==>
            if st'.sender.SPost? && n == |sent| - 1
            then (if st'.sender.sendFailed then |responses| == 1 && responses[0] !in {200, 202, 401, 403} else responses == [])
            else responses != [] && |responses| == if responses[0] in {200, 202, 401, 403} then 1 else 2)
      && (n < |sent| && !log.parcels[n].cargo.serialized ==>
            responses == [] && !(st'.sender.SPost? && n == |sent| - 1))
      && (n < |sent| && Printable(Array(sent[n].items)) ==>
            (log.parcels[n].cargo.serialized <==>
             |JsonPrint.Print(Array(sent[n].items), false)| + 2 <= JsonPrinter.INT_MAX))
      && (st'.sender.SReport? ==> |sent| > 0 && Responses(log.attempts, |sent| - 1) in {[401], [403]})
      && (forall i :: 0 <= i < |log.attempts| ==>
            log.attempts[i].payload < |sent| && log.attempts[i].parcel.cargo.items == sent[log.attempts[i].payload].items)
      && forall i, j :: 0 <= i < j < |log.attempts| && log.attempts[i].payload == log.attempts[j].payload ==>
           log.attempts[i].parcel.id == log.attempts[j].parcel.id
  {
    hide Responses, Run, Sent, EventRuns.Accepted, EventRuns.Flatten, EventRuns.Run, Printable, JsonPrint.Print;
    SentNothing(st.config.capacity);
    AtMostTwice(st, labels);
    var st' := Run(st, labels);
    SentIs(st'.config.capacity, st'.log.ops);
    EventRuns.ExactlyOnce(st'.config.capacity, st'.log.ops);
    if n < |st'.log.parcels| { assert Truthful(st'.log.parcels[n].cargo); }
  }

  /** The posts of a run, as its labels say: the responses to the posts the sender made. */
  function PostsTaken(st: State, labels: seq<Label>): seq<int> {
    if labels == [] then [] else
      var init, l := labels[..|labels| - 1], labels[|labels| - 1];
      PostsTaken(st, init) + if l.Send? && l.s.Post? && Run(st, init).sender.SPost? then [l.s.response] else []
  }

  /** The responses in the log, in order. */
  function AllResponses(attempts: seq<Attempt>): (r: seq<int>)
    ensures |r| == |attempts| && forall i :: 0 <= i < |r| ==> r[i] == attempts[i].response
  {
    seq(|attempts|, i requires 0 <= i < |attempts| => attempts[i].response)
  }

  /** The log records each post the sender makes with the response it got, and nothing else. */
  lemma {:induction false} PostsLogged(st: State, labels: seq<Label>)
    requires AttemptsOk(st.config.capacity, st.log, st.sender)
    ensures AllResponses(Run(st, labels).log.attempts) == AllResponses(st.log.attempts) + PostsTaken(st, labels)
  {
    hide AttemptsOk, Step;
    if labels != [] {
      var init, l := labels[..|labels| - 1], labels[|labels| - 1];
      PostsLogged(st, init);
      AtMostTwice(st, init);
      StepLogged(Run(st, init), l);
    }
  }

  lemma StepLogged(st: State, l: Label)
    requires AttemptsOk(st.config.capacity, st.log, st.sender)
    ensures AllResponses(Step(st, l).log.attempts) ==
            AllResponses(st.log.attempts) + if l.Send? && l.s.Post? && st.sender.SPost? then [l.s.response] else []
  {
    hide Responses, Matching, Sent, SenderNext, PollerNext, StreamerNext, Loaded;
  }

  lemma SentNothing(capacity: nat)
    ensures Sent(capacity, []) == []
  {
  }

  lemma SentIs(capacity: nat, ops: seq<EventRuns.Op>)
    ensures Sent(capacity, ops) == EventRuns.Run(capacity, ops).sent
  {
  }

  // ---------------------------------------------------------------- initialization

  /** A client that says it is initialized has a completed put, as has whoever is about to say so. */
  predicate StoredFirst(st: State) {
    st.client.status == Initialized || st.poller == PStatus(true) || st.streamer == RStatus(true) || true in st.restored
    ==> st.client.stored
  }

  lemma StepStored(st: State, l: Label)
    requires StoredFirst(st)
    ensures StoredFirst(Step(st, l))
  {
    hide StoredFirst, SenderStep, PollStep, StreamStep, CallStep, RecordStep;
    match l
    case Send(s) => SenderStored(st, s);
    case Poll(p) => PollStored(st, p);
    case Stream(r) => StreamStored(st, r);
    case Call(c) => CallStored(st, c);
    case Record(op) => RecordStored(st, op);
  }

  lemma SenderStored(st: State, l: SenderLabel)
    requires StoredFirst(st)
    ensures StoredFirst(SenderStep(st, l))
  {
    hide SenderNext, SenderLog, Bundled;
  }

  lemma PollStored(st: State, l: PollLabel)
    requires StoredFirst(st)
    ensures StoredFirst(PollStep(st, l))
  {
    hide PollerNext, PollerClient;
    PollerStored(st.poller, st.client, st.config, l);
  }

  lemma StreamStored(st: State, l: StreamLabel)
    requires StoredFirst(st)
    ensures StoredFirst(StreamStep(st, l))
  {
    hide StreamerNext, StreamerClient;
    StreamerStored(st.streamer, st.client, st.config, l);
  }

  lemma CallStored(st: State, l: CallLabel)
    requires StoredFirst(st)
    ensures StoredFirst(CallStep(st, l))
  {
  }

  lemma RecordStored(st: State, op: EventRuns.Op)
    requires StoredFirst(st)
    ensures StoredFirst(RecordStep(st, op))
  {
  }

  lemma PollerStored(p: Poller, c: Client, config: Config, l: PollLabel)
    requires c.status == Initialized || p == PStatus(true) ==> c.stored
    ensures var p', c' := PollerNext(p, c, config, l), PollerClient(c, p, l);
      (c.stored ==> c'.stored) && (c'.status == Initialized || p' == PStatus(true) ==> c'.stored)
  {
  }

  lemma StreamerStored(r: Streamer, c: Client, config: Config, l: StreamLabel)
    requires c.status == Initialized || r == RStatus(true) ==> c.stored
    ensures var r', c' := StreamerNext(r, c, config, l), StreamerClient(c, r, l);
      (c.stored ==> c'.stored) && (c'.status == Initialized || r' == RStatus(true) ==> c'.stored)
  {
  }

  /** In every interleaving, status Initialized implies a completed put. */
  lemma {:induction false} InitializedIsStored(st: State, labels: seq<Label>)
    requires Initial(st)
    ensures StoredFirst(Run(st, labels))
  {
    hide Step;
    if labels != [] {
      InitializedIsStored(st, labels[..|labels| - 1]);
      StepStored(Run(st, labels[..|labels| - 1]), labels[|labels| - 1]);
    }
  }

  // ---------------------------------------------------------------- the sender's end

  function Flushes(ops: seq<EventRuns.Op>): nat {
    if ops == [] then 0 else Flushes(ops[..|ops| - 1]) + if ops[|ops| - 1].Flush? then 1 else 0
  }

  lemma FlushesSnoc(ops: seq<EventRuns.Op>, op: EventRuns.Op)
    ensures Flushes(ops + [op]) == Flushes(ops) + if op.Flush? then 1 else 0
  {
    assert (ops + [op])[..|ops|] == ops;
  }

  /** The sender's next step. */
  predicate Moves(s: Sender, l: SenderLabel) {
    match s
    case STop(_) => l.Top?
    case SWait(_) => l.Read?
    case SBundle(_) => l.Bundle?
    case SPost(_, _) => l.Post?
    case SReport(_) => l.Report?
    case SCallback(_) => l.Return?
    case SDone => false
  }

  /** The steps the sender takes in a run. */
  function SenderSteps(st: State, labels: seq<Label>): nat {
    if labels == [] then 0 else
      var init, l := labels[..|labels| - 1], labels[|labels| - 1];
      SenderSteps(st, init) + if l.Send? && Moves(Run(st, init).sender, l.s) then 1 else 0
  }

  /** The steps to the sender's next check of its loop. */
  function StepsToTop(s: Sender): nat {
    match s
    case STop(_) => 0
    case SCallback(_) => 1
    case SReport(_) => 2
    case SPost(_, sendFailed) => if sendFailed then 3 else 4
    case SBundle(_) => 5
    case SWait(_) => 6
    case SDone => 0
  }

  predicate Last(s: Sender) {
    s.SDone? || s.last
  }

  /** What a sender can still do while the client is and stays shutting down, or once it has recorded that. */
  function StepsLeft(s: Sender): nat {
    if s.SDone? then 0
    else if Last(s) || s.SWait? then 1 + StepsToTop(s)
    else 8 + StepsToTop(s)
  }

  function BundlesLeft(s: Sender): nat {
    if Last(s) then (if s.SBundle? || s.SWait? then 1 else 0) else if s.SBundle? then 2 else 1
  }

  lemma SenderProgress(s: Sender, log: Log, c: Client, l: SenderLabel, payload: Option<Cargo>)
    requires Last(s) || c.status == ShuttingDown
    ensures var s', log' := SenderNext(s, c, l, payload), SenderLog(log, s, l, payload);
      && (Last(s) ==> Last(s'))
      && Flushes(log'.ops) + BundlesLeft(s') <= Flushes(log.ops) + BundlesLeft(s)
      && StepsLeft(s') + (if Moves(s, l) then 1 else 0) <= StepsLeft(s)
  {
    hide Flushes;
    if l.Bundle? { FlushesSnoc(log.ops, EventRuns.Flush(l.now)); }
  }

  lemma StepProgress(st: State, l: Label)
    requires Last(st.sender) || st.client.status == ShuttingDown
    ensures var st' := Step(st, l);
      && (Last(st.sender) ==> Last(st'.sender))
      && Flushes(st'.log.ops) + BundlesLeft(st'.sender) <= Flushes(st.log.ops) + BundlesLeft(st.sender)
      && StepsLeft(st'.sender) + (if l.Send? && Moves(st.sender, l.s) then 1 else 0) <= StepsLeft(st.sender)
  {
    hide Flushes, SenderNext, SenderLog, StepsLeft, BundlesLeft, Moves, Last, Bundled, PollerNext, StreamerNext;
    if l.Send? {
      SenderProgress(st.sender, st.log, st.client, l.s, Bundled(st, l.s));
    } else if l.Record? {
      FlushesSnoc(st.log.ops, l.op);
    }
  }

  /** Once the sender has recorded the shutdown it bundles at most once more and ends within seven of its
      own steps, whatever the other threads and the application do to the status in the meantime. */
  lemma {:induction false} SenderEnds(st: State, labels: seq<Label>)
    requires Last(st.sender)
    ensures var st' := Run(st, labels);
      && Last(st'.sender)
      && Flushes(st'.log.ops) + BundlesLeft(st'.sender) <= Flushes(st.log.ops) + BundlesLeft(st.sender)
      && BundlesLeft(st.sender) <= 1
      && SenderSteps(st, labels) + StepsLeft(st'.sender) <= StepsLeft(st.sender) <= 7
      && (StepsLeft(st'.sender) == 0 <==> st'.sender.SDone?)
  {
    hide Flushes, Step;
    if labels != [] {
      SenderEnds(st, labels[..|labels| - 1]);
      StepProgress(Run(st, labels[..|labels| - 1]), labels[|labels| - 1]);
    }
  }

  lemma RunSnoc(st: State, labels: seq<Label>, l: Label)
    ensures Run(st, labels + [l]) == Step(Run(st, labels), l)
  {
    assert (labels + [l])[..|labels|] == labels;
  }

  lemma {:induction false} RunAppend(st: State, labels: seq<Label>, more: seq<Label>)
    ensures Run(st, labels + more) == Run(Run(st, labels), more)
    decreases |more|
  {
    hide Step;
    if more == [] {
      assert labels + more == labels;
    } else {
      var init := more[..|more| - 1];
      assert (labels + more)[..|labels + more| - 1] == labels + init;
      RunAppend(st, labels, init);
    }
  }

  /** The application closes the client while the poller's put is being reported. */
  const CLOSED_DURING_PUT: seq<Label> :=
    [Poll(PollTop)] + [Poll(PollWake)] + [Poll(PollFetch(200, true))] + [Poll(PollPut(true))] + [Call(Close)]

  /** The sender reads the status at the top of its loop, and again after the report. */
  const READ_TWICE: seq<Label> := [Send(Top)] + [Poll(PollStatus)] + [Send(Read)] + [Send(Bundle(None, 0.0, true))]

  /** Having read the status ShuttingDown at the top of its loop is not enough: a put that is reported before
      the sender reads the status again overwrites it, and the sender does not notice the shutdown. */
  lemma ShutdownMissed(st: State)
    requires Initial(st) && !st.client.offline && !st.client.background && !st.config.streaming
    ensures Run(st, CLOSED_DURING_PUT).client.status == ShuttingDown && Run(st, CLOSED_DURING_PUT).sender == STop(false)
    ensures Run(st, CLOSED_DURING_PUT + READ_TWICE).client.status == Initialized
    ensures Run(st, CLOSED_DURING_PUT + READ_TWICE).sender == STop(false)
  {
    hide Run;
    RunAppend(st, CLOSED_DURING_PUT, READ_TWICE);
    PutInFlight(st);
    ReportUnderSender(Run(st, CLOSED_DURING_PUT));
  }

  lemma PutInFlight(st: State)
    requires Initial(st) && !st.client.offline && !st.client.background && !st.config.streaming
    ensures var st' := Run(st, CLOSED_DURING_PUT);
      st'.client.status == ShuttingDown && st'.sender == STop(false) && st'.poller == PStatus(true) && !st'.client.offline
  {
    hide Run;
    RunNothing(st);
    var p1, p2, p3, p4 := Poll(PollTop), Poll(PollWake), Poll(PollFetch(200, true)), Poll(PollPut(true));
    RunSnoc(st, [], p1);
    assert [] + [p1] == [p1];
    RunSnoc(st, [p1], p2);
    RunSnoc(st, [p1] + [p2], p3);
    RunSnoc(st, [p1] + [p2] + [p3], p4);
    RunSnoc(st, [p1] + [p2] + [p3] + [p4], Call(Close));
  }

  lemma ReportUnderSender(st: State)
    requires st.sender == STop(false) && st.client.status == ShuttingDown && st.poller == PStatus(true)
    ensures Run(st, READ_TWICE).client.status == Initialized && Run(st, READ_TWICE).sender == STop(false)
  {
    hide Run, Bundled;
    RunNothing(st);
    RunSnoc(st, [], Send(Top));
    assert [] + [Send(Top)] == [Send(Top)];
    RunSnoc(st, [Send(Top)], Poll(PollStatus));
    RunSnoc(st, [Send(Top)] + [Poll(PollStatus)], Send(Read));
    RunSnoc(st, [Send(Top)] + [Poll(PollStatus)] + [Send(Read)], Send(Bundle(None, 0.0, true)));
  }

  lemma RunNothing(st: State)
    ensures Run(st, []) == st
  {
  }

  // ---------------------------------------------------------------- a payload that cannot be serialized

  /** One event is queued, and the sender bundles it. */
  function BundleOne(e: Json, id: nat, now: real, prints: bool): seq<Label> {
    [Record(EventRuns.Queue(e))] + [Send(Top)] + [Send(Read)] + [Send(Bundle(Some(id), now, prints))]
  }

  /** An event whose payload is too long to print is lost: it is out of the queue, its payload is bundled, and
      the sender is back at the top without having posted anything. */
  lemma EventLost(st: State, t: string, id: nat, now: real, prints: bool)
    requires Initial(st) && !st.client.offline && st.config.capacity > 0 && NulFree(t) && |t| >= JsonPrinter.INT_MAX
    ensures var st' := Run(st, BundleOne(Str(t), id, now, prints));
      && st'.sender == STop(false) && st'.log.attempts == []
      && st'.log.parcels == [Parcel(id, Cargo([Str(t)], false))]
      && EventRuns.Run(st'.config.capacity, st'.log.ops).p.events == []
  {
    hide Run, Loaded, EventRuns.Run, Serializes;
    var e := Str(t);
    var l1, l2, l3, l4 := Record(EventRuns.Queue(e)), Send(Top), Send(Read), Send(Bundle(Some(id), now, prints));
    RunNothing(st);
    RunSnoc(st, [], l1);
    assert [] + [l1] == [l1];
    RunSnoc(st, [l1], l2);
    RunSnoc(st, [l1] + [l2], l3);
    RunSnoc(st, [l1] + [l2] + [l3], l4);
    assert [] + [EventRuns.Queue(e)] == [EventRuns.Queue(e)];
    OneBundled(st.config.capacity, e, now, prints);
    TooLong(t, prints);
  }

  lemma OneBundled(capacity: nat, e: Json, now: real, prints: bool)
    requires capacity > 0
    ensures Loaded(capacity, [EventRuns.Queue(e)], now, prints) == Some(Cargo([e], Serializes([e], prints)))
    ensures EventRuns.Run(capacity, [EventRuns.Queue(e)] + [EventRuns.Flush(now)]).p.events == []
  {
    hide Serializes;
    var q, f := EventRuns.Queue(e), EventRuns.Flush(now);
    assert [q][..|[q]| - 1] == [] && ([q] + [f])[..|[q] + [f]| - 1] == [q];
    var st0, st1 := EventRuns.Run(capacity, []), EventRuns.Run(capacity, [q]);
    assert st0.p.events == [] && st0.sent == [] && st0.p.start == 0.0;
    assert st1 == EventRuns.Step(st0, capacity, q);
    assert st1.p.events == [e] && st1.sent == [] && st1.p.start == 0.0;
    var st2 := EventRuns.Run(capacity, [q] + [f]);
    assert st2.sent == [EventRuns.Payload([e], false)];
  }

  lemma TooLong(t: string, prints: bool)
    requires NulFree(t) && |t| >= JsonPrinter.INT_MAX
    ensures !Serializes([Str(t)], prints)
  {
    var j := Array([Str(t)]);
    assert Printable(Str(t)) && Printable(j);
    JsonPrinter.EscapeLength(t);
    JsonPrinter.ArrayText([Str(t)], false, 0, "");
    JsonRoundTrip.ItemsTextStep([Str(t)], false, 1);
    JsonRoundTrip.NoItemsText(false, 1);
  }

  // ---------------------------------------------------------------- offline

  /** What each thread can still start once the client is offline: only what it had already decided. */
  function PayloadsLeft(s: Sender): nat { if s.SBundle? then 1 else 0 }

  function FetchesLeft(p: Poller): nat { if p == PWait(false) || p.PFetch? then 1 else 0 }

  function StreamsLeft(r: Streamer): nat { if r.RConnect? then 1 else 0 }

  /** Nothing more is started than was decided. */
  ghost predicate StillOffline(st: State, st': State) {
    && st'.client.offline
    && Flushes(st'.log.ops) + PayloadsLeft(st'.sender) <= Flushes(st.log.ops) + PayloadsLeft(st.sender)
    && st'.fetches + FetchesLeft(st'.poller) <= st.fetches + FetchesLeft(st.poller)
    && st'.streams + StreamsLeft(st'.streamer) <= st.streams + StreamsLeft(st.streamer)
  }

  lemma OfflineStep(st: State, l: Label)
    requires st.client.offline && l != Call(SetOnline)
    ensures StillOffline(st, Step(st, l))
  {
    hide StillOffline, SenderStep, PollStep, StreamStep, CallStep, RecordStep;
    match l
    case Send(s) => OfflineSend(st, s);
    case Poll(p) => OfflinePoll(st, p);
    case Stream(r) => OfflineStream(st, r);
    case Call(c) => OfflineCall(st, c);
    case Record(op) => OfflineRecord(st, op);
  }

  lemma OfflineSend(st: State, l: SenderLabel)
    requires st.client.offline
    ensures StillOffline(st, SenderStep(st, l))
  {
    hide Flushes, Bundled, SenderNext, SenderLog;
    OfflineSender(st.sender, st.log, st.client, l, Bundled(st, l));
  }

  lemma OfflinePoll(st: State, l: PollLabel)
    requires st.client.offline
    ensures StillOffline(st, PollStep(st, l))
  {
    hide PollerNext, PollerClient, Flushes, FetchesLeft;
    OfflinePoller(st.poller, st.client, st.config, l);
  }

  lemma OfflineStream(st: State, l: StreamLabel)
    requires st.client.offline
    ensures StillOffline(st, StreamStep(st, l))
  {
    hide StreamerNext, StreamerClient, Flushes, StreamsLeft;
    OfflineStreamer(st.streamer, st.client, st.config, l);
  }

  lemma OfflineCall(st: State, l: CallLabel)
    requires st.client.offline && l != SetOnline
    ensures StillOffline(st, CallStep(st, l))
  {
    hide Flushes;
  }

  lemma OfflineRecord(st: State, op: EventRuns.Op)
    requires st.client.offline
    ensures StillOffline(st, RecordStep(st, op))
  {
    hide Flushes;
    FlushesSnoc(st.log.ops, op);
  }

  lemma OfflineSender(s: Sender, log: Log, c: Client, l: SenderLabel, payload: Option<Cargo>)
    requires c.offline
    ensures var s', log' := SenderNext(s, c, l, payload), SenderLog(log, s, l, payload);
      Flushes(log'.ops) + PayloadsLeft(s') <= Flushes(log.ops) + PayloadsLeft(s)
  {
    hide Flushes;
    if l.Bundle? { FlushesSnoc(log.ops, EventRuns.Flush(l.now)); }
  }

  lemma OfflinePoller(p: Poller, c: Client, config: Config, l: PollLabel)
    requires c.offline
    ensures PollerClient(c, p, l).offline
    ensures (if l.PollFetch? && p.PFetch? then 1 else 0) + FetchesLeft(PollerNext(p, c, config, l)) <= FetchesLeft(p)
  {
  }

  lemma OfflineStreamer(r: Streamer, c: Client, config: Config, l: StreamLabel)
    requires c.offline
    ensures StreamerClient(c, r, l).offline
    ensures (if l.StreamStart? && r.RConnect? then 1 else 0) + StreamsLeft(StreamerNext(r, c, config, l)) <= StreamsLeft(r)
  {
  }

  /** While the client stays offline its sender, poller and streamer each start at most one more payload,
      fetch and stream: the one each had decided on before. */
  lemma {:induction false} OfflineStartsAtMostOne(st: State, labels: seq<Label>)
    requires st.client.offline && forall i :: 0 <= i < |labels| ==> labels[i] != Call(SetOnline)
    ensures StillOffline(st, Run(st, labels))
    ensures PayloadsLeft(st.sender) <= 1 && FetchesLeft(st.poller) <= 1 && StreamsLeft(st.streamer) <= 1
  {
    hide Step, Flushes;
    if labels != [] {
      OfflineStartsAtMostOne(st, labels[..|labels| - 1]);
      OfflineStep(Run(st, labels[..|labels| - 1]), labels[|labels| - 1]);
    }
  }
}
