/** The asynchronous access-audit recorder (internal/gateway/access_audit.go) as atomic steps: producers that hold
    the read lock while they check and enqueue, one worker with a batch and a timer, and a closer that takes the
    write lock. Batch puts are all-or-nothing; any put may fail. */
module AuditRecorder {

  /** An event is known by the number of the call that brings it; the recorder never looks inside. */
  type Event = nat

  type ProducerId = nat

  datatype Config = Config(capacity: nat, batchSize: nat, interval: bool)

  /** RecordAccessAudit: holding the read lock with the flag it saw, past it with a direct put to make, or back. */
  datatype Producer =
    | Holding(event: Event, sawClosing: bool)
    | Direct(event: Event)
    | Returned

  /** What a call came to: the event went into the queue, a direct put stored it or failed, or the caller's context was
      done. */
  datatype Answer = Enqueued | Stored | PutFailed | GaveUp

  /** Where flush goes on: back into the select loop, back into the final drain, or out of run. */
  datatype Then = Select | Drain | Exit

  datatype Worker =
    | Selecting
    | Draining
    | PuttingBatch(then_: Then)
    | PuttingSingly(rest: seq<Event>, then_: Then)
    | Exited

  /** `queued` tells the events that went through the queue from those put directly. */
  datatype Entry = Entry(event: Event, queued: bool)

  /** A queued event whose fate is decided. */
  datatype Settled = Settled(event: Event, persisted: bool)

  datatype State = State(
    queue: seq<Event>,
    closing: bool,               // set together with closing the done channel, under the write lock
    producers: map<ProducerId, Producer>,
    worker: Worker,
    batch: seq<Event>,
    armed: bool,
    log: seq<Entry>,             // the repository's audit log
    accepted: seq<Event>,        // history: events that entered the queue, in order
    settled: seq<Settled>,       // history: what became of them, in order
    calls: nat,                  // history: how many calls have been made
    cancelled: set<Event>,       // calls whose context is done
    answers: map<Event, Answer>) // history: the calls that have returned

  const START := State([], false, map[], Selecting, [], false, [], [], [], 0, {}, map[])

  datatype Action =
    | Enter(id: ProducerId)
    | Cancel(event: Event)
    | Offer(id: ProducerId, preferCancel: bool)
    | PutDirect(id: ProducerId, works: bool)
    | Close
    | Receive
    | TimerFires
    | SeeDone
    | FindEmpty
    | PutBatch(works: bool)
    | PutOne(works: bool)

  predicate ValidConfig(c: Config) { c.capacity > 0 && c.batchSize > 0 }

  // ---- The steps --------------------------------------------------------------------------------

  function Set(s: State, id: ProducerId, p: Producer): (s': State) {
    s.(producers := s.producers[id := p])
  }

  /** The select of RecordAccessAudit: a ready case is taken, the default only when none is. */
  function OfferStep(c: Config, s: State, id: ProducerId, preferCancel: bool): (s': State) {
    if id !in s.producers || !s.producers[id].Holding? then s else
      var event := s.producers[id].event;
      if s.producers[id].sawClosing then Set(s, id, Direct(event))
      else if |s.queue| < c.capacity && !(event in s.cancelled && preferCancel) then
        Set(s, id, Returned).(queue := s.queue + [event], accepted := s.accepted + [event],
                              answers := s.answers[event := Enqueued])
      else if event in s.cancelled then Set(s, id, Returned).(answers := s.answers[event := GaveUp])
      else Set(s, id, Direct(event))
  }

  function DirectStep(s: State, id: ProducerId, works: bool): (s': State) {
    if id !in s.producers || !s.producers[id].Direct? then s else
      var event := s.producers[id].event;
      Set(s, id, Returned).(log := if works then s.log + [Entry(event, false)] else s.log,
                            answers := s.answers[event := if works then Stored else PutFailed])
  }

  /** flush: stops the timer and puts the batch, or returns at once when the batch is empty. */
  function Flush(s: State, then_: Then): (s': State) {
    if s.batch == [] then Resume(s, then_) else s.(armed := false, worker := PuttingBatch(then_))
  }

  function Resume(s: State, then_: Then): (s': State) {
    s.(worker := Back(then_))
  }

  function Back(then_: Then): (w: Worker) {
    match then_ case Select => Selecting case Drain => Draining case Exit => Exited
  }

  /** Taking one event off the queue; the same code in the select loop and in the final drain. */
  function ReceiveStep(c: Config, s: State): (s': State) {
    if s.queue == [] || !(s.worker.Selecting? || s.worker.Draining?) then s
    else
      var then_ := if s.worker.Selecting? then Select else Drain;
      var taken := s.(queue := s.queue[1..], batch := s.batch + [s.queue[0]],
                      armed := if s.batch == [] then c.interval else s.armed);
      if |taken.batch| >= c.batchSize then Flush(taken, then_) else taken
  }

  function Persisted(events: seq<Event>): (r: seq<Settled>) {
    seq(|events|, i requires 0 <= i < |events| => Settled(events[i], true))
  }

  function Queued(events: seq<Event>): (r: seq<Entry>) {
    seq(|events|, i requires 0 <= i < |events| => Entry(events[i], true))
  }

  function PutBatchStep(s: State, works: bool): (s': State) {
    if !s.worker.PuttingBatch? then s
    else if works then
      Resume(s, s.worker.then_).(batch := [], log := s.log + Queued(s.batch), settled := s.settled + Persisted(s.batch))
    else s.(worker := PuttingSingly(s.batch, s.worker.then_))
  }

  /** The fallback: one put for each event of the batch, errors ignored. */
  function PutOneStep(s: State, works: bool): (s': State) {
    if !s.worker.PuttingSingly? || s.worker.rest == [] then s
    else
      var e, rest := s.worker.rest[0], s.worker.rest[1..];
      var put := s.(log := if works then s.log + [Entry(e, true)] else s.log,
                    settled := s.settled + [Settled(e, works)]);
      if rest == [] then Resume(put, s.worker.then_).(batch := [])
      else put.(worker := PuttingSingly(rest, s.worker.then_))
  }

  function Next(c: Config, s: State, a: Action): (s': State) {
    match a
    case Enter(id) =>
      if id in s.producers && !s.producers[id].Returned? then s
      else Set(s, id, Holding(s.calls, s.closing)).(calls := s.calls + 1)
    case Cancel(event) => if event < s.calls then s.(cancelled := s.cancelled + {event}) else s
    case Offer(id, preferCancel) => OfferStep(c, s, id, preferCancel)
    case PutDirect(id, works) => DirectStep(s, id, works)
    // the write lock waits for every reader
    case Close =>
      if exists id :: id in s.producers && s.producers[id].Holding? then s else s.(closing := true)
    case Receive => ReceiveStep(c, s)
    case TimerFires => if s.worker.Selecting? && s.armed then Flush(s.(armed := false), Select) else s
    case SeeDone => if s.worker.Selecting? && s.closing then s.(worker := Draining) else s
    case FindEmpty => if s.worker.Draining? && s.queue == [] then Flush(s, Exit) else s
    case PutBatch(works) => PutBatchStep(s, works)
    case PutOne(works) => PutOneStep(s, works)
  }

  function Run(c: Config, s: State, actions: seq<Action>): (s': State)
    decreases |actions|
  {
    if actions == [] then s else Run(c, Next(c, s, actions[0]), actions[1..])
  }

  // ---- The invariant --------------------------------------------------------------------------------

  function Events(settled: seq<Settled>): (r: seq<Event>) {
    if settled == [] then [] else Events(settled[..|settled| - 1]) + [settled[|settled| - 1].event]
  }

  function Kept(settled: seq<Settled>): (r: seq<Event>) {
    if settled == [] then [] else
      var last := settled[|settled| - 1];
      Kept(settled[..|settled| - 1]) + if last.persisted then [last.event] else []
  }

  /** The log's entries that came through the queue. */
  function FromQueue(log: seq<Entry>): (r: seq<Event>) {
    if log == [] then [] else
      var last := log[|log| - 1];
      FromQueue(log[..|log| - 1]) + if last.queued then [last.event] else []
  }

  /** Taken off the queue, not settled yet. */
  function Pending(s: State): (r: seq<Event>) {
    if s.worker.PuttingSingly? then s.worker.rest else s.batch
  }

  predicate HistoryInv(s: State) {
    && Events(s.settled) + Pending(s) + s.queue == s.accepted
    && FromQueue(s.log) == Kept(s.settled)
  }

  predicate WorkerInv(c: Config, s: State) {
    && |s.queue| <= c.capacity
    && match s.worker
       case Selecting => |s.batch| < c.batchSize && (s.armed <==> c.interval && s.batch != [])
       case Draining => s.closing && |s.batch| < c.batchSize && (s.armed <==> c.interval && s.batch != [])
       case PuttingBatch(t) =>
         && 0 < |s.batch| <= c.batchSize && !s.armed
         && (t != Select ==> s.closing) && (t == Exit ==> s.queue == [])
       case PuttingSingly(rest, t) =>
         && 0 < |rest| <= |s.batch| <= c.batchSize && !s.armed
         && (t != Select ==> s.closing) && (t == Exit ==> s.queue == [])
       case Exited => s.closing && s.queue == [] && s.batch == [] && !s.armed
  }

  /** Once closing, nobody is between the check and the send. */
  predicate LockInv(s: State) {
    s.closing ==> forall id :: id in s.producers && s.producers[id].Holding? ==> s.producers[id].sawClosing
  }

  /** The log's entries that were put directly. */
  function FromCalls(log: seq<Entry>): (r: seq<Event>) {
    if log == [] then [] else
      var last := log[|log| - 1];
      FromCalls(log[..|log| - 1]) + if last.queued then [] else [last.event]
  }

  /** A call that has not returned. */
  predicate InHand(producers: map<ProducerId, Producer>, id: ProducerId) {
    id in producers && !producers[id].Returned?
  }

  ghost predicate Held(producers: map<ProducerId, Producer>, e: Event) {
    exists id :: InHand(producers, id) && producers[id].event == e
  }

  /** The calls in hand have not been answered, and are different calls. */
  ghost predicate HandInv(producers: map<ProducerId, Producer>, calls: nat, answers: map<Event, Answer>) {
    && (forall id :: InHand(producers, id) ==> producers[id].event < calls && producers[id].event !in answers)
    && (forall i, j :: InHand(producers, i) && InHand(producers, j) && i != j ==>
          producers[i].event != producers[j].event)
  }

  /** Every call made is answered or in hand. */
  ghost predicate Covered(producers: map<ProducerId, Producer>, calls: nat, answers: map<Event, Answer>) {
    forall e: Event :: e < calls && e !in answers ==> Held(producers, e)
  }

  predicate Answered(answers: map<Event, Answer>, e: Event, a: Answer) {
    e in answers && answers[e] == a
  }

  /** Only calls that were made are answered, and only those whose context is done give up. */
  ghost predicate AnswerInv(calls: nat, answers: map<Event, Answer>, cancelled: set<Event>) {
    && (forall e :: e in answers || e in cancelled ==> e < calls)
    && (forall e :: Answered(answers, e, GaveUp) ==> e in cancelled)
  }

  /** What the answers say has happened, once: the queue took these events, and the log holds those as direct puts. */
  ghost predicate LogInv(accepted: seq<Event>, direct: seq<Event>, answers: map<Event, Answer>) {
    Lists(accepted, answers, Enqueued) && Lists(direct, answers, Stored)
  }

  /** The events with this answer, each once. */
  ghost predicate Lists(events: seq<Event>, answers: map<Event, Answer>, a: Answer) {
    forall e: Event :: multiset(events)[e] == if Answered(answers, e, a) then 1 else 0
  }

  ghost predicate CallInv(s: State) {
    && HandInv(s.producers, s.calls, s.answers) && Covered(s.producers, s.calls, s.answers)
    && AnswerInv(s.calls, s.answers, s.cancelled) && LogInv(s.accepted, FromCalls(s.log), s.answers)
  }

  ghost predicate Inv(c: Config, s: State) {
    ValidConfig(c) && HistoryInv(s) && WorkerInv(c, s) && LockInv(s) && CallInv(s)
  }

  lemma SettleOne(settled: seq<Settled>, e: Event, works: bool)
    ensures Events(settled + [Settled(e, works)]) == Events(settled) + [e]
    ensures Kept(settled + [Settled(e, works)]) == Kept(settled) + if works then [e] else []
  {
    assert (settled + [Settled(e, works)])[..|settled|] == settled;
  }

  lemma LogOne(log: seq<Entry>, entry: Entry)
    ensures FromQueue(log + [entry]) == FromQueue(log) + (if entry.queued then [entry.event] else [])
    ensures FromCalls(log + [entry]) == FromCalls(log) + if entry.queued then [] else [entry.event]
  {
    assert (log + [entry])[..|log|] == log;
  }

  lemma {:induction false} SettleAll(settled: seq<Settled>, events: seq<Event>)
    ensures Events(settled + Persisted(events)) == Events(settled) + events
    ensures Kept(settled + Persisted(events)) == Kept(settled) + events
    decreases |events|
  {
    if events == [] {
      assert settled + Persisted(events) == settled;
    } else {
      var n := |events| - 1;
      SettleAll(settled, events[..n]);
      SettleOne(settled + Persisted(events[..n]), events[n], true);
      hide Events, Kept;
      assert Persisted(events) == Persisted(events[..n]) + [Settled(events[n], true)];
      hide Persisted;
      assert settled + Persisted(events) == (settled + Persisted(events[..n])) + [Settled(events[n], true)];
      assert events == events[..n] + [events[n]];
    }
  }

  lemma {:induction false} LogAll(log: seq<Entry>, events: seq<Event>)
    ensures FromQueue(log + Queued(events)) == FromQueue(log) + events
    ensures FromCalls(log + Queued(events)) == FromCalls(log)
    decreases |events|
  {
    if events == [] {
      assert log + Queued(events) == log;
    } else {
      var n := |events| - 1;
      LogAll(log, events[..n]);
      LogOne(log + Queued(events[..n]), Entry(events[n], true));
      hide FromQueue, FromCalls;
      assert log + Queued(events) == (log + Queued(events[..n])) + [Entry(events[n], true)];
      assert events == events[..n] + [events[n]];
    }
  }

  lemma ReceiveKeepsInv(c: Config, s: State)
    requires Inv(c, s)
    ensures Inv(c, ReceiveStep(c, s))
  {
    hide HandInv, Covered, AnswerInv, LogInv, Events, Kept, FromQueue, FromCalls;
    if s.queue != [] && (s.worker.Selecting? || s.worker.Draining?) {
      assert s.queue == [s.queue[0]] + s.queue[1..];
      assert Events(s.settled) + (s.batch + [s.queue[0]]) + s.queue[1..] == Events(s.settled) + s.batch + s.queue;
    }
  }

  lemma PutBatchKeepsInv(c: Config, s: State, works: bool)
    requires Inv(c, s)
    ensures Inv(c, PutBatchStep(s, works))
  {
    hide HandInv, Covered, AnswerInv, LogInv, Events, Kept, FromQueue, FromCalls;
    if s.worker.PuttingBatch? && works {
      SettleAll(s.settled, s.batch);
      LogAll(s.log, s.batch);
      assert Events(s.settled) + s.batch + [] + s.queue == Events(s.settled) + s.batch + s.queue;
    }
  }

  lemma PutOneKeepsInv(c: Config, s: State, works: bool)
    requires Inv(c, s)
    ensures Inv(c, PutOneStep(s, works))
  {
    hide HandInv, Covered, AnswerInv, LogInv, Events, Kept, FromQueue, FromCalls;
    if s.worker.PuttingSingly? {
      var e, rest := s.worker.rest[0], s.worker.rest[1..];
      SettleOne(s.settled, e, works);
      LogOne(s.log, Entry(e, true));
      Shift(Events(s.settled), e, rest, s.queue);
      assert s.worker.rest == [e] + rest;
      assert FromQueue(s.log) + [] == FromQueue(s.log) && FromCalls(s.log) + [] == FromCalls(s.log);
    }
  }

  lemma Shift(done: seq<Event>, e: Event, rest: seq<Event>, queue: seq<Event>)
    ensures done + ([e] + rest) + queue == (done + [e]) + rest + queue
  {
  }

  /** A call that goes on from the select to its direct put. */
  lemma CallGoesOn(producers: map<ProducerId, Producer>, calls: nat, answers: map<Event, Answer>, id: ProducerId)
    requires HandInv(producers, calls, answers) && Covered(producers, calls, answers) && InHand(producers, id)
    ensures var later := producers[id := Direct(producers[id].event)];
            HandInv(later, calls, answers) && Covered(later, calls, answers)
  {
    var later := producers[id := Direct(producers[id].event)];
    assert forall k :: InHand(later, k) <==> InHand(producers, k);
    forall e: Event | e < calls && e !in answers
      ensures Held(later, e)
    {
      var k :| InHand(producers, k) && producers[k].event == e;
      assert InHand(later, k);
    }
  }

  /** A call that returns. */
  lemma CallReturns(producers: map<ProducerId, Producer>, calls: nat, answers: map<Event, Answer>,
                    cancelled: set<Event>, id: ProducerId, a: Answer)
    requires HandInv(producers, calls, answers) && Covered(producers, calls, answers) && InHand(producers, id)
    requires AnswerInv(calls, answers, cancelled) && (a == GaveUp ==> producers[id].event in cancelled)
    ensures var later, more := producers[id := Returned], answers[producers[id].event := a];
            HandInv(later, calls, more) && Covered(later, calls, more) && AnswerInv(calls, more, cancelled)
  {
    var later, more := producers[id := Returned], answers[producers[id].event := a];
    assert forall k :: InHand(later, k) ==> k != id && InHand(producers, k);
    forall e: Event | e < calls && e !in more
      ensures Held(later, e)
    {
      var k :| InHand(producers, k) && producers[k].event == e;
      assert InHand(later, k);
    }
    assert forall e :: Answered(more, e, GaveUp) ==>
             if e == producers[id].event then a == GaveUp else Answered(answers, e, GaveUp);
  }

  /** A new call. */
  lemma CallEnters(producers: map<ProducerId, Producer>, calls: nat, answers: map<Event, Answer>,
                   cancelled: set<Event>, id: ProducerId, closing: bool)
    requires HandInv(producers, calls, answers) && Covered(producers, calls, answers) && !InHand(producers, id)
    requires AnswerInv(calls, answers, cancelled)
    ensures var later := producers[id := Holding(calls, closing)];
            && HandInv(later, calls + 1, answers) && Covered(later, calls + 1, answers)
            && AnswerInv(calls + 1, answers, cancelled)
  {
    var later := producers[id := Holding(calls, closing)];
    assert forall k :: InHand(later, k) ==> k == id || InHand(producers, k);
    forall e: Event | e < calls + 1 && e !in answers
      ensures Held(later, e)
    {
      if e == calls {
        assert InHand(later, id);
      } else {
        assert Held(producers, e);
        var k :| InHand(producers, k) && producers[k].event == e;
        assert InHand(later, k);
      }
    }
  }

  /** The event of a new answer was neither accepted nor stored before. */
  lemma AnswerLogged(accepted: seq<Event>, direct: seq<Event>, answers: map<Event, Answer>, e: Event, a: Answer)
    requires LogInv(accepted, direct, answers) && e !in answers
    ensures LogInv(if a == Enqueued then accepted + [e] else accepted, if a == Stored then direct + [e] else direct,
                   answers[e := a])
  {
    hide Lists;
    ListsNext(accepted, answers, Enqueued, e, a);
    ListsNext(direct, answers, Stored, e, a);
  }

  lemma ListsNext(events: seq<Event>, answers: map<Event, Answer>, which: Answer, e: Event, a: Answer)
    requires Lists(events, answers, which) && e !in answers
    ensures Lists(if a == which then events + [e] else events, answers[e := a], which)
  {
    var more := answers[e := a];
    assert multiset(events + [e]) == multiset(events) + multiset{e};
    assert forall k: Event :: k != e ==> Answered(more, k, which) == Answered(answers, k, which);
    assert !Answered(answers, e, which) && Answered(more, e, which) == (a == which);
  }

  lemma OfferKeepsInv(c: Config, s: State, id: ProducerId, preferCancel: bool)
    requires Inv(c, s)
    ensures Inv(c, OfferStep(c, s, id, preferCancel))
  {
    hide Events, Kept, FromQueue, FromCalls, LogInv, Covered, AnswerInv;
    if id in s.producers && s.producers[id].Holding? {
      var e, s' := s.producers[id].event, OfferStep(c, s, id, preferCancel);
      assert InHand(s.producers, id) && e !in s.answers;
      hide HandInv;
      assert Events(s.settled) + Pending(s) + (s.queue + [e]) == Events(s.settled) + Pending(s) + s.queue + [e];
      if e in s'.answers {
        CallReturns(s.producers, s.calls, s.answers, s.cancelled, id, s'.answers[e]);
        AnswerLogged(s.accepted, FromCalls(s.log), s.answers, e, s'.answers[e]);
      } else {
        CallGoesOn(s.producers, s.calls, s.answers, id);
      }
    }
  }

  lemma DirectKeepsInv(c: Config, s: State, id: ProducerId, works: bool)
    requires Inv(c, s)
    ensures Inv(c, DirectStep(s, id, works))
  {
    hide Events, Kept, FromQueue, FromCalls, LogInv, Covered, AnswerInv;
    if id in s.producers && s.producers[id].Direct? {
      var e, a := s.producers[id].event, if works then Stored else PutFailed;
      assert InHand(s.producers, id) && e !in s.answers;
      hide HandInv;
      LogOne(s.log, Entry(e, false));
      assert FromQueue(s.log) + [] == FromQueue(s.log);
      CallReturns(s.producers, s.calls, s.answers, s.cancelled, id, a);
      AnswerLogged(s.accepted, FromCalls(s.log), s.answers, e, a);
    }
  }

  lemma EnterKeepsInv(c: Config, s: State, id: ProducerId)
    requires Inv(c, s)
    ensures Inv(c, Next(c, s, Enter(id)))
  {
    hide Events, Kept, FromQueue, FromCalls, LogInv, Covered, AnswerInv, HandInv;
    if !InHand(s.producers, id) {
      CallEnters(s.producers, s.calls, s.answers, s.cancelled, id, s.closing);
    }
  }

  lemma ControlKeepsInv(c: Config, s: State, a: Action)
    requires Inv(c, s) && (a.Cancel? || a.Close? || a.TimerFires? || a.SeeDone? || a.FindEmpty?)
    ensures Inv(c, Next(c, s, a))
  {
    hide Events, Kept, FromQueue, FromCalls, LogInv, Covered, HandInv;
    assert Pending(Next(c, s, a)) == Pending(s);
  }

  lemma StepKeepsInv(c: Config, s: State, a: Action)
    requires Inv(c, s)
    ensures Inv(c, Next(c, s, a))
  {
    hide Inv;
    match a
    case Enter(id) => EnterKeepsInv(c, s, id);
    case Receive => ReceiveKeepsInv(c, s);
    case PutBatch(works) => PutBatchKeepsInv(c, s, works);
    case PutOne(works) => PutOneKeepsInv(c, s, works);
    case Offer(id, preferCancel) => OfferKeepsInv(c, s, id, preferCancel);
    case PutDirect(id, works) => DirectKeepsInv(c, s, id, works);
    case _ => ControlKeepsInv(c, s, a);
  }

  lemma {:induction false} RunKeepsInv(c: Config, s: State, actions: seq<Action>)
    requires Inv(c, s)
    ensures Inv(c, Run(c, s, actions))
    decreases |actions|
  {
    if actions != [] {
      StepKeepsInv(c, s, actions[0]);
      RunKeepsInv(c, Next(c, s, actions[0]), actions[1..]);
    }
  }

  // ---- The theorems ------------------------------------------------------------------------------------

  /** In every reachable state, between the worker's steps: the batch respects its size, the queue its capacity, and
      with a positive interval the timer is armed exactly when the batch holds something. */
  lemma BatchAndTimer(c: Config, actions: seq<Action>)
    requires ValidConfig(c)
    ensures var s := Run(c, START, actions);
            && |s.batch| <= c.batchSize && |s.queue| <= c.capacity
            && (s.worker.Selecting? || s.worker.Draining? ==> (s.armed <==> c.interval && s.batch != []))
  {
    RunKeepsInv(c, START, actions);
  }

  predicate AllPersisted(settled: seq<Settled>) {
    forall i :: 0 <= i < |settled| ==> settled[i].persisted
  }

  lemma {:induction false} KeptIsAllExactly(settled: seq<Settled>)
    ensures |Kept(settled)| <= |Events(settled)| == |settled|
    ensures Kept(settled) == Events(settled) <==> AllPersisted(settled)
  {
    if settled != [] {
      var n := |settled| - 1;
      KeptIsAllExactly(settled[..n]);
      assert settled[..n] + [settled[n]] == settled;
      if settled[n].persisted {
        assert Kept(settled)[..|Kept(settled[..n])|] == Kept(settled[..n]);
        assert Events(settled)[..|Events(settled[..n])|] == Events(settled[..n]);
        if Kept(settled) == Events(settled) {
          assert |Kept(settled[..n])| == |Events(settled[..n])|;
        }
      }
    }
  }

  /** When run has returned, which is what Close waits for, every accepted event has been settled, in queue order,
      and the log's queued entries are the settled ones that some put stored: no loss but by a failed single put,
      no duplicate, no reordering. They are all the accepted events exactly when no single put failed. */
  lemma ClosedMeansSettled(c: Config, actions: seq<Action>)
    requires ValidConfig(c) && Run(c, START, actions).worker.Exited?
    ensures var s := Run(c, START, actions);
            && Events(s.settled) == s.accepted
            && FromQueue(s.log) == Kept(s.settled)
            && (FromQueue(s.log) == s.accepted <==> AllPersisted(s.settled))
  {
    RunKeepsInv(c, START, actions);
    var s := Run(c, START, actions);
    assert Events(s.settled) + [] + [] == Events(s.settled);
    KeptIsAllExactly(s.settled);
  }

  function LogEvents(log: seq<Entry>): (r: seq<Event>) {
    seq(|log|, i requires 0 <= i < |log| => log[i].event)
  }

  lemma {:induction false} LogSplits(log: seq<Entry>, e: Event)
    ensures multiset(LogEvents(log))[e] == multiset(FromQueue(log))[e] + multiset(FromCalls(log))[e]
  {
    if log != [] {
      var n := |log| - 1;
      LogSplits(log[..n], e);
      assert LogEvents(log) == LogEvents(log[..n]) + [log[n].event];
    }
  }

  lemma {:induction false} KeptOnce(settled: seq<Settled>, e: Event)
    requires multiset(Events(settled))[e] <= 1
    ensures multiset(Kept(settled))[e] == if Settled(e, true) in settled then 1 else 0
    ensures e in Events(settled) <==> Settled(e, true) in settled || Settled(e, false) in settled
  {
    if settled != [] {
      var n := |settled| - 1;
      assert settled == settled[..n] + [settled[n]];
      KeptOnce(settled[..n], e);
    }
  }

  /** What became of call e, in every reachable state. Unless it is still in hand it has returned, and its answer is the
      truth: a queued event is in the queue's history once and in the log once if one of its puts worked; a direct put
      has logged it once; a failed one, or a caller that gave up, which takes a context that is done, not at all. Once
      run has returned, every queued event has had its put. */
  lemma CallsAreAccountedFor(c: Config, actions: seq<Action>, e: Event)
    requires ValidConfig(c) && e < Run(c, START, actions).calls
    ensures var s := Run(c, START, actions);
            var logged := multiset(LogEvents(s.log))[e];
            && (e !in s.answers <==> Held(s.producers, e))
            && (e !in s.answers ==> logged == 0)
            && (Answered(s.answers, e, Enqueued) ==>
                  && multiset(s.accepted)[e] == 1 && logged == (if Settled(e, true) in s.settled then 1 else 0)
                  && (s.worker.Exited? ==> Settled(e, true) in s.settled || Settled(e, false) in s.settled))
            && (Answered(s.answers, e, Stored) ==> logged == 1 && e !in s.accepted)
            && (Answered(s.answers, e, PutFailed) ==> logged == 0 && e !in s.accepted)
            && (Answered(s.answers, e, GaveUp) ==> logged == 0 && e !in s.accepted && e in s.cancelled)
  {
    RunKeepsInv(c, START, actions);
    var s := Run(c, START, actions);
    hide Run, WorkerInv, LockInv;
    HeldExactly(s.producers, s.calls, s.answers, e);
    LoggedOnce(s, e);
    if s.worker.Exited? {
      ExitedIsEmpty(c, s);
    }
    hide HistoryInv, Held, HandInv, Covered;
    assert e in s.accepted <==> multiset(s.accepted)[e] > 0;
  }

  lemma LoggedOnce(s: State, e: Event)
    requires HistoryInv(s) && LogInv(s.accepted, FromCalls(s.log), s.answers)
    ensures multiset(LogEvents(s.log))[e] ==
              (if Answered(s.answers, e, Stored) then 1 else 0) + if Settled(e, true) in s.settled then 1 else 0
    ensures Settled(e, true) in s.settled ==> Answered(s.answers, e, Enqueued)
    ensures Pending(s) + s.queue == [] && Answered(s.answers, e, Enqueued) ==>
              Settled(e, true) in s.settled || Settled(e, false) in s.settled
  {
    hide Events, Kept, FromQueue, FromCalls, LogEvents, Pending;
    assert multiset(s.accepted)[e] == if Answered(s.answers, e, Enqueued) then 1 else 0;
    assert multiset(FromCalls(s.log))[e] == if Answered(s.answers, e, Stored) then 1 else 0;
    hide LogInv;
    LogSplits(s.log, e);
    var rest := Pending(s) + s.queue;
    assert Events(s.settled) + rest == s.accepted;
    PartCount(Events(s.settled), rest, e);
    KeptOnce(s.settled, e);
    assert e in Events(s.settled) <==> multiset(Events(s.settled))[e] > 0;
  }

  lemma HeldExactly(producers: map<ProducerId, Producer>, calls: nat, answers: map<Event, Answer>, e: Event)
    requires HandInv(producers, calls, answers) && Covered(producers, calls, answers) && e < calls
    ensures e !in answers <==> Held(producers, e)
  {
  }

  lemma PartCount(first: seq<Event>, second: seq<Event>, e: Event)
    ensures multiset(first + second)[e] == multiset(first)[e] + multiset(second)[e]
  {
  }

  /** Close goes through once nobody is between the check and the send, and for good. */
  lemma {:induction false} CloseIsForGood(c: Config, s: State, actions: seq<Action>)
    requires s.closing || forall id :: id in s.producers ==> !s.producers[id].Holding?
    ensures Run(c, Next(c, s, Close), actions).closing
    decreases |actions|
  {
    var t := Next(c, s, Close);
    assert t.closing;
    if actions != [] {
      assert Next(c, t, actions[0]).closing;
      assert Next(c, Next(c, t, actions[0]), Close) == Next(c, t, actions[0]);
      CloseIsForGood(c, Next(c, t, actions[0]), actions[1..]);
    }
  }

  lemma ExitedIsEmpty(c: Config, s: State)
    requires Inv(c, s) && s.worker.Exited?
    ensures Pending(s) + s.queue == []
  {
  }

  lemma ExitedStep(c: Config, s: State, a: Action)
    requires Inv(c, s) && s.worker.Exited?
    ensures var s' := Next(c, s, a);
            s'.worker.Exited? && s'.accepted == s.accepted && s'.queue == [] && FromQueue(s'.log) == FromQueue(s.log)
  {
    hide CallInv;
    match a
    case PutDirect(id, works) =>
      if id in s.producers && s.producers[id].Direct? {
        LogOne(s.log, Entry(s.producers[id].event, false));
      }
    case _ =>
  }

  /** A call that nobody else disturbs, from its first step to its return. It is queued while the recorder is open and
      the queue has room, unless its context is done and the select prefers that; it gives up when its context is done
      and the queue full; in every other case its event is put directly. */
  lemma CallAlone(c: Config, s: State, id: ProducerId, cancel: bool, preferCancel: bool, works: bool)
    requires Inv(c, s) && !InHand(s.producers, id)
    ensures var e := s.calls;
            var t := Run(c, s, [Enter(id), if cancel then Cancel(e) else Enter(id), Offer(id, preferCancel),
                                PutDirect(id, works)]);
            var queued := !s.closing && |s.queue| < c.capacity && !(cancel && preferCancel);
            var direct := !queued && (s.closing || !cancel);
            && !InHand(t.producers, id) && e in t.answers
            && t.answers[e] == (if queued then Enqueued else if !direct then GaveUp
                                else if works then Stored else PutFailed)
            && t.queue == (if queued then s.queue + [e] else s.queue)
            && t.log == if direct && works then s.log + [Entry(e, false)] else s.log
  {
    var e := s.calls;
    assert e !in s.answers && e !in s.cancelled;
    hide Inv;
    var second := if cancel then Cancel(e) else Enter(id);
    var offer, put := Offer(id, preferCancel), PutDirect(id, works);
    var s2 := Set(s, id, Holding(e, s.closing)).(calls := e + 1,
                                                 cancelled := if cancel then s.cancelled + {e} else s.cancelled);
    assert s2 == Next(c, Next(c, s, Enter(id)), second);
    FourSteps(c, s, Enter(id), second, offer, put);
    hide Next, Set;
    OfferedAlone(c, s2, id, preferCancel, works);
  }

  lemma OfferedAlone(c: Config, s: State, id: ProducerId, preferCancel: bool, works: bool)
    requires id in s.producers && s.producers[id].Holding?
    ensures var e, closing := s.producers[id].event, s.producers[id].sawClosing;
            var t := Next(c, Next(c, s, Offer(id, preferCancel)), PutDirect(id, works));
            var queued := !closing && |s.queue| < c.capacity && !(e in s.cancelled && preferCancel);
            var direct := !queued && (closing || e !in s.cancelled);
            && !InHand(t.producers, id) && e in t.answers
            && t.answers[e] == (if queued then Enqueued else if !direct then GaveUp
                                else if works then Stored else PutFailed)
            && t.queue == (if queued then s.queue + [e] else s.queue)
            && t.log == if direct && works then s.log + [Entry(e, false)] else s.log
  {
    var e, s1 := s.producers[id].event, OfferStep(c, s, id, preferCancel);
    if s1.producers[id].Direct? {
      assert s1 == Set(s, id, Direct(e));
      hide OfferStep;
    } else {
      assert s1.producers[id] == Returned && s1.log == s.log;
      assert DirectStep(s1, id, works) == s1;
      hide DirectStep, Set;
    }
  }

  lemma FourSteps(c: Config, s: State, a1: Action, a2: Action, a3: Action, a4: Action)
    ensures Run(c, s, [a1, a2, a3, a4]) == Next(c, Next(c, Next(c, Next(c, s, a1), a2), a3), a4)
  {
    hide Next;
    assert [a1, a2, a3, a4] == [a1] + ([a2] + ([a3] + [a4]));
    RunAppend(c, s, [a1], [a2] + ([a3] + [a4]));
    RunOne(c, s, a1);
    RunAppend(c, Next(c, s, a1), [a2], [a3] + [a4]);
    RunOne(c, Next(c, s, a1), a2);
    var s2 := Next(c, Next(c, s, a1), a2);
    RunAppend(c, s2, [a3], [a4]);
    RunOne(c, s2, a3);
    RunOne(c, Next(c, s2, a3), a4);
  }

  /** After the final drain no event can enter the queue any more, whatever the producers do. */
  lemma {:induction false} NothingEntersAfterExit(c: Config, s: State, actions: seq<Action>)
    requires Inv(c, s) && s.worker.Exited?
    ensures var t := Run(c, s, actions);
            t.worker.Exited? && t.accepted == s.accepted && t.queue == [] && FromQueue(t.log) == FromQueue(s.log)
    decreases |actions|
  {
    if actions != [] {
      StepKeepsInv(c, s, actions[0]);
      ExitedStep(c, s, actions[0]);
      NothingEntersAfterExit(c, Next(c, s, actions[0]), actions[1..]);
    }
  }

  // ---- The run goroutine as code ---------------------------------------------------------------------------

  lemma RunOne(c: Config, s: State, a: Action)
    ensures Run(c, s, [a]) == Next(c, s, a)
  {
    assert [a][1..] == [];
  }

  lemma {:induction false} RunAppend(c: Config, s: State, first: seq<Action>, second: seq<Action>)
    ensures Run(c, s, first + second) == Run(c, Run(c, s, first), second)
    decreases |first|
  {
    if first == [] {
      assert first + second == second;
    } else {
      assert (first + second)[1..] == first[1..] + second;
      RunAppend(c, Next(c, s, first[0]), first[1..], second);
    }
  }

  lemma PutOneEffect(c: Config, s: State, works: bool)
    requires s.worker.PuttingSingly? && s.worker.rest != []
    ensures var s', e, rest := Next(c, s, PutOne(works)), s.worker.rest[0], s.worker.rest[1..];
            && s'.queue == s.queue && s'.armed == s.armed && s'.accepted == s.accepted
            && s'.log == (if works then s.log + [Entry(e, true)] else s.log)
            && s'.batch == (if rest == [] then [] else s.batch)
            && s'.worker == if rest == [] then Back(s.worker.then_) else PuttingSingly(rest, s.worker.then_)
  {
  }

  lemma BatchToPut(c: Config, s: State)
    requires Inv(c, s) && s.worker.PuttingBatch?
    ensures s.batch != []
  {
    hide HistoryInv, CallInv, LockInv;
  }

  lemma PutBatchEffect(c: Config, s: State, works: bool)
    requires s.worker.PuttingBatch?
    ensures var s' := Next(c, s, PutBatch(works));
            && s'.queue == s.queue && s'.armed == s.armed && s'.accepted == s.accepted
            && s'.log == (if works then s.log + Queued(s.batch) else s.log)
            && s'.batch == (if works then [] else s.batch)
            && s'.worker == if works then Back(s.worker.then_) else PuttingSingly(s.batch, s.worker.then_)
  {
  }

  lemma ReceiveEffect(c: Config, s: State)
    requires Inv(c, s) && (s.worker.Selecting? || s.worker.Draining?) && s.queue != []
    ensures var s', more := Next(c, s, Receive), s.batch + [s.queue[0]];
            && s'.queue == s.queue[1..] && s'.accepted == s.accepted && s'.log == s.log && s'.batch == more
            && s'.armed == (c.interval && |more| < c.batchSize)
            && s'.worker == if |more| < c.batchSize then s.worker
                            else PuttingBatch(if s.worker.Selecting? then Select else Drain)
  {
    hide HistoryInv, CallInv, LockInv;
  }

  lemma TimerEffect(c: Config, s: State)
    requires Inv(c, s)
    ensures Next(c, s, TimerFires) ==
              if s.worker.Selecting? && s.armed then s.(armed := false, worker := PuttingBatch(Select)) else s
  {
    hide HistoryInv, CallInv, LockInv;
  }

  lemma FindEmptyEffect(c: Config, s: State)
    requires Inv(c, s) && s.worker.Draining? && s.queue == []
    ensures Next(c, s, FindEmpty) ==
              if s.batch == [] then s.(worker := Exited) else s.(armed := false, worker := PuttingBatch(Exit))
    ensures s.batch == [] ==> !s.armed
  {
    hide HistoryInv, CallInv, LockInv;
  }

  /** What the repository answers: to a batch put, known by the first event of its batch, and to each single put. */
  datatype Puts = Puts(batch: Event -> bool, single: Event -> bool)

  ghost function Working(events: seq<Event>, works: Event -> bool): (r: seq<Event>) {
    if events == [] then [] else
      var last := events[|events| - 1];
      Working(events[..|events| - 1], works) + if works(last) then [last] else []
  }

  lemma WorkingAppend(events: seq<Event>, e: Event, works: Event -> bool)
    ensures Working(events + [e], works) == Working(events, works) + if works(e) then [e] else []
  {
    assert (events + [e])[..|events|] == events;
  }

  lemma {:induction false} AllWorking(events: seq<Event>, works: Event -> bool)
    requires forall e :: e in events ==> works(e)
    ensures Working(events, works) == events
  {
    if events != [] {
      var n := |events| - 1;
      assert events == events[..n] + [events[n]];
      AllWorking(events[..n], works);
    }
  }

  lemma WorkingNone(works: Event -> bool)
    ensures Working([], works) == []
  {
  }

  /** The events of a batch that flush stores: all of them at once, or one by one. */
  ghost function Flushed(puts: Puts, batch: seq<Event>): (r: seq<Event>) {
    if batch == [] || puts.batch(batch[0]) then batch else Working(batch, puts.single)
  }

  /** What the final drain stores of a batch begun and the queue behind it, batch by batch. */
  ghost function Delivered(c: Config, puts: Puts, batch: seq<Event>, queue: seq<Event>): (r: seq<Event>)
    decreases |queue|
  {
    if queue == [] then Flushed(puts, batch)
    else if |batch| + 1 < c.batchSize then Delivered(c, puts, batch + [queue[0]], queue[1..])
    else Flushed(puts, batch + [queue[0]]) + Delivered(c, puts, [], queue[1..])
  }

  /** As long as the single puts work, everything is delivered, in order. */
  lemma {:induction false} DeliveredInFull(c: Config, puts: Puts, batch: seq<Event>, queue: seq<Event>)
    requires forall e :: e in batch || e in queue ==> puts.single(e)
    ensures Delivered(c, puts, batch, queue) == batch + queue
    decreases |queue|
  {
    if queue == [] {
      AllWorking(batch, puts.single);
    } else {
      var more := batch + [queue[0]];
      assert more + queue[1..] == batch + queue;
      if |more| < c.batchSize {
        DeliveredInFull(c, puts, more, queue[1..]);
      } else {
        AllWorking(more, puts.single);
        DeliveredInFull(c, puts, [], queue[1..]);
        assert [] + queue[1..] == queue[1..];
      }
    }
  }

  lemma LogAppend(log: seq<Entry>, first: seq<Event>, second: seq<Event>)
    ensures log + Queued(first) + Queued(second) == log + Queued(first + second)
  {
  }

  lemma FlushedNone(log: seq<Entry>, puts: Puts)
    ensures log + Queued(Flushed(puts, [])) == log
  {
  }

  lemma ArmedExactly(c: Config, s: State)
    requires Inv(c, s) && (s.worker.Selecting? || s.worker.Draining?)
    ensures |s.batch| < c.batchSize && (s.armed <==> c.interval && s.batch != [])
  {
    hide HistoryInv, CallInv, LockInv;
  }

  lemma RunNone(c: Config, s: State)
    ensures Run(c, s, []) == s
  {
  }

  /** The local variables of run, the queue it reads and the log it writes, with the protocol state they stand for.
      Each handler of the select loop is a run of the steps above. */
  class RunLoop {
    const c: Config
    const puts: Puts
    var queue: seq<Event>
    var batch: seq<Event>
    var armed: bool
    var log: seq<Entry>
    ghost var s: State

    ghost predicate Valid()
      reads this
    {
      Matches() && s.batch == batch
    }

    ghost predicate Matches()
      reads this
    {
      s.queue == queue && s.armed == armed && s.log == log && Inv(c, s)
    }

    ghost predicate InLoop()
      reads this
    {
      s.worker.Selecting? || s.worker.Draining?
    }

    /** One step of the protocol more. */
    ghost method Step(a: Action, start: State, prior: seq<Action>) returns (actions: seq<Action>)
      requires Inv(c, s) && s == Run(c, start, prior)
      modifies this`s
      ensures s == Next(c, old(s), a) && Inv(c, s) && s == Run(c, start, actions)
    {
      hide Inv, Run, Next;
      StepKeepsInv(c, s, a);
      RunAppend(c, start, prior, [a]);
      RunOne(c, s, a);
      s, actions := Next(c, s, a), prior + [a];
    }

    /** flush on a nonempty batch: one batch put, and the single puts when that fails. */
    method FlushBatch(ghost start: State, ghost prior: seq<Action>) returns (ghost actions: seq<Action>)
      requires Valid() && s.worker.PuttingBatch? && s == Run(c, start, prior)
      modifies this`batch, this`log, this`s
      ensures Valid() && batch == [] && s == Run(c, start, actions)
      ensures s.worker == Back(old(s).worker.then_) && s.accepted == old(s).accepted
      ensures log == old(log) + Queued(Flushed(puts, old(batch)))
    {
      hide Inv, Run, Next, Back, Queued;
      BatchToPut(c, s);
      PutBatchEffect(c, s, puts.batch(batch[0]));
      actions := Step(PutBatch(puts.batch(batch[0])), start, prior);
      if puts.batch(batch[0]) {
        log := log + Queued(batch);
        batch := [];
      } else {
        actions := PutSingly(start, actions);
      }
    }

    /** The fallback loop. */
    method PutSingly(ghost start: State, ghost prior: seq<Action>) returns (ghost actions: seq<Action>)
      requires Valid() && s.worker.PuttingSingly? && s.worker.rest == batch != [] && s == Run(c, start, prior)
      modifies this`batch, this`log, this`s
      ensures Valid() && batch == [] && s == Run(c, start, actions)
      ensures s.worker == Back(old(s).worker.then_) && s.accepted == old(s).accepted
      ensures log == old(log) + Queued(Working(old(batch), puts.single))
    {
      hide Inv, Run, Next, Back, Working;
      actions := prior;
      var i := 0;
      WorkingNone(puts.single);
      assert batch[0..] == batch && log + Queued([]) == log;
      while i < |batch|
        invariant batch == old(batch) && 0 <= i <= |batch| && Matches() && s == Run(c, start, actions)
        invariant s.accepted == old(s).accepted
        invariant s.batch == if i < |batch| then batch else []
        invariant s.worker == if i < |batch| then PuttingSingly(batch[i..], old(s).worker.then_)
                              else Back(old(s).worker.then_)
        invariant log == old(log) + Queued(Working(batch[..i], puts.single))
      {
        assert batch[i..][1..] == batch[i + 1..] && batch[..i + 1] == batch[..i] + [batch[i]];
        WorkingAppend(batch[..i], batch[i], puts.single);
        LogAppend(old(log), Working(batch[..i], puts.single), if puts.single(batch[i]) then [batch[i]] else []);
        actions := PutEvent(batch[i], batch[i + 1..], start, actions);
        i := i + 1;
      }
      assert batch[..i] == batch;
      batch := [];
    }

    method PutEvent(event: Event, ghost rest: seq<Event>, ghost start: State, ghost prior: seq<Action>)
      returns (ghost actions: seq<Action>)
      requires Matches() && s.worker.PuttingSingly? && s.worker.rest == [event] + rest && s == Run(c, start, prior)
      modifies this`log, this`s
      ensures Matches() && s == Run(c, start, actions)
      ensures s.accepted == old(s).accepted && s.batch == if rest == [] then [] else old(s).batch
      ensures s.worker == if rest == [] then Back(old(s).worker.then_) else PuttingSingly(rest, old(s).worker.then_)
      ensures log == old(log) + Queued(if puts.single(event) then [event] else [])
    {
      hide Inv, Run, Next, Back;
      assert ([event] + rest)[1..] == rest;
      PutOneEffect(c, s, puts.single(event));
      actions := Step(PutOne(puts.single(event)), start, prior);
      if puts.single(event) {
        log := log + [Entry(event, true)];
      }
    }

    /** The receive case of either loop: append, arm the timer on the first event, flush a full batch. */
    method Receive(ghost start: State, ghost prior: seq<Action>) returns (ghost actions: seq<Action>)
      requires Valid() && InLoop() && queue != [] && s == Run(c, start, prior)
      modifies this
      ensures Valid() && s.worker == old(s).worker && s == Run(c, start, actions)
      ensures queue == old(queue)[1..] && s.accepted == old(s).accepted
      ensures var more := old(batch) + [old(queue)[0]];
              && batch == (if |more| < c.batchSize then more else [])
              && log == if |more| < c.batchSize then old(log) else old(log) + Queued(Flushed(puts, more))
      ensures armed <==> c.interval && batch != []
    {
      ArmedExactly(c, s);
      hide Inv, Run, Next, Queued, Flushed, Working;
      assert batch + [queue[0]] != [];
      ReceiveEffect(c, s);
      ghost var more := batch + [queue[0]];
      actions := Step(Action.Receive, start, prior);
      var event := queue[0];
      queue, batch := queue[1..], batch + [event];
      if |batch| == 1 {
        armed := c.interval;
      }
      if |batch| >= c.batchSize {
        armed := false;
        actions := FlushBatch(start, actions);
      }
    }

    /** The timer case: whatever has been collected is flushed. */
    method OnTimer() returns (ghost actions: seq<Action>)
      requires Valid() && s.worker.Selecting? && armed
      modifies this
      ensures Valid() && s.worker.Selecting? && s == Run(c, old(s), actions) && s.accepted == old(s).accepted
      ensures queue == old(queue) && batch == [] && !armed
      ensures old(batch) != [] && log == old(log) + Queued(Flushed(puts, old(batch)))
    {
      ArmedExactly(c, s);
      hide Inv, Run, Next, Queued, Flushed;
      TimerEffect(c, s);
      RunNone(c, s);
      actions := Step(TimerFires, s, []);
      armed := false;
      actions := FlushBatch(old(s), actions);
    }

    /** The done case: drain the queue, flush what is left and return. Nothing that was accepted stays behind. */
    method OnDone() returns (ghost actions: seq<Action>)
      requires Valid() && s.worker.Selecting? && s.closing
      modifies this
      ensures Valid() && s.worker.Exited? && s == Run(c, old(s), actions) && s.accepted == old(s).accepted
      ensures queue == [] && batch == [] && !armed
      ensures log == old(log) + Queued(Delivered(c, puts, old(batch), old(queue)))
    {
      hide Inv, Run, Queued, Flushed;
      RunNone(c, s);
      actions := Step(SeeDone, s, []);
      assert s.batch == batch && s.worker.Draining?;
      hide Next;
      assert log + Queued(Delivered(c, puts, batch, queue)) ==
             old(log) + Queued(Delivered(c, puts, old(batch), old(queue)));
      while queue != []
        invariant Valid() && s.worker.Draining? && s == Run(c, old(s), actions) && s.accepted == old(s).accepted
        invariant log + Queued(Delivered(c, puts, batch, queue)) ==
                  old(log) + Queued(Delivered(c, puts, old(batch), old(queue)))
        decreases |queue|
      {
        ghost var more := batch + [queue[0]];
        LogAppend(log, Flushed(puts, more), Delivered(c, puts, [], queue[1..]));
        actions := Receive(old(s), actions);
      }
      FindEmptyEffect(c, s);
      actions := Step(FindEmpty, old(s), actions);
      if batch != [] {
        armed := false;
        actions := FlushBatch(old(s), actions);
      } else {
        FlushedNone(log, puts);
      }
    }
  }
}
