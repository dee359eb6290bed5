/** Draining a gateway: the drain controller (internal/gateway/drain.go), and the admission prologue of every S3 request
    (internal/gateway/s3_handlers.go, handle), which passes the drain controller, then the request limiter, and gives
    both back in reverse order. */
module GatewayDrain {
  import opened RequestLimiter

  datatype Operation =
    | ListBuckets | CreateBucket | HeadBucket | DeleteBucket | GetBucketLocation
    | GetBucketVersioning | PutBucketVersioning | GetBucketCORS | PutBucketCORS | DeleteBucketCORS
    | GetBucketLifecycle | PutBucketLifecycle | DeleteBucketLifecycle | GetBucketObjectLock | PutBucketObjectLock
    | GetBucketPolicy | PutBucketPolicy | DeleteBucketPolicy | GetBucketEncryption | PutBucketEncryption
    | DeleteBucketEncryption | GetBucketACL | PutBucketACL | ListObjects | ListObjectsV2 | ListObjectVersions
    | PutObject | CopyObject | GetObject | HeadObject | DeleteObject | DeleteObjects | GetObjectTagging
    | PutObjectTagging | DeleteObjectTagging | GetObjectRetention | PutObjectRetention | GetObjectLegalHold
    | PutObjectLegalHold | GetObjectACL | PutObjectACL | CreateMultipartUpload | ListMultipartUploads | UploadPart
    | ListParts | CompleteMultipart | AbortMultipart | Unsupported

  predicate IsDrainWrite(op: Operation) {
    op in {CreateBucket, DeleteBucket, PutBucketVersioning, PutBucketCORS, DeleteBucketCORS, PutBucketLifecycle,
           DeleteBucketLifecycle, PutBucketObjectLock, PutBucketPolicy, DeleteBucketPolicy, PutBucketEncryption,
           DeleteBucketEncryption, PutBucketACL, PutObject, CopyObject, DeleteObject, DeleteObjects, PutObjectTagging,
           DeleteObjectTagging, PutObjectRetention, PutObjectLegalHold, PutObjectACL, CreateMultipartUpload, UploadPart,
           CompleteMultipart, AbortMultipart}
  }

  function ClassOf(op: Operation): (c: Class)
    ensures c == Write <==> IsDrainWrite(op)
  {
    if IsDrainWrite(op) then Write else if op == Unsupported then Other else Read
  }

  /** The other side of the table: what the drain lets through are the reading operations and what the gateway does not
      support. */
  lemma TheRestIsReading(op: Operation)
    ensures !IsDrainWrite(op) <==>
              op in {ListBuckets, HeadBucket, GetBucketLocation, GetBucketVersioning, GetBucketCORS, GetBucketLifecycle,
                     GetBucketObjectLock, GetBucketPolicy, GetBucketEncryption, GetBucketACL, ListObjects,
                     ListObjectsV2, ListObjectVersions, GetObject, HeadObject, GetObjectTagging, GetObjectRetention,
                     GetObjectLegalHold, GetObjectACL, ListMultipartUploads, ListParts, Unsupported}
    ensures ClassOf(op) == Other <==> op == Unsupported
  {
  }

  // ---- The controller -------------------------------------------------------------------------------

  datatype Phase = Active | Draining | Drained

  /** `closes` counts how often the drained channel has been closed; a second close would panic. */
  datatype Drain = Drain(phase: Phase, inFlight: nat, closes: nat)

  /** Drained means nobody is inside, and the channel is closed exactly then. */
  predicate DrainInv(d: Drain) {
    && (d.phase == Drained ==> d.inFlight == 0)
    && (d.phase == Draining ==> d.inFlight > 0)
    && d.closes == if d.phase == Drained then 1 else 0
  }

  function Settle(d: Drain): (d': Drain) {
    if d.phase == Draining && d.inFlight == 0 then d.(phase := Drained, closes := d.closes + 1) else d
  }

  function StartDrain(d: Drain): (d': Drain)
    ensures DrainInv(d) ==> DrainInv(d') && d'.phase != Active && d'.inFlight == d.inFlight
  {
    Settle(if d.phase == Active then d.(phase := Draining) else d)
  }

  function FinishWrite(d: Drain): (d': Drain)
    ensures DrainInv(d) && d.inFlight > 0 ==>
              DrainInv(d') && d'.inFlight == d.inFlight - 1 && (d'.phase == Active <==> d.phase == Active)
  {
    Settle(if d.inFlight > 0 then d.(inFlight := d.inFlight - 1) else d)
  }

  class Controller {
    var state: Phase
    var inFlightWrites: nat
    var drainedClosed: bool
    ghost var closes: nat

    ghost function View(): (d: Drain)
      reads this
    {
      Drain(state, inFlightWrites, closes)
    }

    ghost predicate Valid()
      reads this
    {
      DrainInv(View()) && (drainedClosed <==> closes == 1)
    }

    constructor ()
      ensures Valid() && View() == Drain(Active, 0, 0)
    {
      state, inFlightWrites, drainedClosed, closes := Active, 0, false, 0;
    }

    /** A write is admitted exactly while the controller is active; other operations pass uncounted. */
    method Admit(op: Operation) returns (admitted: bool, counted: bool)
      requires Valid()
      modifies this
      ensures Valid()
      ensures admitted <==> !IsDrainWrite(op) || old(state) == Active
      ensures counted <==> IsDrainWrite(op) && admitted
      ensures View() == old(View()).(inFlight := old(inFlightWrites) + if counted then 1 else 0)
    {
      if !IsDrainWrite(op) {
        return true, false;
      }
      if state != Active {
        return false, false;
      }
      inFlightWrites := inFlightWrites + 1;
      return true, true;
    }

    /** close(d.drained): the precondition is that it has not been closed before. */
    method MarkDrained()
      requires !drainedClosed && state == Draining
      modifies this
      ensures state == Drained && drainedClosed && closes == old(closes) + 1 && inFlightWrites == old(inFlightWrites)
    {
      state, drainedClosed := Drained, true;
      closes := closes + 1;
    }

    method Start() returns (status: Phase)
      requires Valid()
      modifies this
      ensures Valid() && View() == StartDrain(old(View())) && status == state
    {
      if state == Active {
        state := Draining;
      }
      if state == Draining && inFlightWrites == 0 {
        MarkDrained();
      }
      return state;
    }

    method Finish()
      requires Valid()
      modifies this
      ensures View() == FinishWrite(old(View()))
      ensures Valid()
    {
      if inFlightWrites > 0 {
        inFlightWrites := inFlightWrites - 1;
      }
      if state == Draining && inFlightWrites == 0 {
        MarkDrained();
      }
    }
  }

  // ---- Requests ----------------------------------------------------------------------------------------

  /** Past the drain controller, inside the handler with a limiter slot, or on the way out. */
  datatype Stage = Admitted | Running | Leaving

  datatype Request = Request(op: Operation, tenant: string, stage: Stage)

  datatype State = State(drain: Drain, slots: Live, requests: map<RequestId, Request>)

  datatype Action =
    | Arrive(id: RequestId, op: Operation, tenant: string)
    | Reserve(id: RequestId)
    | Complete(id: RequestId)
    | Leave(id: RequestId)
    | Drain_

  const IDLE := State(Drain(Active, 0, 0), map[], map[])

  function ScopeOf(r: Request): (s: Scope) { Scope(r.tenant, ClassOf(r.op)) }

  function Moved(s: State, id: RequestId, stage: Stage): (s': State)
    requires id in s.requests
  {
    s.(requests := s.requests[id := s.requests[id].(stage := stage)])
  }

  /** One atomic section of some request, or StartDrain; impossible actions do nothing. */
  function Next(limits: Limits, s: State, a: Action): (s': State) {
    match a
    case Arrive(id, op, tenant) =>
      if id in s.requests || (IsDrainWrite(op) && s.drain.phase != Active) then s
      else s.(requests := s.requests[id := Request(op, tenant, Admitted)],
              drain := if IsDrainWrite(op) then s.drain.(inFlight := s.drain.inFlight + 1) else s.drain)
    case Reserve(id) =>
      if id !in s.requests || s.requests[id].stage != Admitted then s
      else if WhyFull(limits, s.slots, ScopeOf(s.requests[id])).Some? then Moved(s, id, Leaving)
      else Moved(s, id, Running).(slots := s.slots[id := ScopeOf(s.requests[id])])
    case Complete(id) =>
      if id !in s.requests || s.requests[id].stage != Running then s
      else Moved(s, id, Leaving).(slots := s.slots - {id})
    case Leave(id) =>
      if id !in s.requests || s.requests[id].stage != Leaving then s
      else s.(requests := s.requests - {id},
              drain := if IsDrainWrite(s.requests[id].op) then FinishWrite(s.drain) else s.drain)
    case Drain_ => s.(drain := StartDrain(s.drain))
  }

  function Run(limits: Limits, s: State, actions: seq<Action>): (s': State)
    decreases |actions|
  {
    if actions == [] then s else Run(limits, Next(limits, s, actions[0]), actions[1..])
  }

  function Writes(requests: map<RequestId, Request>): (ids: set<RequestId>) {
    set id | id in requests && IsDrainWrite(requests[id].op)
  }

  /** The controller counts the writes inside, whatever their stage; the slots are those of the running requests. */
  ghost predicate Inv(limits: Limits, s: State) {
    && DrainInv(s.drain)
    && s.drain.inFlight == |Writes(s.requests)|
    && (forall id :: id in s.slots <==> id in s.requests && s.requests[id].stage == Running)
    && (forall id :: id in s.slots ==> s.slots[id] == ScopeOf(s.requests[id]))
    && WithinLimits(limits, s.slots)
  }

  lemma MovedWrites(s: State, id: RequestId, stage: Stage)
    requires id in s.requests
    ensures Writes(Moved(s, id, stage).requests) == Writes(s.requests)
  {
  }

  lemma ArriveWrites(requests: map<RequestId, Request>, id: RequestId, r: Request)
    requires id !in requests
    ensures |Writes(requests[id := r])| == |Writes(requests)| + if IsDrainWrite(r.op) then 1 else 0
  {
    hide IsDrainWrite;
    if IsDrainWrite(r.op) {
      assert Writes(requests[id := r]) == Writes(requests) + {id};
    } else {
      assert Writes(requests[id := r]) == Writes(requests);
    }
  }

  lemma LeaveWrites(requests: map<RequestId, Request>, id: RequestId)
    requires id in requests
    ensures |Writes(requests)| == |Writes(requests - {id})| + if IsDrainWrite(requests[id].op) then 1 else 0
  {
    var rest := requests - {id};
    assert requests == rest[id := requests[id]];
    ArriveWrites(rest, id, requests[id]);
  }

  lemma ArriveKeepsInv(limits: Limits, s: State, id: RequestId, op: Operation, tenant: string)
    requires Inv(limits, s) && id !in s.requests && (IsDrainWrite(op) ==> s.drain.phase == Active)
    ensures Inv(limits, Next(limits, s, Arrive(id, op, tenant)))
  {
    hide WithinLimits, IsDrainWrite, Writes;
    ArriveWrites(s.requests, id, Request(op, tenant, Admitted));
  }

  lemma LeaveKeepsInv(limits: Limits, s: State, id: RequestId)
    requires Inv(limits, s) && id in s.requests && s.requests[id].stage == Leaving
    ensures Inv(limits, Next(limits, s, Leave(id)))
  {
    hide WithinLimits, IsDrainWrite, Writes, FinishWrite;
    LeaveWrites(s.requests, id);
  }

  lemma ReserveKeepsInv(limits: Limits, s: State, id: RequestId)
    requires Inv(limits, s) && id in s.requests && s.requests[id].stage == Admitted
    ensures Inv(limits, Next(limits, s, Reserve(id)))
  {
    hide WithinLimits, IsDrainWrite, WhyFull, Writes, ScopeOf;
    MovedWrites(s, id, Running);
    MovedWrites(s, id, Leaving);
    if WhyFull(limits, s.slots, ScopeOf(s.requests[id])).None? {
      JoinWithinLimits(limits, s.slots, id, ScopeOf(s.requests[id]));
    }
    ScopeStays(s.requests[id]);
  }

  lemma ScopeStays(r: Request)
    ensures forall stage :: ScopeOf(r.(stage := stage)) == ScopeOf(r)
  {
  }

  lemma CompleteKeepsInv(limits: Limits, s: State, id: RequestId)
    requires Inv(limits, s) && id in s.requests && s.requests[id].stage == Running
    ensures Inv(limits, Next(limits, s, Complete(id)))
  {
    hide WithinLimits, IsDrainWrite, Writes;
    MovedWrites(s, id, Leaving);
    LeaveWithinLimits(limits, s.slots, id);
  }

  lemma StepKeepsInv(limits: Limits, s: State, a: Action)
    requires Inv(limits, s)
    ensures Inv(limits, Next(limits, s, a))
  {
    hide WithinLimits, IsDrainWrite, WhyFull, Writes, ScopeOf;
    match a
    case Arrive(id, op, tenant) =>
      if id !in s.requests && (IsDrainWrite(op) ==> s.drain.phase == Active) {
        ArriveKeepsInv(limits, s, id, op, tenant);
      }
    case Reserve(id) =>
      if id in s.requests && s.requests[id].stage == Admitted {
        ReserveKeepsInv(limits, s, id);
      }
    case Complete(id) =>
      if id in s.requests && s.requests[id].stage == Running {
        CompleteKeepsInv(limits, s, id);
      }
    case Leave(id) =>
      if id in s.requests && s.requests[id].stage == Leaving {
        LeaveKeepsInv(limits, s, id);
      }
    case Drain_ =>
  }

  lemma IdleInv(limits: Limits)
    ensures Inv(limits, IDLE)
  {
    assert forall t :: OfTenant(map[], t) == {};
    assert forall c :: OfClass(map[], c) == {};
  }

  lemma {:induction false} RunKeepsInv(limits: Limits, s: State, actions: seq<Action>)
    requires Inv(limits, s)
    ensures Inv(limits, Run(limits, s, actions))
    decreases |actions|
  {
    if actions != [] {
      StepKeepsInv(limits, s, actions[0]);
      RunKeepsInv(limits, Next(limits, s, actions[0]), actions[1..]);
    }
  }

  // ---- The theorems ----------------------------------------------------------------------------------------

  /** Over every interleaving: running writes never outnumber the writes the controller has admitted, no limit is
      exceeded, and the channel is closed once, exactly when the gateway is drained. */
  lemma AdmissionHolds(limits: Limits, actions: seq<Action>)
    ensures var s := Run(limits, IDLE, actions);
            && |OfClass(s.slots, Write)| <= s.drain.inFlight
            && WithinLimits(limits, s.slots)
            && s.drain.closes == if s.drain.phase == Drained then 1 else 0
  {
    IdleInv(limits);
    RunKeepsInv(limits, IDLE, actions);
    var s := Run(limits, IDLE, actions);
    SubsetSize(OfClass(s.slots, Write), Writes(s.requests)) by {
      assert forall id :: id in OfClass(s.slots, Write) ==> id in Writes(s.requests);
    }
  }

  lemma {:induction false} SubsetSize(a: set<RequestId>, b: set<RequestId>)
    requires a <= b
    ensures |a| <= |b|
  {
    if a != {} {
      var x :| x in a;
      SubsetSize(a - {x}, b - {x});
    }
  }

  /** No write request is anywhere between its admission and its end. */
  predicate NoWrites(s: State) {
    && (forall id :: id in s.requests ==> !IsDrainWrite(s.requests[id].op))
    && (forall id :: id in s.slots ==> s.slots[id].class_ != Write)
  }

  lemma DrainedIsQuiet(limits: Limits, s: State)
    requires Inv(limits, s) && s.drain.phase == Drained
    ensures NoWrites(s)
  {
    forall id | id in s.requests
      ensures !IsDrainWrite(s.requests[id].op)
    {
      assert id !in Writes(s.requests) by {
        assert Writes(s.requests) == {};
      }
    }
  }

  lemma StartedStep(limits: Limits, s: State, a: Action)
    requires Inv(limits, s) && (s.drain.phase != Active || a.Drain_?)
    ensures Next(limits, s, a).drain.phase != Active
  {
    hide IsDrainWrite, WithinLimits, WhyFull;
    if a.Leave? && a.id in s.requests && s.requests[a.id].stage == Leaving {
      LeaveWrites(s.requests, a.id);
    }
  }

  /** Once a drain has been started the gateway is never active again, lets no further write in, and is drained exactly
      when the writes inside have left. */
  lemma {:induction false} DrainProceeds(limits: Limits, s: State, actions: seq<Action>)
    requires Inv(limits, s) && s.drain.phase != Active
    ensures var t := Run(limits, s, actions);
            && t.drain.phase != Active && Writes(t.requests) <= Writes(s.requests)
            && (t.drain.phase == Drained <==> Writes(t.requests) == {})
    decreases |actions|
  {
    if actions != [] {
      StepKeepsInv(limits, s, actions[0]);
      StartedStep(limits, s, actions[0]);
      NoWriteEnters(limits, s, actions[0]);
      DrainProceeds(limits, Next(limits, s, actions[0]), actions[1..]);
    }
  }

  lemma NoWriteEnters(limits: Limits, s: State, a: Action)
    requires s.drain.phase != Active
    ensures Writes(Next(limits, s, a).requests) <= Writes(s.requests)
  {
    hide IsDrainWrite, WhyFull, FinishWrite, StartDrain;
  }

  /** Every request gets through: from arrival to its end in four steps, whatever else is inside. It holds a slot in
      between exactly when the limiter has room, and it is turned away at the door exactly when it writes and the
      gateway is not active. */
  lemma RequestPasses(limits: Limits, s: State, id: RequestId, op: Operation, tenant: string)
    requires Inv(limits, s) && id !in s.requests
    ensures var s1 := Next(limits, s, Arrive(id, op, tenant));
            var s2 := Next(limits, s1, Reserve(id));
            var s4 := Next(limits, Next(limits, s2, Complete(id)), Leave(id));
            && (id in s1.requests <==> !(IsDrainWrite(op) && s.drain.phase != Active))
            && (id in s2.slots <==>
                  id in s1.requests && WhyFull(limits, s.slots, Scope(tenant, ClassOf(op))).None?)
            && s4 == s
  {
    hide IsDrainWrite, WhyFull, WithinLimits, ClassOf;
    var s1 := Next(limits, s, Arrive(id, op, tenant));
    if id in s1.requests {
      var s2 := Next(limits, s1, Reserve(id));
      var s3 := Next(limits, s2, Complete(id));
      assert s3.requests == s.requests[id := Request(op, tenant, Leaving)];
      assert id !in s.slots;
      assert s3.slots == s.slots;
      assert s3.requests - {id} == s.requests;
    }
  }

  lemma DrainedStays(limits: Limits, s: State, a: Action)
    requires Inv(limits, s) && s.drain.phase == Drained
    ensures Next(limits, s, a).drain == s.drain
  {
    DrainedIsQuiet(limits, s);
  }

  /** WaitDrained answers success when the gateway is drained. From then on, whatever arrives or ends, the gateway stays
      drained, no write is inside and none holds a slot. */
  lemma {:induction false} DrainedForGood(limits: Limits, s: State, actions: seq<Action>)
    requires Inv(limits, s) && s.drain.phase == Drained
    ensures var t := Run(limits, s, actions); t.drain == s.drain && NoWrites(t)
    decreases |actions|
  {
    if actions == [] {
      DrainedIsQuiet(limits, s);
    } else {
      StepKeepsInv(limits, s, actions[0]);
      DrainedStays(limits, s, actions[0]);
      DrainedForGood(limits, Next(limits, s, actions[0]), actions[1..]);
    }
  }
}
