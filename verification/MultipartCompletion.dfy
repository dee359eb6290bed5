/** Completing a multipart upload as a protocol: any number of complete requests for one upload, each a
    chain of atomic repository calls, with crashes and failures between any two calls, other writers of
    the same key, and aborts (internal/gateway/s3_handlers.go, completeMultipartUpload and
    resumeMultipartCompletion; internal/meta/memory/repository.go for what each call does). */
module MultipartCompletion {
  import opened Bytes

  type VersionId = nat
  type RequestId = nat
  type ETag = nat

  datatype VersionState = Pending | Committed

  datatype Upload = Active | Completed(etag: ETag, version: VersionId) | Aborted

  /** The durable completion record; it is written once. */
  datatype Record = Record(version: VersionId, expectedHead: Option<VersionId>, etag: ETag)

  /** Where a complete request stands: the call it makes next, or its answer. */
  datatype Request =
    | GetUpload
    | GetRecord
    | BeginPut
    | Prepare(record: Record)
    | GetVersion(record: Record)
    | Commit(record: Record)
    | GetHead(record: Record)
    | CompleteUpload(record: Record)
    | Cleanup(etag: ETag)
    | Succeeded(etag: ETag)
    | Failed

  datatype State = State(
    versioned: bool,
    versions: map<VersionId, VersionState>,
    nextVersion: VersionId,
    head: Option<VersionId>,
    upload: Upload,
    record: Option<Record>,
    partsCleaned: bool,
    segmentsDeleted: bool,
    commits: seq<VersionId>,
    requests: map<RequestId, Request>)

  datatype Action =
    | Arrive(id: RequestId)
    | Call(id: RequestId, etag: ETag, cleanupWorks: bool)
    | Crash(id: RequestId)
    | Others(removed: set<VersionId>, put: bool, newHead: Option<VersionId>)
    | Abort
    | AbortDeletesParts

  predicate Initial(s: State) {
    && s.upload == Active && s.record == None && s.commits == [] && s.requests == map[]
    && !s.partsCleaned && !s.segmentsDeleted
    && (forall v :: v in s.versions ==> v < s.nextVersion)
    && (s.head.Some? ==> s.head.value in s.versions && s.versions[s.head.value] == Committed)
  }

  // ---- One atomic repository call of a request --------------------------------------------------

  function Goto(s: State, id: RequestId, r: Request): (s': State) {
    s.(requests := s.requests[id := r])
  }

  /** CommitObjectVersion goes through: the head is the expected one and the version is pending. */
  predicate CommitsNow(s: State, record: Record) {
    s.head == record.expectedHead && record.version in s.versions && s.versions[record.version] == Pending
  }

  /** What the next call of a request does to the repository. */
  function Effect(s: State, r: Request, etag: ETag, cleanupWorks: bool): (s': State)
    ensures s'.requests == s.requests && (s.record.Some? ==> s'.record == s.record)
    ensures s'.upload == Aborted <==> s.upload == Aborted
  {
    match r
    case BeginPut => s.(versions := s.versions[s.nextVersion := Pending], nextVersion := s.nextVersion + 1)
    case Prepare(record) => if s.record.None? && s.upload == Active then s.(record := Some(record)) else s
    // compare-and-set on the head, then commit and retire an unversioned predecessor
    case Commit(record) =>
      if !CommitsNow(s, record) then s else
        var kept := if !s.versioned && s.head.Some? && s.head.value != record.version
                    then s.versions - {s.head.value} else s.versions;
        s.(versions := kept[record.version := Committed], head := Some(record.version),
           commits := s.commits + [record.version])
    case CompleteUpload(record) =>
      if s.upload == Active then s.(upload := Completed(record.etag, record.version)) else s
    case Cleanup(_) => s.(partsCleaned := s.partsCleaned || (cleanupWorks && s.upload != Active))
    case _ => s
  }

  /** Where the answer of that call leads the request. */
  function Stage(s: State, r: Request, etag: ETag): (r': Request) {
    match r
    case GetUpload =>
      (match s.upload case Completed(e, _) => Cleanup(e) case Active => GetRecord case Aborted => Failed)
    case GetRecord => if s.record.Some? then GetVersion(s.record.value) else BeginPut
    case BeginPut => Prepare(Record(s.nextVersion, s.head, etag))
    case Prepare(record) =>
      if s.record == Some(record) || (s.record.None? && s.upload == Active) then GetVersion(record) else Failed
    case GetVersion(record) =>
      if record.version in s.versions && s.versions[record.version] == Committed
      then CompleteUpload(record) else Commit(record)
    case Commit(record) =>
      if s.head != record.expectedHead then GetHead(record)
      else if record.version !in s.versions then Failed
      else CompleteUpload(record)
    case GetHead(record) => if s.head == Some(record.version) then CompleteUpload(record) else Failed
    case CompleteUpload(record) =>
      (match s.upload case Completed(e, _) => Cleanup(e) case Active => Cleanup(record.etag) case Aborted => Failed)
    case Cleanup(e) => Succeeded(e)
    case Succeeded(_) => r
    case Failed => r
  }

  function CallOf(s: State, id: RequestId, etag: ETag, cleanupWorks: bool): (s': State)
    requires id in s.requests
  {
    var r := s.requests[id];
    Goto(Effect(s, r, etag, cleanupWorks), id, Stage(s, r, etag))
  }

  /** What other requests may do to the key: remove versions, commit a fresh one, move the head to any
      committed version. They never commit somebody else's pending version. */
  predicate OthersAllowed(s: State, a: Action)
    requires a.Others?
  {
    a.newHead.Some? ==>
      || (a.put && a.newHead.value == s.nextVersion)
      || (a.newHead.value in s.versions && a.newHead.value !in a.removed && s.versions[a.newHead.value] == Committed)
  }

  /** One step; an action that is not possible in s leaves it alone. */
  function Next(s: State, a: Action): (s': State) {
    match a
    case Arrive(id) => if id in s.requests then s else Goto(s, id, GetUpload)
    case Call(id, etag, works) => if id in s.requests then CallOf(s, id, etag, works) else s
    case Crash(id) =>
      if id in s.requests && !s.requests[id].Succeeded? then Goto(s, id, Failed) else s
    case Others(removed, put, newHead) =>
      if !OthersAllowed(s, a) then s
      else if put then
        s.(versions := (s.versions - removed)[s.nextVersion := Committed],
           nextVersion := s.nextVersion + 1, head := newHead)
      else s.(versions := s.versions - removed, head := newHead)
    case Abort => if s.upload == Active then s.(upload := Aborted) else s
    case AbortDeletesParts =>
      if s.upload == Aborted then s.(partsCleaned := true, segmentsDeleted := true) else s
  }

  function Run(s: State, actions: seq<Action>): (s': State)
    decreases |actions|
  {
    if actions == [] then s else Run(Next(s, actions[0]), actions[1..])
  }

  lemma {:induction false} RunAppend(s: State, first: seq<Action>, second: seq<Action>)
    ensures Run(s, first + second) == Run(Run(s, first), second)
    decreases |first|
  {
    if first == [] {
      assert first + second == second;
    } else {
      assert (first + second)[1..] == first[1..] + second;
      RunAppend(Next(s, first[0]), first[1..], second);
    }
  }

  // ---- The invariant -----------------------------------------------------------------------------

  predicate HasRecord(r: Request) {
    r.GetVersion? || r.Commit? || r.GetHead? || r.CompleteUpload?
  }

  /** The record's version, and nothing else, has been committed for the upload. */
  predicate CommittedOnce(s: State) {
    s.record.Some? && s.commits == [s.record.value.version]
  }

  /** The head a record expects has existed, so no fresh version takes its id. */
  predicate KnownHead(s: State, record: Record) {
    record.expectedHead.Some? ==> record.expectedHead.value < s.nextVersion
  }

  predicate StoreInv(s: State) {
    && (forall v :: v in s.versions ==> v < s.nextVersion)
    && (s.head.Some? ==> s.head.value in s.versions && s.versions[s.head.value] == Committed)
    && (s.commits == [] || CommittedOnce(s))
    && (s.record.Some? ==>
          var v := s.record.value.version;
          && v < s.nextVersion && KnownHead(s, s.record.value)
          && (v in s.versions ==> (s.versions[v] == Committed <==> CommittedOnce(s))))
    && (s.upload.Completed? ==>
          CommittedOnce(s) && s.upload == Completed(s.record.value.etag, s.record.value.version))
    && (s.partsCleaned ==> s.upload != Active)
    && (s.segmentsDeleted ==> s.upload == Aborted)
  }

  predicate RequestInv(s: State, r: Request) {
    && (HasRecord(r) ==> s.record == Some(r.record))
    && (r.CompleteUpload? ==> CommittedOnce(s))
    && (r.Cleanup? || r.Succeeded? ==> s.upload.Completed? && s.upload.etag == r.etag)
    && (r.Prepare? ==>
          && r.record.version < s.nextVersion && KnownHead(s, r.record)
          && (r.record.version in s.versions ==> s.versions[r.record.version] == Pending)
          && (s.record.Some? ==> s.record.value.version != r.record.version))
  }

  predicate DistinctPrepares(r: Request, q: Request) {
    r.Prepare? && q.Prepare? ==> r.record.version != q.record.version
  }

  predicate Inv(s: State) {
    && StoreInv(s)
    && (forall id :: id in s.requests ==> RequestInv(s, s.requests[id]))
    && forall i, j :: i in s.requests && j in s.requests && i != j ==> DistinctPrepares(s.requests[i], s.requests[j])
  }

  /** A call that changes only where the caller stands. */
  lemma MoveKeepsInv(s: State, id: RequestId, r: Request)
    requires Inv(s) && id in s.requests && RequestInv(s, r)
    requires r.Prepare? ==> s.requests[id] == r
    ensures Inv(Goto(s, id, r))
  {
    var s' := Goto(s, id, r);
    forall k | k in s'.requests
      ensures RequestInv(s', s'.requests[k])
    {
      assert k != id ==> RequestInv(s, s.requests[k]);
    }
  }

  lemma BeginPutKeepsInv(s: State, id: RequestId, etag: ETag, works: bool)
    requires Inv(s) && id in s.requests && s.requests[id].BeginPut?
    ensures Inv(CallOf(s, id, etag, works))
  {
    var s' := CallOf(s, id, etag, works);
    forall k | k in s'.requests
      ensures RequestInv(s', s'.requests[k])
    {
      assert k != id ==> RequestInv(s, s.requests[k]);
    }
    forall i, j | i in s'.requests && j in s'.requests && i != j
      ensures DistinctPrepares(s'.requests[i], s'.requests[j])
    {
      assert i != id ==> RequestInv(s, s.requests[i]);
      assert j != id ==> RequestInv(s, s.requests[j]);
    }
  }

  lemma PrepareKeepsInv(s: State, id: RequestId, etag: ETag, works: bool)
    requires Inv(s) && id in s.requests && s.requests[id].Prepare?
    ensures Inv(CallOf(s, id, etag, works))
  {
    var r := s.requests[id];
    assert RequestInv(s, r);
    if s.record.Some? {
      MoveKeepsInv(s, id, Failed);
    } else if s.upload != Active {
      MoveKeepsInv(s, id, Failed);
    } else {
      var s' := CallOf(s, id, etag, works);
      assert s.commits == [];
      forall k | k in s'.requests
        ensures RequestInv(s', s'.requests[k])
      {
        assert k != id ==> RequestInv(s, s.requests[k]);
      }
    }
  }

  lemma CommitKeepsInv(s: State, id: RequestId, record: Record, etag: ETag, works: bool)
    requires Inv(s) && id in s.requests && s.requests[id] == Commit(record)
    ensures Inv(CallOf(s, id, etag, works))
  {
    assert RequestInv(s, s.requests[id]);
    if s.head != record.expectedHead {
      MoveKeepsInv(s, id, GetHead(record));
    } else if record.version !in s.versions {
      MoveKeepsInv(s, id, Failed);
    } else if s.versions[record.version] == Committed {
      MoveKeepsInv(s, id, CompleteUpload(record));
    } else {
      FirstCommit(s, id, record, etag, works);
    }
  }

  lemma FirstCommit(s: State, id: RequestId, record: Record, etag: ETag, works: bool)
    requires Inv(s) && id in s.requests && s.requests[id] == Commit(record) && s.record == Some(record)
    requires s.head == record.expectedHead && record.version in s.versions && s.versions[record.version] == Pending
    requires s.commits == []
    ensures Inv(CallOf(s, id, etag, works))
  {
    var s' := CallOf(s, id, etag, works);
    assert s'.commits == [record.version];
    forall k | k in s'.requests
      ensures RequestInv(s', s'.requests[k])
    {
      assert k != id ==> RequestInv(s, s.requests[k]);
    }
  }

  lemma LookupKeepsInv(s: State, id: RequestId, etag: ETag, works: bool)
    requires Inv(s) && id in s.requests
    requires var r := s.requests[id]; r.GetUpload? || r.GetRecord? || r.GetVersion? || r.GetHead?
    ensures Inv(CallOf(s, id, etag, works))
  {
    var r := LookupAnswer(s, id, etag, works);
    hide Inv;
    MoveKeepsInv(s, id, r);
  }

  lemma LookupAnswer(s: State, id: RequestId, etag: ETag, works: bool) returns (r: Request)
    requires StoreInv(s) && id in s.requests && RequestInv(s, s.requests[id])
    requires var r := s.requests[id]; r.GetUpload? || r.GetRecord? || r.GetVersion? || r.GetHead?
    ensures CallOf(s, id, etag, works) == Goto(s, id, r) && RequestInv(s, r) && !r.Prepare?
  {
    r := CallOf(s, id, etag, works).requests[id];
  }

  lemma FinishKeepsInv(s: State, id: RequestId, etag: ETag, works: bool)
    requires Inv(s) && id in s.requests && (s.requests[id].CompleteUpload? || s.requests[id].Cleanup?)
    ensures Inv(CallOf(s, id, etag, works))
  {
    var r := s.requests[id];
    assert RequestInv(s, r);
    if r.Cleanup? {
      MoveKeepsInv(s, id, Succeeded(r.etag));
      var moved := Goto(s, id, Succeeded(r.etag));
      forall k | k in moved.requests
        ensures RequestInv(CallOf(s, id, etag, works), moved.requests[k])
      {
        assert RequestInv(moved, moved.requests[k]);
      }
    } else if s.upload == Active {
      CompleteKeepsInv(s, id, r.record, etag, works);
    } else if s.upload.Completed? {
      MoveKeepsInv(s, id, Cleanup(s.upload.etag));
    } else {
      MoveKeepsInv(s, id, Failed);
    }
  }

  lemma CallKeepsInv(s: State, id: RequestId, etag: ETag, works: bool)
    requires Inv(s) && id in s.requests
    ensures Inv(CallOf(s, id, etag, works))
  {
    var r := s.requests[id];
    assert r.Succeeded? || r.Failed? ==> CallOf(s, id, etag, works) == Goto(s, id, r);
    hide Effect, Stage, CallOf;
    match r
    case BeginPut => BeginPutKeepsInv(s, id, etag, works);
    case Prepare(_) => PrepareKeepsInv(s, id, etag, works);
    case Commit(record) => CommitKeepsInv(s, id, record, etag, works);
    case CompleteUpload(_) => FinishKeepsInv(s, id, etag, works);
    case Cleanup(_) => FinishKeepsInv(s, id, etag, works);
    case Succeeded(_) => MoveKeepsInv(s, id, r);
    case Failed => MoveKeepsInv(s, id, r);
    case _ => LookupKeepsInv(s, id, etag, works);
  }

  lemma CompleteKeepsInv(s: State, id: RequestId, record: Record, etag: ETag, works: bool)
    requires Inv(s) && id in s.requests && s.requests[id] == CompleteUpload(record) && s.upload == Active
    ensures Inv(CallOf(s, id, etag, works))
  {
    var s' := CallOf(s, id, etag, works);
    assert RequestInv(s, s.requests[id]);
    forall k | k in s'.requests
      ensures RequestInv(s', s'.requests[k])
    {
      assert k != id ==> RequestInv(s, s.requests[k]);
    }
  }

  lemma OthersKeepInv(s: State, a: Action)
    requires Inv(s) && a.Others? && OthersAllowed(s, a)
    ensures Inv(Next(s, a))
  {
    var s' := Next(s, a);
    OthersKeepStoreInv(s, a);
    assert s'.requests == s.requests && s.nextVersion <= s'.nextVersion;
    assert s'.record == s.record && s'.upload == s.upload;
    assert forall v :: v in s'.versions && v < s.nextVersion ==> v in s.versions && s'.versions[v] == s.versions[v];
    assert s'.commits == s.commits;
    hide StoreInv, Next;
    forall k | k in s'.requests
      ensures RequestInv(s', s'.requests[k])
    {
      assert RequestInv(s, s.requests[k]);
    }
  }

  lemma OthersKeepStoreInv(s: State, a: Action)
    requires StoreInv(s) && a.Others? && OthersAllowed(s, a)
    ensures StoreInv(Next(s, a))
  {
  }

  lemma AbortKeepsInv(s: State, a: Action)
    requires Inv(s) && (a.Abort? || a.AbortDeletesParts?)
    ensures Inv(Next(s, a))
  {
    var s' := Next(s, a);
    forall k | k in s'.requests
      ensures RequestInv(s', s'.requests[k])
    {
      assert RequestInv(s, s.requests[k]);
    }
  }

  lemma ArriveKeepsInv(s: State, id: RequestId)
    requires Inv(s) && id !in s.requests
    ensures Inv(Goto(s, id, GetUpload))
  {
    var s' := Goto(s, id, GetUpload);
    forall k | k in s'.requests
      ensures RequestInv(s', s'.requests[k])
    {
      assert k != id ==> RequestInv(s, s.requests[k]);
    }
  }

  lemma StepKeepsInv(s: State, a: Action)
    requires Inv(s)
    ensures Inv(Next(s, a))
  {
    hide CallOf;
    match a
    case Call(id, etag, works) =>
      if id in s.requests {
        CallKeepsInv(s, id, etag, works);
      }
    case Crash(id) =>
      if id in s.requests {
        MoveKeepsInv(s, id, Failed);
      }
    case Arrive(id) =>
      if id !in s.requests {
        ArriveKeepsInv(s, id);
      }
    case Others(_, _, _) =>
      if OthersAllowed(s, a) {
        OthersKeepInv(s, a);
      }
    case Abort => AbortKeepsInv(s, a);
    case AbortDeletesParts => AbortKeepsInv(s, a);
  }

  lemma {:induction false} RunKeepsInv(s: State, actions: seq<Action>)
    requires Inv(s)
    ensures Inv(Run(s, actions))
    decreases |actions|
  {
    if actions != [] {
      StepKeepsInv(s, actions[0]);
      RunKeepsInv(Next(s, actions[0]), actions[1..]);
    }
  }

  // ---- What every run keeps ------------------------------------------------------------------------

  lemma StepKeepsRecord(s: State, a: Action)
    requires s.record.Some?
    ensures Next(s, a).record == s.record
  {
    hide Effect, Stage;
  }

  /** The record never changes once written. */
  lemma {:induction false} RecordIsWrittenOnce(s: State, actions: seq<Action>)
    requires s.record.Some?
    ensures Run(s, actions).record == s.record
    decreases |actions|
  {
    if actions != [] {
      StepKeepsRecord(s, actions[0]);
      RecordIsWrittenOnce(Next(s, actions[0]), actions[1..]);
    }
  }

  /** Over every interleaving of complete requests, crashes, other writers and aborts: at most one version
      commits for the upload and it is the record's; every success carries the record's ETag and follows the
      commit; and parts are cleaned only after that commit, or after an abort. */
  lemma CompletionIsIdempotent(s: State, actions: seq<Action>)
    requires Initial(s)
    ensures var t := Run(s, actions);
            && (t.commits == [] || CommittedOnce(t))
            && (forall id :: id in t.requests && t.requests[id].Succeeded? ==>
                  CommittedOnce(t) && t.requests[id].etag == t.record.value.etag)
            && (t.partsCleaned ==> CommittedOnce(t) || t.upload == Aborted)
  {
    RunKeepsInv(s, actions);
    var t := Run(s, actions);
    assert forall id :: id in t.requests ==> RequestInv(t, t.requests[id]);
  }

  lemma OnlyAbortAborts(s: State, a: Action)
    requires s.upload != Aborted && a != Abort
    ensures Next(s, a).upload != Aborted
  {
    hide Effect, Stage;
  }

  lemma {:induction false} WithoutAbort(s: State, actions: seq<Action>)
    requires s.upload != Aborted && forall i :: 0 <= i < |actions| ==> actions[i] != Abort
    ensures Run(s, actions).upload != Aborted
    decreases |actions|
  {
    if actions != [] {
      OnlyAbortAborts(s, actions[0]);
      WithoutAbort(Next(s, actions[0]), actions[1..]);
    }
  }

  /** In a run without aborts, cleanup never precedes the commit and no committed bytes are deleted. */
  lemma CleanupFollowsCommit(s: State, actions: seq<Action>)
    requires Initial(s) && forall i :: 0 <= i < |actions| ==> actions[i] != Abort
    ensures Run(s, actions).partsCleaned ==> CommittedOnce(Run(s, actions))
    ensures !Run(s, actions).segmentsDeleted
  {
    CompletionIsIdempotent(s, actions);
    RunKeepsInv(s, actions);
    WithoutAbort(s, actions);
  }

  // ---- What becomes of a request that nobody disturbs ---------------------------------------------------

  function Calls(s: State, id: RequestId, etag: ETag, works: bool, n: nat): (s': State)
    decreases n
  {
    if n == 0 then s else Calls(Next(s, Call(id, etag, works)), id, etag, works, n - 1)
  }

  /** The record's version is committed, or its commit would go through. */
  predicate GoesThrough(s: State, record: Record) {
    record.version in s.versions && (s.versions[record.version] == Committed || s.head == record.expectedHead)
  }

  /** What a request that has seen the upload active will be answered with, judged by the state it is in now: the ETag,
      or None if it will be refused. `etag` is that of the parts it lists itself. */
  function VerdictOnActive(s: State, r: Request, etag: ETag): (v: Option<ETag>) {
    match r
    case GetUpload => VerdictOnRecord(s, etag)
    case GetRecord => VerdictOnRecord(s, etag)
    case BeginPut => if s.record.None? then Some(etag) else None
    case Prepare(record) => if s.record.None? && GoesThrough(s, record) then Some(record.etag) else None
    case GetVersion(record) => if GoesThrough(s, record) then Some(record.etag) else None
    case Commit(record) =>
      if (if s.head == record.expectedHead then record.version in s.versions else s.head == Some(record.version))
      then Some(record.etag) else None
    case GetHead(record) => if s.head == Some(record.version) then Some(record.etag) else None
    case CompleteUpload(record) => Some(record.etag)
    case Cleanup(e) => Some(e)
    case Succeeded(e) => Some(e)
    case Failed => None
  }

  function VerdictOnRecord(s: State, etag: ETag): (v: Option<ETag>) {
    if s.record.None? then Some(etag)
    else if GoesThrough(s, s.record.value) then Some(s.record.value.etag) else None
  }

  /** The verdict on any request: a completed upload answers a newcomer with its own ETag, and an abort refuses
      everybody who has not marked the upload completed. */
  function Verdict(s: State, r: Request, etag: ETag): (v: Option<ETag>) {
    if r.GetUpload? && s.upload.Completed? then Some(s.upload.etag)
    else if s.upload == Aborted && CallsLeft(r) > 1 then None
    else VerdictOnActive(s, r, etag)
  }

  /** How many calls a request has left at most. */
  function CallsLeft(r: Request): (n: nat) {
    match r
    case GetUpload => 9
    case GetRecord => 8
    case BeginPut => 7
    case Prepare(_) => 6
    case GetVersion(_) => 5
    case Commit(_) => 4
    case GetHead(_) => 3
    case CompleteUpload(_) => 2
    case Cleanup(_) => 1
    case Succeeded(_) => 0
    case Failed => 0
  }

  /** A call does not change the verdict on its request, and brings it nearer. */
  lemma VerdictHolds(s: State, id: RequestId, etag: ETag, works: bool)
    requires Inv(s) && id in s.requests
    ensures var s', r := CallOf(s, id, etag, works), s.requests[id];
            && id in s'.requests
            && Verdict(s', s'.requests[id], etag) == Verdict(s, r, etag)
            && (CallsLeft(r) > 0 ==> CallsLeft(s'.requests[id]) < CallsLeft(r))
            && (CallsLeft(r) == 0 ==> s'.requests[id] == r)
  {
    assert StoreInv(s) && RequestInv(s, s.requests[id]);
    hide Inv, StoreInv, RequestInv;
    var r := s.requests[id];
    VerdictSteps(s, r, etag, works);
    hide Effect, Stage, CallsLeft;
    VerdictIgnoresRequests(Effect(s, r, etag, works), CallOf(s, id, etag, works).requests, Stage(s, r, etag), etag);
  }

  lemma VerdictIgnoresRequests(s: State, q: map<RequestId, Request>, r: Request, etag: ETag)
    ensures Verdict(s.(requests := q), r, etag) == Verdict(s, r, etag)
  {
  }

  lemma VerdictSteps(s: State, r: Request, etag: ETag, works: bool)
    requires StoreInv(s) && RequestInv(s, r)
    ensures var s', r' := Effect(s, r, etag, works), Stage(s, r, etag);
            && Verdict(s', r', etag) == Verdict(s, r, etag)
            && (CallsLeft(r) > 0 ==> CallsLeft(r') < CallsLeft(r))
            && (CallsLeft(r) == 0 ==> r' == r)
  {
    match r {
      case GetUpload =>
      case GetRecord =>
      case BeginPut =>
      case Prepare(_) =>
      case GetVersion(_) =>
      case Commit(_) =>
      case _ =>
    }
  }

  /** Left to itself, a request is answered after at most nine calls, and the answer is the verdict; if its cleanup
      works, the parts of a completed upload are gone. */
  lemma {:induction false} UndisturbedOutcome(s: State, id: RequestId, etag: ETag, works: bool, n: nat)
    requires Inv(s) && id in s.requests && n >= CallsLeft(s.requests[id])
    ensures var t, v := Calls(s, id, etag, works, n), Verdict(s, s.requests[id], etag);
            && Inv(t) && id in t.requests
            && t.requests[id] == (if v.Some? then Succeeded(v.value) else Failed)
            && (v.Some? && works && CallsLeft(s.requests[id]) > 0 ==> t.partsCleaned)
    decreases n
  {
    if n > 0 {
      var a := Call(id, etag, works);
      VerdictHolds(s, id, etag, works);
      StepKeepsInv(s, a);
      if works {
        CleanupCleans(s, id, etag, works);
      }
      hide Inv, Verdict, CallOf;
      UndisturbedOutcome(Next(s, a), id, etag, works, n - 1);
      if Next(s, a).partsCleaned {
        CleanedStays(Next(s, a), id, etag, works, n - 1);
      }
    }
  }

  lemma CleanupCleans(s: State, id: RequestId, etag: ETag, works: bool)
    requires Inv(s) && id in s.requests && works
    ensures var s' := CallOf(s, id, etag, works);
            s'.requests[id].Succeeded? && CallsLeft(s.requests[id]) > 0 ==> s'.partsCleaned
  {
    assert RequestInv(s, s.requests[id]);
  }

  lemma {:induction false} CleanedStays(s: State, id: RequestId, etag: ETag, works: bool, n: nat)
    requires s.partsCleaned
    ensures Calls(s, id, etag, works, n).partsCleaned
    decreases n
  {
    if n > 0 {
      CleanedStays(Next(s, Call(id, etag, works)), id, etag, works, n - 1);
    }
  }

  /** A retry that nobody disturbs, once there is a record: it succeeds with the record's ETag if the upload is
      completed, or is active and the record's version is committed or can still be; in every other case it is
      refused. */
  lemma RetrySucceedsExactly(s: State, id: RequestId, etag: ETag, works: bool)
    requires Inv(s) && s.record.Some? && id !in s.requests
    ensures var t, record := Calls(Next(s, Arrive(id)), id, etag, works, 9), s.record.value;
            && id in t.requests
            && t.requests[id] ==
                 if s.upload.Completed? || (s.upload == Active && GoesThrough(s, record))
                 then Succeeded(record.etag) else Failed
  {
    StepKeepsInv(s, Arrive(id));
    UndisturbedOutcome(Next(s, Arrive(id)), id, etag, works, 9);
  }

  /** The first request, undisturbed: one fresh version made of its own parts, committed over the head it found, the
      upload completed with it and the request answered. */
  lemma FirstRequestCompletes(s: State, id: RequestId, etag: ETag, works: bool)
    requires Inv(s) && s.upload == Active && s.record == None && id !in s.requests
    ensures var t, v := Calls(Next(s, Arrive(id)), id, etag, works, 8), s.nextVersion;
            && id in t.requests && t.requests[id] == Succeeded(etag)
            && t.record == Some(Record(v, s.head, etag)) && t.commits == [v] && t.head == Some(v)
            && t.upload == Completed(etag, v) && t.partsCleaned == works
  {
    var c := Call(id, etag, works);
    var s0 := Next(s, Arrive(id));
    var s3 := Next(Next(Next(s0, c), c), c);
    var record := Record(s.nextVersion, s.head, etag);
    assert s3.requests[id] == Prepare(record) && s3.record == None && s3.commits == [] && s3.upload == Active;
    assert s3.versions == s.versions[record.version := Pending] && s3.head == record.expectedHead && !s3.partsCleaned;
    assert Calls(s0, id, etag, works, 8) == Calls(s3, id, etag, works, 5) by {
      assert Calls(s0, id, etag, works, 8) == Calls(Next(s0, c), id, etag, works, 7);
      assert Calls(Next(s0, c), id, etag, works, 7) == Calls(Next(Next(s0, c), c), id, etag, works, 6);
    }
    hide Inv, Next, Calls;
    PreparedCompletes(s3, id, record, works);
  }

  lemma PreparedCompletes(s: State, id: RequestId, record: Record, works: bool)
    requires id in s.requests && s.requests[id] == Prepare(record)
    requires s.record == None && s.commits == [] && s.upload == Active && !s.partsCleaned
    requires record.version in s.versions && s.versions[record.version] == Pending && s.head == record.expectedHead
    ensures var t := Calls(s, id, record.etag, works, 5);
            && id in t.requests && t.requests[id] == Succeeded(record.etag)
            && t.record == Some(record) && t.commits == [record.version] && t.head == Some(record.version)
            && t.upload == Completed(record.etag, record.version) && t.partsCleaned == works
  {
    var c := Call(id, record.etag, works);
    var s1 := Next(s, c);
    assert s1 == s.(record := Some(record), requests := s.requests[id := GetVersion(record)]);
    var s2 := Next(s1, c);
    assert s2.requests[id] == Commit(record);
    var s3 := Next(s2, c);
    assert s3.requests[id] == CompleteUpload(record) && s3.commits == [record.version];
    var s4 := Next(s3, c);
    assert Calls(s4, id, record.etag, works, 1) == Next(s4, c);
    assert Calls(s2, id, record.etag, works, 3) == Calls(s3, id, record.etag, works, 2);
    assert Calls(s1, id, record.etag, works, 4) == Calls(s2, id, record.etag, works, 3);
  }

  /** A client that has lost the answer and asks again: two calls, the same ETag, and nothing committed or changed. */
  lemma RetryOfCompletedSucceeds(s: State, id: RequestId, etag: ETag, works: bool)
    requires Inv(s) && s.upload.Completed? && id !in s.requests
    ensures var t := Run(s, [Arrive(id), Call(id, etag, works), Call(id, etag, works)]);
            && s.record.Some? && id in t.requests && t.requests[id] == Succeeded(s.record.value.etag)
            && t == s.(requests := t.requests, partsCleaned := s.partsCleaned || works)
  {
    var c := Call(id, etag, works);
    assert [Arrive(id), c, c][1..] == [c, c] && [c, c][1..] == [c];
    RunOne(Next(Next(s, Arrive(id)), c), c);
  }

  /** A request that lost the race for the commit: the head is the record's version, and it succeeds with the record's
      ETag all the same. */
  lemma LoserSucceeds(s: State, id: RequestId, etag: ETag, works: bool)
    requires Inv(s) && s.upload != Aborted && id in s.requests && (s.requests[id].Commit? || s.requests[id].GetHead?)
    requires s.head == Some(s.requests[id].record.version)
    ensures var t := Calls(s, id, etag, works, 4);
            && s.record == Some(s.requests[id].record)
            && id in t.requests && t.requests[id] == Succeeded(s.record.value.etag)
            && t.versions == s.versions && t.commits == s.commits && t.record == s.record
  {
    assert RequestInv(s, s.requests[id]);
    UndisturbedOutcome(s, id, etag, works, 4);
    LoserCommitsNothing(s, id, etag, works, 4);
  }

  lemma {:induction false} LoserCommitsNothing(s: State, id: RequestId, etag: ETag, works: bool, n: nat)
    requires Inv(s) && id in s.requests && CallsLeft(s.requests[id]) <= 4
    requires s.requests[id].Commit? ==> s.head == Some(s.requests[id].record.version)
    ensures var t := Calls(s, id, etag, works, n);
            t.versions == s.versions && t.commits == s.commits && t.record == s.record
    decreases n
  {
    if n > 0 {
      var s' := Next(s, Call(id, etag, works));
      assert s'.versions == s.versions && s'.commits == s.commits && s'.record == s.record;
      assert !s'.requests[id].Commit? && CallsLeft(s'.requests[id]) <= 4;
      StepKeepsInv(s, Call(id, etag, works));
      LoserCommitsNothing(s', id, etag, works, n - 1);
    }
  }

  /** A request that dies without an answer stays dead: no later call or commit is its own. */
  lemma {:induction false} CrashIsFinal(s: State, id: RequestId, actions: seq<Action>)
    requires id in s.requests && !s.requests[id].Succeeded?
    ensures var t := Run(Next(s, Crash(id)), actions); id in t.requests && t.requests[id] == Failed
    decreases |actions|
  {
    var t := Next(s, Crash(id));
    if actions != [] {
      var a := actions[0];
      hide Effect, Stage;
      assert Next(t, a).requests[id] == Failed by { FailedStays(t, id, a); }
      CrashIsFinal(Next(t, a), id, actions[1..]);
      assert Next(Next(t, a), Crash(id)) == Next(t, a);
    }
  }

  lemma FailedStays(s: State, id: RequestId, a: Action)
    requires id in s.requests && s.requests[id] == Failed
    ensures id in Next(s, a).requests && Next(s, a).requests[id] == Failed
    ensures forall etag, works :: a == Call(id, etag, works) ==> Next(s, a) == s
  {
    forall etag, works | a == Call(id, etag, works)
      ensures Next(s, a) == s
    {
      assert s.requests[id := Failed] == s.requests;
    }
  }

  /** What other writers of the key may do to it, and that they do nothing else. */
  lemma OthersTouchTheKey(s: State, a: Action)
    requires a.Others?
    ensures var t := Next(s, a);
            && t == s.(versions := t.versions, nextVersion := t.nextVersion, head := t.head)
            && (!OthersAllowed(s, a) ==> t == s)
            && (OthersAllowed(s, a) ==>
                  && t.head == a.newHead && t.nextVersion == s.nextVersion + (if a.put then 1 else 0)
                  && (forall v :: v in t.versions <==>
                        (a.put && v == s.nextVersion) || (v in s.versions && v !in a.removed))
                  && (forall v :: v in t.versions ==>
                        t.versions[v] == if a.put && v == s.nextVersion then Committed else s.versions[v]))
  {
  }

  /** What a commit does to the key: an unversioned bucket loses the version that was its head, a versioned one keeps
      it, and the new version is the head. */
  lemma CommitRetires(s: State, id: RequestId, etag: ETag, works: bool)
    requires id in s.requests && s.requests[id].Commit? && CommitsNow(s, s.requests[id].record)
    ensures var t, v := CallOf(s, id, etag, works), s.requests[id].record.version;
            && t.head == Some(v) && v in t.versions && t.versions[v] == Committed && t.commits == s.commits + [v]
            && (forall w :: w != v ==>
                  (w in t.versions <==> w in s.versions && (s.versioned || s.head != Some(w))))
            && (forall w :: w != v && w in t.versions ==> t.versions[w] == s.versions[w])
  {
  }

  /** The upload's version stands: it has been committed and nobody has removed it since. */
  predicate Standing(s: State) {
    s.record.Some? && s.record.value.version in s.versions && s.versions[s.record.value.version] == Committed
  }

  /** The version of the upload stands and the segments it lists are gone. */
  predicate CommittedBytesLost(s: State) {
    Standing(s) && s.segmentsDeleted
  }

  /** The repository does not look for a completion record when it aborts. While the committed version stands, an abort
      deletes its segments exactly when the upload has not yet been marked completed. */
  lemma AbortAfterCommitLosesBytesExactly(s: State, actions: seq<Action>)
    requires Initial(s)
    requires Standing(Run(s, actions))
    ensures CommittedBytesLost(Run(s, actions + [Abort, AbortDeletesParts])) <==> !Run(s, actions).upload.Completed?
  {
    RunKeepsInv(s, actions);
    var t := Run(s, actions);
    RunAppend(s, actions, [Abort, AbortDeletesParts]);
    assert [Abort, AbortDeletesParts][1..] == [AbortDeletesParts];
    assert Run(t, [Abort, AbortDeletesParts]) == Next(Next(t, Abort), AbortDeletesParts);
  }

  // Nor does the commit look at the upload: a request that has got past the upload's state commits even after an abort.

  /** A request that will still get to commit the record: it has seen the upload active. */
  predicate OnItsWay(r: Request) { r.GetRecord? || r.GetVersion? || r.Commit? }

  ghost predicate SomeoneOnTheWay(s: State) {
    exists id :: id in s.requests && OnItsWay(s.requests[id])
  }

  /** The head the record expects is there, or can be the head again. */
  predicate HeadPossible(s: State, record: Record) {
    record.expectedHead.None? ||
    (record.expectedHead.value in s.versions && s.versions[record.expectedHead.value] == Committed)
  }

  /** The record's version has not been committed, and may still be. */
  ghost predicate CommitPossible(s: State) {
    && s.record.Some? && s.commits == []
    && s.record.value.version in s.versions && HeadPossible(s, s.record.value)
    && SomeoneOnTheWay(s)
  }

  /** An aborted upload whose version does not stand and can no longer be committed. */
  ghost predicate Finished(s: State) {
    s.upload == Aborted && !Standing(s) && !CommitPossible(s)
  }

  /** None of the versions that calls touch brings the record's version or its expected head back. */
  lemma CallCommitsNothing(s: State, id: RequestId, etag: ETag, works: bool)
    requires StoreInv(s) && Finished(s) && id in s.requests && RequestInv(s, s.requests[id])
    ensures var s' := CallOf(s, id, etag, works);
            && s'.commits == s.commits && s'.record == s.record && !Standing(s')
            && (s.record.Some? && s.record.value.version in s'.versions ==> s.record.value.version in s.versions)
            && (s.record.Some? && HeadPossible(s', s.record.value) ==> HeadPossible(s, s.record.value))
  {
    assert OnItsWay(s.requests[id]) ==> SomeoneOnTheWay(s);
  }

  /** An aborted upload lets nobody past its state any more. */
  lemma CallLetsNobodyIn(s: State, id: RequestId, etag: ETag, works: bool)
    requires s.upload == Aborted && id in s.requests && RequestInv(s, s.requests[id])
    ensures SomeoneOnTheWay(CallOf(s, id, etag, works)) ==> SomeoneOnTheWay(s)
  {
    assert OnItsWay(Stage(s, s.requests[id], etag)) ==> OnItsWay(s.requests[id]);
    hide Stage, Effect;
    var s' := CallOf(s, id, etag, works);
    if SomeoneOnTheWay(s') {
      var k :| k in s'.requests && OnItsWay(s'.requests[k]);
      assert k in s.requests && OnItsWay(s.requests[k]);
    }
  }

  lemma FinishedCall(s: State, id: RequestId, etag: ETag, works: bool)
    requires StoreInv(s) && Finished(s) && id in s.requests && RequestInv(s, s.requests[id])
    ensures Finished(CallOf(s, id, etag, works))
  {
    CallCommitsNothing(s, id, etag, works);
    CallLetsNobodyIn(s, id, etag, works);
    hide CallOf, HeadPossible, SomeoneOnTheWay;
  }

  lemma FinishedStep(s: State, a: Action)
    requires Inv(s) && Finished(s)
    ensures Finished(Next(s, a))
  {
    var s' := Next(s, a);
    if a.Call? && a.id in s.requests {
      assert RequestInv(s, s.requests[a.id]);
      FinishedCall(s, a.id, a.etag, a.cleanupWorks);
    } else {
      RestBringsNothingBack(s, a);
      hide Inv, HeadPossible;
      if SomeoneOnTheWay(s') {
        var k :| k in s'.requests && OnItsWay(s'.requests[k]);
        assert k in s.requests && OnItsWay(s.requests[k]);
      }
    }
  }

  lemma RestBringsNothingBack(s: State, a: Action)
    requires StoreInv(s) && s.upload == Aborted && !Standing(s) && !(a.Call? && a.id in s.requests)
    ensures var s' := Next(s, a);
            && s'.commits == s.commits && s'.upload == Aborted && s'.record == s.record && !Standing(s')
            && (s.record.Some? && s.record.value.version in s'.versions ==> s.record.value.version in s.versions)
            && (s.record.Some? && HeadPossible(s', s.record.value) ==> HeadPossible(s, s.record.value))
  {
  }

  lemma {:induction false} FinishedForGood(s: State, actions: seq<Action>)
    requires Inv(s) && Finished(s)
    ensures Finished(Run(s, actions))
    decreases |actions|
  {
    hide Inv, Next, Finished;
    if actions != [] {
      FinishedStep(s, actions[0]);
      StepKeepsInv(s, actions[0]);
      FinishedForGood(Next(s, actions[0]), actions[1..]);
    }
    assert Run(s, actions) == if actions == [] then s else Run(Next(s, actions[0]), actions[1..]);
  }

  /** The rest of a request that is on its way, when nothing comes between: it commits. */
  lemma Commits(s: State, id: RequestId) returns (actions: seq<Action>)
    requires StoreInv(s) && s.record.Some? && s.commits == [] && id in s.requests && RequestInv(s, s.requests[id])
    requires OnItsWay(s.requests[id]) && s.record.value.version in s.versions && s.head == s.record.value.expectedHead
    ensures Standing(Run(s, actions)) && Run(s, actions).segmentsDeleted == s.segmentsDeleted
    decreases if s.requests[id].GetRecord? then 2 else if s.requests[id].GetVersion? then 1 else 0
  {
    var c := Call(id, 0, true);
    var s' := Next(s, c);
    if s.requests[id].Commit? {
      actions := [c];
      RunOne(s, c);
    } else {
      var rest := Commits(s', id);
      actions := [c] + rest;
      assert actions[1..] == rest;
    }
  }

  /** What is lost when an upload is aborted and its parts are deleted, over everything that can happen afterwards. */
  ghost predicate AbortCanLose(s: State) {
    exists more :: CommittedBytesLost(Run(s, [Abort, AbortDeletesParts] + more))
  }

  function AbortedState(s: State): (s': State)
    requires s.upload == Active
  {
    s.(upload := Aborted, partsCleaned := true, segmentsDeleted := true)
  }

  lemma RunAborted(s: State, more: seq<Action>)
    requires s.upload == Active
    ensures Run(s, [Abort, AbortDeletesParts] + more) == Run(AbortedState(s), more)
  {
    RunAppend(s, [Abort, AbortDeletesParts], more);
    assert [Abort, AbortDeletesParts][1..] == [AbortDeletesParts];
    RunOne(Next(s, Abort), AbortDeletesParts);
  }

  lemma AbortedKeeps(s: State)
    requires Inv(s) && s.upload == Active
    ensures Inv(AbortedState(s))
    ensures CommitPossible(AbortedState(s)) <==> CommitPossible(s)
  {
    AbortKeepsInv(s, Abort);
    AbortKeepsInv(Next(s, Abort), AbortDeletesParts);
    assert AbortedState(s) == Next(Next(s, Abort), AbortDeletesParts);
    var t := AbortedState(s);
    assert t.requests == s.requests;
    assert SomeoneOnTheWay(t) <==> SomeoneOnTheWay(s);
  }

  /** After an abort, a request on its way and a head that fits are enough. */
  lemma LateCommit(t: State) returns (more: seq<Action>)
    requires Inv(t) && CommitPossible(t) && t.segmentsDeleted
    ensures CommittedBytesLost(Run(t, more))
  {
    var record := t.record.value;
    var back := Others({}, false, record.expectedHead);
    var t' := Next(t, back);
    assert t'.versions == t.versions && t'.head == record.expectedHead;
    StepKeepsInv(t, back);
    var id :| id in t.requests && OnItsWay(t.requests[id]);
    assert RequestInv(t', t'.requests[id]);
    var rest := Commits(t', id);
    more := [back] + rest;
    assert more[1..] == rest;
  }

  /** An abort of an active upload can leave a committed version without its bytes exactly when the version stands
      committed, or the completion record's version and expected head still exist and a request is on its way to commit
      it. Without a record, the abort is safe whatever is in flight. */
  lemma AbortLosesBytesExactly(s: State, actions: seq<Action>)
    requires Initial(s) && Run(s, actions).upload == Active
    ensures var t := Run(s, actions);
            && (AbortCanLose(t) <==> Standing(t) || CommitPossible(t))
            && (t.record.None? ==> !AbortCanLose(t))
  {
    RunKeepsInv(s, actions);
    var t := Run(s, actions);
    AbortedKeeps(t);
    hide Run, Next, Inv, CommitPossible;
    if Standing(t) {
      RunAborted(t, []);
      RunNothing(AbortedState(t));
      assert CommittedBytesLost(Run(t, [Abort, AbortDeletesParts] + []));
    } else if CommitPossible(t) {
      var more := LateCommit(AbortedState(t));
      RunAborted(t, more);
      PossibleHasRecord(t);
    } else {
      forall more
        ensures !CommittedBytesLost(Run(t, [Abort, AbortDeletesParts] + more))
      {
        RunAborted(t, more);
        FinishedForGood(AbortedState(t), more);
      }
    }
  }

  lemma PossibleHasRecord(s: State)
    requires CommitPossible(s)
    ensures s.record.Some?
  {
  }

  lemma RunNothing(s: State)
    ensures Run(s, []) == s
  {
  }

  /** The shortest such run, from any initial state: one request has committed and is about to mark the upload
      completed. */
  lemma AbortRace(s: State)
    requires Initial(s)
    ensures exists actions :: CommittedBytesLost(Run(s, actions))
  {
    var actions := CommittingRun(s);
    hide Run, Initial, CommittedBytesLost;
    AbortAfterCommitLosesBytesExactly(s, actions);
  }

  /** One request, up to its commit. */
  lemma CommittingRun(s: State) returns (actions: seq<Action>)
    requires Initial(s)
    ensures Standing(Run(s, actions)) && Run(s, actions).upload == Active
  {
    var step := Call(0, 7, true);
    var s1 := Next(s, Arrive(0));
    assert s1 == Goto(s, 0, GetUpload) && s1.requests[0] == GetUpload;
    hide Next, Run;
    FirstHalf(s1, 0, 7);
    SecondHalf(Next(Next(Next(s1, step), step), step), 0, 7, Record(s.nextVersion, s.head, 7));
    var six := [step, step, step, step, step, step];
    actions := [Arrive(0)] + six;
    RunAppend(s, [Arrive(0)], six);
    RunOne(s, Arrive(0));
    SixCalls(s1, step);
  }

  /** And one in which the abort comes first: the record is written, the parts are deleted, and the request goes on to
      commit the version that lists them. */
  lemma AbortBeforeCommitRace(s: State)
    requires Initial(s)
    ensures exists actions :: Run(s, actions).commits == [] && AbortCanLose(Run(s, actions))
  {
    var step := Call(0, 7, true);
    var s1 := Next(s, Arrive(0));
    assert s1 == Goto(s, 0, GetUpload) && s1.requests[0] == GetUpload;
    FirstHalf(s1, 0, 7);
    var s4 := Next(Next(Next(s1, step), step), step);
    PrepareMakesCommitPossible(s4, 0, 7, Record(s.nextVersion, s.head, 7));
    hide Next, Run, CommitPossible;
    var four := [step, step, step] + [step];
    RunAppend(s, [Arrive(0)], four);
    RunOne(s, Arrive(0));
    RunAppend(s1, [step, step, step], [step]);
    ThreeCalls(s1, step);
    RunOne(s4, step);
    AbortLosesBytesExactly(s, [Arrive(0)] + four);
  }

  lemma PrepareMakesCommitPossible(s: State, id: RequestId, etag: ETag, record: Record)
    requires s.upload == Active && s.record == None && id in s.requests && s.requests[id] == Prepare(record)
    requires s.commits == []
    requires record.version in s.versions && HeadPossible(s, record)
    ensures var t := Next(s, Call(id, etag, true));
            t.upload == Active && t.commits == [] && CommitPossible(t)
  {
    var t := Next(s, Call(id, etag, true));
    assert OnItsWay(t.requests[id]);
  }

  lemma RunOne(s: State, a: Action)
    ensures Run(s, [a]) == Next(s, a)
  {
    assert [a][1..] == [];
  }

  lemma FirstHalf(s: State, id: RequestId, etag: ETag)
    requires s.upload == Active && s.record == None && id in s.requests && s.requests[id] == GetUpload
    ensures var c := Call(id, etag, true);
            var t := Next(Next(Next(s, c), c), c);
            && id in t.requests && t.requests[id] == Prepare(Record(s.nextVersion, s.head, etag))
            && t.upload == Active && t.record == None && t.head == s.head && t.commits == s.commits
            && t.versions == s.versions[s.nextVersion := Pending]
  {
  }

  lemma SecondHalf(s: State, id: RequestId, etag: ETag, record: Record)
    requires s.upload == Active && s.record == None && id in s.requests && s.requests[id] == Prepare(record)
    requires s.head == record.expectedHead && record.version in s.versions && s.versions[record.version] == Pending
    ensures var c := Call(id, etag, true);
            var t := Next(Next(Next(s, c), c), c);
            t.upload == Active && Standing(t)
  {
    var c := Call(id, etag, true);
    var s1 := Next(s, c);
    assert s1 == Goto(s, id, GetVersion(record)).(record := Some(record));
    var s2 := Next(s1, c);
    assert s2 == Goto(s1, id, Commit(record));
  }

  lemma SixCalls(s: State, a: Action)
    ensures Run(s, [a, a, a, a, a, a]) == Next(Next(Next(Next(Next(Next(s, a), a), a), a), a), a)
  {
    RunAppend(s, [a, a, a], [a, a, a]);
    assert [a, a, a] + [a, a, a] == [a, a, a, a, a, a];
    ThreeCalls(s, a);
    ThreeCalls(Next(Next(Next(s, a), a), a), a);
  }

  lemma ThreeCalls(s: State, a: Action)
    ensures Run(s, [a, a, a]) == Next(Next(Next(s, a), a), a)
  {
    assert [a, a, a][1..] == [a, a] && [a, a][1..] == [a] && [a][1..] == [];
    assert Run(Next(Next(s, a), a), [a]) == Next(Next(Next(s, a), a), a);
  }
}
