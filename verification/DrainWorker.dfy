/** The workers behind the drain protocol: MoveObjectVersion and ReclaimOperation
    (internal/drain/worker.go) and RunOnce (internal/gc/worker.go), over a metadata repository and a
    segment store whose calls may fail. Each store call is one DrainProtocol step, and a worker that nobody
    interrupts is a run of such steps, to which the protocol's theorems apply. What comes in between when several
    workers and clients run at once is the subject of DrainProtocol itself, whose runs interleave freely: there
    the publish rule, which a lone worker always keeps, becomes an assumption. */
module DrainWorker {
  import opened Bytes
  import opened DrainProtocol

  datatype AttemptStatus = AttemptSkipped | AttemptCopied | AttemptRetryable | AttemptProtected | AttemptQueuedGC

  /** Id 0 stands for a missing segment id. */
  datatype Attempt = Attempt(source: SegmentId, target: SegmentId, status: AttemptStatus)

  datatype Operation = Operation(status: Status, scanned: nat, copied: nat, skipped: nat,
                                 protected: nat, retryable: nat, attempts: seq<Attempt>)

  /** `published`: the version lists the new refs. `recorded`: the operation is on record. `failed`: the call
      answered with an error. */
  datatype MoveResult =
    | NoSuchVersion
    | MoveResult(operation: Operation, published: bool, recorded: bool, failed: bool)

  function OutcomeOf(a: Attempt): (o: Outcome) {
    match a.status
    case AttemptSkipped => Skipped
    case AttemptCopied => Copied(a.target)
    case _ => Retryable
  }

  function Outcomes(attempts: seq<Attempt>): (r: seq<Outcome>)
    ensures |r| == |attempts|
    ensures forall i :: 0 <= i < |attempts| ==> r[i] == OutcomeOf(attempts[i])
  {
    seq(|attempts|, i requires 0 <= i < |attempts| => OutcomeOf(attempts[i]))
  }

  function Sources(attempts: seq<Attempt>): (r: seq<SegmentId>)
    ensures |r| == |attempts|
    ensures forall i :: 0 <= i < |attempts| ==> r[i] == attempts[i].source
  {
    seq(|attempts|, i requires 0 <= i < |attempts| => attempts[i].source)
  }

  /** An operation as it is put on record. */
  function RecordFor(op: Operation, source: Volume): (r: Record) {
    Record(op.status, source, Sources(op.attempts), Outcomes(op.attempts))
  }

  datatype ReclaimResult = ReclaimResult(operation: Operation, queued: nat)

  datatype GCStatus = GCDeleted | GCSkipped | GCRetryable

  datatype GCAttempt = GCAttempt(segment: SegmentId, status: GCStatus)

  datatype GCRecord = GCRecord(status: Status, scanned: nat, deleted: nat, skipped: nat, retryable: nat,
                               attempts: seq<GCAttempt>)

  datatype PublishError = PublishNotFound | ObjectLocked | PublishInvalid | PublishUnavailable

  /** What the segment store answers when a ref is copied: the source can be read, the copy be written, the source be
      closed; and the volume the copy lands on. */
  datatype CopyAnswer = CopyAnswer(readable: bool, writable: bool, closable: bool, volume: Volume)

  /** What the repository answers around a move: it can be reached, the version is under an object lock, the operation
      can be put on record. */
  datatype PublishAnswer = PublishAnswer(available: bool, locked: bool, recordable: bool)

  /** What the stores answer when an attempt is reclaimed: the copy validates, the protected refs can be listed, the
      candidate can be queued. */
  datatype ReclaimAnswer = ReclaimAnswer(validated: bool, listed: bool, queueable: bool)

  /** What a GC run meets: the admission hook, the deletes, a shared-object release store and an acknowledging queue if
      there are such, each with its answer for every segment. */
  datatype GCAnswers = GCAnswers(admits: SegmentId -> bool, deletes: SegmentId -> bool,
                                 releases: Option<SegmentId -> bool>, acks: Option<SegmentId -> bool>)

  /** The segment store and the placements agree with the protocol state. */
  ghost predicate StoreRep(data: map<SegmentId, seq<byte>>, nextId: SegmentId, placements: map<SegmentId, Volume>,
                           s: State) {
    && IdsInv(s) && s.nextId == nextId
    && placements.Keys == s.catalog.Keys
    && (forall id :: id in placements ==> placements[id] == s.catalog[id].volume)
    && data.Keys == s.present
    && (forall id :: id in data ==> data[id] == s.catalog[id].bytes)
  }

  ghost predicate QueueRep(queue: seq<SegmentId>, candidates: set<SegmentId>) {
    && (forall id :: id in candidates <==> id in queue)
    && (forall i, j :: 0 <= i < j < |queue| ==> queue[i] != queue[j])
  }

  lemma WriteRep(data: map<SegmentId, seq<byte>>, nextId: SegmentId, placements: map<SegmentId, Volume>, s: State,
                 id: SegmentId, volume: Volume, role: Role)
    requires StoreRep(data, nextId, placements, s) && id in data
    ensures StoreRep(data[nextId := data[id]], nextId + 1, placements[nextId := volume],
                     Write(s, Segment(volume, s.catalog[id].bytes), role))
  {
  }

  lemma NotedRep(data: map<SegmentId, seq<byte>>, nextId: SegmentId, placements: map<SegmentId, Volume>, s: State,
                 move: MoveId, o: Outcome)
    requires StoreRep(data, nextId, placements, s) && move in s.moves
    ensures StoreRep(data, nextId, placements, Noted(s, move, o))
  {
  }

  predicate AnyStatus(attempts: seq<Attempt>, status: AttemptStatus) {
    exists i :: 0 <= i < |attempts| && attempts[i].status == status
  }

  lemma AnyStatusAppend(attempts: seq<Attempt>, a: Attempt, status: AttemptStatus)
    ensures AnyStatus(attempts + [a], status) <==> AnyStatus(attempts, status) || a.status == status
  {
    var more := attempts + [a];
    assert more[|attempts|] == a;
    assert forall i :: 0 <= i < |attempts| ==> more[i] == attempts[i];
  }

  /** How many attempts ended with the status. */
  ghost function Count(attempts: seq<Attempt>, status: AttemptStatus): (n: nat) {
    if attempts == [] then 0 else
      var last := |attempts| - 1;
      Count(attempts[..last], status) + if attempts[last].status == status then 1 else 0
  }

  lemma CountAppend(attempts: seq<Attempt>, a: Attempt, status: AttemptStatus)
    ensures Count(attempts + [a], status) == Count(attempts, status) + if a.status == status then 1 else 0
  {
    assert (attempts + [a])[..|attempts|] == attempts;
  }

  lemma {:induction false} CountIsAny(attempts: seq<Attempt>, status: AttemptStatus)
    ensures Count(attempts, status) > 0 <==> AnyStatus(attempts, status)
  {
    if attempts != [] {
      var last := |attempts| - 1;
      CountIsAny(attempts[..last], status);
      assert attempts == attempts[..last] + [attempts[last]];
      AnyStatusAppend(attempts[..last], attempts[last], status);
    }
  }

  /** The counters of a move are the numbers of its attempts of each kind. */
  ghost predicate Tallied(op: Operation, refs: seq<SegmentId>) {
    && op.copied + op.skipped + op.retryable == |op.attempts| <= |refs|
    && (forall i :: 0 <= i < |op.attempts| ==>
          && op.attempts[i].source == refs[i]
          && op.attempts[i].status in {AttemptSkipped, AttemptCopied, AttemptRetryable})
    && op.copied == Count(op.attempts, AttemptCopied)
    && op.skipped == Count(op.attempts, AttemptSkipped)
    && op.retryable == Count(op.attempts, AttemptRetryable)
  }

  function Tally(op: Operation, a: Attempt): (op': Operation) {
    op.(attempts := op.attempts + [a],
        copied := op.copied + if a.status == AttemptCopied then 1 else 0,
        skipped := op.skipped + if a.status == AttemptSkipped then 1 else 0,
        retryable := op.retryable + if a.status == AttemptRetryable then 1 else 0)
  }

  lemma TallyKeeps(op: Operation, refs: seq<SegmentId>, a: Attempt)
    requires Tallied(op, refs) && |op.attempts| < |refs| && a.source == refs[|op.attempts|]
    requires a.status in {AttemptSkipped, AttemptCopied, AttemptRetryable}
    ensures Tallied(Tally(op, a), refs)
    ensures Outcomes(Tally(op, a).attempts) == Outcomes(op.attempts) + [OutcomeOf(a)]
  {
    hide Count;
    CountAppend(op.attempts, a, AttemptCopied);
    CountAppend(op.attempts, a, AttemptSkipped);
    CountAppend(op.attempts, a, AttemptRetryable);
  }

  /** The refs kept and copied so far, as the loop accumulates them. */
  function Kept(attempts: seq<Attempt>): (r: seq<SegmentId>) {
    if attempts == [] then [] else
      var a := attempts[|attempts| - 1];
      Kept(attempts[..|attempts| - 1]) +
      (match a.status case AttemptSkipped => [a.source] case AttemptCopied => [a.target] case _ => [])
  }

  lemma {:induction false} KeptIsReplacement(op: Operation, refs: seq<SegmentId>)
    requires Tallied(op, refs) && !AnyStatus(op.attempts, AttemptRetryable)
    ensures |Kept(op.attempts)| == |op.attempts|
    ensures Kept(op.attempts) == Replacement(refs[..|op.attempts|], Outcomes(op.attempts))
    decreases |op.attempts|
  {
    KeptPointwise(op.attempts);
    var n := |op.attempts|;
    forall i | 0 <= i < n
      ensures Kept(op.attempts)[i] == Replacement(refs[..n], Outcomes(op.attempts))[i]
    {
      assert op.attempts[i].source == refs[i];
    }
  }

  lemma {:induction false} KeptPointwise(attempts: seq<Attempt>)
    requires forall i :: 0 <= i < |attempts| ==> attempts[i].status in {AttemptSkipped, AttemptCopied, AttemptRetryable}
    requires !AnyStatus(attempts, AttemptRetryable)
    ensures |Kept(attempts)| == |attempts|
    ensures forall i :: 0 <= i < |attempts| ==>
              var a := attempts[i]; Kept(attempts)[i] == if a.status == AttemptCopied then a.target else a.source
  {
    if attempts != [] {
      var n := |attempts| - 1;
      var init := attempts[..n];
      assert attempts == init + [attempts[n]];
      AnyStatusAppend(init, attempts[n], AttemptRetryable);
      KeptPointwise(init);
    }
  }

  lemma KeptAppend(attempts: seq<Attempt>, a: Attempt)
    ensures Kept(attempts + [a]) ==
              Kept(attempts) +
              if a.status == AttemptSkipped then [a.source] else if a.status == AttemptCopied then [a.target] else []
  {
    assert (attempts + [a])[..|attempts|] == attempts;
  }

  predicate On(placements: map<SegmentId, Volume>, id: SegmentId, volume: Volume) {
    id in placements && placements[id] == volume
  }

  /** What becomes of each ref: those off the source are skipped; the others are copied exactly when the store lets them
      be read, written and closed and the copy lands where it is wanted. `stored` is the store before the move. */
  predicate Placed(placements: map<SegmentId, Volume>, stored: map<SegmentId, seq<byte>>, attempts: seq<Attempt>,
                   copies: nat -> CopyAnswer, source: Volume, target: Volume)
  {
    forall i :: 0 <= i < |attempts| ==> PlacedAttempt(placements, stored, attempts[i], copies(i), source, target)
  }

  predicate PlacedAttempt(placements: map<SegmentId, Volume>, stored: map<SegmentId, seq<byte>>, a: Attempt,
                          answer: CopyAnswer, source: Volume, target: Volume)
  {
    && a.source in placements
    && (a.status == AttemptSkipped <==> !On(placements, a.source, source))
    && (a.status == AttemptCopied <==>
          && On(placements, a.source, source) && a.source in stored
          && answer.readable && answer.writable && answer.closable && (target == ANY || answer.volume == target))
    && (a.status == AttemptCopied ==> On(placements, a.target, answer.volume))
  }

  /** Nothing that was placed moves, appears or disappears. */
  ghost predicate Untouched(before: map<SegmentId, Volume>, stored: map<SegmentId, seq<byte>>,
                          placements: map<SegmentId, Volume>, data: map<SegmentId, seq<byte>>)
  {
    forall k :: k in before ==>
      && k in placements && placements[k] == before[k]
      && (k in data <==> k in stored) && (k in data ==> data[k] == stored[k])
  }

  lemma CopyPlaces(before: map<SegmentId, Volume>, stored: map<SegmentId, seq<byte>>, next: SegmentId, a: Attempt,
                   answer: CopyAnswer, source: Volume, target: Volume)
    requires On(before, a.source, source) && next !in before
    requires a.status in {AttemptCopied, AttemptRetryable} && (a.status == AttemptCopied ==> a.target == next)
    requires a.status == AttemptCopied <==>
               && a.source in stored && answer.readable && answer.writable && answer.closable
               && (target == ANY || answer.volume == target)
    ensures var written := answer.readable && a.source in stored && answer.writable;
            var placements := if written then before[next := answer.volume] else before;
            && PlacedAttempt(placements, stored, a, answer, source, target)
            && Untouched(before, stored, placements, if written then stored[next := stored[a.source]] else stored)
  {
  }

  lemma PlacedAppend(before: map<SegmentId, Volume>, placements: map<SegmentId, Volume>,
                     stored: map<SegmentId, seq<byte>>, attempts: seq<Attempt>, a: Attempt,
                     copies: nat -> CopyAnswer, source: Volume, target: Volume)
    requires Placed(before, stored, attempts, copies, source, target)
    requires PlacedAttempt(placements, stored, a, copies(|attempts|), source, target)
    requires forall k :: k in before ==> k in placements && placements[k] == before[k]
    ensures Placed(placements, stored, attempts + [a], copies, source, target)
  {
    var more := attempts + [a];
    forall i | 0 <= i < |more|
      ensures PlacedAttempt(placements, stored, more[i], copies(i), source, target)
    {
      assert i < |attempts| ==> PlacedAttempt(before, stored, attempts[i], copies(i), source, target);
    }
  }

  /** The loop of a move: its counters, the refs collected so far and where everything lies. */
  ghost predicate Underway(op: Operation, refs: seq<SegmentId>, replacement: seq<SegmentId>,
                           placements: map<SegmentId, Volume>, stored: map<SegmentId, seq<byte>>,
                           copies: nat -> CopyAnswer, source: Volume, target: Volume)
  {
    && Tallied(op, refs) && replacement == Kept(op.attempts)
    && Placed(placements, stored, op.attempts, copies, source, target)
    && forall id :: id in refs ==> id in placements
  }

  lemma UnderwayStarts(op: Operation, refs: seq<SegmentId>, placements: map<SegmentId, Volume>,
                       stored: map<SegmentId, seq<byte>>, copies: nat -> CopyAnswer, source: Volume, target: Volume)
    requires op == Operation(RetryPending, |refs|, 0, 0, 0, 0, []) && forall id :: id in refs ==> id in placements
    ensures Underway(op, refs, [], placements, stored, copies, source, target) && Outcomes(op.attempts) == []
  {
  }

  lemma UnderwayNext(op: Operation, refs: seq<SegmentId>, replacement: seq<SegmentId>, before: map<SegmentId, Volume>,
                     placements: map<SegmentId, Volume>, stored: map<SegmentId, seq<byte>>,
                     copies: nat -> CopyAnswer, source: Volume, target: Volume, a: Attempt)
    requires Underway(op, refs, replacement, before, stored, copies, source, target)
    requires |op.attempts| < |refs| && a.source == refs[|op.attempts|]
    requires a.status in {AttemptSkipped, AttemptCopied, AttemptRetryable}
    requires PlacedAttempt(placements, stored, a, copies(|op.attempts|), source, target)
    requires forall k :: k in before ==> k in placements && placements[k] == before[k]
    ensures Underway(Tally(op, a), refs,
                     replacement + (if a.status == AttemptSkipped then [a.source]
                                    else if a.status == AttemptCopied then [a.target] else []),
                     placements, stored, copies, source, target)
    ensures Outcomes(Tally(op, a).attempts) == Outcomes(op.attempts) + [OutcomeOf(a)]
    ensures Tally(op, a).scanned == op.scanned && Tally(op, a).protected == op.protected
    ensures |Tally(op, a).attempts| == |op.attempts| + 1
  {
    hide Tallied, Placed, Kept;
    TallyKeeps(op, refs, a);
    KeptAppend(op.attempts, a);
    PlacedAppend(before, placements, stored, op.attempts, a, copies, source, target);
  }

  lemma UnderwayEnds(op: Operation, refs: seq<SegmentId>, replacement: seq<SegmentId>,
                     placements: map<SegmentId, Volume>, stored: map<SegmentId, seq<byte>>,
                     copies: nat -> CopyAnswer, source: Volume, target: Volume)
    requires Underway(op, refs, replacement, placements, stored, copies, source, target) && |op.attempts| == |refs|
    ensures Tallied(op, refs) && Placed(placements, stored, op.attempts, copies, source, target)
    ensures op.retryable == 0 ==> replacement == Replacement(refs, Outcomes(op.attempts))
  {
    if op.retryable == 0 {
      CountIsAny(op.attempts, AttemptRetryable);
      KeptIsReplacement(op, refs);
      assert refs[..|refs|] == refs;
    }
  }

  lemma StatusesAreOutcomes(op: Operation, m: Move)
    requires Tallied(op, m.read) && m.outcomes == Outcomes(op.attempts)
    ensures AnyRetryable(m) <==> op.retryable > 0
    ensures AnyCopied(m) <==> op.copied > 0
  {
    CountIsAny(op.attempts, AttemptRetryable);
    CountIsAny(op.attempts, AttemptCopied);
    if AnyStatus(op.attempts, AttemptRetryable) {
      var i :| 0 <= i < |op.attempts| && op.attempts[i].status == AttemptRetryable;
      assert m.outcomes[i] == Retryable;
    }
    if AnyStatus(op.attempts, AttemptCopied) {
      var i :| 0 <= i < |op.attempts| && op.attempts[i].status == AttemptCopied;
      assert m.outcomes[i].Copied?;
    }
  }

  /** The operation of a move that was not rejected is the protocol's record of it. */
  lemma RecordMatches(op: Operation, refs: seq<SegmentId>, source: Volume, m: Move)
    requires Tallied(op, refs) && |op.attempts| == |refs|
    requires m.source == source && m.read == refs && m.outcomes == Outcomes(op.attempts) && m.phase != Rejected
    requires op.status == if m.phase == Published || !AnyRetryable(m) then Succeeded else RetryPending
    ensures RecordFor(op, source) == RecordOf(m)
  {
    assert Sources(op.attempts) == refs;
  }

  /** So is that of a rejected one, with the attempt that reports the rejection. */
  lemma RejectedMatches(draft: Operation, op: Operation, refs: seq<SegmentId>, source: Volume, m: Move, extra: Attempt)
    requires Tallied(draft, refs) && |draft.attempts| == |refs| > 0
    requires m.source == source && m.read == refs && m.outcomes == Outcomes(draft.attempts) && m.phase == Rejected
    requires extra.source == refs[0] && OutcomeOf(extra) == Retryable
    requires op.status == RetryPending && op.attempts == draft.attempts + [extra]
    ensures RecordFor(op, source) == RecordOf(m)
  {
    assert Sources(op.attempts) == refs + [refs[0]];
    assert Outcomes(op.attempts) == Outcomes(draft.attempts) + [Retryable];
  }

  /** The loop body's three ends, as steps of the protocol. */
  lemma CopyCases(s: State, move: MoveId, works: bool, landsOn: Volume)
    requires move in s.moves && s.moves[move].phase == Copying && |s.moves[move].outcomes| < |s.moves[move].read|
    ensures var m := s.moves[move];
            var id := m.read[|m.outcomes|];
            Next(s, Copy(move, works, landsOn)) ==
              if !OnVolume(s, id, m.source) then Noted(s, move, Skipped)
              else if !works || id !in s.present then Noted(s, move, Retryable)
              else if m.target != ANY && landsOn != m.target
              then Noted(Write(s, Segment(landsOn, s.catalog[id].bytes), Dead), move, Retryable)
              else Noted(Write(s, Segment(landsOn, s.catalog[id].bytes), Draft(move)), move, Copied(s.nextId))
  {
  }

  /** A step that touches neither the segments nor their ids. */
  lemma SameStoreRep(data: map<SegmentId, seq<byte>>, nextId: SegmentId, placements: map<SegmentId, Volume>,
                     s: State, s': State)
    requires StoreRep(data, nextId, placements, s)
    requires s'.catalog == s.catalog && s'.present == s.present && s'.nextId == s.nextId && s'.role.Keys == s.role.Keys
    ensures StoreRep(data, nextId, placements, s')
  {
  }

  lemma DeleteRep(data: map<SegmentId, seq<byte>>, nextId: SegmentId, placements: map<SegmentId, Volume>, s: State,
                  id: SegmentId)
    requires StoreRep(data, nextId, placements, s)
    ensures StoreRep(data - {id}, nextId, placements, s.(present := s.present - {id}))
  {
  }

  lemma AcceptedRep(data: map<SegmentId, seq<byte>>, nextId: SegmentId, placements: map<SegmentId, Volume>, s: State,
                    m: Move, refs: seq<SegmentId>)
    requires StoreRep(data, nextId, placements, s) && m.version in s.versions && s.versions[m.version] == refs
    requires exists id :: id in refs && On(placements, id, m.source)
    ensures RepositoryAccepts(s, m)
  {
    var id :| id in refs && On(placements, id, m.source);
    assert id in s.versions[m.version] && OnVolume(s, id, m.source);
  }

  lemma RefsArePlaced(data: map<SegmentId, seq<byte>>, nextId: SegmentId, placements: map<SegmentId, Volume>,
                      s: State, v: Version)
    requires StoreRep(data, nextId, placements, s) && Inv(s) && v in s.versions
    ensures forall id :: id in s.versions[v] ==> id in placements
  {
    assert VersionInv(s, v);
  }

  lemma FollowsNothing(s: State, rules: Rules)
    ensures Follows(s, [], s, rules)
  {
  }

  lemma FollowsBoth(s: State, first: seq<Action>, mid: State, second: seq<Action>, s': State)
    requires Follows(s, first, mid, BOTH) && Follows(mid, second, s', BOTH)
    ensures Follows(s, first + second, s', BOTH)
  {
    RunAppend(s, first, second);
    ObeysBoth(s, first, second);
  }

  lemma {:induction false} ObeysBoth(s: State, first: seq<Action>, second: seq<Action>)
    requires RunObeys(s, first, BOTH) && RunObeys(Run(s, first), second, BOTH)
    ensures RunObeys(s, first + second, BOTH)
    decreases |first|
  {
    hide Next, Obeys;
    if first == [] {
      assert first + second == second;
    } else {
      assert (first + second)[1..] == first[1..] + second;
      ObeysBoth(Next(s, first[0]), first[1..], second);
    }
  }

  lemma RunFollowed(s: State, actions: seq<Action>, s': State)
    requires Inv(s) && Follows(s, actions, s', BOTH)
    ensures Inv(s')
  {
    RunKeepsInv(s, actions);
  }

  /** After a move without failures that reached another volume, no published or kept ref is on the source. */
  lemma NothingLeft(placements: map<SegmentId, Volume>, stored: map<SegmentId, seq<byte>>, op: Operation,
                    refs: seq<SegmentId>, copies: nat -> CopyAnswer, source: Volume, target: Volume)
    requires Placed(placements, stored, op.attempts, copies, source, target)
    requires Tallied(op, refs) && |op.attempts| == |refs|
    ensures op.retryable == 0 && target != ANY && target != source ==>
              forall id :: id in Replacement(refs, Outcomes(op.attempts)) ==> !On(placements, id, source)
    ensures op.retryable == 0 && op.copied == 0 ==> forall id :: id in refs ==> !On(placements, id, source)
  {
    CountIsAny(op.attempts, AttemptRetryable);
    CountIsAny(op.attempts, AttemptCopied);
    forall i | 0 <= i < |refs|
      ensures PlacedAttempt(placements, stored, op.attempts[i], copies(i), source, target)
      ensures op.attempts[i].source == refs[i]
    {
    }
  }

  lemma CopiedWasOnSource(placements: map<SegmentId, Volume>, stored: map<SegmentId, seq<byte>>, op: Operation,
                          refs: seq<SegmentId>, copies: nat -> CopyAnswer, source: Volume, target: Volume)
    requires Placed(placements, stored, op.attempts, copies, source, target)
    requires Tallied(op, refs) && op.copied > 0
    ensures exists id :: id in refs && On(placements, id, source)
  {
    CountIsAny(op.attempts, AttemptCopied);
    var i :| 0 <= i < |op.attempts| && op.attempts[i].status == AttemptCopied;
    assert PlacedAttempt(placements, stored, op.attempts[i], copies(i), source, target);
    assert op.attempts[i].source == refs[i];
  }

  /** The result of a move whose copy loop ended with `draft`, by what the repository answers: a failed ref or a
      rejected publish leaves it to be retried, the rejection with an attempt of its own. */
  predicate Finishes(r: MoveResult, draft: Operation, refs: seq<SegmentId>, answer: PublishAnswer)
    requires r.MoveResult?
  {
    var op := r.operation;
    var toPublish := draft.retryable == 0 && draft.copied > 0;
    && op.scanned == draft.scanned && op.copied == draft.copied && op.skipped == draft.skipped
    && op.status == (if draft.retryable == 0 && (toPublish ==> answer.available && !answer.locked) then Succeeded
                     else RetryPending)
    && (r.published <==> toPublish && answer.available && !answer.locked)
    && op.protected == (if toPublish && answer.available && answer.locked then 1 else 0)
    && op.retryable == draft.retryable + (if toPublish && !answer.available then 1 else 0)
    && draft.attempts <= op.attempts && |op.attempts| == op.copied + op.skipped + op.protected + op.retryable
    && (|op.attempts| > |draft.attempts| ==>
          && refs != [] && op.attempts[|draft.attempts|].source == refs[0]
          && op.attempts[|draft.attempts|].status == (if answer.available then AttemptProtected else AttemptRetryable))
    && r.recorded == answer.recordable
    && (r.failed <==> op.status == RetryPending || !r.recorded)
  }

  /** The move m notes one more outcome; versions, records and the queue stay. */
  ghost predicate Notes(s: State, s': State, move: MoveId, o: Outcome) {
    && move in s.moves && move in s'.moves
    && s'.moves[move] == s.moves[move].(outcomes := s.moves[move].outcomes + [o])
    && s'.versions == s.versions && s'.records == s.records && s'.candidates == s.candidates
  }

  lemma NoCopyRep(data: map<SegmentId, seq<byte>>, nextId: SegmentId, placements: map<SegmentId, Volume>, s: State,
                  move: MoveId)
    requires StoreRep(data, nextId, placements, s)
    requires move in s.moves && s.moves[move].phase == Copying && |s.moves[move].outcomes| < |s.moves[move].read|
    ensures var m := s.moves[move];
            var s' := Next(s, Copy(move, false, ANY));
            && StoreRep(data, nextId, placements, s')
            && Notes(s, s', move, if On(placements, m.read[|m.outcomes|], m.source) then Retryable else Skipped)
  {
    CopyCases(s, move, false, ANY);
    var m := s.moves[move];
    var o := if On(placements, m.read[|m.outcomes|], m.source) then Retryable else Skipped;
    NotedRep(data, nextId, placements, s, move, o);
  }

  lemma CopyRep(data: map<SegmentId, seq<byte>>, nextId: SegmentId, placements: map<SegmentId, Volume>, s: State,
                move: MoveId,
                id: SegmentId, volume: Volume)
    requires StoreRep(data, nextId, placements, s) && id in data
    requires move in s.moves && s.moves[move].phase == Copying && |s.moves[move].outcomes| < |s.moves[move].read|
    requires s.moves[move].read[|s.moves[move].outcomes|] == id && On(placements, id, s.moves[move].source)
    ensures var m := s.moves[move];
            var s' := Next(s, Copy(move, true, volume));
            && StoreRep(data[nextId := data[id]], nextId + 1, placements[nextId := volume], s')
            && Notes(s, s', move, if m.target == ANY || volume == m.target then Copied(nextId) else Retryable)
  {
    var m := s.moves[move];
    var lands := m.target == ANY || volume == m.target;
    CopyCases(s, move, true, volume);
    WriteRep(data, nextId, placements, s, id, volume, if lands then Draft(move) else Dead);
    NotedRep(data[nextId := data[id]], nextId + 1, placements[nextId := volume],
             Write(s, Segment(volume, s.catalog[id].bytes), if lands then Draft(move) else Dead),
             move, if lands then Copied(nextId) else Retryable);
  }

  function Without(queue: seq<SegmentId>, id: SegmentId): (r: seq<SegmentId>)
    ensures forall k :: k in r ==> k in queue
    ensures forall k :: k in queue && k != id ==> k in r
  {
    if queue == [] then []
    else if queue[0] == id then queue[1..]
    else [queue[0]] + Without(queue[1..], id)
  }

  lemma {:induction false} WithoutRep(queue: seq<SegmentId>, id: SegmentId, candidates: set<SegmentId>)
    requires QueueRep(queue, candidates)
    ensures QueueRep(Without(queue, id), candidates - {id})
  {
    if queue != [] {
      if queue[0] == id {
        assert forall i :: 0 < i < |queue| ==> queue[i] != id;
      } else {
        var rest := queue[1..];
        assert QueueRep(rest, candidates - {queue[0]}) by {
          assert forall k :: k in rest ==> k in queue && k != queue[0];
        }
        WithoutRep(rest, id, candidates - {queue[0]});
      }
    }
  }

  function Enqueued(queue: seq<SegmentId>, id: SegmentId): (r: seq<SegmentId>) {
    if id in queue then queue else queue + [id]
  }

  /** A copied attempt that reclaim may queue: on the drained volume, its copy still stored, not protected. */
  predicate ReclaimOk(record: Record, i: nat, placements: map<SegmentId, Volume>, data: map<SegmentId, seq<byte>>,
                      locked: set<SegmentId>)
  {
    && i < |record.outcomes| && i < |record.read| && record.outcomes[i].Copied?
    && On(placements, record.read[i], record.source)
    && record.outcomes[i].target in data
    && record.read[i] !in locked
  }

  /** What a copied attempt comes to when it is reclaimed: skipped when an id is missing or the source is not on the
      drained volume, protected when the copy is fine and the source locked, queued when nothing is in the way. */
  predicate ReclaimedAs(a: Attempt, volume: Volume, answer: ReclaimAnswer, placements: map<SegmentId, Volume>,
                        data: map<SegmentId, seq<byte>>, locked: set<SegmentId>)
  {
    var eligible := a.source != 0 && a.target != 0 && On(placements, a.source, volume);
    var checked := eligible && answer.validated && a.target in data && answer.listed;
    && a.status in {AttemptSkipped, AttemptRetryable, AttemptProtected, AttemptQueuedGC}
    && (a.status == AttemptSkipped <==> !eligible)
    && (a.status == AttemptProtected <==> checked && a.source in locked)
    && (a.status == AttemptQueuedGC <==> checked && a.source !in locked && answer.queueable)
  }

  /** `attempts` is what the first n attempts of the record come to: one for each that was copied, in order. */
  ghost predicate Settles(record: Record, n: nat, answers: nat -> ReclaimAnswer, placements: map<SegmentId, Volume>,
                          data: map<SegmentId, seq<byte>>, locked: set<SegmentId>, attempts: seq<Attempt>)
    requires n <= |record.outcomes|
    decreases n
  {
    if n == 0 then attempts == []
    else if record.outcomes[n - 1].Copied? && n - 1 < |record.read| then
      && attempts != []
      && var a := attempts[|attempts| - 1];
      && a.source == record.read[n - 1] && a.target == record.outcomes[n - 1].target
      && ReclaimedAs(a, record.source, answers(n - 1), placements, data, locked)
      && Settles(record, n - 1, answers, placements, data, locked, attempts[..|attempts| - 1])
    else Settles(record, n - 1, answers, placements, data, locked, attempts)
  }

  /** How many attempts name both segments. */
  ghost function Named(attempts: seq<Attempt>): (n: nat) {
    if attempts == [] then 0 else
      var a := attempts[|attempts| - 1];
      Named(attempts[..|attempts| - 1]) + if a.source != 0 && a.target != 0 then 1 else 0
  }

  /** The counts of a reclaim are the numbers of its attempts of each kind. */
  ghost predicate ReclaimTallied(r: ReclaimResult) {
    var op := r.operation;
    && r.queued == Count(op.attempts, AttemptQueuedGC) && op.skipped == Count(op.attempts, AttemptSkipped)
    && op.protected == Count(op.attempts, AttemptProtected) && op.retryable == Count(op.attempts, AttemptRetryable)
    && op.scanned == Named(op.attempts) && op.copied == 0
    && forall i :: 0 <= i < |op.attempts| ==> op.attempts[i].status != AttemptCopied
  }

  lemma CountedKeeps(r: ReclaimResult, a: Attempt)
    requires ReclaimTallied(r) && a.status != AttemptCopied
    requires a.status != AttemptSkipped ==> a.source != 0 && a.target != 0
    ensures ReclaimTallied(Counted(r, a)) && Counted(r, a).operation.attempts == r.operation.attempts + [a]
    ensures Counted(r, a).operation.status == r.operation.status
  {
    var attempts := r.operation.attempts;
    CountAppend(attempts, a, AttemptQueuedGC);
    CountAppend(attempts, a, AttemptSkipped);
    CountAppend(attempts, a, AttemptProtected);
    CountAppend(attempts, a, AttemptRetryable);
    assert (attempts + [a])[..|attempts|] == attempts;
  }

  lemma ReclaimCopiesNothing(r: ReclaimResult, source: Volume)
    requires ReclaimTallied(r)
    ensures CopiesNothing(RecordFor(r.operation, source))
  {
  }

  predicate QueuedIn(attempts: seq<Attempt>, id: SegmentId) {
    exists j :: 0 <= j < |attempts| && attempts[j].status == AttemptQueuedGC && attempts[j].source == id
  }

  /** The queue holds what it held before and the sources of the queued attempts. */
  ghost predicate QueuedFrom(was: seq<SegmentId>, queue: seq<SegmentId>, attempts: seq<Attempt>) {
    && was <= queue
    && forall id :: id in queue <==> id in was || QueuedIn(attempts, id)
  }

  lemma QueueGrows(was: seq<SegmentId>, queue: seq<SegmentId>, attempts: seq<Attempt>, a: Attempt)
    requires QueuedFrom(was, queue, attempts)
    ensures QueuedFrom(was, if a.status == AttemptQueuedGC then Enqueued(queue, a.source) else queue, attempts + [a])
  {
    var more := attempts + [a];
    assert more[|attempts|] == a;
    forall id
      ensures QueuedIn(more, id) <==> QueuedIn(attempts, id) || (a.status == AttemptQueuedGC && a.source == id)
    {
      if QueuedIn(attempts, id) {
        var j :| 0 <= j < |attempts| && attempts[j].status == AttemptQueuedGC && attempts[j].source == id;
        assert more[j] == attempts[j];
      }
    }
  }

  ghost predicate QueuedBy(record: Record, id: SegmentId, placements: map<SegmentId, Volume>,
                           data: map<SegmentId, seq<byte>>, locked: set<SegmentId>)
  {
    exists i :: 0 <= i < |record.read| && record.read[i] == id && ReclaimOk(record, i, placements, data, locked)
  }

  /** Whatever a reclaim queues stands for a copied attempt that may be reclaimed. */
  lemma {:induction false} QueuedIsReclaimable(record: Record, n: nat, answers: nat -> ReclaimAnswer,
                                               placements: map<SegmentId, Volume>, data: map<SegmentId, seq<byte>>,
                                               locked: set<SegmentId>, attempts: seq<Attempt>, id: SegmentId)
    requires n <= |record.outcomes| && Settles(record, n, answers, placements, data, locked, attempts)
    requires QueuedIn(attempts, id)
    ensures QueuedBy(record, id, placements, data, locked)
    decreases n
  {
    var j :| 0 <= j < |attempts| && attempts[j].status == AttemptQueuedGC && attempts[j].source == id;
    var last := |attempts| - 1;
    if record.outcomes[n - 1].Copied? && n - 1 < |record.read| {
      if j == last {
        assert ReclaimOk(record, n - 1, placements, data, locked);
      } else {
        assert attempts[..last][j] == attempts[j];
        QueuedIsReclaimable(record, n - 1, answers, placements, data, locked, attempts[..last], id);
      }
    } else {
      QueuedIsReclaimable(record, n - 1, answers, placements, data, locked, attempts, id);
    }
  }

  /** The copied attempt i names a source on the drained volume and a target. */
  predicate Eligible(record: Record, i: nat, placements: map<SegmentId, Volume>) {
    && i < |record.outcomes| && i < |record.read| && record.outcomes[i].Copied?
    && record.read[i] != 0 && record.outcomes[i].target != 0
    && On(placements, record.read[i], record.source)
  }

  /** A reclaim in which nothing was retryable or protected has queued every eligible source. */
  lemma {:induction false} SuccessQueuesAll(record: Record, n: nat, answers: nat -> ReclaimAnswer,
                                            placements: map<SegmentId, Volume>, data: map<SegmentId, seq<byte>>,
                                            locked: set<SegmentId>, attempts: seq<Attempt>, i: nat)
    requires n <= |record.outcomes| && Settles(record, n, answers, placements, data, locked, attempts)
    requires Count(attempts, AttemptRetryable) == 0 && Count(attempts, AttemptProtected) == 0
    requires i < n && Eligible(record, i, placements)
    ensures QueuedIn(attempts, record.read[i])
    decreases n
  {
    var last := |attempts| - 1;
    if record.outcomes[n - 1].Copied? && n - 1 < |record.read| {
      if i == n - 1 {
        assert attempts[last].status == AttemptQueuedGC && attempts[last].source == record.read[i];
      } else {
        SuccessQueuesAll(record, n - 1, answers, placements, data, locked, attempts[..last], i);
        var j :| 0 <= j < last && attempts[..last][j].status == AttemptQueuedGC
                 && attempts[..last][j].source == record.read[i];
        assert attempts[j] == attempts[..last][j];
      }
    } else {
      SuccessQueuesAll(record, n - 1, answers, placements, data, locked, attempts, i);
    }
  }

  function Counted(r: ReclaimResult, a: Attempt): (r': ReclaimResult) {
    ReclaimResult(
      r.operation.(scanned := r.operation.scanned + if a.source != 0 && a.target != 0 then 1 else 0,
                   attempts := r.operation.attempts + [a],
                   skipped := r.operation.skipped + if a.status == AttemptSkipped then 1 else 0,
                   protected := r.operation.protected + if a.status == AttemptProtected then 1 else 0,
                   retryable := r.operation.retryable + if a.status == AttemptRetryable then 1 else 0),
      r.queued + if a.status == AttemptQueuedGC then 1 else 0)
  }

  /** One copied attempt more. */
  lemma ReclaimedNext(record: Record, i: nat, answers: nat -> ReclaimAnswer, placements: map<SegmentId, Volume>,
                      data: map<SegmentId, seq<byte>>, locked: set<SegmentId>, was: seq<SegmentId>,
                      queue: seq<SegmentId>, r: ReclaimResult, a: Attempt)
    requires i < |record.outcomes| && i < |record.read| && record.outcomes[i] == Copied(a.target)
    requires a.source == record.read[i] && ReclaimedAs(a, record.source, answers(i), placements, data, locked)
    requires ReclaimTallied(r) && QueuedFrom(was, queue, r.operation.attempts)
    requires Settles(record, i, answers, placements, data, locked, r.operation.attempts)
    ensures ReclaimTallied(Counted(r, a)) && Counted(r, a).operation.status == r.operation.status
    ensures Settles(record, i + 1, answers, placements, data, locked, Counted(r, a).operation.attempts)
    ensures QueuedFrom(was, if a.status == AttemptQueuedGC then Enqueued(queue, a.source) else queue,
                       Counted(r, a).operation.attempts)
  {
    CountedKeeps(r, a);
    QueueGrows(was, queue, r.operation.attempts, a);
    var attempts := r.operation.attempts;
    assert (attempts + [a])[..|attempts|] == attempts;
    hide Counted, ReclaimTallied, QueuedFrom;
  }

  lemma PassedOver(record: Record, i: nat, answers: nat -> ReclaimAnswer, placements: map<SegmentId, Volume>,
                   data: map<SegmentId, seq<byte>>, locked: set<SegmentId>, attempts: seq<Attempt>)
    requires i < |record.outcomes| && !(record.outcomes[i].Copied? && i < |record.read|)
    requires Settles(record, i, answers, placements, data, locked, attempts)
    ensures Settles(record, i + 1, answers, placements, data, locked, attempts)
  {
  }

  /** Queueing the source of attempt i of record k. */
  lemma ReclaimRep(data: map<SegmentId, seq<byte>>, nextId: SegmentId, placements: map<SegmentId, Volume>,
                   queue: seq<SegmentId>, s: State, k: nat, i: nat)
    requires StoreRep(data, nextId, placements, s) && QueueRep(queue, s.candidates)
    requires k < |s.records| && i < |s.records[k].outcomes| && i < |s.records[k].read|
    requires var record := s.records[k];
             && record.outcomes[i].Copied? && record.outcomes[i].target in data
             && On(placements, record.read[i], record.source)
    ensures var s' := Next(s, Reclaim(k, i, false));
            && StoreRep(data, nextId, placements, s')
            && QueueRep(Enqueued(queue, s.records[k].read[i]), s'.candidates)
            && s'.versions == s.versions && s'.records == s.records
  {
    assert Reclaimable(s, k, i);
    SameStoreRep(data, nextId, placements, s, Next(s, Reclaim(k, i, false)));
  }

  lemma ReclaimSettled(record: Record, answers: nat -> ReclaimAnswer, placements: map<SegmentId, Volume>,
                       data: map<SegmentId, seq<byte>>, locked: set<SegmentId>, was: seq<SegmentId>,
                       queue: seq<SegmentId>, r: ReclaimResult)
    requires ReclaimTallied(r) && QueuedFrom(was, queue, r.operation.attempts)
    requires Settles(record, |record.outcomes|, answers, placements, data, locked, r.operation.attempts)
    ensures forall id :: id in queue && id !in was ==> QueuedBy(record, id, placements, data, locked)
    ensures r.operation.retryable == 0 && r.operation.protected == 0 ==>
              forall i: nat :: Eligible(record, i, placements) ==> record.read[i] in queue
  {
    var n, attempts := |record.outcomes|, r.operation.attempts;
    hide Settles, QueuedBy;
    forall id | id in queue && id !in was
      ensures QueuedBy(record, id, placements, data, locked)
    {
      QueuedIsReclaimable(record, n, answers, placements, data, locked, attempts, id);
    }
    if r.operation.retryable == 0 && r.operation.protected == 0 {
      forall i: nat | Eligible(record, i, placements)
        ensures record.read[i] in queue
      {
        SuccessQueuesAll(record, n, answers, placements, data, locked, attempts, i);
      }
    }
  }

  lemma ReclaimObeys(s: State, a: Action, k: nat)
    requires a.Reclaim? && a.record == k < |s.records|
    ensures Obeys(s, a, Rules(true, s.records[k].status == Succeeded))
  {
  }

  // ---- GC ------------------------------------------------------------------------------------------

  /** The delete of a candidate goes through. */
  predicate Removes(id: SegmentId, answers: GCAnswers, shared: set<SegmentId>) {
    answers.admits(id) && id !in shared && answers.deletes(id)
  }

  /** What a candidate comes to: deleted once the delete and, where there is one, the acknowledgement work; skipped when
      admission refuses it or its shared object is released instead; retryable in every other case. */
  predicate CollectedAs(id: SegmentId, status: GCStatus, answers: GCAnswers, shared: set<SegmentId>) {
    && (status == GCDeleted <==>
          && answers.admits(id) && id !in shared && answers.deletes(id)
          && (answers.acks.Some? ==> answers.acks.value(id)))
    && (status == GCSkipped <==>
          !answers.admits(id) || (id in shared && answers.releases.Some? && answers.releases.value(id)))
  }

  ghost function GCCount(attempts: seq<GCAttempt>, status: GCStatus): (n: nat) {
    if attempts == [] then 0 else
      var last := |attempts| - 1;
      GCCount(attempts[..last], status) + if attempts[last].status == status then 1 else 0
  }

  /** The counters of a GC run are the numbers of its attempts of each kind. */
  ghost predicate GCTallied(r: GCRecord) {
    && r.deleted == GCCount(r.attempts, GCDeleted) && r.skipped == GCCount(r.attempts, GCSkipped)
    && r.retryable == GCCount(r.attempts, GCRetryable)
    && r.deleted + r.skipped + r.retryable == |r.attempts|
  }

  function GCCounted(r: GCRecord, a: GCAttempt): (r': GCRecord) {
    r.(scanned := r.scanned + 1, attempts := r.attempts + [a],
       deleted := r.deleted + if a.status == GCDeleted then 1 else 0,
       skipped := r.skipped + if a.status == GCSkipped then 1 else 0,
       retryable := r.retryable + if a.status == GCRetryable then 1 else 0)
  }

  lemma GCTalliedNext(r: GCRecord, a: GCAttempt)
    requires GCTallied(r)
    ensures GCTallied(GCCounted(r, a))
  {
    assert (r.attempts + [a])[..|r.attempts|] == r.attempts;
  }

  /** The store after the candidates in `done`. */
  ghost predicate Collected(done: seq<SegmentId>, was: map<SegmentId, seq<byte>>, data: map<SegmentId, seq<byte>>,
                            answers: GCAnswers, shared: set<SegmentId>)
  {
    && (forall id :: id in data <==> id in was && !(id in done && Removes(id, answers, shared)))
    && (forall id :: id in data ==> data[id] == was[id])
  }

  /** The queue after them. */
  ghost predicate Acknowledged(done: seq<SegmentId>, was: seq<SegmentId>, queue: seq<SegmentId>, answers: GCAnswers,
                               shared: set<SegmentId>)
  {
    forall id :: id in queue <==>
      && id in was
      && !(id in done && Removes(id, answers, shared) && answers.acks.Some? && answers.acks.value(id))
  }

  ghost predicate Distinct(all: seq<SegmentId>) {
    forall j, k :: 0 <= j < k < |all| ==> all[j] != all[k]
  }

  /** Where the loop stands after i candidates. */
  ghost predicate Progressed(r: GCRecord, i: nat, all: seq<SegmentId>, was: map<SegmentId, seq<byte>>,
                             data: map<SegmentId, seq<byte>>, queue: seq<SegmentId>, answers: GCAnswers,
                             shared: set<SegmentId>)
  {
    && GCTallied(r) && r.scanned == |r.attempts| == i <= |all| && r.status == Succeeded
    && (forall j :: 0 <= j < i ==>
          r.attempts[j].segment == all[j]
          && CollectedAs(r.attempts[j].segment, r.attempts[j].status, answers, shared))
    && Collected(all[..i], was, data, answers, shared) && Acknowledged(all[..i], all, queue, answers, shared)
  }

  lemma ProgressStarts(r: GCRecord, all: seq<SegmentId>, data: map<SegmentId, seq<byte>>, answers: GCAnswers,
                       shared: set<SegmentId>)
    requires r.attempts == [] && r.status == Succeeded
    requires r.scanned == 0 && r.deleted == 0 && r.skipped == 0 && r.retryable == 0
    ensures Progressed(r, r.scanned, all, data, data, all, answers, shared)
  {
  }

  lemma ProgressEnds(r: GCRecord, i: nat, all: seq<SegmentId>, was: map<SegmentId, seq<byte>>,
                     data: map<SegmentId, seq<byte>>, queue: seq<SegmentId>, answers: GCAnswers,
                     shared: set<SegmentId>)
    requires Progressed(r, i, all, was, data, queue, answers, shared)
    ensures GCTallied(r) && GCTallied(r.(status := RetryPending))
    ensures r.scanned == |r.attempts| == i <= |all| && r.status == Succeeded
    ensures forall j :: 0 <= j < i ==>
              r.attempts[j].segment == all[j]
              && CollectedAs(r.attempts[j].segment, r.attempts[j].status, answers, shared)
    ensures Collected(all[..i], was, data, answers, shared) && Acknowledged(all[..i], all, queue, answers, shared)
  {
  }

  lemma StillQueued(r: GCRecord, i: nat, all: seq<SegmentId>, was: map<SegmentId, seq<byte>>,
                    data: map<SegmentId, seq<byte>>, queue: seq<SegmentId>, answers: GCAnswers,
                    shared: set<SegmentId>)
    requires i < |all| && Progressed(r, i, all, was, data, queue, answers, shared) && Distinct(all)
    ensures all[i] in queue
  {
    assert all[i] !in all[..i];
  }

  lemma ProgressNext(r: GCRecord, i: nat, all: seq<SegmentId>, was: map<SegmentId, seq<byte>>,
                     had: map<SegmentId, seq<byte>>, data: map<SegmentId, seq<byte>>, waiting: seq<SegmentId>,
                     queue: seq<SegmentId>, answers: GCAnswers, shared: set<SegmentId>, status: GCStatus)
    requires i < |all| && Progressed(r, i, all, was, had, waiting, answers, shared)
    requires CollectedAs(all[i], status, answers, shared)
    requires data == if Removes(all[i], answers, shared) then had - {all[i]} else had
    requires forall id :: id in queue <==>
               && id in waiting
               && !(id == all[i] && Removes(id, answers, shared) && answers.acks.Some? && answers.acks.value(id))
    ensures Progressed(GCCounted(r, GCAttempt(all[i], status)), i + 1, all, was, data, queue, answers, shared)
  {
    GCTalliedNext(r, GCAttempt(all[i], status));
    assert all[..i + 1] == all[..i] + [all[i]];
    hide CollectedAs, Removes, GCTallied;
    assert Collected(all[..i + 1], was, data, answers, shared);
    assert Acknowledged(all[..i + 1], all, queue, answers, shared);
  }

  class Cluster {
    // the segment store
    var data: map<SegmentId, seq<byte>>
    var nextId: SegmentId
    // the repository: where each ref says it lives, versions, the GC queue, drain records
    var placements: map<SegmentId, Volume>
    var versions: map<Version, seq<SegmentId>>
    var queue: seq<SegmentId>
    var records: seq<Record>
    // segments with an active protected ref, and segments whose refs carry a shared-object id
    var locked: set<SegmentId>
    var shared: set<SegmentId>
    // the protocol state all of this stands for
    ghost var s: State

    ghost predicate Valid()
      reads this
    {
      && StoreRep(data, nextId, placements, s)
      && QueueRep(queue, s.candidates)
      && s.versions == versions && s.records == records
    }

    predicate OnSource(id: SegmentId, source: Volume)
      reads this
    {
      On(placements, id, source)
    }

    /** copySegment: read the source, write a fresh segment on the volume the store chooses. When the source cannot be
        closed afterwards the copy counts as failed, and the segment written stays behind. */
    method CopySegment(id: SegmentId, answer: CopyAnswer) returns (copy: Option<SegmentId>)
      modifies this`data, this`nextId, this`placements
      ensures var written := answer.readable && id in old(data) && answer.writable;
              && copy == (if written && answer.closable then Some(old(nextId)) else None)
              && nextId == (if written then old(nextId) + 1 else old(nextId))
              && data == (if written then old(data)[old(nextId) := old(data)[id]] else old(data))
              && placements == if written then old(placements)[old(nextId) := answer.volume] else old(placements)
    {
      if !answer.readable || id !in data || !answer.writable {
        return None;
      }
      var id' := nextId;
      data := data[id' := data[id]];
      placements := placements[id' := answer.volume];
      nextId := nextId + 1;
      return if answer.closable then Some(id') else None;
    }

    /** PublishObjectVersionRefs as the repository does it. */
    method PublishRefs(version: Version, source: Volume, refs: seq<SegmentId>, answer: PublishAnswer)
      returns (err: Option<PublishError>)
      modifies this`versions
      ensures err.None? <==>
                && refs != [] && answer.available && version in old(versions) && !answer.locked
                && exists id :: id in old(versions)[version] && OnSource(id, source)
      ensures err == Some(ObjectLocked) <==> refs != [] && answer.available && version in old(versions) && answer.locked
      ensures err == Some(PublishNotFound) <==> refs != [] && answer.available && version !in old(versions)
      ensures err == Some(PublishUnavailable) <==> refs != [] && !answer.available
      ensures err.Some? ==> unchanged(this)
      ensures err.None? ==> versions == old(versions)[version := refs]
    {
      if refs == [] {
        return Some(PublishInvalid);
      }
      if !answer.available {
        return Some(PublishUnavailable);
      }
      if version !in versions {
        return Some(PublishNotFound);
      }
      if answer.locked {
        return Some(ObjectLocked);
      }
      if !exists id :: id in versions[version] && OnSource(id, source) {
        return Some(PublishInvalid);
      }
      versions := versions[version := refs];
      return None;
    }

    // ---- MoveObjectVersion --------------------------------------------------------------------

    /** The loop body: what becomes of one ref. */
    method MoveRef(ghost move: MoveId, id: SegmentId, source: Volume, target: Volume, answer: CopyAnswer)
      returns (attempt: Attempt, ghost actions: seq<Action>)
      requires Valid()
      requires move in s.moves && s.moves[move].phase == Copying
      requires var m := s.moves[move];
               |m.outcomes| < |m.read| && m.read[|m.outcomes|] == id && m.source == source && m.target == target
      modifies this`data, this`nextId, this`placements, this`s
      ensures Valid() && Follows(old(s), actions, s, BOTH)
      ensures Notes(old(s), s, move, OutcomeOf(attempt))
      ensures attempt.source == id
      ensures attempt.status in {AttemptSkipped, AttemptCopied, AttemptRetryable}
      ensures id in old(placements) ==> PlacedAttempt(placements, old(data), attempt, answer, source, target)
      ensures attempt.target == 0 || attempt.target == old(nextId)
      ensures attempt.target == 0 <==>
                || !old(OnSource(id, source)) || id !in old(data) || old(nextId) == 0
                || !answer.readable || !answer.writable || !answer.closable
      ensures attempt.status == AttemptCopied ==>
                && attempt.target == old(nextId) && attempt.target in data && id in old(data)
                && data[attempt.target] == old(data)[id]
      ensures Untouched(old(placements), old(data), placements, data)
    {
      assert nextId !in data && nextId !in placements;
      hide Next, StoreRep, QueueRep, Follows;
      FollowsNothing(s, BOTH);
      if !OnSource(id, source) {
        actions := NoteFailure(move, s, []);
        return Attempt(id, 0, AttemptSkipped), actions;
      }
      hide PlacedAttempt, Untouched, Notes;
      var copy := CopySegment(id, answer);
      if copy.None? {
        attempt := Attempt(id, 0, AttemptRetryable);
        CopyPlaces(old(placements), old(data), old(nextId), attempt, answer, source, target);
        if nextId == old(nextId) {
          actions := NoteFailure(move, s, []);
        } else {
          actions := NoteLeftover(move, id, answer.volume, old(data), old(nextId), old(placements));
        }
        return attempt, actions;
      }
      CopyRep(old(data), old(nextId), old(placements), s, move, id, answer.volume);
      ghost var action := Copy(move, true, answer.volume);
      Extend(s, [], s, action, BOTH);
      s, actions := Next(s, action), [] + [action];
      attempt := Attempt(id, copy.value,
                         if target != ANY && placements[copy.value] != target then AttemptRetryable else AttemptCopied);
      CopyPlaces(old(placements), old(data), old(nextId), attempt, answer, source, target);
    }

    /** Nothing was copied: the ref is noted as skipped or retryable. */
    ghost method NoteFailure(move: MoveId, start: State, prior: seq<Action>) returns (actions: seq<Action>)
      requires Valid() && Follows(start, prior, s, BOTH)
      requires move in s.moves && s.moves[move].phase == Copying && |s.moves[move].outcomes| < |s.moves[move].read|
      modifies this`s
      ensures Valid() && Follows(start, actions, s, BOTH)
      ensures var m := old(s).moves[move];
              Notes(old(s), s, move, if On(placements, m.read[|m.outcomes|], m.source) then Retryable else Skipped)
    {
      hide Next, StoreRep, QueueRep, Follows;
      NoCopyRep(data, nextId, placements, s, move);
      var action := Copy(move, false, ANY);
      Extend(start, prior, s, action, BOTH);
      s, actions := Next(s, action), prior + [action];
    }

    /** A segment was written and then given up: it belongs to nobody. */
    ghost method NoteLeftover(move: MoveId, id: SegmentId, volume: Volume, was: map<SegmentId, seq<byte>>,
                              next: SegmentId,
                              where: map<SegmentId, Volume>)
      returns (actions: seq<Action>)
      requires StoreRep(was, next, where, s) && QueueRep(queue, s.candidates) && s.versions == versions
      requires s.records == records
      requires id in was && data == was[next := was[id]] && nextId == next + 1 && placements == where[next := volume]
      requires move in s.moves && s.moves[move].phase == Copying && |s.moves[move].outcomes| < |s.moves[move].read|
      requires s.moves[move].read[|s.moves[move].outcomes|] == id && On(where, id, s.moves[move].source)
      requires next !in where
      modifies this`s
      ensures Valid() && Follows(old(s), actions, s, BOTH) && Notes(old(s), s, move, Retryable)
    {
      var put := LeftoverPut(was, next, where, id, volume);
      hide Next, StoreRep, QueueRep, Follows;
      FollowsNothing(s, BOTH);
      Extend(s, [], s, put, BOTH);
      s := Next(s, put);
      actions := NoteFailure(move, old(s), [] + [put]);
    }

    ghost method LeftoverPut(was: map<SegmentId, seq<byte>>, next: SegmentId, where: map<SegmentId, Volume>,
                             id: SegmentId, volume: Volume)
      returns (put: Action)
      requires StoreRep(was, next, where, s) && id in was
      ensures put.Put? && StoreRep(was[next := was[id]], next + 1, where[next := volume], Next(s, put))
      ensures var s' := Next(s, put);
              && s'.moves == s.moves && s'.versions == s.versions
              && s'.records == s.records && s'.candidates == s.candidates
    {
      WriteRep(was, next, where, s, id, volume, Uploading);
      put := Put(Segment(volume, s.catalog[id].bytes));
    }

    /** The copy loop. */
    method MoveRefs(ghost move: MoveId, refs: seq<SegmentId>, source: Volume, target: Volume,
                    copies: nat -> CopyAnswer, ghost start: State, ghost prior: seq<Action>)
      returns (op: Operation, replacement: seq<SegmentId>, ghost actions: seq<Action>)
      requires Valid() && Follows(start, prior, s, BOTH)
      requires move in s.moves && s.moves[move] == Move(s.moves[move].version, source, target, refs, [], Copying)
      requires forall id :: id in refs ==> id in placements
      modifies this`data, this`nextId, this`placements, this`s
      ensures Valid() && Follows(start, actions, s, BOTH)
      ensures s.versions == old(s).versions && s.records == old(s).records && s.candidates == old(s).candidates
      ensures Tallied(op, refs) && |op.attempts| == op.scanned == |refs| && op.protected == 0
      ensures move in s.moves && s.moves[move] == old(s).moves[move].(outcomes := Outcomes(op.attempts))
      ensures op.retryable == 0 ==> replacement == Replacement(refs, Outcomes(op.attempts))
      ensures Placed(placements, old(data), op.attempts, copies, source, target)
    {
      hide Follows, StoreRep, QueueRep, Next, Underway, Tallied, Placed, Outcomes, Tally, Replacement, Obeys, Inv;
      op := Operation(RetryPending, |refs|, 0, 0, 0, 0, []);
      UnderwayStarts(op, refs, placements, data, copies, source, target);
      replacement, actions := [], prior;
      var i := 0;
      while i < |refs|
        invariant 0 <= i <= |refs| && |op.attempts| == i && op.scanned == |refs| && op.protected == 0
        invariant Valid() && Follows(start, actions, s, BOTH)
        invariant s.versions == old(s).versions && s.records == old(s).records && s.candidates == old(s).candidates
        invariant Underway(op, refs, replacement, placements, old(data), copies, source, target)
        invariant Untouched(old(placements), old(data), placements, data)
        invariant move in s.moves && s.moves[move] == old(s).moves[move].(outcomes := Outcomes(op.attempts))
      {
        ghost var before, where := s, placements;
        var attempt;
        ghost var steps;
        assert refs[i] in old(placements);
        attempt, steps := MoveRef(move, refs[i], source, target, copies(i));
        FollowsBoth(start, actions, before, steps, s);
        actions := actions + steps;
        assert PlacedAttempt(placements, old(data), attempt, copies(i), source, target);
        UnderwayNext(op, refs, replacement, where, placements, old(data), copies, source, target, attempt);
        op := Tally(op, attempt);
        assert replacement + [] == replacement;
        if attempt.status == AttemptSkipped {
          replacement := replacement + [attempt.source];
        } else if attempt.status == AttemptCopied {
          replacement := replacement + [attempt.target];
        }
        i := i + 1;
      }
      UnderwayEnds(op, refs, replacement, placements, old(data), copies, source, target);
    }

    /** putOperation for a finished move. */
    method Persist(ghost move: MoveId, record: Record, recordable: bool, ghost start: State, ghost prior: seq<Action>)
      returns (ghost actions: seq<Action>)
      requires Valid() && Follows(start, prior, s, BOTH)
      requires move in s.moves && Persistable(s.moves[move]) && record == RecordOf(s.moves[move])
      modifies this`records, this`s
      ensures Valid() && Follows(start, actions, s, BOTH)
      ensures records == if recordable then old(records) + [record] else old(records)
    {
      hide Follows, StoreRep, QueueRep, RecordOf, AnyCopied, AnyRetryable;
      if recordable {
        records := records + [record];
      }
      ghost var action := DrainProtocol.Action.Persist(move, recordable);
      Extend(start, prior, s, action, BOTH);
      actions := prior + [action];
      SameStoreRep(data, nextId, placements, s, Next(s, action));
      s := Next(s, action);
    }

    /** Publishing the replacement while the version still lists what the move has read. */
    method PublishMove(ghost move: MoveId, version: Version, source: Volume, refs: seq<SegmentId>,
                       replacement: seq<SegmentId>, answer: PublishAnswer,
                       ghost start: State, ghost prior: seq<Action>)
      returns (err: Option<PublishError>, ghost actions: seq<Action>)
      requires Valid() && Follows(start, prior, s, BOTH)
      requires version in versions && versions[version] == refs && move in s.moves
      requires var m := s.moves[move];
               && m.version == version && m.source == source && m.read == refs && m.phase == Copying
               && Finished(m) && !AnyRetryable(m) && AnyCopied(m) && replacement == Replacement(m.read, m.outcomes)
      modifies this`versions, this`s
      ensures Valid() && Follows(start, actions, s, BOTH)
      ensures err.None? <==> answer.available && !answer.locked && exists id :: id in refs && OnSource(id, source)
      ensures err == Some(ObjectLocked) <==> answer.available && answer.locked
      ensures versions == if err.None? then old(versions)[version := replacement] else old(versions)
      ensures move in s.moves
      ensures s.moves[move] == old(s).moves[move].(phase := if err.None? then Published else Rejected)
    {
      assert replacement != [];
      hide Follows, StoreRep, QueueRep, AnyCopied, AnyRetryable;
      err := PublishRefs(version, source, replacement, answer);
      ghost var action := Publish(move, err.None?);
      if err.None? {
        assert KeptRefsCurrent(s, s.moves[move]);
        AcceptedRep(data, nextId, placements, s, s.moves[move], refs);
      }
      Extend(start, prior, s, action, BOTH);
      SameStoreRep(data, nextId, placements, s, Next(s, action));
      s, actions := Next(s, action), prior + [action];
    }

    /** What follows the loop: nothing to publish, a rejected publish, or a published one; then the record. */
    method FinishMove(ghost move: MoveId, version: Version, source: Volume, target: Volume, refs: seq<SegmentId>,
                      draft: Operation, replacement: seq<SegmentId>, answer: PublishAnswer,
                      ghost stored: map<SegmentId, seq<byte>>, ghost copies: nat -> CopyAnswer,
                      ghost start: State, ghost prior: seq<Action>)
      returns (r: MoveResult, ghost actions: seq<Action>)
      requires Valid() && Follows(start, prior, s, BOTH)
      requires version in versions && versions[version] == refs
      requires Tallied(draft, refs) && |draft.attempts| == draft.scanned == |refs| && draft.protected == 0
      requires move in s.moves
      requires s.moves[move] == Move(version, source, target, refs, Outcomes(draft.attempts), Copying)
      requires draft.retryable == 0 ==> replacement == Replacement(refs, Outcomes(draft.attempts))
      requires Placed(placements, stored, draft.attempts, copies, source, target)
      modifies this`versions, this`records, this`s
      ensures Valid() && Follows(start, actions, s, BOTH)
      ensures r.MoveResult? && Finishes(r, draft, refs, answer)
      ensures versions == if r.published then old(versions)[version := Replacement(refs, Outcomes(draft.attempts))]
                          else old(versions)
      ensures records == if r.recorded then old(records) + [RecordFor(r.operation, source)] else old(records)
      ensures r.operation.status == Succeeded && target != ANY && target != source ==>
                forall id :: id in versions[version] ==> !OnSource(id, source)
    {
      hide Follows, StoreRep, QueueRep, Placed, RecordOf, RecordFor, Count;
      StatusesAreOutcomes(draft, s.moves[move]);
      NothingLeft(placements, stored, draft, refs, copies, source, target);
      if draft.retryable > 0 {
        var op := draft.(status := RetryPending);
        RecordMatches(op, refs, source, s.moves[move]);
        actions := Persist(move, RecordFor(op, source), answer.recordable, start, prior);
        return MoveResult(op, false, answer.recordable, true), actions;
      }
      if draft.copied == 0 {
        var op := draft.(status := Succeeded);
        RecordMatches(op, refs, source, s.moves[move]);
        actions := Persist(move, RecordFor(op, source), answer.recordable, start, prior);
        return MoveResult(op, false, answer.recordable, !answer.recordable), actions;
      }
      var err;
      CopiedWasOnSource(placements, stored, draft, refs, copies, source, target);
      err, actions := PublishMove(move, version, source, refs, replacement, answer, start, prior);
      if err.Some? {
        var locked := err.value.ObjectLocked?;
        var extra := Attempt(refs[0], replacement[0], if locked then AttemptProtected else AttemptRetryable);
        var op := draft.(status := RetryPending, attempts := draft.attempts + [extra],
                         protected := if locked then 1 else 0, retryable := if locked then 0 else 1);
        RejectedMatches(draft, op, refs, source, s.moves[move], extra);
        actions := Persist(move, RecordFor(op, source), answer.recordable, start, actions);
        return MoveResult(op, false, answer.recordable, true), actions;
      }
      var op := draft.(status := Succeeded);
      RecordMatches(op, refs, source, s.moves[move]);
      actions := Persist(move, RecordFor(op, source), answer.recordable, start, actions);
      return MoveResult(op, true, answer.recordable, !answer.recordable), actions;
    }

    /** MoveObjectVersion. What becomes of each ref follows from what the store answers for it, and the version is
        published exactly when no ref failed, one was copied and the repository takes it. It then lists the replacement:
        same length and order, refs off the source unchanged, each other ref its copy. A succeeded move to another
        volume leaves nothing on the source. */
    method MoveObjectVersion(ghost move: MoveId, version: Version, source: Volume, target: Volume,
                             copies: nat -> CopyAnswer, answer: PublishAnswer)
      returns (r: MoveResult, ghost actions: seq<Action>)
      requires Valid() && Inv(s) && move !in s.moves
      modifies this
      ensures Valid() && Inv(s) && Follows(old(s), actions, s, BOTH)
      ensures queue == old(queue)
      ensures r.NoSuchVersion? <==> version !in old(versions)
      ensures r.NoSuchVersion? ==> versions == old(versions) && records == old(records) && data == old(data)
      ensures r.MoveResult? ==>
                var refs, op := old(versions)[version], r.operation;
                exists draft: Operation ::
                  && draft.scanned == |draft.attempts| == |refs| && Tallied(draft, refs)
                  && Placed(placements, old(data), draft.attempts, copies, source, target)
                  && Finishes(r, draft, refs, answer)
                  && versions == (if !r.published then old(versions)
                                  else old(versions)[version := Replacement(refs, Outcomes(draft.attempts))])
                  && records == (if r.recorded then old(records) + [RecordFor(op, source)] else old(records))
                  && (op.status == Succeeded && target != ANY && target != source ==>
                        forall id :: id in versions[version] ==> !OnSource(id, source))
    {
      hide Follows, StoreRep, QueueRep, Tallied, Kept, Placed, Inv, RecordFor;
      actions := [];
      FollowsNothing(s, BOTH);
      if version !in versions {
        return NoSuchVersion, actions;
      }
      var refs := versions[version];
      RefsArePlaced(data, nextId, placements, s, version);
      ghost var begin := Start(move, version, source, target);
      Extend(old(s), actions, s, begin, BOTH);
      assert Next(s, begin) == s.(moves := s.moves[move := Move(version, source, target, refs, [], Copying)]);
      SameStoreRep(data, nextId, placements, s, Next(s, begin));
      s, actions := Next(s, begin), actions + [begin];
      ghost var start := old(s);
      var op, replacement;
      op, replacement, actions := MoveRefs(move, refs, source, target, copies, start, actions);
      r, actions :=
        FinishMove(move, version, source, target, refs, op, replacement, answer, old(data), copies, start, actions);
      RunFollowed(start, actions, s);
    }

    // ---- ReclaimOperation -----------------------------------------------------------------------

    /** One copied attempt of the record being reclaimed. */
    method ReclaimAttempt(k: nat, i: nat, source: SegmentId, target: SegmentId, answer: ReclaimAnswer)
      returns (a: Attempt, ghost actions: seq<Action>)
      requires Valid() && k < |records|
      requires i < |records[k].outcomes| && i < |records[k].read|
      requires records[k].outcomes[i] == Copied(target) && records[k].read[i] == source
      modifies this`queue, this`s
      ensures Valid()
      ensures a.source == source && a.target == target
      ensures ReclaimedAs(a, records[k].source, answer, placements, data, locked)
      ensures queue == if a.status == AttemptQueuedGC then Enqueued(old(queue), source) else old(queue)
      ensures |actions| <= 1 && (forall a :: a in actions ==> a.Reclaim? && a.record == k)
      ensures s == if actions == [] then old(s) else Next(old(s), actions[0])
    {
      hide StoreRep, QueueRep, Next;
      actions := [];
      if source == 0 || target == 0 || !On(placements, source, records[k].source) {
        return Attempt(source, target, AttemptSkipped), actions;
      }
      if !answer.validated || target !in data || !answer.listed {
        return Attempt(source, target, AttemptRetryable), actions;
      }
      if source in locked {
        return Attempt(source, target, AttemptProtected), actions;
      }
      if !answer.queueable {
        return Attempt(source, target, AttemptRetryable), actions;
      }
      ghost var action := Reclaim(k, i, false);
      ReclaimRep(data, nextId, placements, queue, s, k, i);
      if source !in queue {
        queue := queue + [source];
      }
      s, actions := Next(s, action), [action];
      return Attempt(source, target, AttemptQueuedGC), actions;
    }

    /** The loop body for attempt i, copied or not. */
    method ReclaimNext(k: nat, i: nat, r0: ReclaimResult, answers: nat -> ReclaimAnswer, rules: Rules,
                       ghost was: seq<SegmentId>, ghost start: State, ghost prior: seq<Action>)
      returns (r: ReclaimResult, ghost actions: seq<Action>)
      requires Valid() && k < |records| && i < |records[k].outcomes|
      requires rules == Rules(true, records[k].status == Succeeded) && Follows(start, prior, s, rules)
      requires ReclaimTallied(r0) && r0.operation.status == Succeeded
      requires Settles(records[k], i, answers, placements, data, locked, r0.operation.attempts)
      requires QueuedFrom(was, queue, r0.operation.attempts)
      modifies this`queue, this`s
      ensures Valid() && Follows(start, actions, s, rules)
      ensures ReclaimTallied(r) && r.operation.status == Succeeded
      ensures Settles(records[k], i + 1, answers, placements, data, locked, r.operation.attempts)
      ensures QueuedFrom(was, queue, r.operation.attempts)
    {
      hide Follows, StoreRep, QueueRep, Next, QueuedFrom, ReclaimTallied, Counted, Settles, ReclaimedAs, Obeys;
      r, actions := r0, prior;
      var outcome := records[k].outcomes[i];
      ghost var before, queued := s, queue;
      if outcome.Copied? && i < |records[k].read| {
        var attempt;
        ghost var steps;
        attempt, steps := ReclaimAttempt(k, i, records[k].read[i], outcome.target, answers(i));
        if steps != [] {
          ReclaimObeys(before, steps[0], k);
          Extend(start, actions, before, steps[0], rules);
          actions := actions + [steps[0]];
        }
        ReclaimedNext(records[k], i, answers, placements, data, locked, was, queued, r, attempt);
        r := Counted(r, attempt);
      } else {
        PassedOver(records[k], i, answers, placements, data, locked, r.operation.attempts);
      }
    }

    /** ReclaimOperation on record k. Its attempts follow one by one from the record and the stores' answers; the queue
        gains exactly the sources of those it reports as queued, each with its copy stored and not protected; and when
        it succeeds, every copied source on the drained volume is queued. It never looks at the record's status, so it
        obeys the reclaim rule exactly as far as its caller does. */
    method ReclaimOperation(k: nat, answers: nat -> ReclaimAnswer, recordable: bool)
      returns (r: ReclaimResult, ghost actions: seq<Action>)
      requires Valid() && k < |records|
      modifies this`queue, this`records, this`s
      ensures Valid() && Follows(old(s), actions, s, Rules(true, old(records)[k].status == Succeeded))
      ensures ReclaimTallied(r)
      ensures Settles(old(records)[k], |old(records)[k].outcomes|, answers, placements, data, locked,
                      r.operation.attempts)
      ensures QueuedFrom(old(queue), queue, r.operation.attempts)
      ensures forall id :: id in queue && id !in old(queue) ==>
                QueuedBy(old(records)[k], id, placements, data, locked)
      ensures r.operation.status == if r.operation.retryable == 0 && r.operation.protected == 0 then Succeeded
                                    else RetryPending
      ensures r.operation.status == Succeeded ==>
                forall i: nat :: Eligible(old(records)[k], i, placements) ==> old(records)[k].read[i] in queue
      ensures records == if recordable then old(records) + [RecordFor(r.operation, old(records)[k].source)]
                         else old(records)
    {
      var source := records[k].source;
      r, actions := ReclaimAttempts(k, answers);
      ghost var rules := Rules(true, records[k].status == Succeeded);
      if r.operation.retryable > 0 || r.operation.protected > 0 {
        r := r.(operation := r.operation.(status := RetryPending));
      }
      ReclaimCopiesNothing(r, source);
      ReclaimSettled(records[k], answers, placements, data, locked, old(queue), queue, r);
      hide Follows, StoreRep, QueueRep, QueuedFrom, QueuedBy, RecordFor, ReclaimTallied, Settles, Eligible;
      var entry := RecordFor(r.operation, source);
      if recordable {
        records := records + [entry];
        ghost var action := Log(entry);
        Extend(old(s), actions, s, action, rules);
        SameStoreRep(data, nextId, placements, s, Next(s, action));
        s, actions := Next(s, action), actions + [action];
      }
    }

    /** Its loop over the attempts of record k. */
    method ReclaimAttempts(k: nat, answers: nat -> ReclaimAnswer) returns (r: ReclaimResult, ghost actions: seq<Action>)
      requires Valid() && k < |records|
      modifies this`queue, this`s
      ensures Valid() && Follows(old(s), actions, s, Rules(true, records[k].status == Succeeded))
      ensures ReclaimTallied(r) && r.operation.status == Succeeded
      ensures Settles(records[k], |records[k].outcomes|, answers, placements, data, locked, r.operation.attempts)
      ensures QueuedFrom(old(queue), queue, r.operation.attempts)
    {
      var rules := Rules(true, records[k].status == Succeeded);
      FollowsNothing(s, rules);
      actions := [];
      r := ReclaimResult(Operation(Succeeded, 0, 0, 0, 0, 0, []), 0);
      assert QueuedFrom(queue, queue, []);
      hide Follows, StoreRep, QueueRep, Next, QueuedFrom;
      var i := 0;
      while i < |records[k].outcomes|
        invariant 0 <= i <= |records[k].outcomes| && Valid() && Follows(old(s), actions, s, rules)
        invariant ReclaimTallied(r) && r.operation.status == Succeeded
        invariant Settles(records[k], i, answers, placements, data, locked, r.operation.attempts)
        invariant QueuedFrom(old(queue), queue, r.operation.attempts)
      {
        r, actions := ReclaimNext(k, i, r, answers, rules, old(queue), old(s), actions);
        i := i + 1;
      }
    }

    // ---- GC: RunOnce ------------------------------------------------------------------------------

    /** One candidate. */
    method CollectOne(id: SegmentId, answers: GCAnswers) returns (status: GCStatus, ghost actions: seq<Action>)
      requires Valid() && id in queue
      modifies this`data, this`queue, this`s
      ensures Valid() && Follows(old(s), actions, s, BOTH)
      ensures s.versions == old(s).versions && s.records == old(s).records
      ensures CollectedAs(id, status, answers, shared)
      ensures data == if Removes(id, answers, shared) then old(data) - {id} else old(data)
      ensures forall k :: k in queue <==>
                && k in old(queue)
                && !(k == id && Removes(k, answers, shared) && answers.acks.Some? && answers.acks.value(k))
    {
      actions := [];
      FollowsNothing(s, BOTH);
      if !answers.admits(id) {
        return GCSkipped, actions;
      }
      if id in shared {
        if answers.releases.None? || !answers.releases.value(id) {
          return GCRetryable, actions;
        }
        return GCSkipped, actions;
      }
      // the delete may fail for any reason, whether the segment is there or not; "not found" is no failure
      if !answers.deletes(id) {
        return GCRetryable, actions;
      }
      ghost var collect := Collect(id, false);
      Extend(s, actions, s, collect, BOTH);
      DeleteRep(data, nextId, placements, s, id);
      data := data - {id};
      s, actions := Next(s, collect), actions + [collect];
      if answers.acks.Some? {
        if !answers.acks.value(id) {
          return GCRetryable, actions;
        }
        ghost var ack := Acknowledge(id);
        Extend(old(s), actions, s, ack, BOTH);
        SameStoreRep(data, nextId, placements, s, Next(s, ack));
        WithoutRep(queue, id, s.candidates);
        assert forall k :: k in Without(queue, id) <==> k in s.candidates - {id};
        queue := Without(queue, id);
        s, actions := Next(s, ack), actions + [ack];
      }
      return GCDeleted, actions;
    }

    /** One turn of the loop. `all` and `was` are the queue and the store at the start of the run. */
    method CollectNext(candidates: seq<SegmentId>, i: nat, r0: GCRecord, answers: GCAnswers, ghost all: seq<SegmentId>,
                       ghost was: map<SegmentId, seq<byte>>, ghost start: State, ghost prior: seq<Action>)
      returns (r: GCRecord, ghost actions: seq<Action>)
      requires Valid() && Follows(start, prior, s, BOTH)
      requires i < |candidates| <= |all| && candidates == all[..|candidates|] && Distinct(all)
      requires Progressed(r0, i, all, was, data, queue, answers, shared)
      modifies this`data, this`queue, this`s
      ensures Valid() && Follows(start, actions, s, BOTH)
      ensures Progressed(r, i + 1, all, was, data, queue, answers, shared)
    {
      hide Follows, StoreRep, QueueRep, Next, Progressed, CollectedAs, Removes, Distinct, GCCounted;
      var id := candidates[i];
      assert id == all[i];
      StillQueued(r0, i, all, was, data, queue, answers, shared);
      var status;
      ghost var steps;
      ghost var before, had, waiting := s, data, queue;
      status, steps := CollectOne(id, answers);
      FollowsBoth(start, prior, before, steps, s);
      actions := prior + steps;
      ProgressNext(r0, i, all, was, had, data, waiting, queue, answers, shared, status);
      r := GCCounted(r0, GCAttempt(id, status));
    }

    /** RunOnce. The candidates listed are attempted in order and counted by what they come to; a segment is deleted
        exactly when it is listed, admitted, not shared and the delete works; and a candidate leaves the queue exactly
        when, besides, it is acknowledged. */
    method RunOnce(limit: int, answers: GCAnswers) returns (r: GCRecord, ghost actions: seq<Action>)
      requires Valid()
      modifies this`data, this`queue, this`s
      ensures Valid() && Follows(old(s), actions, s, BOTH)
      ensures r.scanned == |r.attempts| == if 0 < limit < |old(queue)| then limit else |old(queue)|
      ensures forall j :: 0 <= j < r.scanned ==>
                r.attempts[j].segment == old(queue)[j]
                && CollectedAs(r.attempts[j].segment, r.attempts[j].status, answers, shared)
      ensures GCTallied(r)
      ensures r.status == if r.retryable > 0 then RetryPending else Succeeded
      ensures Collected(old(queue)[..r.scanned], old(data), data, answers, shared)
      ensures Acknowledged(old(queue)[..r.scanned], old(queue), queue, answers, shared)
    {
      assert Distinct(queue);
      hide Follows, StoreRep, QueueRep, Next, Progressed, Distinct, GCTallied, Collected, Acknowledged;
      hide CollectedAs, Removes, GCCount, Obeys;
      FollowsNothing(s, BOTH);
      actions := [];
      var candidates := if 0 < limit < |queue| then queue[..limit] else queue;
      assert candidates == queue[..|candidates|];
      ghost var all, was := queue, data;
      r := GCRecord(Succeeded, 0, 0, 0, 0, []);
      ProgressStarts(r, queue, data, answers, shared);
      var i := 0;
      while i < |candidates|
        invariant 0 <= i <= |candidates| && Valid() && Follows(old(s), actions, s, BOTH)
        invariant Progressed(r, i, all, was, data, queue, answers, shared)
      {
        r, actions := CollectNext(candidates, i, r, answers, all, was, old(s), actions);
        i := i + 1;
      }
      ProgressEnds(r, i, all, was, data, queue, answers, shared);
      if r.retryable > 0 {
        r := r.(status := RetryPending);
      }
    }
  }
}
