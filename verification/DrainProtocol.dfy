/** Moving object versions off a volume, reclaiming the old segments and collecting them, as one protocol
    over atomic store calls (internal/drain/worker.go, internal/gc/worker.go; the repository calls as in
    internal/meta/memory/repository.go). Any number of moves, reclaims, collections, uploads and deletes
    interleave; every call may fail. */
module DrainProtocol {
  import opened Bytes

  type SegmentId = nat
  type MoveId = nat
  type Version = nat
  type Volume = nat

  /** Volume 0 stands for the empty volume id: "any target". */
  const ANY: Volume := 0

  /** What PutSegment wrote once and for all. */
  datatype Segment = Segment(volume: Volume, bytes: seq<byte>)

  /** How one ref of a moved version fared. */
  datatype Outcome = Skipped | Copied(target: SegmentId) | Retryable

  datatype Phase = Copying | Published | Rejected | Recorded

  datatype Move = Move(version: Version, source: Volume, target: Volume,
                       read: seq<SegmentId>, outcomes: seq<Outcome>, phase: Phase)

  datatype Status = Succeeded | RetryPending

  datatype Record = Record(status: Status, source: Volume, read: seq<SegmentId>, outcomes: seq<Outcome>)

  /** History: what a segment is for. A dead segment is one no version may ever list again. */
  datatype Role = Uploading | Live(version: Version) | Draft(move: MoveId) | Dead

  datatype State = State(
    catalog: map<SegmentId, Segment>,         // everything ever written
    present: set<SegmentId>,                  // what the store still holds
    nextId: SegmentId,
    versions: map<Version, seq<SegmentId>>,   // committed versions and the segments they list
    contents: map<Version, seq<byte>>,        // history: the bytes each version was uploaded with
    candidates: set<SegmentId>,               // the metadata GC queue
    moves: map<MoveId, Move>,
    records: seq<Record>,
    role: map<SegmentId, Role>)

  datatype Action =
    | Put(segment: Segment)
    | Commit(version: Version, refs: seq<SegmentId>)
    | Delete(version: Version)
    | Start(move: MoveId, version: Version, source: Volume, target: Volume)
    | Copy(move: MoveId, works: bool, landsOn: Volume)
    | Publish(move: MoveId, accepted: bool)
    | Persist(move: MoveId, works: bool)
    | Reclaim(record: nat, attempt: nat, refused: bool)
    | Log(entry: Record)
    | Collect(id: SegmentId, refused: bool)
    | Acknowledge(id: SegmentId)

  // ---- The steps ------------------------------------------------------------------------------

  function BytesOf(catalog: map<SegmentId, Segment>, ids: seq<SegmentId>): (r: seq<byte>) {
    if ids == [] then [] else
      (if ids[0] in catalog then catalog[ids[0]].bytes else []) + BytesOf(catalog, ids[1..])
  }

  /** The refs a move publishes: its targets in place of its sources, everything else untouched. */
  function Replacement(read: seq<SegmentId>, outcomes: seq<Outcome>): (r: seq<SegmentId>)
    requires |outcomes| == |read|
    ensures |r| == |read|
    ensures forall i :: 0 <= i < |read| ==> r[i] == if outcomes[i].Copied? then outcomes[i].target else read[i]
  {
    seq(|read|, i requires 0 <= i < |read| => if outcomes[i].Copied? then outcomes[i].target else read[i])
  }

  predicate Finished(m: Move) { |m.outcomes| == |m.read| }

  predicate AnyRetryable(m: Move) { Retryable in m.outcomes }

  predicate AnyCopied(m: Move) {
    exists i :: 0 <= i < |m.outcomes| && m.outcomes[i].Copied?
  }

  predicate OnVolume(s: State, id: SegmentId, volume: Volume) {
    id in s.catalog && s.catalog[id].volume == volume
  }

  predicate Committable(s: State, version: Version, refs: seq<SegmentId>) {
    version !in s.contents &&
    forall id :: id in refs ==> id in s.present && id in s.role && s.role[id] == Uploading
  }

  /** A client's segments become a version; its bytes are what was uploaded. */
  function CommitStep(s: State, version: Version, refs: seq<SegmentId>): (s': State) {
    if !Committable(s, version, refs) then s
    else s.(versions := s.versions[version := refs],
            contents := s.contents[version := BytesOf(s.catalog, refs)],
            role := map id | id in s.role :: if id in refs then Live(version) else s.role[id])
  }

  /** A client deletes a version and its segments are queued. */
  function DeleteStep(s: State, version: Version): (s': State) {
    if version !in s.versions then s else
      var ids := set id | id in s.versions[version];
      s.(versions := s.versions - {version},
         candidates := s.candidates + ids,
         role := map id | id in s.role :: PublishedRole(s.role[id], version, false))
  }

  /** A deleted version leaves nothing behind: each of its segments is gone after one collection, and its candidate
      after one acknowledgement. */
  lemma DeletedIsCollected(s: State, version: Version, id: SegmentId)
    requires version in s.versions && id in s.versions[version]
    ensures var deleted := Next(s, Delete(version));
            var collected := Next(deleted, Collect(id, false));
            && version !in deleted.versions && deleted.present == s.present
            && (forall k :: k in deleted.candidates <==> k in s.candidates || k in s.versions[version])
            && collected.present == s.present - {id} && id in collected.candidates
            && id !in Next(collected, Acknowledge(id)).candidates
  {
  }

  function StartStep(s: State, move: MoveId, version: Version, source: Volume, target: Volume): (s': State) {
    if move in s.moves || version !in s.versions then s
    else s.(moves := s.moves[move := Move(version, source, target, s.versions[version], [], Copying)])
  }

  /** The loop body of MoveObjectVersion for the next ref. */
  function CopyStep(s: State, move: MoveId, works: bool, landsOn: Volume): (s': State) {
    if move !in s.moves || Finished(s.moves[move]) || s.moves[move].phase != Copying
       || |s.moves[move].outcomes| > |s.moves[move].read| then s else
      var m := s.moves[move];
      var id := m.read[|m.outcomes|];
      if !OnVolume(s, id, m.source) then Noted(s, move, Skipped)
      else if !works || id !in s.present then Noted(s, move, Retryable)
      else
        var segment := Segment(landsOn, s.catalog[id].bytes);
        if m.target != ANY && landsOn != m.target then Noted(Write(s, segment, Dead), move, Retryable)
        else Noted(Write(s, segment, Draft(move)), move, Copied(s.nextId))
  }

  /** PutSegment: a fresh id. */
  function Write(s: State, segment: Segment, role: Role): (s': State) {
    s.(catalog := s.catalog[s.nextId := segment], present := s.present + {s.nextId},
       nextId := s.nextId + 1, role := s.role[s.nextId := role])
  }

  function Noted(s: State, move: MoveId, o: Outcome): (s': State)
    requires move in s.moves
  {
    s.(moves := s.moves[move := s.moves[move].(outcomes := s.moves[move].outcomes + [o])])
  }

  /** PublishObjectVersionRefs checks that the version exists and still has some ref on the source volume;
      it does not compare the refs with those the move read. */
  predicate RepositoryAccepts(s: State, m: Move) {
    m.version in s.versions && exists id :: id in s.versions[m.version] && OnVolume(s, id, m.source)
  }

  function PublishStep(s: State, move: MoveId, accepted: bool): (s': State) {
    if move !in s.moves then s else
      var m := s.moves[move];
      if m.phase != Copying || !Finished(m) || AnyRetryable(m) || !AnyCopied(m) then s
      else if !accepted || !RepositoryAccepts(s, m) then s.(moves := s.moves[move := m.(phase := Rejected)])
      else
        var refs := Replacement(m.read, m.outcomes);
        s.(versions := s.versions[m.version := refs],
           moves := s.moves[move := m.(phase := Published)],
           role := map id | id in s.role :: PublishedRole(s.role[id], m.version, id in refs))
  }

  /** Publishing refs for a version: what it lists is live, what it no longer lists is dead, the dead stay dead. */
  function PublishedRole(r: Role, version: Version, listed: bool): (r': Role) {
    if r == Dead then Dead
    else if listed then Live(version)
    else if r == Live(version) then Dead
    else r
  }

  /** The record of a finished move. A rejected publish adds one attempt, on the first ref, that copied nothing. */
  function RecordOf(m: Move): (r: Record) {
    if m.phase == Rejected && m.read != [] then
      Record(RetryPending, m.source, m.read + [m.read[0]], m.outcomes + [Retryable])
    else
      Record(if m.phase == Published || !AnyRetryable(m) then Succeeded else RetryPending, m.source, m.read, m.outcomes)
  }

  /** A move that published, was rejected, had failures, or had nothing to copy, and is not on record yet. */
  predicate Persistable(m: Move) {
    Finished(m) && m.phase != Recorded && (m.phase == Copying ==> AnyRetryable(m) || !AnyCopied(m))
  }

  /** putOperation. */
  function PersistStep(s: State, move: MoveId, works: bool): (s': State) {
    if move !in s.moves || !Persistable(s.moves[move]) then s else
      var m := s.moves[move];
      s.(moves := s.moves[move := m.(phase := Recorded)],
         records := if works then s.records + [RecordOf(m)] else s.records)
  }

  /** Reclaim's own record has no copied attempts. */
  predicate CopiesNothing(r: Record) {
    forall i :: 0 <= i < |r.outcomes| ==> !r.outcomes[i].Copied?
  }

  predicate Reclaimable(s: State, record: nat, attempt: nat) {
    && record < |s.records|
    && attempt < |s.records[record].outcomes| && attempt < |s.records[record].read|
    && s.records[record].outcomes[attempt].Copied?
    && OnVolume(s, s.records[record].read[attempt], s.records[record].source)
    && s.records[record].outcomes[attempt].target in s.present
  }

  function Next(s: State, a: Action): (s': State) {
    match a
    case Put(segment) => Write(s, segment, Uploading)
    case Commit(version, refs) => CommitStep(s, version, refs)
    case Delete(version) => DeleteStep(s, version)
    case Start(move, version, source, target) => StartStep(s, move, version, source, target)
    case Copy(move, works, landsOn) => CopyStep(s, move, works, landsOn)
    case Publish(move, accepted) => PublishStep(s, move, accepted)
    case Persist(move, works) => PersistStep(s, move, works)
    // one attempt of ReclaimOperation; `refused` covers protected refs and failing calls
    case Reclaim(record, attempt, refused) =>
      if refused || !Reclaimable(s, record, attempt) then s
      else s.(candidates := s.candidates + {s.records[record].read[attempt]})
    // the record that ReclaimOperation writes about itself
    case Log(entry) => if CopiesNothing(entry) then s.(records := s.records + [entry]) else s
    // GC deletes a queued segment unless admission or the store refuses
    case Collect(segment, refused) =>
      if refused || segment !in s.candidates then s else s.(present := s.present - {segment})
    // and acknowledges it once the store no longer has it
    case Acknowledge(segment) =>
      if segment in s.present then s else s.(candidates := s.candidates - {segment})
  }

  // ---- The discipline safety rests on -----------------------------------------------------------

  /** Every ref the move keeps is still listed by the version it is about to publish. */
  predicate KeptRefsCurrent(s: State, m: Move) {
    m.version in s.versions &&
    forall i :: 0 <= i < |m.outcomes| && i < |m.read| && m.outcomes[i].Skipped? ==> m.read[i] in s.versions[m.version]
  }

  /** Rule one: a publish keeps only refs that are current. */
  predicate PublishRule(s: State, a: Action) {
    a.Publish? && a.accepted && a.move in s.moves && RepositoryAccepts(s, s.moves[a.move]) ==>
      KeptRefsCurrent(s, s.moves[a.move])
  }

  /** Rule two: only succeeded records are reclaimed. */
  predicate ReclaimRule(s: State, a: Action) {
    a.Reclaim? && a.record < |s.records| ==> s.records[a.record].status == Succeeded
  }

  datatype Rules = Rules(publish: bool, reclaim: bool)

  const BOTH := Rules(true, true)

  predicate Obeys(s: State, a: Action, rules: Rules) {
    (rules.publish ==> PublishRule(s, a)) && (rules.reclaim ==> ReclaimRule(s, a))
  }

  function Run(s: State, actions: seq<Action>): (s': State)
    decreases |actions|
  {
    if actions == [] then s else Run(Next(s, actions[0]), actions[1..])
  }

  predicate RunObeys(s: State, actions: seq<Action>, rules: Rules)
    decreases |actions|
  {
    actions == [] || (Obeys(s, actions[0], rules) && RunObeys(Next(s, actions[0]), actions[1..], rules))
  }

  lemma {:induction false} RunAppend(s: State, first: seq<Action>, second: seq<Action>)
    ensures Run(s, first + second) == Run(Run(s, first), second)
    decreases |first|
  {
    if first == [] {
      assert first + second == second;
    } else {
      assert (first + second)[1..] == first[1..] + second;
      RunAppend(Next(s, first[0]), first[1..], second);
    }
  }

  lemma {:induction false} ObeysAppend(s: State, actions: seq<Action>, a: Action, rules: Rules)
    requires RunObeys(s, actions, rules) && Obeys(Run(s, actions), a, rules)
    ensures RunObeys(s, actions + [a], rules)
    decreases |actions|
  {
    if actions != [] {
      assert (actions + [a])[1..] == actions[1..] + [a];
      ObeysAppend(Next(s, actions[0]), actions[1..], a, rules);
    }
  }

  /** `actions` lead from s to s' and obey the rules. */
  ghost predicate Follows(s: State, actions: seq<Action>, s': State, rules: Rules) {
    Run(s, actions) == s' && RunObeys(s, actions, rules)
  }

  lemma Extend(s: State, actions: seq<Action>, s': State, a: Action, rules: Rules)
    requires Follows(s, actions, s', rules) && Obeys(s', a, rules)
    ensures Follows(s, actions + [a], Next(s', a), rules)
  {
    RunAppend(s, actions, [a]);
    ObeysAppend(s, actions, a, rules);
    assert [a][1..] == [];
  }

  const EMPTY: State := State(map[], {}, 1, map[], map[], {}, map[], [], map[])

  // ---- Safety and its invariant ---------------------------------------------------------------------

  /** Every version that exists reads back the bytes it was uploaded with, from segments the store holds. */
  predicate Safe(s: State) {
    forall v :: v in s.versions ==>
      && (forall id :: id in s.versions[v] ==> id in s.present)
      && v in s.contents && BytesOf(s.catalog, s.versions[v]) == s.contents[v]
  }

  predicate IdsInv(s: State) {
    && s.present <= s.catalog.Keys
    && s.role.Keys == s.catalog.Keys
    && (forall id :: id in s.catalog ==> id < s.nextId)
  }

  predicate VersionInv(s: State, v: Version)
    requires v in s.versions
  {
    && (forall id :: id in s.versions[v] ==> id in s.present && id in s.role && s.role[id] == Live(v))
    && v in s.contents && BytesOf(s.catalog, s.versions[v]) == s.contents[v]
  }

  /** Attempt i of a move: what it did with ref i. */
  predicate AttemptInv(s: State, move: MoveId, m: Move, i: nat)
    requires i < |m.outcomes| && i < |m.read|
  {
    var id, o := m.read[i], m.outcomes[i];
    && (o.Skipped? ==> !OnVolume(s, id, m.source))
    && (o.Copied? ==>
          && OnVolume(s, id, m.source)
          && o.target in s.catalog && s.catalog[o.target].bytes == s.catalog[id].bytes
          && (m.phase == Copying ==> o.target in s.role && s.role[o.target] == Draft(move) && o.target in s.present)
          && (m.phase == Published && o.target in s.present ==> id in s.role && s.role[id] == Dead))
  }

  /** A segment the move has read still belongs to its version or is dead. */
  predicate ReadRole(s: State, m: Move, id: SegmentId) {
    id in s.role && (s.role[id] == Live(m.version) || s.role[id] == Dead)
  }

  predicate MoveInv(s: State, move: MoveId, m: Move) {
    && |m.outcomes| <= |m.read| && (m.phase == Published ==> Finished(m))
    && (forall i :: 0 <= i < |m.read| ==> m.read[i] in s.catalog && ReadRole(s, m, m.read[i]))
    && m.version in s.contents && BytesOf(s.catalog, m.read) == s.contents[m.version]
    && (forall i :: 0 <= i < |m.outcomes| ==> AttemptInv(s, move, m, i))
  }

  /** A source that reclaim may queue on the strength of a succeeded record is dead. */
  predicate RecordInv(s: State, r: Record) {
    r.status == Succeeded ==>
      forall i :: 0 <= i < |r.outcomes| && i < |r.read| && r.outcomes[i].Copied? ==>
        && r.read[i] in s.role && r.read[i] in s.catalog && r.outcomes[i].target in s.catalog
        && (OnVolume(s, r.read[i], r.source) && r.outcomes[i].target in s.present ==> s.role[r.read[i]] == Dead)
  }

  predicate RoleInv(s: State, id: SegmentId)
    requires id in s.role
  {
    s.role[id].Live? ==> s.role[id].version in s.versions && id in s.versions[s.role[id].version]
  }

  predicate Core(s: State) {
    && IdsInv(s)
    && (forall v :: v in s.versions ==> VersionInv(s, v))
    && (forall id :: id in s.candidates ==> id in s.role && s.role[id] == Dead)
    && (forall m :: m in s.moves ==> MoveInv(s, m, s.moves[m]))
    && (forall k :: 0 <= k < |s.records| ==> RecordInv(s, s.records[k]))
  }

  predicate Inv(s: State) {
    Core(s) && forall id :: id in s.role ==> RoleInv(s, id)
  }

  // ---- Frames: what a step must leave alone ------------------------------------------------------

  /** Segments keep their bytes; a live one may die, a draft may go live, the dead stay dead. */
  predicate Extends(s: State, s': State) {
    && (forall id :: id in s.catalog ==> id in s'.catalog && s'.catalog[id] == s.catalog[id])
    && (forall id :: id in s.role ==> id in s'.role && LaterRole(s.role[id], s'.role[id]))
    && (forall v :: v in s.contents ==> v in s'.contents && s'.contents[v] == s.contents[v])
    && (forall id :: id in s.catalog && id in s'.present ==> id in s.present)
  }

  predicate LaterRole(r: Role, r': Role) {
    r' == r || (r.Live? && r' == Dead) || ((r.Draft? || r.Uploading?) && r'.Live?)
  }

  lemma {:induction false} BytesFrame(c: map<SegmentId, Segment>, c': map<SegmentId, Segment>, ids: seq<SegmentId>)
    requires forall id :: id in c ==> id in c' && c'[id] == c[id]
    requires forall id :: id in ids ==> id in c
    ensures BytesOf(c', ids) == BytesOf(c, ids)
  {
    if ids != [] {
      BytesFrame(c, c', ids[1..]);
    }
  }

  lemma MoveFrame(s: State, s': State, move: MoveId, m: Move)
    requires IdsInv(s) && Extends(s, s') && MoveInv(s, move, m)
    requires forall id :: id in s.role && s.role[id] == Draft(move) && m.phase == Copying ==>
               s'.role[id] == Draft(move) && (id in s.present ==> id in s'.present)
    ensures MoveInv(s', move, m)
  {
    BytesFrame(s.catalog, s'.catalog, m.read);
    forall i | 0 <= i < |m.read|
      ensures m.read[i] in s'.catalog && ReadRole(s', m, m.read[i])
    {
      assert ReadRole(s, m, m.read[i]);
    }
    forall i | 0 <= i < |m.outcomes|
      ensures AttemptInv(s', move, m, i)
    {
      assert AttemptInv(s, move, m, i);
      assert ReadRole(s, m, m.read[i]);
    }
  }

  lemma MovesFrame(s: State, s': State)
    requires Core(s) && Extends(s, s') && s'.moves == s.moves
    requires forall id :: id in s.role && s.role[id].Draft? ==>
               s'.role[id] == s.role[id] && (id in s.present ==> id in s'.present)
    ensures forall m :: m in s'.moves ==> MoveInv(s', m, s'.moves[m])
  {
    forall m | m in s'.moves
      ensures MoveInv(s', m, s'.moves[m])
    {
      MoveFrame(s, s', m, s.moves[m]);
    }
  }

  lemma RecordsFrame(s: State, s': State)
    requires Core(s) && Extends(s, s')
    ensures forall k :: 0 <= k < |s.records| ==> RecordInv(s', s.records[k])
  {
    forall k | 0 <= k < |s.records|
      ensures RecordInv(s', s.records[k])
    {
      assert RecordInv(s, s.records[k]);
    }
  }

  lemma VersionFrame(s: State, s': State, v: Version)
    requires Core(s) && Extends(s, s') && v in s.versions && v in s'.versions && s'.versions[v] == s.versions[v]
    requires forall id :: id in s.versions[v] ==> id in s'.present && s'.role[id] == Live(v)
    ensures VersionInv(s', v)
  {
    assert VersionInv(s, v);
    BytesFrame(s.catalog, s'.catalog, s.versions[v]);
  }

  lemma CandidatesFrame(s: State, s': State)
    requires Core(s) && Extends(s, s')
    ensures forall id :: id in s.candidates ==> id in s'.role && s'.role[id] == Dead
  {
  }

  // ---- Each step keeps the invariant -----------------------------------------------------------------

  lemma CommittedVersion(s: State, version: Version, refs: seq<SegmentId>)
    requires Inv(s) && Committable(s, version, refs)
    ensures var s' := CommitStep(s, version, refs);
            && version !in s.versions && VersionInv(s', version)
            && Extends(s, s') && s'.role.Keys == s.role.Keys
  {
    hide MoveInv, RecordInv, BytesOf, RoleInv;
    assert IdsInv(s) && (version in s.versions ==> VersionInv(s, version));
    hide Inv;
  }

  lemma CommitKeepsInv(s: State, version: Version, refs: seq<SegmentId>)
    requires Inv(s) && Committable(s, version, refs)
    ensures Inv(CommitStep(s, version, refs))
  {
    hide MoveInv, RecordInv, VersionInv, BytesOf;
    var s' := CommitStep(s, version, refs);
    CommittedVersion(s, version, refs);
    MovesFrame(s, s');
    RecordsFrame(s, s');
    CandidatesFrame(s, s');
    VersionsFrame(s, s', version);
    RolesFrame(s, s', version);
  }

  /** Versions other than `touched` keep their refs and segments. */
  lemma VersionsFrame(s: State, s': State, touched: Version)
    requires Core(s) && Extends(s, s')
    requires forall v :: v in s'.versions && v != touched ==> v in s.versions && s'.versions[v] == s.versions[v]
    requires forall id :: id in s.role && s.role[id].Live? && s.role[id].version != touched ==>
               s'.role[id] == s.role[id] && (id in s.present ==> id in s'.present)
    ensures forall v :: v in s'.versions && v != touched ==> VersionInv(s', v)
  {
    forall v | v in s'.versions && v != touched
      ensures VersionInv(s', v)
    {
      assert VersionInv(s, v);
      VersionFrame(s, s', v);
    }
  }

  lemma RolesFrame(s: State, s': State, touched: Version)
    requires Inv(s)
    requires forall id :: id in s'.role && id !in s.role ==> RoleInv(s', id)
    requires forall id :: id in s'.role && id in s.role ==>
              s'.role[id] == s.role[id] || s'.role[id] == Dead || RoleInv(s', id)
    requires forall id :: id in s'.role && s'.role[id] == Live(touched) ==> RoleInv(s', id)
    requires forall v :: v in s.versions && v != touched ==> v in s'.versions && s'.versions[v] == s.versions[v]
    requires forall m :: m in s.moves ==> m in s'.moves
    ensures forall id :: id in s'.role ==> RoleInv(s', id)
  {
    forall id | id in s'.role
      ensures RoleInv(s', id)
    {
      assert id in s.role ==> RoleInv(s, id);
    }
  }

  lemma DeleteRetires(s: State, version: Version)
    requires Inv(s) && version in s.versions
    ensures var s' := DeleteStep(s, version);
            && Extends(s, s') && s'.role.Keys == s.role.Keys
            && (forall id :: id in s.role ==> s'.role[id] == if s.role[id] == Live(version) then Dead else s.role[id])
            && (forall id :: id in s.versions[version] ==> id in s.role && s'.role[id] == Dead)
  {
    assert VersionInv(s, version);
    forall id | id in s.role
      ensures s.role[id] == Live(version) <==> id in s.versions[version]
    {
      assert RoleInv(s, id);
    }
  }

  lemma DeleteKeepsInv(s: State, version: Version)
    requires Inv(s) && version in s.versions
    ensures Inv(DeleteStep(s, version))
  {
    hide MoveInv, RecordInv, VersionInv, BytesOf;
    var s' := DeleteStep(s, version);
    DeleteRetires(s, version);
    MovesFrame(s, s');
    RecordsFrame(s, s');
    CandidatesFrame(s, s');
    VersionsFrame(s, s', version);
    RolesFrame(s, s', version);
  }

  lemma StartKeepsInv(s: State, move: MoveId, version: Version, source: Volume, target: Volume)
    requires Inv(s)
    ensures Inv(StartStep(s, move, version, source, target))
  {
    if move !in s.moves && version in s.versions {
      var s' := StartStep(s, move, version, source, target);
      assert VersionInv(s, version);
      OnlyMovesChange(s, s', move);
    }
  }

  /** A step that changes only the entry of one move. */
  lemma OnlyMovesChange(s: State, s': State, move: MoveId)
    requires Inv(s) && s' == s.(moves := s'.moves, records := s'.records)
    requires move in s'.moves && MoveInv(s', move, s'.moves[move])
    requires forall m :: m in s.moves ==> m in s'.moves
    requires forall m :: m in s'.moves && m != move ==> m in s.moves && s'.moves[m] == s.moves[m]
    requires forall k :: 0 <= k < |s'.records| ==> RecordInv(s', s'.records[k])
    ensures Inv(s')
  {
    forall m | m in s'.moves
      ensures MoveInv(s', m, s'.moves[m])
    {
      if m != move {
        MoveFrame(s, s', m, s.moves[m]);
      }
    }
    forall v | v in s'.versions
      ensures VersionInv(s', v)
    {
      assert VersionInv(s, v);
    }
    forall id | id in s'.role
      ensures RoleInv(s', id)
    {
      assert RoleInv(s, id);
    }
  }

  lemma NotedKeepsInv(s: State, move: MoveId, o: Outcome)
    requires Inv(s) && move in s.moves && s.moves[move].phase == Copying
    requires |s.moves[move].outcomes| < |s.moves[move].read|
    requires var m := s.moves[move]; AttemptInv(s, move, m.(outcomes := m.outcomes + [o]), |m.outcomes|)
    ensures Inv(Noted(s, move, o))
  {
    var s' := Noted(s, move, o);
    var m, m' := s.moves[move], s'.moves[move];
    assert MoveInv(s, move, m);
    forall i | 0 <= i < |m'.outcomes|
      ensures AttemptInv(s', move, m', i)
    {
      assert i < |m.outcomes| ==> AttemptInv(s, move, m, i);
    }
    forall k | 0 <= k < |s'.records|
      ensures RecordInv(s', s'.records[k])
    {
      assert RecordInv(s, s.records[k]);
    }
    OnlyMovesChange(s, s', move);
  }

  /** Writing a copy, before the move notes it. */
  lemma WriteKeepsInv(s: State, segment: Segment, role: Role)
    requires Inv(s) && !role.Live?
    ensures Inv(Write(s, segment, role))
  {
    hide MoveInv, RecordInv;
    var s' := Write(s, segment, role);
    assert s.nextId !in s.catalog && s.nextId !in s.role;
    assert Extends(s, s');
    MovesFrame(s, s');
    RecordsFrame(s, s');
    CandidatesFrame(s, s');
    forall v | v in s'.versions
      ensures VersionInv(s', v)
    {
      assert VersionInv(s, v);
      VersionFrame(s, s', v);
    }
    forall id | id in s'.role
      ensures RoleInv(s', id)
    {
      assert id in s.role ==> RoleInv(s, id);
    }
  }

  lemma CopyKeepsInv(s: State, move: MoveId, works: bool, landsOn: Volume)
    requires Inv(s)
    ensures Inv(CopyStep(s, move, works, landsOn))
  {
    hide RecordInv, VersionInv, BytesOf;
    if CopyStep(s, move, works, landsOn) != s {
      var m := s.moves[move];
      assert MoveInv(s, move, m);
      var id := m.read[|m.outcomes|];
      if !OnVolume(s, id, m.source) {
        NotedKeepsInv(s, move, Skipped);
      } else if !works || id !in s.present {
        NotedKeepsInv(s, move, Retryable);
      } else {
        var segment := Segment(landsOn, s.catalog[id].bytes);
        if m.target != ANY && landsOn != m.target {
          WriteKeepsInv(s, segment, Dead);
          NotedKeepsInv(Write(s, segment, Dead), move, Retryable);
        } else {
          WriteKeepsInv(s, segment, Draft(move));
          NotedKeepsInv(Write(s, segment, Draft(move)), move, Copied(s.nextId));
        }
      }
    }
  }

  lemma {:induction false} ReplacementBytes(s: State, move: MoveId, m: Move, from: nat)
    requires MoveInv(s, move, m) && Finished(m) && from <= |m.read|
    ensures BytesOf(s.catalog, Replacement(m.read, m.outcomes)[from..]) == BytesOf(s.catalog, m.read[from..])
    decreases |m.read| - from
  {
    if from < |m.read| {
      var refs := Replacement(m.read, m.outcomes);
      assert AttemptInv(s, move, m, from);
      ReplacementBytes(s, move, m, from + 1);
      assert refs[from..][1..] == refs[from + 1..] && m.read[from..][1..] == m.read[from + 1..];
    }
  }

  /** The refs a move keeps are stored and belong to its version. */
  predicate KeptLive(s: State, m: Move) {
    m.version in s.versions &&
    forall i :: 0 <= i < |m.outcomes| && i < |m.read| && m.outcomes[i].Skipped? ==>
      m.read[i] in s.present && m.read[i] in s.role && s.role[m.read[i]] == Live(m.version)
  }

  predicate OtherRoles(s: State, v: Version) {
    forall id :: id in s.role && s.role[id] != Live(v) ==> RoleInv(s, id)
  }

  /** The refs about to be published: kept ones belong to the version, copies are this move's drafts. */
  lemma PublishedRefs(s: State, move: MoveId, m: Move)
    requires Core(s) && move in s.moves && m == s.moves[move] && m.phase == Copying
    requires Finished(m) && !AnyRetryable(m) && KeptLive(s, m)
    ensures var refs := Replacement(m.read, m.outcomes);
            && (forall id :: id in refs ==> id in s.present && id in s.role
                                            && (s.role[id] == Live(m.version) || s.role[id] == Draft(move)))
            && (forall i :: 0 <= i < |m.read| && m.outcomes[i].Copied? ==> m.read[i] !in refs)
            && BytesOf(s.catalog, refs) == BytesOf(s.catalog, m.read)
  {
    hide RecordInv, BytesOf;
    var refs := Replacement(m.read, m.outcomes);
    assert MoveInv(s, move, m);
    forall k | 0 <= k < |refs|
      ensures refs[k] in s.present && refs[k] in s.role
      ensures s.role[refs[k]] == Live(m.version) || s.role[refs[k]] == Draft(move)
      ensures s.role[refs[k]] == Live(m.version) ==> !OnVolume(s, refs[k], m.source)
    {
      assert AttemptInv(s, move, m, k) && m.outcomes[k] in m.outcomes;
    }
    forall i | 0 <= i < |m.read| && m.outcomes[i].Copied?
      ensures m.read[i] !in refs
    {
      assert AttemptInv(s, move, m, i) && ReadRole(s, m, m.read[i]);
    }
    ReplacementBytes(s, move, m, 0);
    assert refs[0..] == refs && m.read[0..] == m.read;
  }

  predicate Publishes(s: State, move: MoveId) {
    && move in s.moves
    && var m := s.moves[move];
       m.phase == Copying && Finished(m) && !AnyRetryable(m) && AnyCopied(m) && RepositoryAccepts(s, m)
  }

  /** What an accepted publish does to the roles. */
  lemma PublishExtends(s: State, move: MoveId)
    requires Core(s) && Publishes(s, move) && KeptLive(s, s.moves[move])
    ensures Extends(s, PublishStep(s, move, true))
  {
    hide RecordInv, MoveInv, BytesOf;
    PublishedRefs(s, move, s.moves[move]);
  }

  lemma PublishedMove(s: State, move: MoveId)
    requires Core(s) && Publishes(s, move) && KeptLive(s, s.moves[move])
    ensures var s' := PublishStep(s, move, true);
            forall k :: k in s'.moves ==> MoveInv(s', k, s'.moves[k])
  {
    hide RecordInv, VersionInv, BytesOf;
    var s' := PublishStep(s, move, true);
    var m, m' := s.moves[move], s'.moves[move];
    PublishExtends(s, move);
    PublishedRefs(s, move, m);
    forall k | k in s'.moves
      ensures MoveInv(s', k, s'.moves[k])
    {
      if k != move {
        MoveFrame(s, s', k, s.moves[k]);
      } else {
        assert MoveInv(s, move, m);
        forall i | 0 <= i < |m.read|
          ensures m.read[i] in s'.catalog && ReadRole(s', m', m.read[i])
        {
          assert ReadRole(s, m, m.read[i]);
        }
        forall i | 0 <= i < |m.outcomes|
          ensures AttemptInv(s', move, m', i)
        {
          assert AttemptInv(s, move, m, i) && ReadRole(s, m, m.read[i]);
        }
      }
    }
  }

  lemma PublishedVersion(s: State, move: MoveId)
    requires Core(s) && Publishes(s, move) && KeptLive(s, s.moves[move])
    ensures VersionInv(PublishStep(s, move, true), s.moves[move].version)
  {
    var m := s.moves[move];
    PublishedRefs(s, move, m);
    assert MoveInv(s, move, m);
  }

  lemma PublishedRoleInv(s: State, move: MoveId)
    requires Core(s) && Publishes(s, move) && KeptLive(s, s.moves[move]) && OtherRoles(s, s.moves[move].version)
    ensures var s' := PublishStep(s, move, true); forall id :: id in s'.role ==> RoleInv(s', id)
  {
    var m, s' := s.moves[move], PublishStep(s, move, true);
    PublishedRefs(s, move, m);
    forall id | id in s'.role
      ensures RoleInv(s', id)
    {
      assert s.role[id] != Live(m.version) ==> RoleInv(s, id);
    }
  }

  lemma PublishKeepsInv(s: State, move: MoveId)
    requires Inv(s) && Publishes(s, move) && KeptRefsCurrent(s, s.moves[move])
    ensures Inv(PublishStep(s, move, true))
  {
    assert VersionInv(s, s.moves[move].version);
    PublishMakesInv(s, move);
  }

  /** Publishing settles the roles of its version, whatever they were. */
  lemma PublishMakesInv(s: State, move: MoveId)
    requires Core(s) && Publishes(s, move) && KeptLive(s, s.moves[move]) && OtherRoles(s, s.moves[move].version)
    ensures Inv(PublishStep(s, move, true))
  {
    var s' := PublishStep(s, move, true);
    var m := s.moves[move];
    PublishExtends(s, move);
    PublishedMove(s, move);
    PublishedVersion(s, move);
    PublishedRoleInv(s, move);
    RecordsFrame(s, s');
    CandidatesFrame(s, s');
    OtherVersions(s, move);
  }

  lemma OtherVersions(s: State, move: MoveId)
    requires Core(s) && Publishes(s, move) && KeptLive(s, s.moves[move])
    ensures var s' := PublishStep(s, move, true);
            forall v :: v in s'.versions && v != s.moves[move].version ==> VersionInv(s', v)
  {
    hide MoveInv, RecordInv, BytesOf;
    var s' := PublishStep(s, move, true);
    PublishExtends(s, move);
    PublishedRefs(s, move, s.moves[move]);
    VersionsFrame(s, s', s.moves[move].version);
  }

  lemma RejectKeepsInv(s: State, move: MoveId)
    requires Inv(s) && move in s.moves
    ensures Inv(s.(moves := s.moves[move := s.moves[move].(phase := Rejected)]))
  {
    var m := s.moves[move];
    var s' := s.(moves := s.moves[move := m.(phase := Rejected)]);
    assert MoveInv(s, move, m);
    forall i | 0 <= i < |m.outcomes|
      ensures AttemptInv(s', move, s'.moves[move], i)
    {
      assert AttemptInv(s, move, m, i);
    }
    RecordsFrame(s, s');
    OnlyMovesChange(s, s', move);
  }

  lemma PersistedRecord(s: State, move: MoveId, m: Move, s': State)
    requires Inv(s) && move in s.moves && s.moves[move] == m && Persistable(m)
    requires s'.role == s.role && s'.catalog == s.catalog && s'.present == s.present
    ensures RecordInv(s', RecordOf(m))
  {
    assert MoveInv(s, move, m);
    forall i | 0 <= i < |m.outcomes| && m.outcomes[i].Copied?
      ensures m.read[i] in s'.role && m.read[i] in s'.catalog && m.outcomes[i].target in s'.catalog
      ensures m.phase == Published && m.outcomes[i].target in s.present ==> s'.role[m.read[i]] == Dead
    {
      assert AttemptInv(s, move, m, i) && ReadRole(s, m, m.read[i]);
    }
  }

  lemma RecordedMove(s: State, move: MoveId, s': State)
    requires Inv(s) && move in s.moves
    requires s' == s.(moves := s.moves[move := s.moves[move].(phase := Recorded)], records := s'.records)
    ensures MoveInv(s', move, s'.moves[move])
  {
    var m := s.moves[move];
    assert MoveInv(s, move, m);
    forall i | 0 <= i < |m.outcomes|
      ensures AttemptInv(s', move, s'.moves[move], i)
    {
      assert AttemptInv(s, move, m, i);
    }
  }

  lemma PersistKeepsInv(s: State, move: MoveId, works: bool)
    requires Inv(s)
    ensures Inv(PersistStep(s, move, works))
  {
    var s' := PersistStep(s, move, works);
    if s' != s {
      var m := s.moves[move];
      RecordedMove(s, move, s');
      RecordsFrame(s, s');
      PersistedRecord(s, move, m, s');
      hide RecordOf, RecordInv, MoveInv;
      OnlyMovesChange(s, s', move);
    }
  }

  lemma LogKeepsInv(s: State, entry: Record)
    requires Inv(s) && CopiesNothing(entry)
    ensures Inv(Next(s, Log(entry)))
  {
    var s' := Next(s, Log(entry));
    RecordsFrame(s, s');
    MovesFrame(s, s');
    forall v | v in s'.versions
      ensures VersionInv(s', v)
    {
      assert VersionInv(s, v);
    }
    forall id | id in s'.role
      ensures RoleInv(s', id)
    {
      assert RoleInv(s, id);
    }
  }

  /** Changing the queue within the dead, or dropping dead segments from the store. */
  lemma CollectorKeepsInv(s: State, s': State)
    requires Inv(s) && s' == s.(candidates := s'.candidates, present := s'.present)
    requires forall id :: id in s'.candidates ==> id in s.role && s.role[id] == Dead
    requires s'.present <= s.present
    requires forall id :: id in s.present && id !in s'.present ==> s.role[id] == Dead
    ensures Inv(s')
  {
    MovesFrame(s, s');
    RecordsFrame(s, s');
    forall v | v in s'.versions
      ensures VersionInv(s', v)
    {
      assert VersionInv(s, v);
    }
    forall id | id in s'.role
      ensures RoleInv(s', id)
    {
      assert RoleInv(s, id);
    }
  }

  lemma ReclaimKeepsInv(s: State, record: nat, attempt: nat)
    requires Inv(s) && Reclaimable(s, record, attempt)
    requires s.role[s.records[record].read[attempt]] == Dead
    ensures Inv(Next(s, Reclaim(record, attempt, false)))
  {
    CollectorKeepsInv(s, Next(s, Reclaim(record, attempt, false)));
  }

  lemma StepKeepsInv(s: State, a: Action)
    requires Inv(s) && Obeys(s, a, BOTH)
    ensures Inv(Next(s, a))
  {
    hide MoveInv, VersionInv;
    match a
    case Put(segment) => WriteKeepsInv(s, segment, Uploading);
    case Commit(version, refs) =>
      if Committable(s, version, refs) {
        CommitKeepsInv(s, version, refs);
      }
    case Delete(version) =>
      if version in s.versions {
        DeleteKeepsInv(s, version);
      }
    case Start(move, version, source, target) => StartKeepsInv(s, move, version, source, target);
    case Copy(move, works, landsOn) => CopyKeepsInv(s, move, works, landsOn);
    case Publish(move, accepted) =>
      if accepted && Publishes(s, move) {
        PublishKeepsInv(s, move);
      } else if Next(s, a) != s {
        RejectKeepsInv(s, move);
      }
    case Persist(move, works) => PersistKeepsInv(s, move, works);
    case Reclaim(record, attempt, refused) =>
      if !refused && Reclaimable(s, record, attempt) {
        assert RecordInv(s, s.records[record]);
        ReclaimKeepsInv(s, record, attempt);
      }
    case Log(entry) =>
      if CopiesNothing(entry) {
        LogKeepsInv(s, entry);
      }
    case Collect(segment, refused) => CollectorKeepsInv(s, Next(s, a));
    case Acknowledge(segment) => CollectorKeepsInv(s, Next(s, a));
  }

  lemma {:induction false} RunKeepsInv(s: State, actions: seq<Action>)
    requires Inv(s) && RunObeys(s, actions, BOTH)
    ensures Inv(Run(s, actions))
    decreases |actions|
  {
    if actions != [] {
      StepKeepsInv(s, actions[0]);
      RunKeepsInv(Next(s, actions[0]), actions[1..]);
    }
  }

  lemma InvIsSafe(s: State)
    requires Inv(s)
    ensures Safe(s)
  {
    assert forall v :: v in s.versions ==> VersionInv(s, v);
  }

  // ---- The theorems -----------------------------------------------------------------------------------

  /** No run that obeys both rules, made of uploads, deletes, moves, reclaims and collections, whatever fails in it,
      ever loses a byte: every version in existence still reads back what was uploaded. */
  lemma DrainIsSafe(actions: seq<Action>)
    requires RunObeys(EMPTY, actions, BOTH)
    ensures Safe(Run(EMPTY, actions))
  {
    RunKeepsInv(EMPTY, actions);
    InvIsSafe(Run(EMPTY, actions));
  }

  /** A publish keeps order and length, keeps every ref that was off the source volume, and puts in place of
      each other ref a copy with the same bytes. */
  lemma PublishReplacesInPlace(s: State, move: MoveId)
    requires Inv(s) && Publishes(s, move)
    ensures var m := s.moves[move];
            var refs := PublishStep(s, move, true).versions[m.version];
            && |refs| == |m.read|
            && (forall i :: 0 <= i < |refs| ==>
                  && refs[i] in s.catalog && s.catalog[refs[i]].bytes == s.catalog[m.read[i]].bytes
                  && (!OnVolume(s, m.read[i], m.source) ==> refs[i] == m.read[i]))
  {
    var m := s.moves[move];
    assert MoveInv(s, move, m);
    forall i | 0 <= i < |m.read|
      ensures AttemptInv(s, move, m, i) && m.outcomes[i] in m.outcomes
    {
    }
  }

  /** A publish keeps the invariant exactly when every ref it keeps is still listed by the version. Otherwise
      the version lists a segment that has been retired and that reclaim may have queued. */
  lemma PublishIsSafeExactly(s: State, move: MoveId)
    requires Inv(s) && Publishes(s, move)
    ensures Inv(PublishStep(s, move, true)) <==> KeptRefsCurrent(s, s.moves[move])
  {
    var m := s.moves[move];
    if KeptRefsCurrent(s, m) {
      PublishKeepsInv(s, move);
    } else {
      var i :| 0 <= i < |m.outcomes| && i < |m.read| && m.outcomes[i].Skipped? && m.read[i] !in s.versions[m.version];
      assert MoveInv(s, move, m) && ReadRole(s, m, m.read[i]);
      assert RoleInv(s, m.read[i]);
      StalePublish(s, move, i);
    }
  }

  lemma StalePublish(s: State, move: MoveId, i: nat)
    requires Publishes(s, move) && i < |s.moves[move].read| && s.moves[move].outcomes[i].Skipped?
    requires s.moves[move].read[i] in s.role && s.role[s.moves[move].read[i]] == Dead
    ensures !VersionInv(PublishStep(s, move, true), s.moves[move].version)
  {
    var m := s.moves[move];
    assert Replacement(m.read, m.outcomes)[i] in Replacement(m.read, m.outcomes);
  }

  /** Every disciplined continuation is safe. */
  ghost predicate SafeFromHere(s: State) {
    forall more :: RunObeys(s, more, BOTH) ==> Safe(Run(s, more))
  }

  predicate Stale(s: State, m: Move, i: nat) {
    && m.version in s.versions && i < |m.outcomes| && i < |m.read|
    && m.outcomes[i].Skipped? && m.read[i] !in s.versions[m.version]
  }

  /** A succeeded record has copied this segment and the copy is still stored: reclaim may queue it. */
  ghost predicate Offered(s: State, id: SegmentId) {
    exists k: nat, j: nat :: Reclaimable(s, k, j) && s.records[k].status == Succeeded && s.records[k].read[j] == id
  }

  /** A published move that is not on record yet has copied this segment: once it is, reclaim may queue it. */
  ghost predicate ToBeOffered(s: State, id: SegmentId) {
    exists p, j: nat :: p in s.moves && Offers(s, s.moves[p], j) && s.moves[p].read[j] == id
  }

  predicate Offers(s: State, m: Move, j: nat) {
    && m.phase == Published && j < |m.outcomes| && j < |m.read|
    && m.outcomes[j].Copied? && m.outcomes[j].target in s.present
  }

  /** The ways in which a dead segment goes away. */
  ghost predicate Threatened(s: State, id: SegmentId) {
    id !in s.present || id in s.candidates || Offered(s, id) || ToBeOffered(s, id)
  }

  /** In terms of bytes, in every state that disciplined runs reach: a publish is safe for every disciplined
      continuation exactly when no segment that it keeps, and that its version has lost since, is gone, queued, on offer
      to reclaim or about to be offered. */
  lemma StalePublishLosesBytesExactly(actions: seq<Action>, move: MoveId)
    requires RunObeys(EMPTY, actions, BOTH) && Publishes(Run(EMPTY, actions), move)
    ensures var s := Run(EMPTY, actions);
            SafeFromHere(PublishStep(s, move, true)) <==>
              forall i: nat :: Stale(s, s.moves[move], i) ==> !Threatened(s, s.moves[move].read[i])
  {
    RunKeepsInv(EMPTY, actions);
    RunKeepsHome(EMPTY, actions);
    var s := Run(EMPTY, actions);
    var m := s.moves[move];
    hide Run, Inv, Home, PublishStep;
    if forall i: nat :: Stale(s, m, i) ==> !Threatened(s, m.read[i]) {
      HarmlessPublish(s, move);
    } else {
      var i: nat :| Stale(s, m, i) && Threatened(s, m.read[i]);
      StaleIsLost(s, move, i);
    }
  }

  lemma InvStaysSafe(s: State)
    requires Inv(s)
    ensures SafeFromHere(s)
  {
    forall more | RunObeys(s, more, BOTH)
      ensures Safe(Run(s, more))
    {
      RunKeepsInv(s, more);
      InvIsSafe(Run(s, more));
    }
  }

  lemma StaleIsLost(s: State, move: MoveId, i: nat)
    requires Inv(s) && Publishes(s, move) && Stale(s, s.moves[move], i) && Threatened(s, s.moves[move].read[i])
    ensures !SafeFromHere(PublishStep(s, move, true))
  {
    var m, s' := s.moves[move], PublishStep(s, move, true);
    var id := m.read[i];
    BroughtBack(s, move, i);
    if Offered(s, id) {
      hide PublishStep, Inv;
      var k: nat, j: nat :| Reclaimable(s, k, j) && s.records[k].status == Succeeded && s.records[k].read[j] == id;
      ReclaimLoses(s', k, j, m.version);
    } else if ToBeOffered(s, id) {
      var p, j: nat :| p in s.moves && Offers(s, s.moves[p], j) && s.moves[p].read[j] == id;
      assert MoveInv(s, p, s.moves[p]) && AttemptInv(s, p, s.moves[p], j);
      hide PublishStep, Inv, MoveInv;
      OfferLoses(s', p, j, m.version);
    } else {
      hide PublishStep, Inv;
      CollectLoses(s', id, m.version);
    }
  }

  lemma BroughtBack(s: State, move: MoveId, i: nat)
    requires Publishes(s, move) && Stale(s, s.moves[move], i)
    ensures var m, s' := s.moves[move], PublishStep(s, move, true);
            && s' == s.(versions := s'.versions, moves := s'.moves, role := s'.role)
            && s'.moves == s.moves[move := m.(phase := Published)]
            && m.version in s'.versions && m.read[i] in s'.versions[m.version]
  {
    var m, s' := s.moves[move], PublishStep(s, move, true);
    assert Replacement(m.read, m.outcomes)[i] in s'.versions[m.version];
  }

  /** A first step that obeys the rules and leads to a possible loss. */
  lemma LosesAfter(s: State, a: Action)
    requires Obeys(s, a, BOTH) && !SafeFromHere(Next(s, a))
    ensures !SafeFromHere(s)
  {
    hide Next, Obeys, Safe;
    var more :| RunObeys(Next(s, a), more, BOTH) && !Safe(Run(Next(s, a), more));
    var all := [a] + more;
    assert all[1..] == more;
    assert RunObeys(s, all, BOTH) && Run(s, all) == Run(Next(s, a), more);
  }

  lemma LostAlready(s: State, id: SegmentId, v: Version)
    requires v in s.versions && id in s.versions[v] && id !in s.present
    ensures !SafeFromHere(s)
  {
    assert RunObeys(s, [], BOTH) && Run(s, []) == s;
  }

  lemma CollectLoses(s: State, id: SegmentId, v: Version)
    requires v in s.versions && id in s.versions[v] && (id !in s.present || id in s.candidates)
    ensures !SafeFromHere(s)
  {
    if id !in s.present {
      LostAlready(s, id, v);
    } else {
      var a := Collect(id, false);
      LostAlready(Next(s, a), id, v);
      LosesAfter(s, a);
    }
  }

  lemma OfferLoses(s: State, p: MoveId, j: nat, v: Version)
    requires p in s.moves && Finished(s.moves[p]) && Offers(s, s.moves[p], j)
    requires OnVolume(s, s.moves[p].read[j], s.moves[p].source)
    requires v in s.versions && s.moves[p].read[j] in s.versions[v]
    ensures !SafeFromHere(s)
  {
    var a, k := Persist(p, true), |s.records|;
    var s' := Next(s, a);
    assert s'.records[k] == RecordOf(s.moves[p]) && Reclaimable(s', k, j);
    ReclaimLoses(s', k, j, v);
    LosesAfter(s, a);
  }

  /** Reclaiming and collecting an attempt whose source a version lists. */
  lemma ReclaimLoses(s: State, record: nat, attempt: nat, v: Version)
    requires Reclaimable(s, record, attempt) && s.records[record].status == Succeeded
    requires v in s.versions && s.records[record].read[attempt] in s.versions[v]
    ensures !SafeFromHere(s)
  {
    var id := s.records[record].read[attempt];
    var a, b := Reclaim(record, attempt, false), Collect(id, false);
    CollectLoses(Next(s, a), id, v);
    LosesAfter(s, a);
  }

  // ---- A stale publish that nothing threatens ------------------------------------------------------------

  // The roles are history: they decide nothing but which segments a client may commit. So a state in which the stale
  // segments count as live again has the same future, and the invariant holds in it.

  predicate Alike(s: State, t: State) {
    && t == s.(role := t.role) && t.role.Keys == s.role.Keys
    && forall id :: id in s.role ==> (s.role[id] == Uploading <==> t.role[id] == Uploading)
  }

  lemma AlikeStep(s: State, t: State, a: Action)
    requires Alike(s, t)
    ensures Alike(Next(s, a), Next(t, a)) && (Obeys(s, a, BOTH) <==> Obeys(t, a, BOTH))
  {
    AlikeObeys(s, t, a);
    hide Obeys, CommitStep, DeleteStep, PublishStep, CopyStep, StartStep, PersistStep, Write, Alike;
    match a {
      case Put(segment) => AlikeWrite(s, t, segment, Uploading);
      case Commit(version, refs) => AlikeCommit(s, t, version, refs);
      case Delete(version) => AlikeDelete(s, t, version);
      case Start(move, version, source, target) => AlikeStart(s, t, move, version, source, target);
      case Copy(move, works, landsOn) => AlikeCopy(s, t, move, works, landsOn);
      case Publish(move, accepted) => AlikePublish(s, t, move, accepted);
      case Persist(move, works) => AlikePersist(s, t, move, works);
      case _ => AlikeRest(s, t, a);
    }
  }

  lemma AlikeRest(s: State, t: State, a: Action)
    requires Alike(s, t) && (a.Reclaim? || a.Log? || a.Collect? || a.Acknowledge?)
    ensures Alike(Next(s, a), Next(t, a))
  {
    assert a.Reclaim? ==> (Reclaimable(s, a.record, a.attempt) <==> Reclaimable(t, a.record, a.attempt));
  }

  lemma AlikeObeys(s: State, t: State, a: Action)
    requires Alike(s, t)
    ensures Obeys(s, a, BOTH) <==> Obeys(t, a, BOTH)
  {
  }

  lemma AlikeWrite(s: State, t: State, segment: Segment, role: Role)
    requires Alike(s, t)
    ensures Alike(Write(s, segment, role), Write(t, segment, role))
  {
  }

  lemma AlikeCommit(s: State, t: State, version: Version, refs: seq<SegmentId>)
    requires Alike(s, t)
    ensures Alike(CommitStep(s, version, refs), CommitStep(t, version, refs))
  {
    hide BytesOf;
    assert Committable(s, version, refs) <==> Committable(t, version, refs);
  }

  lemma AlikeDelete(s: State, t: State, version: Version)
    requires Alike(s, t)
    ensures Alike(DeleteStep(s, version), DeleteStep(t, version))
  {
  }

  lemma AlikeStart(s: State, t: State, move: MoveId, version: Version, source: Volume, target: Volume)
    requires Alike(s, t)
    ensures Alike(StartStep(s, move, version, source, target), StartStep(t, move, version, source, target))
  {
  }

  lemma AlikeCopy(s: State, t: State, move: MoveId, works: bool, landsOn: Volume)
    requires Alike(s, t)
    ensures Alike(CopyStep(s, move, works, landsOn), CopyStep(t, move, works, landsOn))
  {
    hide Write, Noted;
    if move !in s.moves || Finished(s.moves[move]) || s.moves[move].phase != Copying
       || |s.moves[move].outcomes| > |s.moves[move].read| {
      return;
    }
    var m := s.moves[move];
    var id := m.read[|m.outcomes|];
    if !OnVolume(s, id, m.source) {
      AlikeNoted(s, t, move, Skipped);
    } else if !works || id !in s.present {
      AlikeNoted(s, t, move, Retryable);
    } else {
      var segment, lost := Segment(landsOn, s.catalog[id].bytes), m.target != ANY && landsOn != m.target;
      var role, o := if lost then Dead else Draft(move), if lost then Retryable else Copied(s.nextId);
      AlikeWrite(s, t, segment, role);
      assert move in Write(s, segment, role).moves by { WriteKeepsMoves(s, segment, role); }
      AlikeNoted(Write(s, segment, role), Write(t, segment, role), move, o);
    }
  }

  lemma WriteKeepsMoves(s: State, segment: Segment, role: Role)
    ensures Write(s, segment, role).moves == s.moves
  {
  }

  lemma AlikeNoted(s: State, t: State, move: MoveId, o: Outcome)
    requires Alike(s, t) && move in s.moves
    ensures Alike(Noted(s, move, o), Noted(t, move, o))
  {
  }

  lemma AlikePublish(s: State, t: State, move: MoveId, accepted: bool)
    requires Alike(s, t)
    ensures Alike(PublishStep(s, move, accepted), PublishStep(t, move, accepted))
  {
    hide AnyRetryable, AnyCopied, Replacement;
    if move in s.moves {
      assert RepositoryAccepts(s, s.moves[move]) <==> RepositoryAccepts(t, t.moves[move]);
    }
  }

  lemma AlikePersist(s: State, t: State, move: MoveId, works: bool)
    requires Alike(s, t)
    ensures Alike(PersistStep(s, move, works), PersistStep(t, move, works))
  {
    hide RecordOf, Persistable;
  }

  lemma {:induction false} AlikeRun(s: State, t: State, more: seq<Action>)
    requires Alike(s, t)
    ensures Alike(Run(s, more), Run(t, more)) && (RunObeys(s, more, BOTH) <==> RunObeys(t, more, BOTH))
    decreases |more|
  {
    hide Next, Obeys, Alike;
    if more != [] {
      AlikeStep(s, t, more[0]);
      AlikeRun(Next(s, more[0]), Next(t, more[0]), more[1..]);
    }
  }

  lemma AlikeIsSafe(s: State, t: State)
    requires Alike(s, t) && SafeFromHere(t)
    ensures SafeFromHere(s)
  {
    forall more | RunObeys(s, more, BOTH)
      ensures Safe(Run(s, more))
    {
      AlikeRun(s, t, more);
    }
  }

  function Revived(s: State, ids: set<SegmentId>, v: Version): (s': State) {
    s.(role := map id | id in s.role :: if id in ids then Live(v) else s.role[id])
  }

  predicate NoneOf(ids: seq<SegmentId>, others: seq<SegmentId>) {
    forall id :: id in ids ==> id !in others
  }

  /** A segment belongs to one version, in what versions list and in what moves have read. */
  predicate Home(s: State) {
    && (forall a, b :: a in s.moves && b in s.moves && s.moves[a].version != s.moves[b].version ==>
          NoneOf(s.moves[a].read, s.moves[b].read))
    && (forall v, a :: v in s.versions && a in s.moves && s.moves[a].version != v ==>
          NoneOf(s.moves[a].read, s.versions[v]))
  }

  predicate SameReads(s: State, s': State) {
    && s'.versions == s.versions && s'.moves.Keys == s.moves.Keys
    && forall a :: a in s.moves ==> s'.moves[a].version == s.moves[a].version && s'.moves[a].read == s.moves[a].read
  }

  lemma SameReadsHome(s: State, s': State)
    requires Home(s) && SameReads(s, s')
    ensures Home(s')
  {
  }

  lemma StepKeepsHome(s: State, a: Action)
    requires Inv(s) && Home(s)
    ensures Home(Next(s, a))
  {
    hide Home, Inv, CommitStep, DeleteStep, PublishStep, CopyStep, StartStep, PersistStep;
    match a {
      case Commit(version, refs) => CommitKeepsHome(s, version, refs);
      case Delete(version) => DeleteKeepsHome(s, version);
      case Start(move, version, source, target) => StartKeepsHome(s, move, version, source, target);
      case Copy(move, works, landsOn) => CopyKeepsHome(s, move, works, landsOn);
      case Publish(move, accepted) => PublishKeepsHome(s, move, accepted);
      case Persist(move, works) => PersistKeepsHome(s, move, works);
      case _ => SameReadsHome(s, Next(s, a));
    }
  }

  lemma DeleteKeepsHome(s: State, version: Version)
    requires Home(s)
    ensures Home(DeleteStep(s, version))
  {
  }

  lemma CopyKeepsHome(s: State, move: MoveId, works: bool, landsOn: Volume)
    requires Home(s)
    ensures Home(CopyStep(s, move, works, landsOn))
  {
    hide Home, OnVolume;
    assert SameReads(s, CopyStep(s, move, works, landsOn));
    hide CopyStep;
    SameReadsHome(s, CopyStep(s, move, works, landsOn));
  }

  lemma PersistKeepsHome(s: State, move: MoveId, works: bool)
    requires Home(s)
    ensures Home(PersistStep(s, move, works))
  {
    assert SameReads(s, PersistStep(s, move, works));
    hide PersistStep;
    SameReadsHome(s, PersistStep(s, move, works));
  }

  lemma PublishKeepsHome(s: State, move: MoveId, accepted: bool)
    requires Inv(s) && Home(s)
    ensures Home(PublishStep(s, move, accepted))
  {
    if accepted && Publishes(s, move) {
      AcceptedKeepsHome(s, move);
    } else {
      assert SameReads(s, PublishStep(s, move, accepted));
      hide PublishStep, Inv;
      SameReadsHome(s, PublishStep(s, move, accepted));
    }
  }

  lemma CommitKeepsHome(s: State, version: Version, refs: seq<SegmentId>)
    requires Inv(s) && Home(s)
    ensures Home(CommitStep(s, version, refs))
  {
    hide BytesOf;
    if Committable(s, version, refs) {
      forall a | a in s.moves
        ensures NoneOf(s.moves[a].read, refs)
      {
        ReadsAreCommitted(s, a);
      }
    }
  }

  lemma ReadsAreCommitted(s: State, a: MoveId)
    requires Inv(s) && a in s.moves
    ensures forall id :: id in s.moves[a].read ==>
              id in s.role && (s.role[id] == Live(s.moves[a].version) || s.role[id] == Dead)
  {
    hide BytesOf, AttemptInv;
    var m := s.moves[a];
    assert MoveInv(s, a, m);
    forall id | id in m.read
      ensures ReadRole(s, m, id)
    {
      var i :| 0 <= i < |m.read| && m.read[i] == id;
    }
  }

  lemma StartKeepsHome(s: State, move: MoveId, version: Version, source: Volume, target: Volume)
    requires Inv(s) && Home(s)
    ensures Home(StartStep(s, move, version, source, target))
  {
    if move !in s.moves && version in s.versions {
      hide BytesOf, MoveInv, RecordInv;
      forall v | v in s.versions && v != version
        ensures NoneOf(s.versions[version], s.versions[v])
      {
        assert VersionInv(s, v) && VersionInv(s, version);
      }
      forall a | a in s.moves && s.moves[a].version != version
        ensures NoneOf(s.versions[version], s.moves[a].read)
      {
        assert NoneOf(s.moves[a].read, s.versions[version]);
      }
    }
  }

  lemma AcceptedKeepsHome(s: State, move: MoveId)
    requires Inv(s) && Home(s) && Publishes(s, move)
    ensures Home(PublishStep(s, move, true))
  {
    var m := s.moves[move];
    var refs := Replacement(m.read, m.outcomes);
    assert MoveInv(s, move, m);
    forall a | a in s.moves && s.moves[a].version != m.version
      ensures NoneOf(s.moves[a].read, refs)
    {
      ReadsAreCommitted(s, a);
      assert NoneOf(s.moves[move].read, s.moves[a].read);
      forall i | 0 <= i < |refs|
        ensures refs[i] !in s.moves[a].read
      {
        assert AttemptInv(s, move, m, i);
        assert m.read[i] in m.read;
      }
    }
    hide Inv, MoveInv;
  }

  lemma {:induction false} RunKeepsHome(s: State, actions: seq<Action>)
    requires Inv(s) && Home(s) && RunObeys(s, actions, BOTH)
    ensures Home(Run(s, actions))
    decreases |actions|
  {
    hide Inv, Home, Next, Obeys;
    if actions != [] {
      StepKeepsInv(s, actions[0]);
      StepKeepsHome(s, actions[0]);
      RunKeepsHome(Next(s, actions[0]), actions[1..]);
    }
  }

  /** The segments that a publish would bring back. */
  function StaleSet(s: State, m: Move): (ids: set<SegmentId>) {
    set i: nat | i < |m.read| && Stale(s, m, i) :: m.read[i]
  }

  /** None of these has anything against it. */
  ghost predicate Harmless(s: State, ids: set<SegmentId>, v: Version) {
    && (forall id :: id in ids ==> id in s.role && s.role[id] == Dead && !Threatened(s, id))
    && (forall id, a :: id in ids && a in s.moves && id in s.moves[a].read ==> s.moves[a].version == v)
  }

  lemma RevivedMove(s: State, ids: set<SegmentId>, v: Version, k: MoveId)
    requires Core(s) && Harmless(s, ids, v) && k in s.moves
    ensures MoveInv(Revived(s, ids, v), k, s.moves[k])
  {
    hide BytesOf, RecordInv;
    var m, s' := s.moves[k], Revived(s, ids, v);
    assert MoveInv(s, k, m);
    forall i | 0 <= i < |m.read|
      ensures m.read[i] in s'.catalog && ReadRole(s', m, m.read[i])
    {
      assert ReadRole(s, m, m.read[i]) && m.read[i] in m.read;
    }
    forall i | 0 <= i < |m.outcomes|
      ensures AttemptInv(s', k, m, i)
    {
      assert AttemptInv(s, k, m, i) && ReadRole(s, m, m.read[i]);
      NotOfferedByMove(s, ids, v, k, i);
    }
  }

  lemma NotOfferedByMove(s: State, ids: set<SegmentId>, v: Version, k: MoveId, i: nat)
    requires Harmless(s, ids, v) && k in s.moves && i < |s.moves[k].outcomes| && i < |s.moves[k].read|
    ensures Offers(s, s.moves[k], i) ==> s.moves[k].read[i] !in ids
  {
  }

  lemma RevivedRecord(s: State, ids: set<SegmentId>, v: Version, k: nat)
    requires Core(s) && Harmless(s, ids, v) && k < |s.records|
    ensures RecordInv(Revived(s, ids, v), s.records[k])
  {
    var r := s.records[k];
    assert RecordInv(s, r);
    hide Core;
    if r.status == Succeeded {
      forall i | 0 <= i < |r.outcomes| && i < |r.read| && r.outcomes[i].Copied? && OnVolume(s, r.read[i], r.source)
                 && r.outcomes[i].target in s.present
        ensures r.read[i] !in ids
      {
        assert Reclaimable(s, k, i);
        assert Offered(s, r.read[i]);
      }
    }
  }

  lemma RevivedCore(s: State, ids: set<SegmentId>, v: Version)
    requires Core(s) && Harmless(s, ids, v)
    ensures Core(Revived(s, ids, v))
  {
    var s' := Revived(s, ids, v);
    forall k | k in s'.moves
      ensures MoveInv(s', k, s'.moves[k])
    {
      RevivedMove(s, ids, v, k);
    }
    forall k | 0 <= k < |s'.records|
      ensures RecordInv(s', s'.records[k])
    {
      RevivedRecord(s, ids, v, k);
    }
    hide MoveInv, RecordInv, BytesOf;
    forall w | w in s'.versions
      ensures VersionInv(s', w)
    {
      assert VersionInv(s, w);
    }
  }

  lemma StaleIsHarmless(s: State, move: MoveId)
    requires Inv(s) && Home(s) && Publishes(s, move)
    requires forall i: nat :: Stale(s, s.moves[move], i) ==> !Threatened(s, s.moves[move].read[i])
    ensures Harmless(s, StaleSet(s, s.moves[move]), s.moves[move].version)
  {
    hide BytesOf, RecordInv, AttemptInv;
    var m := s.moves[move];
    var ids := StaleSet(s, m);
    assert MoveInv(s, move, m);
    forall id | id in ids
      ensures id in s.role && s.role[id] == Dead && !Threatened(s, id) && id in m.read
    {
      var i: nat :| i < |m.read| && Stale(s, m, i) && m.read[i] == id;
      assert ReadRole(s, m, id) && RoleInv(s, id);
    }
    forall id, a | id in ids && a in s.moves && id in s.moves[a].read
      ensures s.moves[a].version == m.version
    {
      assert id in m.read;
      assert s.moves[a].version != m.version ==> NoneOf(s.moves[a].read, s.moves[move].read);
    }
  }

  lemma HarmlessPublish(s: State, move: MoveId)
    requires Inv(s) && Home(s) && Publishes(s, move)
    requires forall i: nat :: Stale(s, s.moves[move], i) ==> !Threatened(s, s.moves[move].read[i])
    ensures SafeFromHere(PublishStep(s, move, true))
  {
    var m := s.moves[move];
    var ids := StaleSet(s, m);
    var t := Revived(s, ids, m.version);
    StaleIsHarmless(s, move);
    assert t.moves[move] == m && forall id :: id in ids ==> id in s.role && s.role[id] == Dead;
    RevivedCore(s, ids, m.version);
    RevivedKept(s, move, ids);
    RevivedRoles(s, ids, m.version);
    hide Inv, Core, Harmless, Threatened, Stale, Home, KeptLive, OtherRoles;
    RevivedAlike(s, ids, move);
    hide Revived, Publishes, Alike;
    PublishMakesInv(t, move);
    InvStaysSafe(PublishStep(t, move, true));
    AlikePublish(s, t, move, true);
    AlikeIsSafe(PublishStep(s, move, true), PublishStep(t, move, true));
  }

  lemma RevivedAlike(s: State, ids: set<SegmentId>, move: MoveId)
    requires Publishes(s, move) && forall id :: id in ids ==> id in s.role && s.role[id] == Dead
    ensures var t := Revived(s, ids, s.moves[move].version); Alike(s, t) && Publishes(t, move)
  {
    var t := Revived(s, ids, s.moves[move].version);
    assert RepositoryAccepts(s, s.moves[move]) <==> RepositoryAccepts(t, t.moves[move]);
  }

  lemma RevivedKept(s: State, move: MoveId, ids: set<SegmentId>)
    requires Inv(s) && Publishes(s, move) && ids == StaleSet(s, s.moves[move])
    requires Harmless(s, ids, s.moves[move].version)
    ensures KeptLive(Revived(s, ids, s.moves[move].version), s.moves[move])
  {
    hide BytesOf, RecordInv, AttemptInv, MoveInv;
    var m := s.moves[move];
    assert VersionInv(s, m.version);
    forall i | 0 <= i < |m.outcomes| && i < |m.read| && m.outcomes[i].Skipped?
      ensures m.read[i] in s.present && m.read[i] in s.role
      ensures m.read[i] in ids || s.role[m.read[i]] == Live(m.version)
    {
      if Stale(s, m, i) {
        assert m.read[i] in ids;
      }
    }
  }

  lemma RevivedRoles(s: State, ids: set<SegmentId>, v: Version)
    requires Inv(s)
    ensures OtherRoles(Revived(s, ids, v), v)
  {
    hide Core;
    var t := Revived(s, ids, v);
    forall id | id in t.role && t.role[id] != Live(v)
      ensures RoleInv(t, id)
    {
      assert RoleInv(s, id);
    }
  }

  /** Queueing and collecting a segment keeps every version readable exactly when none lists it. */
  lemma CollectIsSafeExactly(s: State, record: nat, attempt: nat)
    requires Inv(s) && Reclaimable(s, record, attempt)
    ensures Safe(Reclaimed(s, record, attempt)) <==>
              forall v :: v in s.versions ==> s.records[record].read[attempt] !in s.versions[v]
  {
    var id := s.records[record].read[attempt];
    var s' := Reclaimed(s, record, attempt);
    InvIsSafe(s);
    assert s'.versions == s.versions && id !in s'.present;
    if forall v :: v in s.versions ==> id !in s.versions[v] {
      assert forall v, k :: v in s.versions && k in s.versions[v] ==> k in s'.present;
    }
  }

  /** One attempt reclaimed, and its source collected. */
  function Reclaimed(s: State, record: nat, attempt: nat): (s': State)
    requires Reclaimable(s, record, attempt)
  {
    Next(Next(s, Reclaim(record, attempt, false)), Collect(s.records[record].read[attempt], false))
  }

  /** The version lists what the move left it with. */
  predicate LeftAsIs(s: State, m: Move)
    requires Finished(m)
  {
    m.version in s.versions &&
    s.versions[m.version] == if m.phase == Published then Replacement(m.read, m.outcomes) else m.read
  }

  /** What reclaim fails to test is the record's status. When a finished move goes on record and its version still lists
      what the move left it with, reclaiming and collecting any copied attempt of the record keeps every version
      readable exactly when the recorded status is Succeeded. */
  lemma ReclaimIsSafeExactly(s: State, move: MoveId, i: nat)
    requires Inv(s) && move in s.moves && Persistable(s.moves[move]) && LeftAsIs(s, s.moves[move])
    requires i < |s.moves[move].outcomes| && s.moves[move].outcomes[i].Copied?
    requires s.moves[move].outcomes[i].target in s.present
    ensures var s1, k := Next(s, Persist(move, true)), |s.records|;
            && Reclaimable(s1, k, i)
            && (Safe(Reclaimed(s1, k, i)) <==> s1.records[k].status == Succeeded)
  {
    var m, s1, k := s.moves[move], Next(s, Persist(move, true)), |s.records|;
    PersistKeepsInv(s, move, true);
    assert MoveInv(s, move, m) && AttemptInv(s, move, m, i);
    hide Inv, MoveInv, BytesOf;
    assert s1.records[k] == RecordOf(m) && s1.records[k].read[i] == m.read[i];
    assert m.read[i] in m.read && AnyCopied(m);
    assert Reclaimable(s1, k, i);
    assert m.phase == Published ==> s1.role[m.read[i]] == Dead;
    assert s1.records[k].status == Succeeded <==> m.phase == Published;
    if m.phase == Published {
      DeadIsUnlisted(s1, m.read[i]);
    } else {
      assert m.read[i] in s1.versions[m.version];
    }
    hide Inv, Next;
    CollectIsSafeExactly(s1, k, i);
  }

  lemma DeadIsUnlisted(s: State, id: SegmentId)
    requires Inv(s) && id in s.role && s.role[id] == Dead
    ensures forall v :: v in s.versions ==> id !in s.versions[v]
  {
    assert forall v :: v in s.versions ==> VersionInv(s, v);
  }

  /** In a reachable state, the sources of a succeeded record are listed by no version: reclaiming those is safe. */
  lemma SucceededRecordsAreReclaimable(actions: seq<Action>, record: nat, attempt: nat)
    requires RunObeys(EMPTY, actions, BOTH)
    requires Reclaimable(Run(EMPTY, actions), record, attempt)
    requires Run(EMPTY, actions).records[record].status == Succeeded
    ensures var s := Run(EMPTY, actions);
            forall v :: v in s.versions ==> s.records[record].read[attempt] !in s.versions[v]
  {
    RunKeepsInv(EMPTY, actions);
    var s := Run(EMPTY, actions);
    assert RecordInv(s, s.records[record]);
    assert forall v :: v in s.versions ==> VersionInv(s, v);
  }

  // ---- Two undisciplined runs that lose bytes ------------------------------------------------------------

  ghost predicate Reachable(s: State, rules: Rules) {
    exists actions :: Follows(EMPTY, actions, s, rules)
  }

  lemma Reach(s: State, a: Action, rules: Rules) returns (s': State)
    requires Reachable(s, rules) && Obeys(s, a, rules)
    ensures Reachable(s', rules) && s' == Next(s, a)
  {
    hide Follows;
    var actions :| Follows(EMPTY, actions, s, rules);
    Extend(EMPTY, actions, s, a, rules);
    s' := Next(s, a);
  }

  /** A version listing segment 1 on volume 1 and segment 2 on volume 2, and two moves of it: move 0 drains
      volume 1, move 1 drains volume 2. */
  ghost predicate Scene(s: State, refs: seq<SegmentId>, first: Move, second: Move, nextId: SegmentId) {
    && s.versions == map[5 := refs] && s.nextId == nextId && 2 < nextId
    && 0 in s.moves && s.moves[0] == first && 1 in s.moves && s.moves[1] == second
    && OnVolume(s, 1, 1) && OnVolume(s, 2, 2)
    && (forall id :: 1 <= id < nextId ==> id in s.present)
    && s.candidates == {}
  }

  function First(outcomes: seq<Outcome>, phase: Phase): (m: Move) { Move(5, 1, ANY, [1, 2], outcomes, phase) }

  function Second(outcomes: seq<Outcome>, phase: Phase): (m: Move) { Move(5, 2, ANY, [1, 2], outcomes, phase) }

  lemma SceneUploads(rules: Rules) returns (s: State)
    ensures Reachable(s, rules) && s.records == [] && s.moves == map[] && s.candidates == {}
    ensures s.versions == map[5 := [1, 2]] && s.nextId == 3
    ensures OnVolume(s, 1, 1) && OnVolume(s, 2, 2) && 1 in s.present && 2 in s.present
  {
    assert Follows(EMPTY, [], EMPTY, rules);
    hide Follows;
    var s1 := ScenePut(EMPTY, Segment(1, [10]), rules);
    var s2 := ScenePut(s1, Segment(2, [20]), rules);
    s := SceneCommit(s2, rules);
  }

  lemma ScenePut(s0: State, segment: Segment, rules: Rules) returns (s: State)
    requires Reachable(s0, rules)
    ensures Reachable(s, rules) && s == Write(s0, segment, Uploading)
  {
    hide Reachable, BytesOf;
    s := Reach(s0, Put(segment), rules);
  }

  lemma SceneCommit(s0: State, rules: Rules) returns (s: State)
    requires Reachable(s0, rules) && s0.versions == map[] && s0.contents == map[]
    requires 1 in s0.present && 2 in s0.present && 1 in s0.role && 2 in s0.role
    requires s0.role[1] == Uploading && s0.role[2] == Uploading
    ensures Reachable(s, rules) && s.versions == map[5 := [1, 2]]
    ensures s == s0.(versions := s.versions, contents := s.contents, role := s.role)
  {
    hide Reachable, BytesOf;
    assert Committable(s0, 5, [1, 2]);
    s := Reach(s0, Commit(5, [1, 2]), rules);
  }

  lemma SceneStarts(rules: Rules) returns (s: State)
    ensures Reachable(s, rules) && s.records == []
    ensures Scene(s, [1, 2], First([], Copying), Second([], Copying), 3)
  {
    hide Follows;
    var s0 := SceneUploads(rules);
    var s1 := Reach(s0, Start(0, 5, 1, ANY), rules);
    assert s1 == s0.(moves := map[0 := First([], Copying)]);
    s := Reach(s1, Start(1, 5, 2, ANY), rules);
    assert s == s1.(moves := map[0 := First([], Copying), 1 := Second([], Copying)]);
  }

  /** A copy that works, and a ref that is skipped, for either move. */
  lemma SceneCopies(s0: State, refs: seq<SegmentId>, first: Move, second: Move, nextId: SegmentId, move: MoveId,
                    rules: Rules)
    returns (s: State)
    requires Reachable(s0, rules) && Scene(s0, refs, first, second, nextId) && move < 2
    requires var m := if move == 0 then first else second;
             m.phase == Copying && m.target == ANY && m.read == [1, 2] && |m.outcomes| < 2
    ensures Reachable(s, rules) && s.records == s0.records
    ensures var m := if move == 0 then first else second;
            var on := m.source == |m.outcomes| + 1;
            var m' := m.(outcomes := m.outcomes + [if on then Copied(nextId) else Skipped]);
            Scene(s, refs, if move == 0 then m' else first, if move == 0 then second else m',
                  if on then nextId + 1 else nextId)
  {
    hide Reachable, BytesOf, PublishStep, PersistStep, CommitStep, DeleteStep, StartStep;
    s := Reach(s0, Copy(move, true, 3), rules);
  }

  lemma FirstCopies(s0: State, rules: Rules) returns (s: State)
    requires Reachable(s0, rules) && s0.records == [] && Scene(s0, [1, 2], First([], Copying), Second([], Copying), 3)
    ensures Reachable(s, rules) && s.records == []
    ensures Scene(s, [1, 2], First([Copied(3), Skipped], Copying), Second([], Copying), 4)
  {
    hide Follows;
    s := SceneCopies(s0, [1, 2], First([], Copying), Second([], Copying), 3, 0, rules);
    s := SceneCopies(s, [1, 2], First([Copied(3)], Copying), Second([], Copying), 4, 0, rules);
    assert [Copied(3)] + [Skipped] == [Copied(3), Skipped];
  }

  lemma SecondCopies(s0: State, rules: Rules) returns (s: State)
    requires Reachable(s0, rules) && s0.records == []
    requires Scene(s0, [1, 2], First([Copied(3), Skipped], Copying), Second([], Copying), 4)
    ensures Reachable(s, rules) && s.records == []
    ensures Scene(s, [1, 2], First([Copied(3), Skipped], Copying), Second([Skipped, Copied(4)], Copying), 5)
  {
    hide Follows;
    s := SceneCopies(s0, [1, 2], First([Copied(3), Skipped], Copying), Second([], Copying), 4, 1, rules);
    s := SceneCopies(s, [1, 2], First([Copied(3), Skipped], Copying), Second([Skipped], Copying), 4, 1, rules);
    assert [Skipped] + [Copied(4)] == [Skipped, Copied(4)];
  }

  lemma FirstPublishes(s0: State, rules: Rules) returns (s: State)
    requires Reachable(s0, rules) && s0.records == []
    requires Scene(s0, [1, 2], First([Copied(3), Skipped], Copying), Second([Skipped, Copied(4)], Copying), 5)
    ensures Reachable(s, rules) && s.records == []
    ensures Scene(s, [3, 2], First([Copied(3), Skipped], Published), Second([Skipped, Copied(4)], Copying), 5)
  {
    hide Follows;
    var m := First([Copied(3), Skipped], Copying);
    assert m.outcomes[0].Copied? && Replacement(m.read, m.outcomes) == [3, 2];
    assert [1, 2][0] in s0.versions[5];
    s := Reach(s0, Publish(0, true), rules);
    assert s.versions == map[5 := [3, 2]];
  }

  /** A record of volume 1 whose first attempt copied segment 1 to segment 3. */
  predicate Copied3(r: Record, status: Status) {
    && r.status == status && r.source == 1
    && |r.read| > 0 && |r.outcomes| > 0 && r.read[0] == 1 && r.outcomes[0] == Copied(3)
  }

  lemma FirstPersists(s0: State, refs: seq<SegmentId>, second: Move, nextId: SegmentId, phase: Phase,
                      rules: Rules) returns (s: State)
    requires Reachable(s0, rules) && s0.records == [] && (phase == Published || phase == Rejected)
    requires Scene(s0, refs, First([Copied(3), Skipped], phase), second, nextId)
    ensures Reachable(s, rules)
    ensures Scene(s, refs, First([Copied(3), Skipped], Recorded), second, nextId)
    ensures |s.records| == 1 && Copied3(s.records[0], if phase == Published then Succeeded else RetryPending)
  {
    hide Follows;
    s := Reach(s0, Persist(0, true), rules);
  }

  lemma SecondPublishes(s0: State, rules: Rules) returns (s: State)
    requires !rules.publish
    requires Reachable(s0, rules)
    requires Scene(s0, [3, 2], First([Copied(3), Skipped], Recorded), Second([Skipped, Copied(4)], Copying), 5)
    ensures Reachable(s, rules) && s.records == s0.records
    ensures Scene(s, [1, 4], First([Copied(3), Skipped], Recorded), Second([Skipped, Copied(4)], Published), 5)
  {
    hide Follows;
    var m := Second([Skipped, Copied(4)], Copying);
    assert m.outcomes[1].Copied? && Replacement(m.read, m.outcomes) == [1, 4];
    assert [3, 2][1] in s0.versions[5];
    s := Reach(s0, Publish(1, true), rules);
    assert s.versions == map[5 := [1, 4]];
  }

  /** Reclaiming and collecting segment 1 while the version lists it. */
  lemma FirstIsReclaimed(s0: State, status: Status, rules: Rules) returns (s: State)
    requires Reachable(s0, rules) && |s0.records| == 1 && Copied3(s0.records[0], status)
    requires 5 in s0.versions && 1 in s0.versions[5]
    requires OnVolume(s0, 1, 1) && 3 in s0.present
    requires rules.reclaim ==> status == Succeeded
    ensures Reachable(s, rules) && !Safe(s)
  {
    hide Follows;
    assert Reclaimable(s0, 0, 0);
    s := Reach(s0, Reclaim(0, 0, false), rules);
    s := Reach(s, Collect(1, false), rules);
  }

  /** Two moves of one version off different volumes. Both read the refs before either publishes; the second
      publish brings segment 1 back, whose replacement the first move has recorded as succeeded; reclaim and
      collection then delete it. Every reclaimed record succeeded: the stale publish alone is at fault. */
  lemma ConcurrentMovesLoseBytes()
    ensures exists s :: Reachable(s, Rules(false, true)) && !Safe(s)
  {
    var rules := Rules(false, true);
    var s := SceneStarts(rules);
    s := FirstCopies(s, rules);
    s := SecondCopies(s, rules);
    s := FirstPublishes(s, rules);
    s := FirstPersists(s, [3, 2], Second([Skipped, Copied(4)], Copying), 5, Published, rules);
    s := SecondPublishes(s, rules);
    assert [1, 4][0] in s.versions[5];
    s := FirstIsReclaimed(s, Succeeded, rules);
  }

  lemma FirstIsRejected(s0: State, rules: Rules) returns (s: State)
    requires Reachable(s0, rules) && s0.records == []
    requires Scene(s0, [1, 2], First([Copied(3), Skipped], Copying), Second([], Copying), 4)
    ensures Reachable(s, rules) && s.records == []
    ensures Scene(s, [1, 2], First([Copied(3), Skipped], Rejected), Second([], Copying), 4)
  {
    hide Follows;
    var a := Publish(0, false);
    assert Obeys(s0, a, rules);
    assert First([Copied(3), Skipped], Copying).outcomes[0].Copied?;
    assert Next(s0, a) == s0.(moves := s0.moves[0 := First([Copied(3), Skipped], Rejected)]);
    s := Reach(s0, a, rules);
  }

  /** One copy works, the repository then rejects the publish, and the record is RetryPending; it still holds the
      copied attempt. Reclaiming it deletes a segment that the version lists. */
  lemma ReclaimOfRetryPendingLosesBytes()
    ensures exists s :: Reachable(s, Rules(true, false)) && !Safe(s)
  {
    var rules := Rules(true, false);
    var s := SceneStarts(rules);
    s := FirstCopies(s, rules);
    s := FirstIsRejected(s, rules);
    s := FirstPersists(s, [1, 2], Second([], Copying), 4, Rejected, rules);
    assert [1, 2][0] in s.versions[5];
    s := FirstIsReclaimed(s, RetryPending, rules);
  }
}
