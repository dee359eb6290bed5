/** The volume pool runtime (internal/gateway/volume_pool_refresher.go): which member handles are open, who uses them,
    and what the status says, over any sequence of refreshes that may fail at any step and a final Close. */
module VolumePool {
  import opened Bytes

  type VolumeId = string
  type Handle = nat
  type Generation = nat

  /** Error texts and wall-clock times, the latter with 0 for the zero time. */
  type Message = s: string | s != "" witness "error"
  type Time = t: nat | t > 0 witness 1

  datatype Config = Config(poolId: string, members: seq<VolumeId>, generation: Generation)

  datatype Snapshot = Snapshot(generation: Generation, members: seq<VolumeId>)

  datatype Status = Status(configured: Generation, active: Generation, lastError: string, staleSince: nat,
                           refreshes: nat, errors: nat)

  function Ids(members: seq<VolumeId>): (ids: set<VolumeId>) {
    set v | v in members
  }

  predicate Distinct(members: seq<VolumeId>) {
    forall i, j :: 0 <= i < j < |members| ==> members[i] != members[j]
  }

  predicate StaleIsMarked(s: Status) {
    s.staleSince > 0 <==> s.configured != s.active || s.lastError != ""
  }

  /** recordRefresh. */
  function Recorded(s: Status, now: Time, generation: Generation, err: Option<Message>): (s': Status)
    ensures StaleIsMarked(s')
    ensures s'.active == s.active && s'.refreshes == s.refreshes + 1
    ensures s'.configured == if generation != 0 then generation else s.configured
    ensures err.Some? ==> s'.lastError == err.value && s'.errors == s.errors + 1
    ensures err.None? ==> s'.lastError == "" && s'.errors == s.errors
    ensures s.staleSince == 0 && s'.staleSince > 0 ==> s'.staleSince == now
    ensures s.staleSince > 0 && s'.staleSince > 0 ==> s'.staleSince == s.staleSince
  {
    var c := if generation != 0 then generation else s.configured;
    match err
    case Some(text) =>
      s.(configured := c, lastError := text, refreshes := s.refreshes + 1, errors := s.errors + 1,
         staleSince := if s.staleSince == 0 then now else s.staleSince)
    case None =>
      s.(configured := c, lastError := "", refreshes := s.refreshes + 1,
         staleSince := if c == s.active then 0 else if s.staleSince == 0 then now else s.staleSince)
  }

  // ---- Handles -------------------------------------------------------------------------------------

  /** The ledger of every handle ever opened: each is closed, held by someone who will close it, or lost. */
  ghost predicate Ledger(next: Handle, closed: set<Handle>, lost: set<Handle>, held: set<Handle>) {
    && (forall h: Handle :: h in closed || h in lost || h in held <==> h < next)
    && (forall h :: h in held ==> h !in closed && h !in lost)
    && (forall h :: h in closed ==> h !in lost)
  }

  lemma HeldIsOpen(next: Handle, closed: set<Handle>, lost: set<Handle>, others: set<Handle>, handles: set<Handle>)
    requires Ledger(next, closed, lost, others + handles)
    ensures handles !! closed
  {
  }

  lemma LedgerClose(next: Handle, closed: set<Handle>, lost: set<Handle>, held: set<Handle>, h: Handle)
    requires Ledger(next, closed, lost, held) && h in held
    ensures Ledger(next, closed + {h}, lost, held - {h}) && h !in closed
  {
  }

  lemma LedgerOpen(next: Handle, closed: set<Handle>, lost: set<Handle>, held: set<Handle>)
    requires Ledger(next, closed, lost, held)
    ensures Ledger(next + 1, closed, lost, held + {next}) && next !in held && next !in lost
  {
  }

  lemma LedgerLose(next: Handle, closed: set<Handle>, lost: set<Handle>, held: set<Handle>, h: Handle)
    requires Ledger(next, closed, lost, held) && h in held
    ensures Ledger(next, closed, lost + {h}, held - {h}) && h !in lost
  {
  }

  predicate Injective(m: map<VolumeId, Handle>) {
    forall v, w :: v in m && w in m && v != w ==> m[v] != m[w]
  }

  lemma RemoveOne(m: map<VolumeId, Handle>, v: VolumeId)
    requires Injective(m) && v in m
    ensures Injective(m - {v})
    ensures (m - {v}).Values == m.Values - {m[v]} && m[v] in m.Values
  {
    var rest := m - {v};
    forall h | h in m.Values && h != m[v]
      ensures h in rest.Values
    {
      var w :| w in m && m[w] == h;
      assert w in rest && rest[w] == h;
    }
  }

  lemma AddOne(m: map<VolumeId, Handle>, v: VolumeId, h: Handle)
    requires Injective(m) && h !in m.Values
    ensures Injective(m[v := h])
    ensures m[v := h].Values == (if v in m then m.Values - {m[v]} else m.Values) + {h}
  {
    var m' := m[v := h];
    var rest := m - {v};
    if v in m {
      RemoveOne(m, v);
    } else {
      assert rest == m;
    }
    assert m' == rest[v := h];
    forall k | k in rest.Values + {h}
      ensures k in m'.Values
    {
      if k == h {
        assert m'[v] == h;
      } else {
        var w :| w in rest && rest[w] == k;
        assert m'[w] == k;
      }
    }
  }

  /** What the surroundings answer during one call: whether the member at an index can be opened, whether the store can
      normalise the members, and what the cleanup of a handle returns. */
  datatype World = World(opens: nat -> bool, normalises: bool, cleanup: Handle -> Option<Message>)

  /** Some cleanup among these handles answers with an error. */
  ghost predicate Fails(handles: set<Handle>, w: World) {
    exists h :: h in handles && w.cleanup(h).Some?
  }

  predicate AllOpen(members: seq<VolumeId>, w: World) {
    forall i :: 0 <= i < |members| ==> w.opens(i)
  }

  /** The members a store accepts. */
  predicate Acceptable(members: seq<VolumeId>, w: World) {
    members != [] && "" !in members && Distinct(members) && w.normalises
  }

  class Runtime {
    var cfg: Config
    var cleanups: map<VolumeId, Handle>
    var store: map<VolumeId, Handle>
    var status: Status
    var nextHandle: Handle
    ghost var closed: set<Handle>
    ghost var lost: set<Handle>
    ghost var terminated: bool

    /** Every handle is accounted for; the active store uses exactly the handles held, none of them closed. */
    ghost predicate Valid()
      reads this
    {
      && Ledger(nextHandle, closed, lost, cleanups.Values) && Injective(cleanups)
      && (!terminated ==> store == cleanups)
      && (terminated ==> cleanups == map[])
      && StaleIsMarked(status)
      && status.active == cfg.generation
    }

    /** cleanupVolumePoolMemberStores: every cleanup runs, whatever the others answer; it fails exactly when some
        cleanup does. Before the runtime is closed, no handle that the active store uses may be given. */
    method CloseHandles(handles: map<VolumeId, Handle>, w: World,
                        ghost others: set<Handle>) returns (err: Option<Message>)
      requires Injective(handles) && handles.Values !! others
      requires Ledger(nextHandle, closed, lost, others + handles.Values)
      requires terminated || handles.Values !! store.Values
      modifies this`closed
      ensures Ledger(nextHandle, closed, lost, others)
      ensures closed == old(closed) + handles.Values && handles.Values !! old(closed)
      ensures err.Some? <==> Fails(handles.Values, w)
    {
      hide Ledger, Injective;
      HeldIsOpen(nextHandle, closed, lost, others, handles.Values);
      var rest := handles;
      err := None;
      ghost var done: set<Handle> := {};
      while rest != map[]
        invariant Injective(rest) && rest.Values !! closed && rest.Values !! others
        invariant Ledger(nextHandle, closed, lost, others + rest.Values)
        invariant closed + rest.Values == old(closed) + handles.Values
        invariant done + rest.Values == handles.Values
        invariant err.Some? <==> Fails(done, w)
        decreases rest.Keys
      {
        var v :| v in rest;
        RemoveOne(rest, v);
        assert (rest - {v}).Keys == rest.Keys - {v};
        var failed := CloseOne(rest[v], w, others + rest.Values);
        FailsOneMore(done, rest[v], w);
        if failed.Some? {
          err := Some(if err.Some? then err.value + "; " + failed.value else failed.value);
        }
        assert others + rest.Values - {rest[v]} == others + (rest - {v}).Values;
        done := done + {rest[v]};
        rest := rest - {v};
      }
      assert others + rest.Values == others && closed + rest.Values == closed && done + rest.Values == done;
    }

    /** One cleanup call. The handle has not been closed before, and the active store does not use it. */
    method CloseOne(h: Handle, w: World, ghost held: set<Handle>) returns (failed: Option<Message>)
      requires Ledger(nextHandle, closed, lost, held) && h in held && h !in closed
      requires terminated || h !in store.Values
      modifies this`closed
      ensures Ledger(nextHandle, closed, lost, held - {h}) && closed == old(closed) + {h}
      ensures failed == w.cleanup(h)
    {
      LedgerClose(nextHandle, closed, lost, held, h);
      closed := closed + {h};
      failed := w.cleanup(h);
    }

    /** openSBSVolumePoolMembers. Either all members are open and held, or those opened before the failure are closed
        again. A handle goes missing exactly when two of the members opened share a volume id: the cleanup map keeps
        one. */
    method OpenMembers(members: seq<VolumeId>, w: World, ghost others: set<Handle>)
      returns (handles: Option<map<VolumeId, Handle>>, ghost count: nat)
      requires Ledger(nextHandle, closed, lost, others) && store.Values <= others
      modifies this`nextHandle, this`closed, this`lost
      ensures handles.Some? <==> AllOpen(members, w)
      ensures count <= |members| && (handles.Some? ==> count == |members|)
      ensures handles.Some? ==>
                && Injective(handles.value) && handles.value.Values !! others
                && handles.value.Keys == Ids(members)
                && closed == old(closed)
      ensures Ledger(nextHandle, closed, lost, others + if handles.Some? then handles.value.Values else {})
      ensures nextHandle == old(nextHandle) + count && old(lost) <= lost && old(closed) <= closed
      ensures lost == old(lost) <==> Distinct(members[..count])
    {
      var held: map<VolumeId, Handle> := map[];
      assert Injective(held) && Distinct(members[..0]);
      hide Ledger, Injective, Distinct;
      count := 0;
      assert others + held.Values == others;
      var i := 0;
      while i < |members|
        invariant 0 <= i == count <= |members| && nextHandle == old(nextHandle) + i
        invariant Injective(held) && held.Values !! others && held.Keys == Ids(members[..i])
        invariant Ledger(nextHandle, closed, lost, others + held.Values)
        invariant closed == old(closed) && old(lost) <= lost
        invariant lost == old(lost) <==> Distinct(members[..i])
        invariant forall j :: 0 <= j < i ==> w.opens(j)
      {
        if !w.opens(i) {
          var _ := CloseHandles(held, w, others);
          assert others + {} == others;
          return None, count;
        }
        held := OpenOne(members, i, held, others);
        i := i + 1;
        count := i;
      }
      assert members[..i] == members;
      return Some(held), count;
    }

    /** One successful opener call and its entry in the cleanup map. */
    method OpenOne(members: seq<VolumeId>, i: nat, was: map<VolumeId, Handle>, ghost others: set<Handle>)
      returns (held: map<VolumeId, Handle>)
      requires i < |members|
      requires Injective(was) && was.Values !! others && was.Keys == Ids(members[..i])
      requires Ledger(nextHandle, closed, lost, others + was.Values)
      modifies this`nextHandle, this`lost
      ensures nextHandle == old(nextHandle) + 1
      ensures Injective(held) && held.Values !! others && held.Keys == Ids(members[..i + 1])
      ensures Ledger(nextHandle, closed, lost, others + held.Values)
      ensures old(lost) <= lost && (lost == old(lost) <==> members[i] !in members[..i])
      ensures Distinct(members[..i + 1]) <==> Distinct(members[..i]) && lost == old(lost)
    {
      hide Ledger, Injective, Distinct;
      var v, h := members[i], nextHandle;
      DistinctStep(members, i);
      LedgerOpen(nextHandle, closed, lost, others + was.Values);
      AddOne(was, v, h);
      nextHandle := nextHandle + 1;
      held := was[v := h];
      if v in was {
        LedgerLose(nextHandle, closed, lost, others + was.Values + {h}, was[v]);
        assert others + was.Values + {h} - {was[v]} == others + held.Values;
        lost := lost + {was[v]};
      } else {
        assert others + was.Values + {h} == others + held.Values;
      }
      assert members[..i + 1] == members[..i] + [v];
    }

    /** The store's UpdateMembers, all or nothing: it refuses an empty list, an empty or repeated id, and members it
        cannot normalise. */
    method UpdateMembers(members: seq<VolumeId>, handles: map<VolumeId, Handle>,
                         w: World) returns (err: Option<Message>)
      modifies this`store
      ensures err.None? <==> Acceptable(members, w)
      ensures store == if err.None? then handles else old(store)
    {
      var repeated := exists i, j :: 0 <= i < j < |members| && members[i] == members[j];
      if members == [] || "" in members || repeated || !w.normalises {
        return Some("invalid volume pool members");
      }
      store := handles;
      return None;
    }

    /** openSBSVolumePoolRuntime: an unsuccessful open leaves no handle behind, up to repeated ids. */
    constructor Open(cfg: Config, w: World)
      ensures terminated <==> !AllOpen(cfg.members, w) || !Acceptable(cfg.members, w)
      ensures status.configured == status.active == cfg.generation && status.lastError == ""
      ensures status.staleSince == 0 && status.refreshes == 0 && status.errors == 0
      ensures !terminated ==>
                Valid() && this.cfg == cfg && Distinct(cfg.members) && lost == {} && cleanups.Keys == Ids(cfg.members)
      ensures terminated ==> cleanups == map[] && Ledger(nextHandle, closed, lost, {})
    {
      this.cfg := cfg;
      this.status := Status(cfg.generation, cfg.generation, "", 0, 0, 0);
      this.cleanups, this.store, this.nextHandle := map[], map[], 0;
      this.closed, this.lost, this.terminated := {}, {}, false;
      new;
      NoHandles();
      ghost var count;
      var handles;
      handles, count := OpenMembers(cfg.members, w, {});
      if handles.None? {
        terminated := true;
        return;
      }
      assert cfg.members[..|cfg.members|] == cfg.members;
      assert {} + handles.value.Values == handles.value.Values;
      var err := UpdateMembers(cfg.members, handles.value, w);
      if err.Some? {
        var _ := CloseHandles(handles.value, w, {});
        terminated := true;
        return;
      }
      cleanups := handles.value;
    }

    /** A refresh switches exactly when the registry answers with another generation (or with generation zero) whose
        members all open and suit the store. */
    predicate Switches(answer: Option<Snapshot>, w: World)
      reads this
    {
      && cfg.poolId != "" && answer.Some?
      && (answer.value.generation == 0 || answer.value.generation != status.active)
      && AllOpen(answer.value.members, w) && Acceptable(answer.value.members, w)
    }

    predicate UpToDate(answer: Option<Snapshot>)
      reads this
    {
      answer.Some? && answer.value.generation != 0 && answer.value.generation == status.active
    }

    /** RefreshFromRegistry with the repository's answer. Unless it switches, configuration, handles, members and active
        generation stay, and an error is on record. If it switches, all of them change together and the handles it
        replaced, which the store has let go, are closed; it then returns an error exactly when one of their cleanups
        failed, and that error is not on record. */
    method Refresh(answer: Option<Snapshot>, failure: Message, now: Time, w: World)
      returns (err: Option<Message>, switched: bool)
      requires Valid() && !terminated
      modifies this
      ensures Valid() && !terminated
      ensures switched <==> old(Switches(answer, w))
      ensures !switched ==>
                && cfg == old(cfg) && cleanups == old(cleanups) && store == old(store)
                && status.active == old(status).active
                && (answer.None? || cfg.poolId == "" ==> status.configured == old(status).configured)
                && old(cleanups).Values !! closed
                && (err.Some? ==> status.lastError == err.value && status.staleSince > 0)
                && (err.None? <==> cfg.poolId == "" || old(UpToDate(answer)))
                && (err.None? && cfg.poolId != "" ==> status.lastError == "" && status.staleSince == 0)
      ensures switched ==>
                && status.active == answer.value.generation && status.lastError == ""
                && (status.staleSince == 0 <==> answer.value.generation != 0 || old(status).configured == 0)
                && cfg.members == answer.value.members && cleanups.Keys == Ids(cfg.members)
                && old(cleanups).Values <= closed && cleanups.Values !! old(cleanups).Values
                && (err.Some? <==> Fails(old(cleanups).Values, w))
      ensures answer.Some? && Distinct(answer.value.members) ==> lost == old(lost)
      ensures old(closed) <= closed && old(lost) <= lost
    {
      switched := false;
      hide Ledger, Injective;
      HeldOnly(nextHandle, closed, lost, cleanups.Values);
      var base, currentGeneration := cfg, status.active;
      if base.poolId == "" {
        return None, false;
      }
      if answer.None? {
        status := Recorded(status, now, 0, Some(failure));
        return Some(failure), false;
      }
      var pool := answer.value;
      if pool.generation != 0 && pool.generation == currentGeneration {
        status := Recorded(status, now, pool.generation, None);
        return None, false;
      }
      if pool.members == [] {
        var text: Message := "volume pool has no members";
        status := Recorded(status, now, pool.generation, Some(text));
        return Some(text), false;
      }
      var handles;
      ghost var count;
      handles, count := OpenMembers(pool.members, w, cleanups.Values);
      DistinctPrefix(pool.members, count);
      if handles.None? {
        status := Recorded(status, now, pool.generation, Some(failure));
        assert cleanups.Values + {} == cleanups.Values;
        HeldOnly(nextHandle, closed, lost, cleanups.Values);
        return Some(failure), false;
      }
      err := UpdateMembers(pool.members, handles.value, w);
      if err.Some? {
        var _ := CloseHandles(handles.value, w, cleanups.Values);
        status := Recorded(status, now, pool.generation, err);
        HeldOnly(nextHandle, closed, lost, cleanups.Values);
        return;
      }
      var failed := Switch(pool, handles.value, now, w);
      return failed, true;
    }

    /** The last steps of a refresh, once the store has taken the new members. */
    method Switch(pool: Snapshot, handles: map<VolumeId, Handle>, now: Time, w: World) returns (err: Option<Message>)
      requires !terminated && store == handles && Injective(handles) && Injective(cleanups)
      requires handles.Values !! cleanups.Values
      requires Ledger(nextHandle, closed, lost, cleanups.Values + handles.Values)
      modifies this`cfg, this`cleanups, this`status, this`closed
      ensures Valid() && cfg == old(cfg).(members := pool.members, generation := pool.generation) && cleanups == handles
      ensures status == Recorded(old(status).(active := pool.generation), now, pool.generation, None)
      ensures closed == old(closed) + old(cleanups).Values
      ensures err.Some? <==> Fails(old(cleanups).Values, w)
    {
      hide Ledger, Injective;
      var oldCleanups := cleanups;
      cfg := cfg.(members := pool.members, generation := pool.generation);
      cleanups := handles;
      status := status.(active := pool.generation);
      status := Recorded(status, now, pool.generation, None);
      assert oldCleanups.Values + cleanups.Values == cleanups.Values + oldCleanups.Values;
      err := CloseHandles(oldCleanups, w, cleanups.Values);
    }

    /** Close, once the refresher has stopped: every handle ever opened is then closed, but for those lost to a repeated
        id. */
    method Close(w: World) returns (err: Option<Message>)
      requires Valid()
      modifies this
      ensures Valid() && terminated
      ensures forall h: Handle :: h < nextHandle && h !in lost ==> h in closed
      ensures nextHandle == old(nextHandle) && lost == old(lost) && old(closed) <= closed
      ensures err.Some? <==> Fails(old(cleanups).Values, w)
    {
      var held := cleanups;
      cleanups := map[];
      terminated := true;
      assert {} + held.Values == held.Values;
      err := CloseHandles(held, w, {});
      assert cleanups.Values == {};
    }
  }

  /** The concrete case: a pool of one member moves to another member, and closing the first one fails. */
  method SwitchAndFail(failure: Message, now: Time) returns (err: Option<Message>, switched: bool, lastError: string)
    ensures switched && err.Some? && lastError == ""
  {
    var fine := World(i => true, true, h => None);
    var pool := new Runtime.Open(Config("pool", ["a"], 1), fine);
    assert "a" in Ids(["a"]) && pool.cleanups["a"] in pool.cleanups.Values;
    var w := World(i => true, true, h => Some(failure));
    assert Fails(pool.cleanups.Values, w);
    err, switched := pool.Refresh(Some(Snapshot(2, ["b"])), failure, now, w);
    lastError := pool.status.lastError;
  }

  lemma FailsOneMore(done: set<Handle>, h: Handle, w: World)
    ensures Fails(done + {h}, w) <==> Fails(done, w) || w.cleanup(h).Some?
  {
    assert h in done + {h};
  }

  lemma NoHandles()
    ensures Ledger(0, {}, {}, {})
  {
  }

  lemma HeldOnly(next: Handle, closed: set<Handle>, lost: set<Handle>, held: set<Handle>)
    requires Ledger(next, closed, lost, held)
    ensures held !! closed
  {
  }

  lemma DistinctPrefix(members: seq<VolumeId>, n: nat)
    requires n <= |members|
    ensures Distinct(members) ==> Distinct(members[..n])
  {
  }

  lemma DistinctStep(members: seq<VolumeId>, i: nat)
    requires i < |members|
    ensures Distinct(members[..i + 1]) <==> Distinct(members[..i]) && members[i] !in members[..i]
  {
    var before, after := members[..i], members[..i + 1];
    assert forall k :: 0 <= k < i ==> after[k] == before[k];
    if members[i] in before {
      var k :| 0 <= k < i && before[k] == members[i];
      assert after[k] == after[i];
    }
  }
}
