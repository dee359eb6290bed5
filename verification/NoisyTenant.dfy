/** The noisy-tenant profile of the benchmark tool (cmd/namros-s3bench/main.go): a simulator of the request limits that
    a noisy tenant and its neighbor share, and the four gates that decide whether a configuration isolates the neighbor.
    */
module NoisyTenant {
  import opened Bytes

  type Tenant = seq<byte>

  datatype Config = Config(noisy: Tenant, neighbor: Tenant, maxGlobal: int, maxTenant: int,
                           hold: int, noisyAttempts: int, neighborAttempts: int)

  datatype Role = Noisy | Neighbor

  datatype Status = Admitted | Throttled | Completed

  datatype Reason = NoReason | GlobalLimit | TenantLimit

  datatype Event = Event(sequence: int, tenant: Tenant, role: Role, iteration: int, status: Status, reason: Reason,
                         globalInflight: int, tenantInflight: int, neighborSafe: bool, noisyThrottled: bool)

  datatype Stats = Stats(attempted: int, admitted: int, throttled: int, completed: int, peak: int)

  datatype Summary = Summary(passed: bool, gates: seq<bool>, peakGlobal: int,
                             noisy: Stats, neighbor: Stats, events: seq<Event>)

  predicate ValidConfig(cfg: Config) {
    && TrimSpace(cfg.noisy) != [] && TrimSpace(cfg.neighbor) != [] && cfg.noisy != cfg.neighbor
    && cfg.maxGlobal > 0 && cfg.maxTenant > 0
    && cfg.hold >= 0 && cfg.noisyAttempts > 0 && cfg.neighborAttempts > 0
  }

  function Min(a: int, b: int): (m: int) { if a < b then a else b }

  /** How many requests one tenant can hold when nobody else holds any. */
  function Room(cfg: Config): (n: int) { Min(cfg.maxTenant, cfg.maxGlobal) }

  function Count(events: seq<Event>, tenant: Tenant, status: Status): (n: nat) {
    if events == [] then 0 else
      var last := events[|events| - 1];
      Count(events[..|events| - 1], tenant, status) + if last.tenant == tenant && last.status == status then 1 else 0
  }

  lemma CountAppend(events: seq<Event>, e: Event, tenant: Tenant, status: Status)
    ensures Count(events + [e], tenant, status) ==
              Count(events, tenant, status) + if e.tenant == tenant && e.status == status then 1 else 0
  {
    assert (events + [e])[..|events|] == events;
  }

  /** The counters of a tenant are what the event log says, and its requests in flight are those admitted and not
      completed. */
  ghost predicate Accounts(stats: Stats, active: int, events: seq<Event>, tenant: Tenant) {
    && stats.admitted == Count(events, tenant, Admitted)
    && stats.throttled == Count(events, tenant, Throttled)
    && stats.completed == Count(events, tenant, Completed)
    && stats.attempted == stats.admitted + stats.throttled
    && active == stats.admitted - stats.completed
    && 0 <= active <= stats.peak
  }

  /** Each event carries its number, says whether the noisy tenant has been throttled by then, and reports a load within
      the limits. */
  ghost predicate Logged(events: seq<Event>, cfg: Config) {
    forall i :: 0 <= i < |events| ==>
      && events[i].sequence == i + 1
      && (events[i].noisyThrottled <==> Count(events[..i + 1], cfg.noisy, Throttled) > 0)
      && 0 <= events[i].tenantInflight <= cfg.maxTenant
      && events[i].tenantInflight <= events[i].globalInflight <= cfg.maxGlobal
  }

  lemma LoggedAppend(events: seq<Event>, cfg: Config, e: Event)
    requires Logged(events, cfg) && e.sequence == |events| + 1
    requires e.noisyThrottled <==> Count(events + [e], cfg.noisy, Throttled) > 0
    requires 0 <= e.tenantInflight <= cfg.maxTenant && e.tenantInflight <= e.globalInflight <= cfg.maxGlobal
    ensures Logged(events + [e], cfg)
  {
    hide Count;
    var more := events + [e];
    assert more[..|more|] == more;
    forall i | 0 <= i < |events|
      ensures more[..i + 1] == events[..i + 1] && more[i] == events[i]
    {
    }
  }

  /** The role is the tenant's, and exactly the admissions of the neighbor are marked as showing it safe. */
  ghost predicate Marked(events: seq<Event>, cfg: Config) {
    forall i :: 0 <= i < |events| ==>
      && (events[i].role.Neighbor? <==> events[i].tenant == cfg.neighbor)
      && (events[i].neighborSafe <==> events[i].tenant == cfg.neighbor && events[i].status == Admitted)
  }

  lemma MarkedAppend(events: seq<Event>, more: seq<Event>, cfg: Config)
    requires |more| == |events| + 1 && more[..|events|] == events
    ensures var e := more[|events|];
            (&& Marked(events, cfg) && (e.role.Neighbor? <==> e.tenant == cfg.neighbor)
             && (e.neighborSafe <==> e.tenant == cfg.neighbor && e.status == Admitted)) ==> Marked(more, cfg)
  {
    assert forall i :: 0 <= i < |events| ==> more[i] == more[..|events|][i];
  }

  lemma AccountsAppend(stats: Stats, active: int, events: seq<Event>, tenant: Tenant, e: Event)
    requires Accounts(stats, active, events, tenant) && e.tenant != tenant
    ensures Accounts(stats, active, events + [e], tenant)
  {
    CountAppend(events, e, tenant, Admitted);
    CountAppend(events, e, tenant, Throttled);
    CountAppend(events, e, tenant, Completed);
  }

  /** What each kind of event does to the counters and the load of its tenant. */
  ghost predicate Moves(was: Stats, load: int, now: Stats, next: int, status: Status) {
    match status
    case Throttled => now == was.(attempted := was.attempted + 1, throttled := was.throttled + 1) && next == load
    case Admitted => && now == was.(attempted := was.attempted + 1, admitted := was.admitted + 1, peak := now.peak)
                     && next == load + 1 <= now.peak
    case Completed => now == was.(completed := was.completed + 1) && next == load - 1 >= 0
  }

  lemma AccountsNext(was: Stats, load: int, now: Stats, next: int, events: seq<Event>, tenant: Tenant, e: Event)
    requires Accounts(was, load, events, tenant) && e.tenant == tenant && Moves(was, load, now, next, e.status)
    ensures Accounts(now, next, events + [e], tenant)
  {
    CountAppend(events, e, tenant, Admitted);
    CountAppend(events, e, tenant, Throttled);
    CountAppend(events, e, tenant, Completed);
  }

  function Load(active: map<Tenant, int>, tenant: Tenant): (n: int) { if tenant in active then active[tenant] else 0 }

  /** No limit is ever passed, and the global counter is the sum of the tenants'. */
  ghost predicate Bounded(cfg: Config, global: int, peak: int, active: map<Tenant, int>, stats: map<Tenant, Stats>) {
    && cfg.noisy in stats && cfg.neighbor in stats && cfg.noisy != cfg.neighbor
    && 0 <= Load(active, cfg.noisy) <= cfg.maxTenant && 0 <= Load(active, cfg.neighbor) <= cfg.maxTenant
    && stats[cfg.noisy].peak <= cfg.maxTenant && stats[cfg.neighbor].peak <= cfg.maxTenant
    && global == Load(active, cfg.noisy) + Load(active, cfg.neighbor)
    && global <= peak <= cfg.maxGlobal
  }

  /** The counters agree with the log. */
  ghost predicate Audited(cfg: Config, active: map<Tenant, int>, stats: map<Tenant, Stats>, events: seq<Event>) {
    && cfg.noisy in stats && cfg.neighbor in stats && Logged(events, cfg)
    && Accounts(stats[cfg.noisy], Load(active, cfg.noisy), events, cfg.noisy)
    && Accounts(stats[cfg.neighbor], Load(active, cfg.neighbor), events, cfg.neighbor)
  }

  predicate Known(cfg: Config, tenant: Tenant) { tenant == cfg.noisy || tenant == cfg.neighbor }

  ghost predicate OthersKept(cfg: Config, tenant: Tenant, active: map<Tenant, int>, after: map<Tenant, int>,
                             stats: map<Tenant, Stats>, later: map<Tenant, Stats>) {
    forall t :: t != tenant && Known(cfg, t) ==>
      t in stats && t in later && later[t] == stats[t] && Load(after, t) == Load(active, t)
  }

  /** One more event, with the counters of its tenant moved accordingly, keeps the books. */
  lemma AuditedAppend(cfg: Config, active: map<Tenant, int>, stats: map<Tenant, Stats>, events: seq<Event>,
                      after: map<Tenant, int>, later: map<Tenant, Stats>, e: Event)
    requires Audited(cfg, active, stats, events) && Known(cfg, e.tenant) && e.tenant in later
    requires cfg.noisy != cfg.neighbor
    requires OthersKept(cfg, e.tenant, active, after, stats, later)
    requires Moves(stats[e.tenant], Load(active, e.tenant), later[e.tenant], Load(after, e.tenant), e.status)
    requires e.sequence == |events| + 1 && cfg.noisy in later
    requires e.noisyThrottled <==> later[cfg.noisy].throttled > 0
    requires 0 <= e.tenantInflight <= cfg.maxTenant && e.tenantInflight <= e.globalInflight <= cfg.maxGlobal
    ensures Audited(cfg, after, later, events + [e])
  {
    hide Logged, Moves, Count;
    AccountsNext(stats[e.tenant], Load(active, e.tenant), later[e.tenant], Load(after, e.tenant), events, e.tenant, e);
    var other := if e.tenant == cfg.noisy then cfg.neighbor else cfg.noisy;
    AccountsAppend(stats[other], Load(active, other), events, other, e);
    LoggedAppend(events, cfg, e);
  }

  lemma BooksBalance(cfg: Config, active: map<Tenant, int>, stats: map<Tenant, Stats>, events: seq<Event>)
    requires Audited(cfg, active, stats, events)
    ensures cfg.noisy in stats && Load(active, cfg.noisy) == stats[cfg.noisy].admitted - stats[cfg.noisy].completed
    ensures cfg.neighbor in stats
    ensures Load(active, cfg.neighbor) == stats[cfg.neighbor].admitted - stats[cfg.neighbor].completed
    ensures Logged(events, cfg)
  {
    hide Logged, Count;
  }

  lemma BoundedNext(cfg: Config, global: int, peak: int, active: map<Tenant, int>, stats: map<Tenant, Stats>,
                    tenant: Tenant, s: Stats)
    requires Bounded(cfg, global, peak, active, stats) && Known(cfg, tenant)
    requires global < cfg.maxGlobal && Load(active, tenant) < cfg.maxTenant && s.peak <= cfg.maxTenant
    ensures var after, later := active[tenant := Load(active, tenant) + 1], stats[tenant := s];
            && Bounded(cfg, global + 1, if global < peak then peak else global + 1, after, later)
            && OthersKept(cfg, tenant, active, after, stats, later)
  {
  }

  class Simulator {
    const cfg: Config
    var sequence: int
    var activeGlobal: int
    var peakGlobal: int
    var active: map<Tenant, int>
    var stats: map<Tenant, Stats>
    var events: seq<Event>
    var neighborAdmittedAfter: bool
    var boundsViolated: bool

    function Active(tenant: Tenant): (n: int) reads this { Load(active, tenant) }

    ghost predicate Valid()
      reads this
    {
      && ValidConfig(cfg) && !boundsViolated
      && Bounded(cfg, activeGlobal, peakGlobal, active, stats)
      && Audited(cfg, active, stats, events) && sequence == |events|
    }

    constructor (cfg: Config)
      requires ValidConfig(cfg)
      ensures Valid() && this.cfg == cfg && activeGlobal == peakGlobal == 0 && events == [] && !neighborAdmittedAfter
      ensures Active(cfg.noisy) == Active(cfg.neighbor) == 0
      ensures stats[cfg.noisy] == stats[cfg.neighbor] == Stats(0, 0, 0, 0, 0)
    {
      this.cfg := cfg;
      sequence, activeGlobal, peakGlobal := 0, 0, 0;
      active := map[];
      stats := map[cfg.noisy := Stats(0, 0, 0, 0, 0), cfg.neighbor := Stats(0, 0, 0, 0, 0)];
      events := [];
      neighborAdmittedAfter, boundsViolated := false, false;
    }

    /** One more line in the log. If the books agreed with the log before, and the counters and loads have moved since
        as this event says, they agree with it again. */
    method AppendEvent(tenant: Tenant, role: Role, iteration: int, status: Status, reason: Reason, mark: bool,
                       ghost was: map<Tenant, Stats>, ghost load: map<Tenant, int>)
      requires Known(cfg, tenant) && cfg.noisy in stats && tenant in stats && sequence == |events|
      modifies this`sequence, this`events
      ensures sequence == |events| == old(|events|) + 1 && events[..|events| - 1] == old(events)
      ensures var e := events[|events| - 1];
              && e.tenant == tenant && e.role == role && e.iteration == iteration && e.status == status
              && e.reason == reason && (e.neighborSafe <==> mark && status == Admitted)
      ensures && Bounded(cfg, activeGlobal, peakGlobal, active, stats) && Audited(cfg, load, was, old(events))
              && OthersKept(cfg, tenant, load, active, was, stats)
              && Moves(was[tenant], Load(load, tenant), stats[tenant], Active(tenant), status) ==>
                Audited(cfg, active, stats, events)
    {
      sequence := sequence + 1;
      events := events + [Event(sequence, tenant, role, iteration, status, reason, activeGlobal, Active(tenant),
                                mark && status == Admitted, stats[cfg.noisy].throttled > 0)];
      hide Accounts, Logged, TrimSpace, Moves, OthersKept;
      if && Bounded(cfg, activeGlobal, peakGlobal, active, stats) && Audited(cfg, load, was, old(events))
         && OthersKept(cfg, tenant, load, active, was, stats)
         && Moves(was[tenant], Load(load, tenant), stats[tenant], Active(tenant), status)
      {
        AuditedAppend(cfg, load, was, old(events), active, stats, events[|events| - 1]);
      }
    }

    /** A request is refused exactly when a limit is full, and the reason names the first full one. */
    method Start(tenant: Tenant, role: Role, iteration: int, mark: bool) returns (admitted: bool)
      requires Valid() && Known(cfg, tenant) && (role.Neighbor? <==> tenant == cfg.neighbor)
      modifies this
      ensures Valid()
      ensures admitted <==> old(activeGlobal) < cfg.maxGlobal && old(Active(tenant)) < cfg.maxTenant
      ensures Active(tenant) == old(Active(tenant)) + if admitted then 1 else 0
      ensures activeGlobal == old(activeGlobal) + if admitted then 1 else 0
      ensures stats[tenant].throttled == old(stats[tenant].throttled) + if admitted then 0 else 1
      ensures stats[tenant].attempted == old(stats[tenant].attempted) + 1
      ensures stats[tenant].completed == old(stats[tenant].completed)
      ensures OthersKept(cfg, tenant, old(active), active, old(stats), stats)
      ensures neighborAdmittedAfter <==>
                old(neighborAdmittedAfter) || (admitted && role.Neighbor? && old(stats[cfg.noisy].throttled) > 0)
      ensures |events| == old(|events|) + 1 && events[..|events| - 1] == old(events)
      ensures Marked(old(events), cfg) && (mark <==> role.Neighbor?) ==> Marked(events, cfg)
      ensures events[|events| - 1].reason == if old(activeGlobal) >= cfg.maxGlobal then GlobalLimit
                                             else if old(Active(tenant)) >= cfg.maxTenant then TenantLimit else NoReason
    {
      hide Accounts, Logged, TrimSpace;
      var reason := if activeGlobal >= cfg.maxGlobal then GlobalLimit
                    else if Active(tenant) >= cfg.maxTenant then TenantLimit else NoReason;
      if reason != NoReason {
        Refuse(tenant, role, iteration, reason, mark);
        admitted := false;
      } else {
        Admit(tenant, role, iteration, mark);
        admitted := true;
      }
      MarkedAppend(old(events), events, cfg);
    }

    /** The refusing branch of Start. */
    method Refuse(tenant: Tenant, role: Role, iteration: int, reason: Reason, mark: bool)
      requires Valid() && Known(cfg, tenant)
      modifies this`stats, this`sequence, this`events
      ensures Valid()
      ensures var was := old(stats[tenant]);
              stats[tenant] == was.(attempted := was.attempted + 1, throttled := was.throttled + 1)
      ensures OthersKept(cfg, tenant, old(active), active, old(stats), stats)
      ensures |events| == old(|events|) + 1 && events[..|events| - 1] == old(events)
      ensures events[|events| - 1].reason == reason
      ensures var e := events[|events| - 1];
              e.tenant == tenant && e.role == role && !e.neighborSafe && e.status == Throttled
    {
      hide Accounts, Logged, Marked, TrimSpace, Audited;
      var was := stats[tenant];
      stats := stats[tenant := was.(attempted := was.attempted + 1, throttled := was.throttled + 1)];
      AppendEvent(tenant, role, iteration, Throttled, reason, mark, old(stats), active);
    }

    /** The admitting branch of Start. */
    method Admit(tenant: Tenant, role: Role, iteration: int, mark: bool)
      requires Valid() && Known(cfg, tenant) && activeGlobal < cfg.maxGlobal && Active(tenant) < cfg.maxTenant
      modifies this
      ensures Valid()
      ensures Active(tenant) == old(Active(tenant)) + 1 && activeGlobal == old(activeGlobal) + 1
      ensures Moves(old(stats[tenant]), old(Active(tenant)), stats[tenant], Active(tenant), Admitted)
      ensures OthersKept(cfg, tenant, old(active), active, old(stats), stats)
      ensures neighborAdmittedAfter <==>
                old(neighborAdmittedAfter) || (role.Neighbor? && old(stats[cfg.noisy]).throttled > 0)
      ensures |events| == old(|events|) + 1 && events[..|events| - 1] == old(events)
      ensures events[|events| - 1].reason == NoReason
      ensures var e := events[|events| - 1];
              e.tenant == tenant && e.role == role && e.neighborSafe == mark && e.status == Admitted
    {
      hide Accounts, Logged, Marked, TrimSpace, Audited;
      TakeSlot(tenant);
      if role.Neighbor? && stats[cfg.noisy].throttled > 0 {
        neighborAdmittedAfter := true;
      }
      AppendEvent(tenant, role, iteration, Admitted, NoReason, mark, old(stats), old(active));
    }

    /** The counters of an admission: the peaks follow, and the bounds check finds nothing. */
    method TakeSlot(tenant: Tenant)
      requires Bounded(cfg, activeGlobal, peakGlobal, active, stats) && Known(cfg, tenant) && !boundsViolated
      requires activeGlobal < cfg.maxGlobal && Active(tenant) < cfg.maxTenant
      modifies this`activeGlobal, this`active, this`peakGlobal, this`stats, this`boundsViolated
      ensures Bounded(cfg, activeGlobal, peakGlobal, active, stats) && !boundsViolated
      ensures activeGlobal == old(activeGlobal) + 1
      ensures OthersKept(cfg, tenant, old(active), active, old(stats), stats)
      ensures Moves(old(stats[tenant]), old(Active(tenant)), stats[tenant], Active(tenant), Admitted)
    {
      assert tenant in stats && stats[tenant].peak <= cfg.maxTenant && activeGlobal <= peakGlobal;
      hide Bounded, OthersKept;
      var s := stats[tenant];
      s := s.(attempted := s.attempted + 1);
      activeGlobal := activeGlobal + 1;
      active := active[tenant := Active(tenant) + 1];
      if activeGlobal > peakGlobal {
        peakGlobal := activeGlobal;
      }
      if Active(tenant) > s.peak {
        s := s.(peak := Active(tenant));
      }
      boundsViolated := boundsViolated || activeGlobal > cfg.maxGlobal || Active(tenant) > cfg.maxTenant;
      s := s.(admitted := s.admitted + 1);
      BoundedNext(cfg, old(activeGlobal), old(peakGlobal), old(active), old(stats), tenant, s);
      stats := stats[tenant := s];
    }

    /** Completing a request. With one in flight everything stays in order and neither clamp is used; without one, the
        tenant's load stays at zero and only the global load is lowered, down to zero. */
    method Complete(tenant: Tenant, role: Role, iteration: int)
      requires Valid() && Known(cfg, tenant)
      modifies this
      ensures old(Active(tenant)) > 0 ==> Valid() && activeGlobal == old(activeGlobal) - 1
      ensures old(Active(tenant)) == 0 ==> activeGlobal == if old(activeGlobal) > 0 then old(activeGlobal) - 1 else 0
      ensures Active(tenant) == if old(Active(tenant)) > 0 then old(Active(tenant)) - 1 else 0
      ensures tenant in stats && stats[tenant] == old(stats[tenant]).(completed := old(stats[tenant]).completed + 1)
      ensures OthersKept(cfg, tenant, old(active), active, old(stats), stats)
      ensures neighborAdmittedAfter == old(neighborAdmittedAfter)
      ensures |events| == old(|events|) + 1 && events[..|events| - 1] == old(events)
      ensures Marked(old(events), cfg) && (role.Neighbor? <==> tenant == cfg.neighbor) ==> Marked(events, cfg)
    {
      hide Accounts, Logged, Marked, TrimSpace, Audited;
      if Active(tenant) > 0 {
        active := active[tenant := Active(tenant) - 1];
      }
      if activeGlobal > 0 {
        activeGlobal := activeGlobal - 1;
      }
      stats := stats[tenant := stats[tenant].(completed := stats[tenant].completed + 1)];
      AppendEvent(tenant, role, iteration, Completed, NoReason, false, old(stats), old(active));
      MarkedAppend(old(events), events, cfg);
    }

    /** The gates, in order: the noisy tenant was throttled; the neighbor was admitted after that; the neighbor
        completed all its requests unthrottled; no bound was passed. The last one cannot fail. */
    method Summarize() returns (s: Summary)
      requires Valid()
      ensures var neighbor := stats[cfg.neighbor];
              s.gates == [stats[cfg.noisy].throttled > 0, neighborAdmittedAfter,
                          neighbor.completed == cfg.neighborAttempts && neighbor.throttled == 0, true]
      ensures s.passed <==> s.gates[0] && s.gates[1] && s.gates[2] && s.gates[3]
      ensures s.noisy == stats[cfg.noisy] && s.neighbor == stats[cfg.neighbor] && s.peakGlobal == peakGlobal
      ensures s.events == events
      ensures Active(cfg.noisy) == s.noisy.admitted - s.noisy.completed
      ensures Active(cfg.neighbor) == s.neighbor.admitted - s.neighbor.completed && Logged(s.events, cfg)
    {
      hide Audited, TrimSpace, Logged, Accounts, Count;
      BooksBalance(cfg, active, stats, events);
      var noisy, neighbor := stats[cfg.noisy], stats[cfg.neighbor];
      var gates := [noisy.throttled > 0, neighborAdmittedAfter,
                    neighbor.completed == cfg.neighborAttempts && neighbor.throttled == 0,
                    && !boundsViolated && peakGlobal <= cfg.maxGlobal
                    && noisy.peak <= cfg.maxTenant && neighbor.peak <= cfg.maxTenant];
      var passed, i := true, 0;
      while i < |gates|
        invariant 0 <= i <= |gates| && passed && forall j :: 0 <= j < i ==> gates[j]
      {
        if !gates[i] {
          passed := false;
          break;
        }
        i := i + 1;
      }
      s := Summary(passed, gates, peakGlobal, noisy, neighbor, events);
    }
  }

  /** Requests that are started and kept open. */
  method Hold(sim: Simulator) returns (held: int)
    requires sim.Valid() && sim.activeGlobal == 0 && sim.stats[sim.cfg.noisy].throttled == 0
    requires !sim.neighborAdmittedAfter
    requires sim.Active(sim.cfg.noisy) == sim.Active(sim.cfg.neighbor) == 0 && Marked(sim.events, sim.cfg)
    modifies sim
    ensures Marked(sim.events, sim.cfg)
    ensures sim.Valid() && !sim.neighborAdmittedAfter && sim.stats[sim.cfg.neighbor] == old(sim.stats[sim.cfg.neighbor])
    ensures held == Min(sim.cfg.hold, Room(sim.cfg))
    ensures sim.Active(sim.cfg.noisy) == sim.activeGlobal == held && sim.Active(sim.cfg.neighbor) == 0
    ensures sim.stats[sim.cfg.noisy].throttled == sim.cfg.hold - held
    ensures sim.stats[sim.cfg.noisy].attempted == old(sim.stats[sim.cfg.noisy].attempted) + sim.cfg.hold
    ensures sim.stats[sim.cfg.noisy].completed == old(sim.stats[sim.cfg.noisy].completed)
  {
    held := 0;
    var cfg := sim.cfg;
    for i := 0 to cfg.hold
      invariant sim.Valid() && !sim.neighborAdmittedAfter && sim.stats[cfg.neighbor] == old(sim.stats[cfg.neighbor])
      invariant held == Min(i, Room(cfg)) && Marked(sim.events, cfg)
      invariant sim.Active(cfg.noisy) == sim.activeGlobal == held && sim.Active(cfg.neighbor) == 0
      invariant sim.stats[cfg.noisy].throttled == i - held
      invariant sim.stats[cfg.noisy].attempted == old(sim.stats[cfg.noisy].attempted) + i
      invariant sim.stats[cfg.noisy].completed == old(sim.stats[cfg.noisy].completed)
    {
      hide sim.Valid, Accounts, Logged, Marked, TrimSpace, Audited, Bounded;
      var ok := sim.Start(cfg.noisy, Noisy, i, false);
      if ok {
        held := held + 1;
      }
    }
  }

  /** One request, completed at once if it is let in: the load is the same afterwards. */
  method ServeOne(sim: Simulator, tenant: Tenant, role: Role, iteration: int, mark: bool) returns (served: bool)
    requires sim.Valid() && Known(sim.cfg, tenant) && (role.Neighbor? <==> tenant == sim.cfg.neighbor)
    modifies sim
    ensures sim.Valid() && sim.activeGlobal == old(sim.activeGlobal) && sim.Active(tenant) == old(sim.Active(tenant))
    ensures OthersKept(sim.cfg, tenant, old(sim.active), sim.active, old(sim.stats), sim.stats)
    ensures served <==> old(sim.activeGlobal) < sim.cfg.maxGlobal && old(sim.Active(tenant)) < sim.cfg.maxTenant
    ensures sim.stats[tenant].throttled == old(sim.stats[tenant].throttled) + if served then 0 else 1
    ensures sim.stats[tenant].completed == old(sim.stats[tenant].completed) + if served then 1 else 0
    ensures sim.stats[tenant].attempted == old(sim.stats[tenant].attempted) + 1
    ensures sim.neighborAdmittedAfter <==>
              || old(sim.neighborAdmittedAfter)
              || (served && role.Neighbor? && old(sim.stats[sim.cfg.noisy].throttled) > 0)
    ensures Marked(old(sim.events), sim.cfg) && (mark <==> role.Neighbor?) ==> Marked(sim.events, sim.cfg)
  {
    assert sim.Active(tenant) >= 0;
    hide Accounts, Logged, Marked, TrimSpace, Audited, Bounded, Moves;
    served := sim.Start(tenant, role, iteration, mark);
    if served {
      sim.Complete(tenant, role, iteration);
    }
  }

  /** A tenant's requests, each completed at once: either the limits leave room for one and all are served, or all are
      refused. */
  method Burst(sim: Simulator, tenant: Tenant, role: Role, attempts: int, mark: bool)
    requires sim.Valid() && Known(sim.cfg, tenant) && (role.Neighbor? <==> tenant == sim.cfg.neighbor) && attempts >= 0
    modifies sim
    ensures sim.Valid() && sim.activeGlobal == old(sim.activeGlobal) && sim.Active(tenant) == old(sim.Active(tenant))
    ensures OthersKept(sim.cfg, tenant, old(sim.active), sim.active, old(sim.stats), sim.stats)
    ensures var free := old(sim.activeGlobal) < sim.cfg.maxGlobal && old(sim.Active(tenant)) < sim.cfg.maxTenant;
            && sim.stats[tenant].throttled == old(sim.stats[tenant].throttled) + (if free then 0 else attempts)
            && sim.stats[tenant].completed == old(sim.stats[tenant].completed) + (if free then attempts else 0)
            && sim.stats[tenant].attempted == old(sim.stats[tenant].attempted) + attempts
            && (sim.neighborAdmittedAfter <==>
                  || old(sim.neighborAdmittedAfter)
                  || (free && attempts > 0 && role.Neighbor? && old(sim.stats[sim.cfg.noisy].throttled) > 0))
    ensures Marked(old(sim.events), sim.cfg) && (mark <==> role.Neighbor?) ==> Marked(sim.events, sim.cfg)
  {
    ghost var free := sim.activeGlobal < sim.cfg.maxGlobal && sim.Active(tenant) < sim.cfg.maxTenant;
    for i := 0 to attempts
      invariant sim.Valid() && sim.activeGlobal == old(sim.activeGlobal)
      invariant sim.Active(tenant) == old(sim.Active(tenant))
      invariant OthersKept(sim.cfg, tenant, old(sim.active), sim.active, old(sim.stats), sim.stats)
      invariant sim.stats[tenant].throttled == old(sim.stats[tenant].throttled) + (if free then 0 else i)
      invariant sim.stats[tenant].completed == old(sim.stats[tenant].completed) + (if free then i else 0)
      invariant sim.stats[tenant].attempted == old(sim.stats[tenant].attempted) + i
      invariant sim.neighborAdmittedAfter <==>
                  || old(sim.neighborAdmittedAfter)
                  || (free && i > 0 && role.Neighbor? && old(sim.stats[sim.cfg.noisy].throttled) > 0)
      invariant Marked(old(sim.events), sim.cfg) && (mark <==> role.Neighbor?) ==> Marked(sim.events, sim.cfg)
    {
      hide sim.Valid, Accounts, Logged, Marked, TrimSpace, Audited, Bounded;
      var served := ServeOne(sim, tenant, role, i, mark);
    }
  }

  /** Completing what was held. */
  method Drop(sim: Simulator, held: int)
    requires sim.Valid() && held == sim.Active(sim.cfg.noisy)
    modifies sim
    ensures sim.Valid() && sim.Active(sim.cfg.noisy) == 0 && sim.neighborAdmittedAfter == old(sim.neighborAdmittedAfter)
    ensures sim.stats[sim.cfg.neighbor] == old(sim.stats[sim.cfg.neighbor])
    ensures sim.Active(sim.cfg.neighbor) == old(sim.Active(sim.cfg.neighbor))
    ensures var was := old(sim.stats[sim.cfg.noisy]);
            sim.stats[sim.cfg.noisy] == was.(completed := was.completed + held)
    ensures Marked(old(sim.events), sim.cfg) ==> Marked(sim.events, sim.cfg)
  {
    var cfg := sim.cfg;
    for i := 0 to held
      invariant sim.Valid() && sim.Active(cfg.noisy) == held - i
      invariant sim.neighborAdmittedAfter == old(sim.neighborAdmittedAfter)
      invariant sim.stats[cfg.neighbor] == old(sim.stats[cfg.neighbor])
      invariant sim.Active(cfg.neighbor) == old(sim.Active(cfg.neighbor))
      invariant sim.stats[cfg.noisy] == old(sim.stats[cfg.noisy]).(completed := old(sim.stats[cfg.noisy]).completed + i)
      invariant Marked(old(sim.events), cfg) ==> Marked(sim.events, cfg)
    {
      hide sim.Valid, Accounts, Logged, Marked, TrimSpace, Audited, Bounded;
      sim.Complete(cfg.noisy, Noisy, i);
    }
  }

  /** The checks of the configuration, in the source's order. */
  method Validate(cfg: Config) returns (valid: bool)
    ensures valid <==> ValidConfig(cfg)
  {
    hide TrimSpace;
    if TrimSpace(cfg.noisy) == [] {
      return false;
    }
    if TrimSpace(cfg.neighbor) == [] {
      return false;
    }
    if cfg.noisy == cfg.neighbor {
      return false;
    }
    if cfg.maxGlobal <= 0 {
      return false;
    }
    if cfg.maxTenant <= 0 {
      return false;
    }
    if cfg.hold < 0 || cfg.noisyAttempts < 0 || cfg.neighborAttempts < 0 {
      return false;
    }
    if cfg.noisyAttempts == 0 {
      return false;
    }
    if cfg.neighborAttempts == 0 {
      return false;
    }
    return true;
  }

  lemma BothKnown(sim: Simulator)
    requires sim.Valid()
    ensures sim.cfg.noisy in sim.stats && sim.cfg.neighbor in sim.stats
  {
    hide TrimSpace, Accounts, Logged;
  }

  /** What the profile reports for a valid configuration. */
  ghost predicate Reports(cfg: Config, s: Summary) {
    && |s.gates| == 4 && s.gates[3]
    && (s.passed <==> cfg.maxTenant < cfg.maxGlobal && cfg.hold >= cfg.maxTenant)
    && s.noisy.attempted == cfg.hold + cfg.noisyAttempts && s.neighbor.attempted == cfg.neighborAttempts
    && s.noisy.completed == s.noisy.admitted && s.neighbor.completed == s.neighbor.admitted
    && s.noisy.throttled == (if cfg.hold < Room(cfg) then 0 else cfg.hold - Room(cfg) + cfg.noisyAttempts)
    && s.neighbor.throttled == (if Min(cfg.hold, Room(cfg)) < cfg.maxGlobal then 0 else cfg.neighborAttempts)
    && Logged(s.events, cfg) && Marked(s.events, cfg)
  }

  /** The verdict of the profile, for every configuration: refused exactly when invalid; passed exactly when the tenant
      limit is below the global limit and the noisy tenant holds at least its limit, however many attempts follow; the
      bounds gate never fails; everything admitted is completed. */
  method Execute(cfg: Config) returns (summary: Option<Summary>)
    ensures summary.Some? <==> ValidConfig(cfg)
    ensures summary.Some? ==> Reports(cfg, summary.value)
  {
    var valid := Validate(cfg);
    if !valid {
      return None;
    }
    hide Reports;
    var s := Simulate(cfg);
    return Some(s);
  }

  /** The simulation itself: hold, burst, let the neighbor try, complete what is held. */
  method Simulate(cfg: Config) returns (s: Summary)
    requires ValidConfig(cfg)
    ensures Reports(cfg, s)
  {
    hide TrimSpace, Accounts, Audited, Logged, Bounded;
    var sim := new Simulator(cfg);
    var held := Hold(sim);
    BothKnown(sim);
    Burst(sim, cfg.noisy, Noisy, cfg.noisyAttempts, false);
    BothKnown(sim);
    assert Known(cfg, cfg.neighbor) && Known(cfg, cfg.noisy);
    assert sim.stats[cfg.neighbor] == Stats(0, 0, 0, 0, 0) && sim.Active(cfg.neighbor) == 0;
    ghost var noisy := sim.stats[cfg.noisy];
    Burst(sim, cfg.neighbor, Neighbor, cfg.neighborAttempts, true);
    assert sim.stats[cfg.noisy] == noisy && sim.Active(cfg.noisy) == held;
    hide OthersKept, Known;
    Drop(sim, held);
    s := sim.Summarize();
  }
}
