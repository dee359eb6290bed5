/** The request concurrency limiter (internal/gateway/request_limiter.go). The counters are compared with the set of
    requests that hold a slot: the requests are the truth, the counters and maps only a summary of it. */
module RequestLimiter {
  import opened Bytes

  datatype Class = Read | Write | Other

  /** The empty tenant id means "no tenant": it is not counted and not limited. */
  datatype Scope = Scope(tenant: string, class_: Class)

  /** A limit that is not positive is disabled. */
  datatype Limits = Limits(total: int, perTenant: int, maxReads: int, maxWrites: int)

  datatype Reason = GlobalLimit | TenantLimit | ClassLimit(class_: Class)

  type RequestId = nat

  function LimitOf(limits: Limits, c: Class): (n: int) {
    match c case Read => limits.maxReads case Write => limits.maxWrites case Other => 0
  }

  // ---- What is true: the live requests ---------------------------------------------------------

  type Live = map<RequestId, Scope>

  function OfTenant(live: Live, tenant: string): (ids: set<RequestId>) {
    set id | id in live && live[id].tenant == tenant
  }

  function OfClass(live: Live, c: Class): (ids: set<RequestId>) {
    set id | id in live && live[id].class_ == c
  }

  predicate Full(limit: int, n: nat) {
    limit > 0 && n + 1 > limit
  }

  /** Why the live requests leave no room for one more in this scope, checked in the order of the code. */
  function WhyFull(limits: Limits, live: Live, scope: Scope): (r: Option<Reason>) {
    if Full(limits.total, |live|) then Some(GlobalLimit)
    else if scope.tenant != "" && Full(limits.perTenant, |OfTenant(live, scope.tenant)|) then Some(TenantLimit)
    else if scope.class_ == Read && Full(limits.maxReads, |OfClass(live, Read)|) then Some(ClassLimit(Read))
    else if scope.class_ == Write && Full(limits.maxWrites, |OfClass(live, Write)|) then Some(ClassLimit(Write))
    else None
  }

  /** No enabled limit is exceeded. */
  ghost predicate WithinLimits(limits: Limits, live: Live) {
    && (limits.total > 0 ==> |live| <= limits.total)
    && (forall t :: limits.perTenant > 0 && t != "" ==> |OfTenant(live, t)| <= limits.perTenant)
    && (limits.maxReads > 0 ==> |OfClass(live, Read)| <= limits.maxReads)
    && (limits.maxWrites > 0 ==> |OfClass(live, Write)| <= limits.maxWrites)
  }

  // ---- What is kept: counters and maps -----------------------------------------------------------

  /** A Go map read: the zero value for an absent key. */
  function Count<K(==)>(m: map<K, nat>, k: K): (n: nat) {
    if k in m then m[k] else 0
  }

  /** The map holds exactly the tenants with live requests, each with their number. */
  ghost predicate TenantsAgree(m: map<string, nat>, live: Live) {
    forall t :: Count(m, t) == (if t == "" then 0 else |OfTenant(live, t)|) && (t in m ==> m[t] > 0)
  }

  ghost predicate ClassesAgree(m: map<Class, nat>, live: Live) {
    forall c :: Count(m, c) == |OfClass(live, c)| && (c in m ==> m[c] > 0)
  }

  ghost predicate Agrees(inFlight: nat, byTenant: map<string, nat>, byClass: map<Class, nat>, live: Live) {
    inFlight == |live| && TenantsAgree(byTenant, live) && ClassesAgree(byClass, live)
  }

  function Plus<K(==)>(m: map<K, nat>, k: K): (m': map<K, nat>) {
    m[k := Count(m, k) + 1]
  }

  /** The map after one release: the entry goes when it was the last. */
  function Minus<K(==)>(m: map<K, nat>, k: K): (m': map<K, nat>) {
    if Count(m, k) <= 1 then m - {k} else m[k := m[k] - 1]
  }

  lemma JoinSizes(live: Live, id: RequestId, scope: Scope)
    requires id !in live
    ensures var live' := live[id := scope];
            && |live'| == |live| + 1
            && (forall t :: |OfTenant(live', t)| == |OfTenant(live, t)| + if t == scope.tenant then 1 else 0)
            && (forall c :: |OfClass(live', c)| == |OfClass(live, c)| + if c == scope.class_ then 1 else 0)
  {
    forall t {
      JoinTenant(live, id, scope, t);
    }
    forall c {
      JoinClass(live, id, scope, c);
    }
  }

  lemma JoinTenant(live: Live, id: RequestId, scope: Scope, t: string)
    requires id !in live
    ensures |OfTenant(live[id := scope], t)| == |OfTenant(live, t)| + if t == scope.tenant then 1 else 0
  {
    if t == scope.tenant {
      assert OfTenant(live[id := scope], t) == OfTenant(live, t) + {id};
    } else {
      assert OfTenant(live[id := scope], t) == OfTenant(live, t);
    }
  }

  lemma JoinClass(live: Live, id: RequestId, scope: Scope, c: Class)
    requires id !in live
    ensures |OfClass(live[id := scope], c)| == |OfClass(live, c)| + if c == scope.class_ then 1 else 0
  {
    if c == scope.class_ {
      assert OfClass(live[id := scope], c) == OfClass(live, c) + {id};
    } else {
      assert OfClass(live[id := scope], c) == OfClass(live, c);
    }
  }

  lemma LeaveSizes(live: Live, id: RequestId)
    requires id in live
    ensures var live', scope := live - {id}, live[id];
            && |live'| == |live| - 1
            && (forall t :: |OfTenant(live', t)| == |OfTenant(live, t)| - if t == scope.tenant then 1 else 0)
            && (forall c :: |OfClass(live', c)| == |OfClass(live, c)| - if c == scope.class_ then 1 else 0)
  {
    var live', scope := live - {id}, live[id];
    assert live == live'[id := scope];
    JoinSizes(live', id, scope);
  }

  /** A request that joins when nothing is full keeps every limit. */
  lemma JoinWithinLimits(limits: Limits, live: Live, id: RequestId, scope: Scope)
    requires WithinLimits(limits, live) && id !in live && WhyFull(limits, live, scope) == None
    ensures WithinLimits(limits, live[id := scope])
  {
    JoinSizes(live, id, scope);
  }

  lemma LeaveWithinLimits(limits: Limits, live: Live, id: RequestId)
    requires WithinLimits(limits, live) && id in live
    ensures WithinLimits(limits, live - {id})
  {
    LeaveSizes(live, id);
  }

  // ---- The limiter -----------------------------------------------------------------------------------

  /** `slots` are the release closures not yet spent; calling a spent one does nothing, as sync.Once promises. */
  class Limiter {
    const limits: Limits
    var inFlight: nat
    var byTenant: map<string, nat>
    var byClass: map<Class, nat>
    var slots: Live

    ghost predicate Valid()
      reads this
    {
      Agrees(inFlight, byTenant, byClass, slots) && WithinLimits(limits, slots)
    }

    constructor (limits: Limits)
      ensures Valid() && this.limits == limits && slots == map[]
    {
      this.limits := limits;
      inFlight, byTenant, byClass, slots := 0, map[], map[], map[];
    }

    /** Refused exactly when the live requests fill an enabled limit; otherwise the request holds a slot. */
    method TryAcquire(id: RequestId, scope: Scope) returns (refused: Option<Reason>)
      requires Valid() && id !in slots
      modifies this
      ensures Valid()
      ensures refused == WhyFull(limits, old(slots), scope)
      ensures slots == if refused.None? then old(slots)[id := scope] else old(slots)
    {
      hide OfTenant, OfClass, WithinLimits;
      if limits.total > 0 && inFlight + 1 > limits.total {
        return Some(GlobalLimit);
      }
      if limits.perTenant > 0 && scope.tenant != "" && Count(byTenant, scope.tenant) + 1 > limits.perTenant {
        return Some(TenantLimit);
      }
      var limit := LimitOf(limits, scope.class_);
      if limit > 0 && Count(byClass, scope.class_) + 1 > limit {
        return Some(ClassLimit(scope.class_));
      }
      JoinAgrees(inFlight, byTenant, byClass, slots, id, scope);
      JoinWithinLimits(limits, slots, id, scope);
      inFlight := inFlight + 1;
      if scope.tenant != "" {
        byTenant := Plus(byTenant, scope.tenant);
      }
      byClass := Plus(byClass, scope.class_);
      slots := slots[id := scope];
      return None;
    }

    /** The release closure, any number of times. */
    method Release(id: RequestId)
      requires Valid()
      modifies this
      ensures Valid()
      ensures slots == old(slots) - {id}
      ensures id !in old(slots) ==> unchanged(this)
    {
      if id !in slots {
        assert slots - {id} == slots;
        return;
      }
      var scope := slots[id];
      LeaveAgrees(inFlight, byTenant, byClass, slots, id);
      LeaveWithinLimits(limits, slots, id);
      if inFlight > 0 {
        inFlight := inFlight - 1;
      }
      if scope.tenant != "" {
        byTenant := Minus(byTenant, scope.tenant);
      }
      byClass := Minus(byClass, scope.class_);
      slots := slots - {id};
    }
  }

  lemma JoinAgrees(inFlight: nat, byTenant: map<string, nat>, byClass: map<Class, nat>, live: Live, id: RequestId,
                   scope: Scope)
    requires Agrees(inFlight, byTenant, byClass, live) && id !in live
    ensures Agrees(inFlight + 1, if scope.tenant != "" then Plus(byTenant, scope.tenant) else byTenant,
                   Plus(byClass, scope.class_), live[id := scope])
  {
    hide OfTenant, OfClass;
    forall t {
      JoinTenant(live, id, scope, t);
    }
    forall c {
      JoinClass(live, id, scope, c);
    }
  }

  lemma LeaveAgrees(inFlight: nat, byTenant: map<string, nat>, byClass: map<Class, nat>, live: Live, id: RequestId)
    requires Agrees(inFlight, byTenant, byClass, live) && id in live
    ensures inFlight > 0
    ensures Agrees(inFlight - 1, if live[id].tenant != "" then Minus(byTenant, live[id].tenant) else byTenant,
                   Minus(byClass, live[id].class_), live - {id})
  {
    hide OfTenant, OfClass;
    LeaveSizes(live, id);
    LeaveTenants(byTenant, live, id);
    LeaveClasses(byClass, live, id);
  }

  lemma LeaveTenants(m: map<string, nat>, live: Live, id: RequestId)
    requires TenantsAgree(m, live) && id in live
    ensures TenantsAgree(if live[id].tenant != "" then Minus(m, live[id].tenant) else m, live - {id})
  {
    hide OfTenant, OfClass;
    LeaveSizes(live, id);
  }

  lemma LeaveClasses(m: map<Class, nat>, live: Live, id: RequestId)
    requires ClassesAgree(m, live) && id in live
    ensures ClassesAgree(Minus(m, live[id].class_), live - {id})
  {
    hide OfTenant, OfClass;
    LeaveSizes(live, id);
  }

  /** The maps hold only keys with live requests, and all of them. */
  lemma MapsHoldTheLive(inFlight: nat, byTenant: map<string, nat>, byClass: map<Class, nat>, live: Live)
    requires Agrees(inFlight, byTenant, byClass, live)
    ensures forall t :: t in byTenant <==> t != "" && exists id :: id in live && live[id].tenant == t
    ensures forall c :: c in byClass <==> exists id :: id in live && live[id].class_ == c
  {
    forall t
      ensures t in byTenant <==> t != "" && exists id :: id in live && live[id].tenant == t
    {
      assert Count(byTenant, t) > 0 <==> t in byTenant;
      if exists id :: id in live && live[id].tenant == t {
        var id :| id in live && live[id].tenant == t;
        assert id in OfTenant(live, t);
      } else {
        assert OfTenant(live, t) == {};
      }
    }
    forall c
      ensures c in byClass <==> exists id :: id in live && live[id].class_ == c
    {
      assert Count(byClass, c) > 0 <==> c in byClass;
      if exists id :: id in live && live[id].class_ == c {
        var id :| id in live && live[id].class_ == c;
        assert id in OfClass(live, c);
      } else {
        assert OfClass(live, c) == {};
      }
    }
  }
}
