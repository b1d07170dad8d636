/**
 * The two module-level caches of loadbalancer.py (`lb_cache` and
 * `meta_cache`) and the caller-facing operations that read and update them in
 * place. The clock (`current_time_in_utc`) is the parameter `now`; the values
 * `randrange` returned and the order in which a dictionary is iterated are
 * parameters too.
 */
module Store {
  import opened LbTypes
  import opened Lifecycle
  import opened Shaping
  import opened NodeOps

  /** The contents of both caches at one moment. */
  datatype Caches = Caches(lbs: map<LbId, LoadBalancer>, meta: map<LbId, Directives>)

  /**
   * What every operation keeps: each stored record has its directive map, its
   * own id, a tenant, and the directives its status reads unconditionally.
   */
  predicate CachesValid(c: Caches) {
    && c.lbs.Keys <= c.meta.Keys
    && forall id :: id in c.lbs ==>
         c.lbs[id].id == id && c.lbs[id].tenantId.Some? && Ready(c.lbs[id], c.meta[id])
  }

  /** Two record maps with the same ids, each record owned by the same tenant in both. */
  predicate SameTenants(a: map<LbId, LoadBalancer>, b: map<LbId, LoadBalancer>) {
    a.Keys == b.Keys && forall id :: id in a ==> id in b && a[id].tenantId == b[id].tenantId
  }

  /** `_verify_and_update_lb_state(id, setState)` on both caches. */
  function RefreshAt(c: Caches, id: LbId, now: int, setState: bool): (r: Caches)
    requires CachesValid(c) && id in c.lbs
    ensures CachesValid(r)
    // the record is dropped exactly when it was DELETED for an hour; the directives stay
    ensures id !in r.lbs <==> c.lbs[id].status == Deleted && now - c.lbs[id].updated >= DeletedRetention
    ensures id !in r.lbs ==> r.lbs == c.lbs - {id} && r.meta == c.meta
    ensures id in r.lbs ==> SameTenants(c.lbs, r.lbs)
    // no other record or directive map is touched
    ensures r.lbs - {id} == c.lbs - {id} && r.meta - {id} == c.meta - {id}
  {
    match Advance(c.lbs[id], c.meta[id], now, setState)
    case Kept(rec, dirs) => Caches(c.lbs[id := rec], c.meta[id := dirs])
    case Collected => Caches(c.lbs - {id}, c.meta)
  }

  /** Replacing a record's node list keeps the caches valid. */
  lemma NodesUpdateKeepsValid(c: Caches, id: LbId, nodes: Option<seq<Node>>)
    requires CachesValid(c) && id in c.lbs
    ensures CachesValid(Caches(c.lbs[id := c.lbs[id].(nodes := nodes)], c.meta))
  {
  }

  /** Storing a new record with its own id, a tenant and the directives its status needs keeps the caches valid. */
  lemma InsertKeepsValid(c: Caches, rec: LoadBalancer, dirs: Directives)
    requires CachesValid(c) && rec.tenantId.Some? && Ready(rec, dirs)
    ensures CachesValid(Caches(c.lbs[rec.id := rec], c.meta[rec.id := dirs]))
  {
  }

  /** A side-effecting refresh of an ACTIVE record applies the directive precedence and resets `updated`. */
  lemma RefreshActive(c: Caches, id: LbId, now: int)
    requires CachesValid(c) && id in c.lbs && c.lbs[id].status == Active
    ensures RefreshAt(c, id, now, true) ==
      Caches(c.lbs[id := c.lbs[id].(status := TriggeredStatus(c.meta[id]), updated := now)], c.meta)
  {
    assert c.meta[id := c.meta[id]] == c.meta;
  }

  /** A read-only refresh of an ACTIVE or ERROR record leaves it as it was, at any time. */
  lemma ReadSettled(c: Caches, id: LbId, now: int)
    requires CachesValid(c) && id in c.lbs && c.lbs[id].status in {Active, Error}
    ensures id in RefreshAt(c, id, now, false).lbs
    ensures RefreshAt(c, id, now, false).lbs[id] == c.lbs[id]
  {
  }

  /** The caches after refreshing `ids` in turn, and the id whose record vanished, if any, which ends the sweep. */
  datatype Swept = Swept(caches: Caches, collected: Option<LbId>)

  /** The refresh loop of `list_load_balancers`, which re-reads each record right after refreshing it. */
  function ReadAll(c: Caches, ids: seq<LbId>, now: int): (s: Swept)
    requires CachesValid(c)
    requires forall i :: 0 <= i < |ids| ==> ids[i] in c.lbs
    ensures CachesValid(s.caches)
    ensures s.collected.None? ==> SameTenants(c.lbs, s.caches.lbs)
    ensures s.collected.Some? ==> s.collected.value in ids && s.collected.value !in s.caches.lbs
    decreases |ids|
  {
    if ids == [] then Swept(c, None)
    else
      var c' := RefreshAt(c, ids[0], now, false);
      if ids[0] !in c'.lbs then Swept(c', Some(ids[0]))
      else ReadAll(c', ids[1..], now)
  }

  /** A record a read-only refresh drops. */
  predicate Expired(rec: LoadBalancer, now: int) {
    rec.status == Deleted && now - rec.updated >= DeletedRetention
  }

  /** One step of the sweep: a record that survives its read keeps the key set and every tenant. */
  lemma SweepStep(c0: Caches, c: Caches, id: LbId, now: int)
    requires CachesValid(c) && id in c.lbs
    requires SameTenants(c0.lbs, c.lbs)
    requires id in RefreshAt(c, id, now, false).lbs
    ensures SameTenants(c0.lbs, RefreshAt(c, id, now, false).lbs)
  {
  }

  /** The first step of the sweep: it ends at a record that expired, and otherwise leaves the others as they were. */
  lemma ReadAllHead(c: Caches, ids: seq<LbId>, now: int)
    requires CachesValid(c) && ids != []
    requires forall i :: 0 <= i < |ids| ==> ids[i] in c.lbs
    requires forall i, j :: 0 <= i < j < |ids| ==> ids[i] != ids[j]
    ensures Expired(c.lbs[ids[0]], now) ==> ReadAll(c, ids, now).collected == Some(ids[0])
    ensures !Expired(c.lbs[ids[0]], now) ==>
      var c' := RefreshAt(c, ids[0], now, false);
      && ReadAll(c, ids, now) == ReadAll(c', ids[1..], now)
      && CachesValid(c')
      && (forall i :: 1 <= i < |ids| ==> ids[i] in c'.lbs && c'.lbs[ids[i]] == c.lbs[ids[i]])
  {
    if !Expired(c.lbs[ids[0]], now) {
      var c' := RefreshAt(c, ids[0], now, false);
      forall i | 1 <= i < |ids| ensures ids[i] in c'.lbs && c'.lbs[ids[i]] == c.lbs[ids[i]] {
        assert ids[i] in c.lbs - {ids[0]};
      }
    }
  }

  /** Past a head record that has not expired, some listed record has expired exactly when one of the rest has. */
  lemma ExpiredInTail(a: map<LbId, LoadBalancer>, b: map<LbId, LoadBalancer>, ids: seq<LbId>, now: int)
    requires ids != [] && forall i :: 0 <= i < |ids| ==> ids[i] in a
    requires forall i :: 1 <= i < |ids| ==> ids[i] in b && b[ids[i]] == a[ids[i]]
    requires !Expired(a[ids[0]], now)
    ensures (exists i :: 0 <= i < |ids| && Expired(a[ids[i]], now))
       <==> (exists i :: 0 <= i < |ids[1..]| && Expired(b[ids[1..][i]], now))
  {
    var rest := ids[1..];
    if exists i :: 0 <= i < |ids| && Expired(a[ids[i]], now) {
      var i :| 0 <= i < |ids| && Expired(a[ids[i]], now);
      assert rest[i - 1] == ids[i];
    }
    if exists i :: 0 <= i < |rest| && Expired(b[rest[i]], now) {
      var i :| 0 <= i < |rest| && Expired(b[rest[i]], now);
      assert rest[i] == ids[i + 1];
    }
  }

  /** Listing crashes exactly when one of the listed records was DELETED an hour ago or more. */
  lemma {:induction false} ReadAllCrashesIffExpired(c: Caches, ids: seq<LbId>, now: int)
    requires CachesValid(c)
    requires forall i :: 0 <= i < |ids| ==> ids[i] in c.lbs
    requires forall i, j :: 0 <= i < j < |ids| ==> ids[i] != ids[j]
    ensures ReadAll(c, ids, now).collected.Some? <==> exists i :: 0 <= i < |ids| && Expired(c.lbs[ids[i]], now)
    decreases |ids|
  {
    if ids != [] {
      ReadAllHead(c, ids, now);
      if !Expired(c.lbs[ids[0]], now) {
        var c' := RefreshAt(c, ids[0], now, false);
        ExpiredInTail(c.lbs, c'.lbs, ids, now);
        ReadAllCrashesIffExpired(c', ids[1..], now);
      }
    }
  }

  /** Listing the records at `order`, once only the tenant's records are at `order`, gives them and only them. */
  lemma TenantListing(before: map<LbId, LoadBalancer>, after: map<LbId, LoadBalancer>, tenantId: TenantId, order: seq<LbId>, body: seq<LoadBalancer>)
    requires SameTenants(before, after)
    requires forall i :: 0 <= i < |order| ==> order[i] in before && before[order[i]].tenantId == Some(tenantId)
    requires forall id :: id in before && before[id].tenantId == Some(tenantId) ==> id in order
    requires |body| == |order| && forall i :: 0 <= i < |order| ==> order[i] in after && body[i] == after[order[i]]
    ensures forall rec :: rec in body ==> rec.tenantId == Some(tenantId)
    ensures forall id :: id in after && after[id].tenantId == Some(tenantId) ==> after[id] in body
  {
    forall rec | rec in body ensures rec.tenantId == Some(tenantId) {
      var j :| 0 <= j < |body| && body[j] == rec;
      var id := order[j];
      assert id in before;
      assert after[id].tenantId == before[id].tenantId;
    }
    forall id | id in after && after[id].tenantId == Some(tenantId) ensures after[id] in body {
      var j :| 0 <= j < |order| && order[j] == id;
      assert body[j] == after[id];
    }
  }

  class LoadBalancerApi {
    /** `lb_cache`: load-balancer id to stored record. */
    var lbs: map<LbId, LoadBalancer>
    /** `meta_cache`: load-balancer id to its control directives. */
    var meta: map<LbId, Directives>

    ghost function State(): Caches
      reads this
    {
      Caches(lbs, meta)
    }

    ghost predicate Valid()
      reads this
    {
      CachesValid(State())
    }

    /** Both caches start empty. */
    constructor ()
      ensures Valid() && lbs == map[] && meta == map[]
    {
      lbs := map[];
      meta := map[];
    }

    /** `_verify_and_update_lb_state`: the status checks in the source's order, updating the caches in place. */
    method VerifyAndUpdateLbState(lbId: LbId, setState: bool, now: int)
      requires Valid() && lbId in lbs
      modifies this
      ensures Valid()
      ensures State() == RefreshAt(old(State()), lbId, now, setState)
    {
      var rec := lbs[lbId];
      var dirs := meta[lbId];
      if rec.status == Build {
        dirs := dirs[BuildKey := Or(dirs[BuildKey], Num(DefaultDuration))];
        rec := rec.(status := if Elapsed(rec.updated, dirs[BuildKey], now) then Active else Build);
      } else if rec.status == Active && setState {
        if PendingUpdateKey in dirs {
          rec := rec.(status := PendingUpdate);
        }
        if PendingDeleteKey in dirs {
          rec := rec.(status := PendingDelete);
        }
        if ErrorKey in dirs {
          rec := rec.(status := Error);
        }
        rec := rec.(updated := now);
      } else if rec.status == PendingUpdate {
        if PendingUpdateKey in dirs {
          rec := rec.(status := if Elapsed(rec.updated, dirs[PendingUpdateKey], now) then Active else PendingUpdate);
        }
      } else if rec.status == PendingDelete {
        dirs := dirs[PendingDeleteKey := Or(dirs[PendingDeleteKey], Num(DefaultDuration))];
        rec := rec.(status := if Elapsed(rec.updated, dirs[PendingDeleteKey], now) then Deleted else PendingDelete);
        rec := rec.(updated := now);
      } else if rec.status == Deleted {
        // the status becomes "DELETING-NOW" and the entry is removed at once
        if Elapsed(rec.updated, Num(DeletedRetention), now) {
          lbs := lbs - {lbId};
          assert State() == RefreshAt(old(State()), lbId, now, setState);
          return;
        }
      }
      assert Advance(old(lbs[lbId]), old(meta[lbId]), now, setState) == Kept(rec, dirs);
      lbs := lbs[lbId := rec];
      meta := meta[lbId := dirs];
      assert State() == RefreshAt(old(State()), lbId, now, setState);
    }

    /** `add_load_balancer`. */
    method AddLoadBalancer(tenantId: TenantId, info: LbInfo, lbId: LbId, nodeIds: seq<int>, metaIds: seq<int>, now: int)
      returns (r: Reply<LoadBalancer>)
      requires Valid() && IdsFor(info, nodeIds, metaIds)
      modifies this
      ensures Valid()
      // the metadata list is read unconditionally
      ensures info.metadata.None? ==> r == KeyError(Field("metadata")) && lbs == old(lbs) && meta == old(meta)
      ensures info.metadata.Some? ==>
        var dirs := DirectivesOf(info.metadata.value);
        var status := if BuildKey in dirs then Build else Active;
        && meta == old(meta)[lbId := dirs]
        && lbs == old(lbs)[lbId := LoadBalancerExample(info, lbId, status, now, nodeIds, metaIds).(tenantId := Some(tenantId))]
        && r == Success(202, WithoutTenant(lbs[lbId]))
      // BUILD exactly when some metadata entry has the key "lb_building"
      ensures info.metadata.Some? ==>
        (lbs[lbId].status == Build <==> exists e :: e in info.metadata.value && e.key == BuildKey) &&
        (lbs[lbId].status != Build ==> lbs[lbId].status == Active)
    {
      if info.metadata.None? {
        return KeyError(Field("metadata"));
      }
      var status := Active;
      var dirs := FoldMetadata(info.metadata.value);
      ghost var before := State();
      meta := meta[lbId := dirs];
      if BuildKey in meta[lbId] {
        status := Build;
      }
      var rec := LoadBalancerExample(info, lbId, status, now, nodeIds, metaIds).(tenantId := Some(tenantId));
      InsertKeepsValid(before, rec, dirs);
      lbs := lbs[lbId := rec];
      r := Success(202, WithoutTenant(lbs[lbId]));
    }

    /**
     * Create followed by get: a record created without `lb_building` starts
     * ACTIVE, and a later get returns the very view the create returned.
     */
    method CreateThenGet(tenantId: TenantId, info: LbInfo, lbId: LbId, nodeIds: seq<int>, metaIds: seq<int>, now: int, later: int)
      returns (created: Reply<LoadBalancer>, got: Reply<LoadBalancer>)
      requires Valid() && IdsFor(info, nodeIds, metaIds)
      requires info.metadata.Some? && forall e :: e in info.metadata.value ==> e.key != BuildKey
      modifies this
      ensures Valid()
      ensures created.Success? && created.code == 202 && created.body.status == Active
      ensures got == Success(200, created.body)
    {
      created := AddLoadBalancer(tenantId, info, lbId, nodeIds, metaIds, now);
      ReadSettled(State(), lbId, later);
      got := GetLoadBalancers(lbId, later);
    }

    /** `get_load_balancers`: a read-only refresh, then the tenant-free view. */
    method GetLoadBalancers(lbId: LbId, now: int) returns (r: Reply<LoadBalancer>)
      requires Valid()
      modifies this
      ensures Valid()
      ensures lbId !in old(lbs) ==> r == Failure(404, LbNotFound) && lbs == old(lbs) && meta == old(meta)
      ensures lbId in old(lbs) ==> State() == RefreshAt(old(State()), lbId, now, false)
      // the record is re-read after the refresh: a record just dropped raises KeyError
      ensures lbId in old(lbs) && lbId !in lbs ==> r == KeyError(LbEntry(lbId))
      ensures lbId in old(lbs) && lbId in lbs ==> r == Success(200, WithoutTenant(lbs[lbId]))
    {
      if lbId !in lbs {
        return Failure(404, LbNotFound);
      }
      VerifyAndUpdateLbState(lbId, false, now);
      if lbId !in lbs {
        return KeyError(LbEntry(lbId));
      }
      r := Success(200, WithoutTenant(lbs[lbId]));
    }

    /**
     * `del_load_balancer`. The "could not be found" message built for a DELETED
     * record is overwritten before use, so every refusal carries the same fault.
     */
    method DelLoadBalancer(lbId: LbId, now: int) returns (r: Reply<()>)
      requires Valid()
      modifies this
      ensures Valid()
      ensures lbId !in old(lbs) ==> r == Failure(404, LbNotFound) && lbs == old(lbs) && meta == old(meta)
      // deletable: removed at once; its directive map stays behind
      ensures lbId in old(lbs) && old(lbs[lbId].status) in {Active, Error} ==>
        r == Success(202, ()) && lbs == old(lbs) - {lbId} && meta == old(meta)
      ensures lbId in old(lbs) && old(lbs[lbId].status) == Deleted ==>
        r == Failure(400, LbsImmutable(lbId)) && State() == RefreshAt(old(State()), lbId, now, true)
      ensures lbId in old(lbs) && old(lbs[lbId].status) !in {Active, Error, Deleted} ==>
        r == Failure(400, LbsImmutable(lbId)) && lbs == old(lbs) && meta == old(meta)
    {
      if lbId !in lbs {
        return Failure(404, LbNotFound);
      }
      if lbs[lbId].status == Active || lbs[lbId].status == Error {
        lbs := lbs - {lbId};
        return Success(202, ());
      }
      if lbs[lbId].status == Deleted {
        VerifyAndUpdateLbState(lbId, true, now);
      }
      r := Failure(400, LbsImmutable(lbId));
    }

    /**
     * `list_load_balancers`. `order` is the iteration order of the tenant's
     * entries in the dictionary; the reply lists the stored records, tenant included.
     */
    method ListLoadBalancers(tenantId: TenantId, order: seq<LbId>, now: int) returns (r: Reply<seq<LoadBalancer>>)
      requires Valid()
      requires forall i :: 0 <= i < |order| ==> order[i] in lbs && lbs[order[i]].tenantId == Some(tenantId)
      requires forall id :: id in lbs && lbs[id].tenantId == Some(tenantId) ==> id in order
      requires forall i, j :: 0 <= i < j < |order| ==> order[i] != order[j]
      modifies this
      ensures Valid()
      ensures State() == ReadAll(old(State()), order, now).caches
      ensures ReadAll(old(State()), order, now).collected.Some? ==>
        r == KeyError(LbEntry(ReadAll(old(State()), order, now).collected.value))
      ensures ReadAll(old(State()), order, now).collected.None? ==>
        && r.Success? && r.code == 200 && |r.body| == |order|
        && forall i :: 0 <= i < |order| ==> order[i] in lbs && r.body[i] == lbs[order[i]]
      // only the tenant's records, and all of them
      ensures r.Success? ==> forall rec :: rec in r.body ==> rec.tenantId == Some(tenantId)
      ensures r.Success? ==> forall id :: id in lbs && lbs[id].tenantId == Some(tenantId) ==> lbs[id] in r.body
    {
      var i := 0;
      while i < |order|
        invariant 0 <= i <= |order|
        invariant Valid()
        invariant forall j :: i <= j < |order| ==> order[j] in lbs
        invariant ReadAll(old(State()), order, now) == ReadAll(State(), order[i..], now)
        invariant SameTenants(old(lbs), lbs)
      {
        ghost var before := State();
        VerifyAndUpdateLbState(order[i], false, now);
        assert order[i..][0] == order[i] && order[i..][1..] == order[i + 1..];
        if order[i] !in lbs {
          return KeyError(LbEntry(order[i]));
        }
        SweepStep(old(State()), before, order[i], now);
        i := i + 1;
      }
      assert order[i..] == [];
      var stored := lbs;
      var body := seq(|order|, j requires 0 <= j < |order| && order[j] in stored => stored[order[j]]);
      TenantListing(old(lbs), stored, tenantId, order, body);
      r := Success(200, body);
    }

    /**
     * `add_node`. `nodeIds` are the values `randrange(999999)` returned for the
     * batch. The batch is compared with the existing nodes only when there are some.
     */
    method AddNode(batch: seq<NodeSpec>, lbId: LbId, nodeIds: seq<int>, now: int) returns (r: Reply<seq<Node>>)
      requires Valid()
      requires |nodeIds| == |batch| && NodeIdsInRange(nodeIds)
      modifies this
      ensures Valid()
      ensures lbId !in old(lbs) ==> r == Failure(404, LbNotFound) && lbs == old(lbs) && meta == old(meta)
      ensures lbId in old(lbs) && old(lbs[lbId].status) != Active ==>
        r == Failure(422, LbImmutable(lbId, old(lbs[lbId].status))) && lbs == old(lbs) && meta == old(meta)
      ensures lbId in old(lbs) && old(lbs[lbId].status) == Active && NonEmpty(old(lbs[lbId].nodes)) ==>
        var rec := old(lbs[lbId]);
        if HasDuplicates(rec.nodes.value, batch) then
          r == Failure(413, DuplicateNodes) && lbs == old(lbs) && meta == old(meta)
        else
          && r == Success(200, ShapeNodes(batch, nodeIds))
          && lbs == old(lbs)[lbId := rec.(nodes := Some(rec.nodes.value + ShapeNodes(batch, nodeIds)))]
          && meta == old(meta)
      // the first nodes trigger a side-effecting refresh
      ensures lbId in old(lbs) && old(lbs[lbId].status) == Active && !NonEmpty(old(lbs[lbId].nodes)) ==>
        var rec := old(lbs[lbId]).(nodes := Some(ShapeNodes(batch, nodeIds)));
        && r == Success(200, ShapeNodes(batch, nodeIds))
        && lbs == old(lbs)[lbId := rec.(status := TriggeredStatus(old(meta[lbId])), updated := now)]
        && meta == old(meta)
    {
      if lbId !in lbs {
        return Failure(404, LbNotFound);
      }
      if lbs[lbId].status != Active {
        return Failure(422, LbImmutable(lbId, lbs[lbId].status));
      }
      var nodes := AddNodesToLb(batch, nodeIds);
      var existing := lbs[lbId].nodes;
      if existing.Some? && existing.value != [] {
        var dup := FindDuplicate(existing.value, batch);
        if dup {
          return Failure(413, DuplicateNodes);
        }
        NodesUpdateKeepsValid(State(), lbId, Some(existing.value + nodes));
        lbs := lbs[lbId := lbs[lbId].(nodes := Some(existing.value + nodes))];
      } else {
        NodesUpdateKeepsValid(State(), lbId, Some(nodes));
        var rec := lbs[lbId].(nodes := Some(nodes));
        assert lbs[lbId := rec][lbId := rec.(status := TriggeredStatus(meta[lbId]), updated := now)]
          == lbs[lbId := rec.(status := TriggeredStatus(meta[lbId]), updated := now)];
        lbs := lbs[lbId := rec];
        RefreshActive(State(), lbId, now);
        VerifyAndUpdateLbState(lbId, true, now);
      }
      r := Success(200, nodes);
    }

    /**
     * `list_nodes`. The 410 branch compares the whole record with the text
     * "DELETED", which never holds, so it is not taken; a DELETED record lists its nodes.
     */
    method ListNodes(lbId: LbId, now: int) returns (r: Reply<seq<Node>>)
      requires Valid()
      modifies this
      ensures Valid()
      ensures lbId !in old(lbs) ==> r == Failure(404, LbNotFound) && lbs == old(lbs) && meta == old(meta)
      ensures lbId in old(lbs) ==> State() == RefreshAt(old(State()), lbId, now, false)
      ensures lbId in old(lbs) && lbId !in lbs ==> r == KeyError(LbEntry(lbId))
      ensures lbId in old(lbs) && lbId in lbs ==> r == Success(200, lbs[lbId].nodes.GetOr([]))
      // never 410
      ensures r.Failure? ==> r.code == 404
    {
      if lbId !in lbs {
        return Failure(404, LbNotFound);
      }
      VerifyAndUpdateLbState(lbId, false, now);
      if lbId !in lbs {
        return KeyError(LbEntry(lbId));
      }
      var nodeList := [];
      if NonEmpty(lbs[lbId].nodes) {
        nodeList := lbs[lbId].nodes.value;
      }
      r := Success(200, nodeList);
    }

    /** `get_nodes`: the same steps as `list_nodes`; `nodeId` is not used. */
    method GetNodes(lbId: LbId, nodeId: int, now: int) returns (r: Reply<seq<Node>>)
      requires Valid()
      modifies this
      ensures Valid()
      ensures lbId !in old(lbs) ==> r == Failure(404, LbNotFound) && lbs == old(lbs) && meta == old(meta)
      ensures lbId in old(lbs) ==> State() == RefreshAt(old(State()), lbId, now, false)
      ensures lbId in old(lbs) && lbId !in lbs ==> r == KeyError(LbEntry(lbId))
      ensures lbId in old(lbs) && lbId in lbs ==> r == Success(200, lbs[lbId].nodes.GetOr([]))
      ensures r.Failure? ==> r.code == 404
    {
      r := ListNodes(lbId, now);
    }

    /**
     * `delete_node`: an unknown node id still succeeds; a node list left empty
     * is removed; a record without a node list raises KeyError.
     */
    method DeleteNode(lbId: LbId, nodeId: int, now: int) returns (r: Reply<()>)
      requires Valid()
      modifies this
      ensures Valid()
      ensures lbId !in old(lbs) ==> r == Failure(404, LbNotFound) && lbs == old(lbs) && meta == old(meta)
      ensures lbId in old(lbs) && old(lbs[lbId].status) != Active ==>
        r == Failure(422, LbImmutable(lbId, old(lbs[lbId].status))) && lbs == old(lbs) && meta == old(meta)
      ensures lbId in old(lbs) && old(lbs[lbId].status) == Active && old(lbs[lbId].nodes).None? ==>
        r == KeyError(Field("nodes")) && lbs == old(lbs) && meta == old(meta)
      ensures lbId in old(lbs) && old(lbs[lbId].status) == Active && old(lbs[lbId].nodes).Some? ==>
        var kept := WithoutNode(old(lbs[lbId].nodes.value), nodeId);
        var rec := old(lbs[lbId]).(nodes := if kept == [] then None else Some(kept));
        && r == Success(202, ())
        && lbs == old(lbs)[lbId := rec.(status := TriggeredStatus(old(meta[lbId])), updated := now)]
        && meta == old(meta)
    {
      if lbId !in lbs {
        return Failure(404, LbNotFound);
      }
      if lbs[lbId].status != Active {
        return Failure(422, LbImmutable(lbId, lbs[lbId].status));
      }
      if lbs[lbId].nodes.None? {
        return KeyError(Field("nodes"));
      }
      var kept := WithoutNode(lbs[lbId].nodes.value, nodeId);
      var rec := lbs[lbId].(nodes := Some(kept));
      if kept == [] {
        rec := rec.(nodes := None);
      }
      NodesUpdateKeepsValid(State(), lbId, rec.nodes);
      ghost var final := rec.(status := TriggeredStatus(meta[lbId]), updated := now);
      assert lbs[lbId := rec][lbId := final] == lbs[lbId := final];
      lbs := lbs[lbId := rec];
      RefreshActive(State(), lbId, now);
      VerifyAndUpdateLbState(lbId, true, now);
      r := Success(202, ());
    }
  }
}
