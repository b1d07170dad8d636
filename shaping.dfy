/**
 * The builders of loadbalancer.py: the directive map folded from the creation
 * metadata, node and metadata shaping, the record built for a new load
 * balancer, and the tenant-free view of a stored record.
 */
module Shaping {
  import opened LbTypes
  import opened Lifecycle

  /** `randrange(999999)`: node ids lie in [0, NodeIdBound). */
  const NodeIdBound := 999999
  /** `randrange(999)`: metadata ids lie in [0, MetaIdBound). */
  const MetaIdBound := 999

  /** The directive map `{each["key"]: each["value"] for each in entries}`, folded left to right. */
  function DirectivesOf(entries: seq<MetaEntry>): (d: Directives)
    ensures d.Keys == set e | e in entries :: e.key
    decreases |entries|
  {
    if entries == [] then map[]
    else
      var last := entries[|entries| - 1];
      assert entries == entries[..|entries| - 1] + [last];
      DirectivesOf(entries[..|entries| - 1])[last.key := last.value]
  }

  /** Last value wins: a key maps to the value of its last entry. */
  lemma {:induction false} DirectivesLastWins(entries: seq<MetaEntry>, i: int)
    requires 0 <= i < |entries|
    requires forall j :: i < j < |entries| ==> entries[j].key != entries[i].key
    ensures DirectivesOf(entries)[entries[i].key] == entries[i].value
    decreases |entries|
  {
    if i < |entries| - 1 {
      DirectivesLastWins(entries[..|entries| - 1], i);
    }
  }

  /** The loop of `add_load_balancer` that fills the directive map. */
  method FoldMetadata(entries: seq<MetaEntry>) returns (d: Directives)
    ensures d == DirectivesOf(entries)
    ensures forall k :: k in d <==> exists e :: e in entries && e.key == k
  {
    d := map[];
    var i := 0;
    while i < |entries|
      invariant 0 <= i <= |entries|
      invariant d == DirectivesOf(entries[..i])
    {
      assert entries[..i + 1][..i] == entries[..i];
      d := d[entries[i].key := entries[i].value];
      i := i + 1;
    }
    assert entries[..i] == entries;
  }

  /** One entry of `_add_nodes_to_lb`: weight and type are copied only when truthy. */
  function ShapeNode(spec: NodeSpec, id: int): Node {
    Node(
      spec.address, spec.condition, spec.port,
      if spec.weight.Truthy() then Some(spec.weight) else None,
      if spec.nodeType.Truthy() then Some(spec.nodeType) else None,
      id, "ONLINE")
  }

  /** `_add_nodes_to_lb` with the random ids supplied. */
  function ShapeNodes(specs: seq<NodeSpec>, ids: seq<int>): seq<Node>
    requires |ids| == |specs|
  {
    seq(|specs|, i requires 0 <= i < |specs| => ShapeNode(specs[i], ids[i]))
  }

  predicate NodeIdsInRange(ids: seq<int>) {
    forall i :: 0 <= i < |ids| ==> 0 <= ids[i] < NodeIdBound
  }

  predicate MetaIdsInRange(ids: seq<int>) {
    forall i :: 0 <= i < |ids| ==> 0 <= ids[i] < MetaIdBound
  }

  /** The loop of `_add_nodes_to_lb`; `ids` are the values `randrange(999999)` returned. */
  method AddNodesToLb(specs: seq<NodeSpec>, ids: seq<int>) returns (nodes: seq<Node>)
    requires |ids| == |specs| && NodeIdsInRange(ids)
    ensures nodes == ShapeNodes(specs, ids)
    ensures |nodes| == |specs|
    ensures forall i :: 0 <= i < |nodes| ==>
      && nodes[i].address == specs[i].address
      && nodes[i].condition == specs[i].condition
      && nodes[i].port == specs[i].port
      && nodes[i].status == "ONLINE"
      && 0 <= nodes[i].id < NodeIdBound
      && (nodes[i].weight == if specs[i].weight.Truthy() then Some(specs[i].weight) else None)
      && (nodes[i].nodeType == if specs[i].nodeType.Truthy() then Some(specs[i].nodeType) else None)
  {
    nodes := [];
    var i := 0;
    while i < |specs|
      invariant 0 <= i <= |specs|
      invariant |nodes| == i
      invariant forall j :: 0 <= j < i ==> nodes[j] == ShapeNode(specs[j], ids[j])
    {
      var each := specs[i];
      var weight := if each.weight.Truthy() then Some(each.weight) else None;
      var nodeType := if each.nodeType.Truthy() then Some(each.nodeType) else None;
      nodes := nodes + [Node(each.address, each.condition, each.port, weight, nodeType, ids[i], "ONLINE")];
      i := i + 1;
    }
  }

  /** `_add_meta` with the random ids supplied. */
  function ShapeMeta(entries: seq<MetaEntry>, ids: seq<int>): seq<MetaItem>
    requires |ids| == |entries|
  {
    seq(|entries|, i requires 0 <= i < |entries| => MetaItem(entries[i].key, entries[i].value, ids[i]))
  }

  /** The loop of `_add_meta`: each entry keeps its key and value and gains an id. */
  method AddMeta(entries: seq<MetaEntry>, ids: seq<int>) returns (items: seq<MetaItem>)
    requires |ids| == |entries| && MetaIdsInRange(ids)
    ensures items == ShapeMeta(entries, ids)
    ensures |items| == |entries|
    ensures forall i :: 0 <= i < |items| ==>
      items[i].key == entries[i].key && items[i].value == entries[i].value && 0 <= items[i].id < MetaIdBound
  {
    items := [];
    var i := 0;
    while i < |entries|
      invariant 0 <= i <= |entries|
      invariant items == ShapeMeta(entries[..i], ids[..i])
    {
      items := items + [MetaItem(entries[i].key, entries[i].value, ids[i])];
      i := i + 1;
    }
    assert entries[..i] == entries && ids[..i] == ids;
  }

  /** `lb_info.get(key)` is truthy for a list field. */
  predicate NonEmpty<T>(field: Option<seq<T>>) {
    field.Some? && field.value != []
  }

  /** The random ids a create request consumes, one per supplied node and metadata entry. */
  predicate IdsFor(info: LbInfo, nodeIds: seq<int>, metaIds: seq<int>) {
    && |nodeIds| == |info.nodes.GetOr([])| && NodeIdsInRange(nodeIds)
    && |metaIds| == |info.metadata.GetOr([])| && MetaIdsInRange(metaIds)
  }

  /** `load_balancer_example`: the record built for a create request, created and updated at `now`. */
  function LoadBalancerExample(info: LbInfo, lbId: LbId, status: Status, now: int, nodeIds: seq<int>, metaIds: seq<int>): (lb: LoadBalancer)
    requires IdsFor(info, nodeIds, metaIds)
    ensures lb.id == lbId && lb.status == status && lb.tenantId.None?
    ensures lb.created == now && lb.updated == now
    ensures lb.nodes.Some? <==> NonEmpty(info.nodes)
    ensures lb.nodes.Some? ==>
      && |lb.nodes.value| == |info.nodes.value|
      && forall i :: 0 <= i < |lb.nodes.value| ==> lb.nodes.value[i].status == "ONLINE" && lb.nodes.value[i].id == nodeIds[i]
    ensures lb.nodes.Some? ==> lb.nodes.value == ShapeNodes(info.nodes.value, nodeIds)
    ensures lb.metadata.Some? <==> NonEmpty(info.metadata)
    ensures lb.metadata.Some? ==> lb.metadata.value == ShapeMeta(info.metadata.value, metaIds)
  {
    LoadBalancer(
      name := info.name,
      id := lbId,
      protocol := info.protocol,
      port := info.port.GetOr(80),
      algorithm := if info.algorithm.Some? && info.algorithm.value != "" then info.algorithm.value else "RANDOM",
      status := status,
      timeout := info.tiemout.GetOr(30),
      created := now,
      updated := now,
      httpsRedirect := info.httpsRedirect.GetOr(false),
      halfClosed := info.halfClosed.GetOr(false),
      connectionLogging := info.connectionLogging.GetOr(false),
      nodes := if NonEmpty(info.nodes) then Some(ShapeNodes(info.nodes.value, nodeIds)) else None,
      metadata := if NonEmpty(info.metadata) then Some(ShapeMeta(info.metadata.value, metaIds)) else None,
      tenantId := None)
  }

  /**
   * The defaults of a create request, and the misspelled key: the timeout is
   * read from "tiemout", so a correctly spelled "timeout" has no effect.
   */
  lemma ExampleDefaults(info: LbInfo, lbId: LbId, status: Status, now: int, nodeIds: seq<int>, metaIds: seq<int>, t: Option<int>)
    requires IdsFor(info, nodeIds, metaIds)
    ensures var lb := LoadBalancerExample(info, lbId, status, now, nodeIds, metaIds);
      && (info.port.None? ==> lb.port == 80)
      && (info.algorithm.None? || info.algorithm == Some("") ==> lb.algorithm == "RANDOM")
      && (info.tiemout.None? ==> lb.timeout == 30)
      && (info.httpsRedirect.None? ==> !lb.httpsRedirect)
      && (info.halfClosed.None? ==> !lb.halfClosed)
      && (info.connectionLogging.None? ==> !lb.connectionLogging)
      && lb.timeout == info.tiemout.GetOr(30)
      && LoadBalancerExample(info.(timeout := t), lbId, status, now, nodeIds, metaIds) == lb
  {
  }

  /** `_lb_cache_without_tenant`: the stored record with its tenant removed, and nothing else changed. */
  function WithoutTenant(rec: LoadBalancer): (view: LoadBalancer)
    requires rec.tenantId.Some?
    ensures view.tenantId.None?
    ensures view.(tenantId := rec.tenantId) == rec
  {
    rec.(tenantId := None)
  }
}
