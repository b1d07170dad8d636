/**
 * The values the load-balancer simulator keeps and exchanges: request bodies,
 * the stored load-balancer record, its nodes, the control directives and the
 * replies of the caller-facing operations.
 */
module LbTypes {

  datatype Option<T> = None | Some(value: T) {
    /** `d.get(key, default)` on a field that may be absent. */
    function GetOr(default: T): T {
      if Some? then value else default
    }
  }

  type LbId = int
  type TenantId = string

  /** A JSON scalar as it arrives in a request body (weights, node types, metadata values). */
  datatype Value = Null | Bool(b: bool) | Num(n: int) | Text(s: string) {
    /** Python truthiness: None, False, 0 and "" are false. */
    predicate Truthy() {
      match this
      case Null => false
      case Bool(b) => b
      case Num(n) => n != 0
      case Text(s) => s != []
    }
  }

  /** Python's `v or d`. */
  function Or(v: Value, d: Value): Value {
    if v.Truthy() then v else d
  }

  /** The lifecycle states a record's "status" field takes. */
  datatype Status = Build | Active | PendingUpdate | PendingDelete | Deleted | Error

  /** A node as a caller supplies it; an absent "weight" or "type" key reads as Null. */
  datatype NodeSpec = NodeSpec(address: string, condition: string, port: int, weight: Value, nodeType: Value)

  /** A node as the simulator stores it; "weight" and "type" are present only when copied. */
  datatype Node = Node(
    address: string,
    condition: string,
    port: int,
    weight: Option<Value>,
    nodeType: Option<Value>,
    id: int,
    status: string)

  /** One `{"key": k, "value": v}` entry of the creation metadata. */
  datatype MetaEntry = MetaEntry(key: string, value: Value)

  /** A metadata entry after an "id" has been attached to it. */
  datatype MetaItem = MetaItem(key: string, value: Value, id: int)

  /**
   * The create-request body. `tiemout` is the key the simulator actually reads;
   * `timeout` is the correctly spelled key a caller sends, which it ignores.
   */
  datatype LbInfo = LbInfo(
    name: string,
    protocol: string,
    port: Option<int>,
    algorithm: Option<string>,
    timeout: Option<int>,
    tiemout: Option<int>,
    httpsRedirect: Option<bool>,
    halfClosed: Option<bool>,
    connectionLogging: Option<bool>,
    nodes: Option<seq<NodeSpec>>,
    metadata: Option<seq<MetaEntry>>)

  /**
   * A load-balancer record. Stored records carry `tenantId`; the views handed
   * to callers by create and get do not. Times are whole seconds.
   */
  datatype LoadBalancer = LoadBalancer(
    name: string,
    id: LbId,
    protocol: string,
    port: int,
    algorithm: string,
    status: Status,
    timeout: int,
    created: int,
    updated: int,
    httpsRedirect: bool,
    halfClosed: bool,
    connectionLogging: bool,
    nodes: Option<seq<Node>>,
    metadata: Option<seq<MetaItem>>,
    tenantId: Option<TenantId>)

  /** The error bodies the operations return, one per message they build. */
  datatype Fault =
    | LbNotFound                              // not_found_response("loadbalancer")
    | LbsImmutable(lbId: LbId)                // "... <id> are immutable and could not be processed."
    | LbImmutable(lbId: LbId, status: Status) // "Load Balancer '<id>' has a status of <status> ..."
    | DuplicateNodes                          // "Duplicate nodes detected. ..."

  /** The dictionary key whose absence raises a KeyError. */
  datatype Missing = LbEntry(lbId: LbId) | Field(name: string)

  /** What an operation produces: a reply with its status code, or an uncaught KeyError. */
  datatype Reply<T> =
    | Success(code: int, body: T)
    | Failure(code: int, fault: Fault)
    | KeyError(missing: Missing)
}
