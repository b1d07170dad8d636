# Load-balancer simulator core, modelled in Dafny

This project models `mimic/canned_responses/loadbalancer.py`, the canned
load-balancer API of the mimic simulator. The file keeps two module-level
dictionaries:

- `lb_cache` maps a load-balancer id to its record: status, `updated` time, nodes and owning tenant.
- `meta_cache` maps an id to the control directives folded from the creation
  metadata: `lb_building`, `lb_pending_update`, `lb_pending_delete` and `lb_error_state`.

The operations are create, get, delete and list of load balancers, and add,
get, list and delete of nodes. Status is aged lazily by
`_verify_and_update_lb_state`, never by a timer:

- The read operations (get, list, get nodes, list nodes) run it on each
  record before they read it.
- `del_load_balancer` runs it only on a DELETED record, after testing the status.
- `add_node` and `delete_node` test the stored status first. They run it only
  after their change: `add_node` only when it stores a record's first nodes,
  `delete_node` always.
- `add_load_balancer` never runs it.

Each run uses the directives and the time since `updated` to move the record along its lifecycle:

- BUILD → ACTIVE;
- ACTIVE → PENDING-UPDATE, PENDING-DELETE or ERROR;
- PENDING-UPDATE → ACTIVE;
- PENDING-DELETE → DELETED;
- a DELETED record is dropped from the store after an hour.

The modules are:

- `LbTypes` (`lb_types.dfy`): the request bodies, the stored record, nodes, metadata, faults and replies. JSON scalars carry Python truthiness (`Value.Truthy`, `Or` for `v or d`).
- `Lifecycle` (`lifecycle.dfy`): the transition engine as a pure function, `Advance`. It carries one lemma per status, and lemmas about repeated polling (`Poll`):
  - BUILD activates exactly when due;
  - PENDING-DELETE can be starved by frequent polling;
  - the two deletion thresholds are independent;
  - reads never start a transition.
- `Shaping` (`shaping.dfy`): the builders.
  - the directive fold of `add_load_balancer`;
  - `_add_nodes_to_lb` and `_add_meta`, as loops proved equal to their shaping functions;
  - `load_balancer_example`, including the misspelled `"tiemout"` key;
  - `_lb_cache_without_tenant`.
- `NodeOps` (`node_ops.dfy`): the duplicate test of `add_node`, as nested loops proved equal to an existential, and the node filter of `delete_node`.
- `Store` (`store.dfy`): the class `LoadBalancerApi`.
  - Its fields `lbs` and `meta` are the two dictionaries, and its methods update them in place.
  - Every method keeps `Valid()`: each stored record has a directive map, its own id, a tenant, and the directive its status reads unconditionally.
  - `VerifyAndUpdateLbState` runs the source's sequence of `if`s on the caches. It is proved to compute `RefreshAt`, which applies `Advance` to one entry of the caches.
  - The refresh loop of `list_load_balancers` is specified by `ReadAll`.

What the source leaves to its caller becomes a parameter:

- the clock (`now`);
- the values `randrange` returned (`nodeIds`, `metaIds`, bounded by their ranges);
- the order in which the tenant's entries are iterated (`order`).

A Python `KeyError` that the code raises is the outcome `Reply.KeyError`, naming the missing key. This covers:

- a record re-read after it was garbage-collected;
- a create body without `metadata`;
- `delete_node` on a record without `nodes`.

Some behaviour of the code differs from what its own comments and docstrings,
or a reader, would expect; the model states the behaviour as written:

- The comment at `loadbalancer.py:68-69` says the tenant is kept with the record and removed before the response of add. Create and get do answer with the tenant-free copy. `list_load_balancers`, however, returns the stored records, `tenant_id` included (`loadbalancer.py:123-124`, `Store.LoadBalancerApi.ListLoadBalancers`).
- Nodes of one `add_node` batch are compared only with the nodes already on the record, and only when there are some. A batch that repeats an (address, port) pair is accepted, unless one of its nodes matches an existing node (`NodeOps.BatchNotComparedWithItself`).
- Several paths raise `KeyError` instead of returning an error reply, as listed above.
- `del_load_balancer` builds a "could not be found" message for a DELETED record and overwrites it at once. Every status it refuses therefore gets the same 400 "immutable" fault (`Store.LoadBalancerApi.DelLoadBalancer`).
- The 410 branch of `get_nodes` and `list_nodes` compares the whole record with the text `"DELETED"`, so it is never taken (`Store.LoadBalancerApi.ListNodes`, `Store.LoadBalancerApi.GetNodes`).
- The write operations test the stored status without refreshing it first. A BUILD record whose `lb_building` time has long passed is still refused by `add_node` and `delete_node` (422) and by `del_load_balancer` (400) until a read moves it to ACTIVE (`Store.LoadBalancerApi.AddNode`, `Store.LoadBalancerApi.DeleteNode`, `Store.LoadBalancerApi.DelLoadBalancer`).
- As the docstring at `loadbalancer.py:176` says, `delete_node` returns 202 even when no node has the id (`Store.LoadBalancerApi.DeleteNode`).

## Model

| member | source | states |
|---|---|---|
| Lifecycle.Advance | mimic/canned_responses/loadbalancer.py:254-294 | A record is dropped exactly when it is DELETED and 3600 s have passed since `updated`. Otherwise the record changes only in `status` and `updated`, and the directive keys stay the same. Only `lb_building` and `lb_pending_delete` values are rewritten, and directive presence for BUILD and PENDING-DELETE is kept. Nothing enters BUILD. Without `set_state` a status only changes to ACTIVE or DELETED, and never from PENDING-DELETE to ACTIVE. |
| Lifecycle.BuildStep | mimic/canned_responses/loadbalancer.py:260-264 | BUILD ages the same way with or without `set_state` and never moves `updated`. It stores `lb_building or 10`, and becomes ACTIVE exactly when that duration has elapsed; otherwise it stays BUILD. |
| Lifecycle.ActiveStep | mimic/canned_responses/loadbalancer.py:266-275 | Without `set_state`, ACTIVE is left unchanged. With it, `updated` becomes now unconditionally, and the status becomes ERROR if `lb_error_state` is present, else PENDING-DELETE, else PENDING-UPDATE, else stays ACTIVE. Directives are untouched. |
| Lifecycle.PendingUpdateStep | mimic/canned_responses/loadbalancer.py:277-281 | PENDING-UPDATE turns ACTIVE exactly when `lb_pending_update` is present and its duration has elapsed; otherwise nothing changes. |
| Lifecycle.PendingDeleteStep | mimic/canned_responses/loadbalancer.py:283-288 | It stores `lb_pending_delete or 10` and becomes DELETED exactly when that duration has elapsed. `updated` becomes now on every such refresh. |
| Lifecycle.DeletedStep | mimic/canned_responses/loadbalancer.py:290-294 | DELETED is collected exactly when 3600 s have elapsed; before that, record and directives are unchanged. |
| Lifecycle.ErrorStep | mimic/canned_responses/loadbalancer.py:260-294 | ERROR has no branch: the refresh changes nothing. |
| Lifecycle.BuildHolds | mimic/canned_responses/loadbalancer.py:260-264 | Polling a BUILD record at times before its duration leaves the record exactly as it was. |
| Lifecycle.BuildActivatesWhenDue | mimic/canned_responses/loadbalancer.py:260-264 | After polls before the duration, the next poll sees ACTIVE if and only if the duration has elapsed at that time. |
| Lifecycle.PendingDeleteStarves | mimic/canned_responses/loadbalancer.py:283-288 | Each refresh resets `updated`. So a PENDING-DELETE record polled at intervals shorter than its duration never becomes DELETED, and its `updated` is the last poll time. |
| Lifecycle.DeleteThresholdsIndependent | mimic/canned_responses/loadbalancer.py:283-294 | A due PENDING-DELETE becomes DELETED with `updated` = that poll time. A second poll drops it exactly when 3600 s have passed since then. |
| Lifecycle.ReadsLeaveSettled | mimic/canned_responses/loadbalancer.py:266-275 | Any number of read-only refreshes of an ACTIVE or ERROR record leave record and directives unchanged. |
| Shaping.DirectivesOf | mimic/canned_responses/loadbalancer.py:59-61 | The directive map's keys are exactly the keys of the metadata entries. |
| Shaping.DirectivesLastWins | mimic/canned_responses/loadbalancer.py:59-61 | A key maps to the value of its last entry. |
| Shaping.FoldMetadata | mimic/canned_responses/loadbalancer.py:58-62 | The update loop computes `DirectivesOf` of the entries. A key is present exactly when some entry has it. |
| Shaping.AddNodesToLb | mimic/canned_responses/loadbalancer.py:213-230 | One node per request, in order. Each node has the request's address, condition and port, status "ONLINE" and an id in [0, 999999). Weight and type are present just when truthy. |
| Shaping.AddMeta | mimic/canned_responses/loadbalancer.py:233-241 | One item per entry, in order, with the entry's key and value and an id in [0, 999). |
| Shaping.LoadBalancerExample | mimic/canned_responses/loadbalancer.py:13-46 | The record has the given id and status and no tenant, and created = updated = now. `nodes` is present exactly when the request has a non-empty node list, and is then the shaped node list: one ONLINE node per request node, carrying the supplied ids. `metadata` is present exactly when the request has a non-empty metadata list, and is then the shaped item list with the supplied ids. |
| Shaping.ExampleDefaults | mimic/canned_responses/loadbalancer.py:17-41 | The defaults are port 80, algorithm RANDOM (also for an empty name), timeout 30, and false for the three flags. The timeout is read from "tiemout", so the correctly spelled "timeout" has no effect on the record. |
| Shaping.WithoutTenant | mimic/canned_responses/loadbalancer.py:244-251 | The view has no tenant and equals the stored record in every other field. |
| NodeOps.FindDuplicate | mimic/canned_responses/loadbalancer.py:138-144 | The nested loops report a collision exactly when some requested node shares address and port with some existing node. |
| NodeOps.BatchNotComparedWithItself | mimic/canned_responses/loadbalancer.py:138-144 | Against any list of existing nodes, a batch repeated twice collides exactly when the batch alone does: endpoints repeated inside a batch are never reported. |
| NodeOps.WithoutNode | mimic/canned_responses/loadbalancer.py:184-185 | A node is kept exactly when its id differs from the requested one, as many times as it occurs; nodes with that id are all removed. The list is unchanged when no id matches, and never grows. |
| NodeOps.WithoutNodeKeepsOrder | mimic/canned_responses/loadbalancer.py:184-185 | The kept nodes are a subsequence of the old list: their order is preserved. |
| Store.RefreshAt | mimic/canned_responses/loadbalancer.py:254-294 | The caches stay valid. The entry is removed exactly when it is DELETED and an hour old; then its directives stay. Otherwise ids and tenants are unchanged. No other record or directive map changes. |
| Store.NodesUpdateKeepsValid | mimic/canned_responses/loadbalancer.py:145-147 | Replacing a record's node list keeps the caches valid. |
| Store.InsertKeepsValid | mimic/canned_responses/loadbalancer.py:62-71 | Storing a record with its own id, a tenant and the directives its status needs keeps the caches valid. |
| Store.RefreshActive | mimic/canned_responses/loadbalancer.py:266-275 | A side-effecting refresh of an ACTIVE record sets the precedence status and `updated` = now, and leaves the directives as they were. |
| Store.ReadSettled | mimic/canned_responses/loadbalancer.py:266-275 | A read-only refresh of an ACTIVE or ERROR record keeps it, unchanged, at any time. |
| Store.ReadAll | mimic/canned_responses/loadbalancer.py:119-122 | The listing sweep keeps the caches valid. With no record collected, ids and tenants are unchanged; a collected id is one of those listed and is gone. |
| Store.SweepStep | mimic/canned_responses/loadbalancer.py:120-122 | A record that survives its read leaves ids and tenants as they were. |
| Store.ReadAllHead | mimic/canned_responses/loadbalancer.py:120-122 | The sweep stops at a first record that expired; otherwise it continues with every other record unchanged. |
| Store.ExpiredInTail | mimic/canned_responses/loadbalancer.py:120-122 | Past a head record that has not expired, some listed record has expired exactly when one of the rest has. |
| Store.ReadAllCrashesIffExpired | mimic/canned_responses/loadbalancer.py:119-122 | Listing raises KeyError if and only if one of the tenant's records is DELETED and an hour old. |
| Store.TenantListing | mimic/canned_responses/loadbalancer.py:119-124 | The listed records all belong to the tenant, and every record of the tenant is listed. |
| Store.LoadBalancerApi.constructor | mimic/canned_responses/loadbalancer.py:9-10 | Both caches start empty and valid. |
| Store.LoadBalancerApi.VerifyAndUpdateLbState | mimic/canned_responses/loadbalancer.py:254-294 | The in-place sequence of checks leaves the caches equal to `RefreshAt`. The last-wins `if`s amount to the precedence ERROR > PENDING-DELETE > PENDING-UPDATE. |
| Store.LoadBalancerApi.AddLoadBalancer | mimic/canned_responses/loadbalancer.py:49-74 | Without `metadata` it is a KeyError and nothing changes. Otherwise it stores the directive map, and the record with its tenant. The status is BUILD exactly when some entry has the key `lb_building`, else ACTIVE. The reply is 202 with the stored record minus its tenant. |
| Store.LoadBalancerApi.CreateThenGet | mimic/canned_responses/loadbalancer.py:49-88 | A record created without `lb_building` is ACTIVE. A get at any later time returns 200 with exactly the view create returned. |
| Store.LoadBalancerApi.GetLoadBalancers | mimic/canned_responses/loadbalancer.py:77-88 | An unknown id returns 404 with no change. Otherwise a read-only refresh runs; a record it drops is a KeyError, and a surviving one returns 200 with the tenant-free view. |
| Store.LoadBalancerApi.DelLoadBalancer | mimic/canned_responses/loadbalancer.py:91-111 | An unknown id returns 404 with no change. ACTIVE or ERROR removes the record, keeps its directives and returns 202. DELETED gets a side-effecting refresh, which may drop it, then 400. Any other status returns 400 with no change. Every 400 carries the same "immutable" fault. |
| Store.LoadBalancerApi.ListLoadBalancers | mimic/canned_responses/loadbalancer.py:114-124 | The caches become `ReadAll` of the tenant's ids. If some record was dropped it is a KeyError naming it. Otherwise the result is 200 with the stored record for each id in iteration order, tenant included: only the tenant's records, and all of them. |
| Store.LoadBalancerApi.AddNode | mimic/canned_responses/loadbalancer.py:127-151 | An unknown id returns 404. A status other than ACTIVE returns 422 and no change. With existing nodes, a collision returns 413 and no change; otherwise nodes are old ++ new. Without existing nodes, the list is set to the new nodes and a side-effecting refresh runs. Success returns 200 with the new nodes. |
| Store.LoadBalancerApi.ListNodes | mimic/canned_responses/loadbalancer.py:195-210 | An unknown id returns 404. Otherwise a read-only refresh runs: a dropped record is a KeyError, and a surviving one returns 200 with its nodes, or an empty list. The 410 branch is never taken. |
| Store.LoadBalancerApi.GetNodes | mimic/canned_responses/loadbalancer.py:154-169 | The same outcomes as `list_nodes`; the node id is ignored, and 410 never occurs. |
| Store.LoadBalancerApi.DeleteNode | mimic/canned_responses/loadbalancer.py:172-192 | An unknown id returns 404. A status other than ACTIVE returns 422. A record without `nodes` is a KeyError; nothing changes in any of these cases. Otherwise the nodes with that id are removed, and the field is removed if none remain. A side-effecting refresh runs, and 202 is returned even if nothing matched. |

## Left out

- `set_resource_status`, `current_time_in_utc`, `not_found_response` and `invalid_resource` are in `mimic/util/helper.py`, which is not part of this model.
  - `set_resource_status(updated, secs, target)` is modelled by `Lifecycle.Elapsed`: it yields its target once `now - updated >= secs` and nothing before.
  - A duration that is not a number (a string, a boolean, null) is taken never to elapse. This is an assumption about the unseen helper.
  - The two-argument calls of BUILD and PENDING-UPDATE (`loadbalancer.py:262-264`, `:279-281`) are taken to yield "ACTIVE", the helper's default target.
  - PENDING-UPDATE's duration gets no `or 10` default (`loadbalancer.py:278-281`). A null or otherwise non-numeric `lb_pending_update` therefore never elapses, and the record stays PENDING-UPDATE.
- Time is whole seconds. The source stores `updated` first as `{"time": ...}` and later as a bare timestamp string; both are one integer here. Timestamp formatting is not modelled.
- Error bodies are the four `Fault` constructors. The message texts and the helper's JSON shape are not modelled.
- The constant display fields of `load_balancer_example` are not in the record: `cluster`, `virtualIps`, `sourceAddresses` and `contentCaching`.
- Shaping.LoadBalancerExample: the default of `connectionLogging` is the object `{"enabled": False}` in the source; it is modelled as `false`, and a supplied value as a boolean.
- Request fields the code reads with `[...]` (`name`, `protocol`, node `address`, `condition`, `port`, metadata `key`, `value`) are always present in the typed request datatypes. The KeyError a missing one would raise is not modelled; only the `metadata`, `nodes` and re-read KeyErrors are.
- Values are JSON scalars (null, boolean, integer, string). Lists, objects and floating-point numbers as metadata values or node weights are not modelled.
- Shaping.AddMeta: the source attaches the `id` to the caller's own metadata dicts; the model returns new items and does not model that mutation of the request, or the sharing between request and record.
- Aliasing: records are values. So the model does not capture the sharing of the following with the store, which a later change to the store would show through:
  - The source's list reply shares dicts with the store.
  - `add_node` returns the very list it stores as the record's first nodes (`loadbalancer.py:147`, `:149`).
  - `get_nodes` and `list_nodes` return the stored `nodes` list itself (`loadbalancer.py:166`, `:207`).
- The views from create and get are `deepcopy`s in the source (`loadbalancer.py:249`). Dafny values are independent in the same way, so nothing is lost there.
- Randomness: the ids `randrange` returns are inputs bounded by their ranges. They are not assumed distinct, since the code does not ensure it.
- Dictionary iteration order in `list_load_balancers` is the input `order`.
- The node id of `delete_node` is an integer compared with `==`; string-versus-integer ids from the URL are not modelled.
- `twisted.python.log` calls are diagnostic output and are not modelled. The indexing they perform is modelled where it can fail: the KeyError after garbage collection.
- Records only enter the store through `add_load_balancer`. The BUILD and PENDING-DELETE directive lookups are therefore always defined (`Store.CachesValid`). A store filled by other means, where those lookups could raise, is not modelled.
- `mimic/canned_responses/mimic_presets.py` is a static dictionary with no behaviour, and is not part of this model. HTTP routing and JSON serialisation live outside the modelled file.
- Concurrency is not modelled: every operation runs to completion on its own.
