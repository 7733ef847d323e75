/**
 * The discovery reconciliation engine: the intake of a detection event
 * (`detected`), its evaluation against the enclosure and switch cues
 * (`eval_node`), the policy gate that decides whether to configure a device
 * and record its identity (`discover_node`), and the re-check sweep over the
 * unknown and pending caches (`_recheck_nodes`).
 *
 * The three module-level caches and the attribute store are the fields of
 * `Engine`; every collaborator the engine calls (the device probe, the MAC
 * lookup, the device drivers' `preconfig` and `config`, the certificate
 * helpers) is an oracle in `Env`. Each method of `Engine` is tied to a
 * function on `World` values, about which the properties are proved.
 */
module Discovery {
  import opened Wrappers

  type HwAddr = string
  type NodeName = string

  /** The `info` dict of a detection event: the announced services, the
      hardware address, the enclosure bay and the UUID, each possibly absent. */
  datatype Info = Info(services: seq<string>, hwaddr: Option<HwAddr>, bay: Option<string>, uuid: Option<string>)

  /** What a successful probe adds to the event in place. */
  datatype Enrichment = Enrichment(uuid: Option<string>, bay: Option<string>)

  function Enrich(info: Info, e: Enrichment): Info {
    info.(uuid := if e.uuid.Some? then e.uuid else info.uuid,
          bay := if e.bay.Some? then e.bay else info.bay)
  }

  /** The hardware families with a registered driver module. */
  datatype HandlerKind = Smm | Xcc

  const SmmService: string := "service:lenovo-smm"
  const XccService: string := "service:management-hardware.Lenovo:lenovo-xclarity-controller"

  /** `nodehandlers.get(service)`: the closed registry of drivers. */
  function Registered(service: string): Option<HandlerKind> {
    if service == SmmService then Some(Smm)
    else if service == XccService then Some(Xcc)
    else None
  }

  /** The `for ... else` search: the driver of the first announced service,
      in announcement order, that has one. */
  function SelectHandler(services: seq<string>): (r: Option<HandlerKind>)
    ensures r.None? <==> forall i | 0 <= i < |services| :: Registered(services[i]).None?
    ensures r.Some? ==> exists i | 0 <= i < |services| ::
                          r == Registered(services[i]) &&
                          forall j | 0 <= j < i :: Registered(services[j]).None?
  {
    if services == [] then None
    else if Registered(services[0]).Some? then Registered(services[0])
    else
      var r := SelectHandler(services[1..]);
      assert forall i | 1 <= i < |services| :: services[i] == services[1..][i - 1];
      if r.Some? then
        var i :| 0 <= i < |services[1..]| && r == Registered(services[1..][i]) &&
                 forall j | 0 <= j < i :: Registered(services[1..][j]).None?;
        assert r == Registered(services[i + 1]);
        r
      else r
  }

  /** The collaborators the engine calls, given as oracles. */
  datatype Env = Env(
    probe: (HandlerKind, Info) -> Option<Enrichment>,        // None: `probe()` raised
    findNodeByMac: HwAddr -> Option<NodeName>,              // macmap.find_node_by_mac
    preconfigSucceeds: (HandlerKind, Info) -> bool,         // false: `preconfig()` raised
    configSucceeds: (HandlerKind, Info, NodeName) -> bool,  // false: `config()` raised
    discoverableBySwitch: HandlerKind -> bool,
    httpsCert: (HandlerKind, Info) -> Option<string>,       // handler.https_cert
    certMatches: (Option<string>, Option<string>) -> bool,  // util.cert_matches
    fingerprint: string -> string)                          // util.get_fingerprint

  /** What the engine does to the devices and the store, in order. */
  datatype Effect =
    | Preconfig(kind: HandlerKind)
    | Config(kind: HandlerKind, node: NodeName)
    | Write(node: NodeName, attrs: map<string, string>)

  /** Why an evaluation stops with an exception. */
  datatype Fault =
    | PreconfigFailed
    | ConfigFailed
    | AmbiguousEnclosure       // zero or several nodes in the enclosure bay
    | InfoLacksHwaddr          // KeyError on info['hwaddr']
    | UnknownLacksLiteralKey   // KeyError on `del unknown_info['hwaddr']`

  /** The engine's state as a value: the three caches, the attribute store
      (node to attribute to value) and the effects performed so far. */
  datatype World = World(
    known: map<HwAddr, Info>,
    unknown: map<HwAddr, Info>,
    pending: map<NodeName, Info>,
    store: map<NodeName, map<string, string>>,
    effects: seq<Effect>)

  const PolicyAttr: string := "discovery.policy"
  const TlsAttr: string := "pubkeys.tls_hardwaremanager"
  const UuidAttr: string := "id.uuid"

  function Attr(store: map<NodeName, map<string, string>>, node: NodeName, key: string): Option<string> {
    if node in store && key in store[node] then Some(store[node][key]) else None
  }

  predicate Truthy(v: Option<string>) {
    v.Some? && v.value != ""
  }

  /** Every unknown entry is filed under its own hardware address, which
      the dedup gate has already admitted. */
  predicate Consistent(w: World) {
    && w.unknown.Keys <= w.known.Keys
    && forall h | h in w.unknown :: w.unknown[h].hwaddr == Some(h)
  }

  /** The attributes `discover_node` writes for a device it configures. */
  function NewAttributes(env: Env, kind: HandlerKind, info: Info): (m: map<string, string>)
    ensures UuidAttr in m <==> info.uuid.Some?
    ensures UuidAttr in m ==> m[UuidAttr] == info.uuid.value
    ensures TlsAttr in m <==> Truthy(env.httpsCert(kind, info))
    ensures TlsAttr in m ==> m[TlsAttr] == env.fingerprint(env.httpsCert(kind, info).value)
    ensures m.Keys <= {UuidAttr, TlsAttr}
  {
    var cert := env.httpsCert(kind, info);
    (if info.uuid.Some? then map[UuidAttr := info.uuid.value] else map[]) +
    (if Truthy(cert) then map[TlsAttr := env.fingerprint(cert.value)] else map[])
  }

  function Merge(store: map<NodeName, map<string, string>>, node: NodeName, attrs: map<string, string>): (r: map<NodeName, map<string, string>>)
    ensures r.Keys == store.Keys + {node}
    ensures forall n | n in store && n != node :: r[n] == store[n]
    ensures forall a | a in attrs :: Attr(r, node, a) == Some(attrs[a])
    ensures forall a | a !in attrs :: Attr(r, node, a) == Attr(store, node, a)
  {
    store[node := (if node in store then store[node] else map[]) + attrs]
  }

  predicate OpenOrPermissive(policy: Option<string>) {
    policy == Some("open") || policy == Some("permissive")
  }

  /** The gate acts: the policy is open, or permissive with no stored fingerprint yet. */
  predicate GateOpen(w: World, node: NodeName) {
    OpenOrPermissive(Attr(w.store, node, PolicyAttr)) &&
    !(Attr(w.store, node, PolicyAttr) == Some("permissive") && Truthy(Attr(w.store, node, TlsAttr)))
  }

  /** `discover_node`: the policy gate. */
  function DiscoverNodeSpec(env: Env, w: World, kind: HandlerKind, info: Info, node: NodeName): (res: (World, Result<bool, Fault>))
    ensures res.0.known == w.known && res.0.pending == w.pending
    // permissive with a stored fingerprint: never touched again
    ensures (Attr(w.store, node, PolicyAttr) == Some("permissive") && Truthy(Attr(w.store, node, TlsAttr)))
              ==> res == (w, Ok(false))
    // any policy other than open or permissive, unset included: nothing happens
    ensures !OpenOrPermissive(Attr(w.store, node, PolicyAttr)) ==> res == (w, Ok(false))
    // a declined or already-trusted device is left as it is
    ensures res.1 == Ok(false) ==> res.0 == w
    ensures env.certMatches(Attr(w.store, node, TlsAttr), env.httpsCert(kind, info)) ==> res.0 == w
    // configuring happens only at the end of a certificate mismatch, and then exactly once
    ensures res.0 != w ==> OpenOrPermissive(Attr(w.store, node, PolicyAttr)) &&
                           !env.certMatches(Attr(w.store, node, TlsAttr), env.httpsCert(kind, info)) &&
                           info.hwaddr.Some? &&
                           res.0.effects == w.effects + [Config(kind, node)] +
                             (if res.1.Ok? && NewAttributes(env, kind, info) != map[]
                              then [Write(node, NewAttributes(env, kind, info))] else [])
    ensures res.1.Ok? && res.0 != w ==> res.1.value
    ensures res.0.store == w.store || (res.1 == Ok(true) && res.0.store == Merge(w.store, node, NewAttributes(env, kind, info)))
    // `'hwaddr'` is deleted only when the event's own address is in the unknown cache
    ensures res.0.unknown == w.unknown ||
            (info.hwaddr.Some? && info.hwaddr.value in w.unknown && res.0.unknown == w.unknown - {"hwaddr"})
    // the literal-key delete fails exactly when the event's own address is unknown
    ensures res.1 == Err(UnknownLacksLiteralKey) <==>
              OpenOrPermissive(Attr(w.store, node, PolicyAttr)) &&
              !(Attr(w.store, node, PolicyAttr) == Some("permissive") && Truthy(Attr(w.store, node, TlsAttr))) &&
              !env.certMatches(Attr(w.store, node, TlsAttr), env.httpsCert(kind, info)) &&
              info.hwaddr.Some? && info.hwaddr.value in w.unknown && "hwaddr" !in w.unknown
    // open, or permissive without a stored fingerprint: the device is accepted
    ensures (GateOpen(w, node) && env.certMatches(Attr(w.store, node, TlsAttr), env.httpsCert(kind, info)))
              ==> res == (w, Ok(true))
    ensures (GateOpen(w, node) && !env.certMatches(Attr(w.store, node, TlsAttr), env.httpsCert(kind, info)) &&
             info.hwaddr.None?)
              ==> res == (w, Err(InfoLacksHwaddr))
    ensures (GateOpen(w, node) && !env.certMatches(Attr(w.store, node, TlsAttr), env.httpsCert(kind, info)) &&
             info.hwaddr.Some? && !(info.hwaddr.value in w.unknown && "hwaddr" !in w.unknown))
              ==> && |res.0.effects| > |w.effects|
                  && res.0.effects[..|w.effects| + 1] == w.effects + [Config(kind, node)]
                  && (info.hwaddr.value in w.unknown ==> res.0.unknown == w.unknown - {"hwaddr"})
                  && (env.configSucceeds(kind, info, node) ==>
                        res.1 == Ok(true) &&
                        res.0.store == (if NewAttributes(env, kind, info) == map[] then w.store
                                        else Merge(w.store, node, NewAttributes(env, kind, info))))
                  && (!env.configSucceeds(kind, info, node) ==> res.1 == Err(ConfigFailed) && res.0.store == w.store)
  {
    var policy := Attr(w.store, node, PolicyAttr);
    var lastfp := Attr(w.store, node, TlsAttr);
    if policy == Some("permissive") && Truthy(lastfp) then (w, Ok(false))
    else if OpenOrPermissive(policy) then
      var cert := env.httpsCert(kind, info);
      if !env.certMatches(lastfp, cert) then ConfigureSpec(env, w, kind, info, node)
      else (w, Ok(true))
    else (w, Ok(false))
  }

  /** The end of `discover_node` once the certificate does not match: the
      unknown-cache delete, `config`, and the write of the new attributes. */
  function ConfigureSpec(env: Env, w: World, kind: HandlerKind, info: Info, node: NodeName): (res: (World, Result<bool, Fault>))
    ensures res.0.known == w.known && res.0.pending == w.pending
    // `'hwaddr'` is deleted only when the event's own address is in the unknown cache
    ensures res.0.unknown == w.unknown ||
            (info.hwaddr.Some? && info.hwaddr.value in w.unknown && res.0.unknown == w.unknown - {"hwaddr"})
    ensures info.hwaddr.None? ==> res == (w, Err(InfoLacksHwaddr))
    ensures res.1 == Err(UnknownLacksLiteralKey) <==> info.hwaddr.Some? && info.hwaddr.value in w.unknown && "hwaddr" !in w.unknown
    ensures res.1.Ok? ==> res.1.value
    ensures res.0 != w ==> info.hwaddr.Some? &&
                           res.0.effects == w.effects + [Config(kind, node)] +
                             (if res.1.Ok? && NewAttributes(env, kind, info) != map[]
                              then [Write(node, NewAttributes(env, kind, info))] else [])
    ensures res.0.store == w.store || (res.1 == Ok(true) && res.0.store == Merge(w.store, node, NewAttributes(env, kind, info)))
    ensures (info.hwaddr.Some? && !(info.hwaddr.value in w.unknown && "hwaddr" !in w.unknown))
              ==> && |res.0.effects| > |w.effects|
                  && res.0.effects[..|w.effects| + 1] == w.effects + [Config(kind, node)]
                  && (info.hwaddr.value in w.unknown ==> res.0.unknown == w.unknown - {"hwaddr"})
                  && (env.configSucceeds(kind, info, node) ==>
                        res.1 == Ok(true) &&
                        res.0.store == (if NewAttributes(env, kind, info) == map[] then w.store
                                        else Merge(w.store, node, NewAttributes(env, kind, info))))
                  && (!env.configSucceeds(kind, info, node) ==> res.1 == Err(ConfigFailed) && res.0.store == w.store)
  {
    if info.hwaddr.None? then (w, Err(InfoLacksHwaddr))
    else if info.hwaddr.value in w.unknown && "hwaddr" !in w.unknown then (w, Err(UnknownLacksLiteralKey))
    else
      var w1 := w.(unknown := if info.hwaddr.value in w.unknown then w.unknown - {"hwaddr"} else w.unknown);
      var w2 := w1.(effects := w1.effects + [Config(kind, node)]);
      if !env.configSucceeds(kind, info, node) then (w2, Err(ConfigFailed))
      else
        var attrs := NewAttributes(env, kind, info);
        if attrs == map[] then (w2, Ok(true))
        else (w2.(store := Merge(w2.store, node, attrs), effects := w2.effects + [Write(node, attrs)]), Ok(true))
  }

  /** The nodes standing in `bay` of the enclosure managed by `manager`. */
  function BayOccupants(store: map<NodeName, map<string, string>>, manager: NodeName, bay: string): (s: set<NodeName>)
    ensures forall n :: n in s <==> n in store && Attr(store, n, "enclosure.manager") == Some(manager) &&
                                     Attr(store, n, "enclosure.bay") == Some(bay)
  {
    set n | n in store && Attr(store, n, "enclosure.manager") == Some(manager) && Attr(store, n, "enclosure.bay") == Some(bay)
  }

  lemma SingletonMembers<T>(s: set<T>)
    requires |s| == 1
    ensures forall a, b | a in s && b in s :: a == b
  {
    var x :| x in s;
    assert |s - {x}| == 0;
    assert s == {x};
  }

  /** Runs the policy gate and files a declined event as pending under `node`. */
  function GateOrPark(env: Env, w: World, kind: HandlerKind, info: Info, node: NodeName): (res: (World, Result<(), Fault>))
    ensures res.0.known == w.known
    ensures res.0.unknown == DiscoverNodeSpec(env, w, kind, info, node).0.unknown
    ensures res.1 == Err(UnknownLacksLiteralKey) <==> DiscoverNodeSpec(env, w, kind, info, node).1 == Err(UnknownLacksLiteralKey)
    ensures res.0.pending.Keys == w.pending.Keys + (if DiscoverNodeSpec(env, w, kind, info, node).1 == Ok(false) then {node} else {})
    ensures DiscoverNodeSpec(env, w, kind, info, node).1 == Ok(false) ==> res.0 == w.(pending := w.pending[node := info])
    ensures DiscoverNodeSpec(env, w, kind, info, node).1 != Ok(false) ==> res.0 == DiscoverNodeSpec(env, w, kind, info, node).0
    ensures w.pending.Keys <= res.0.pending.Keys
    ensures res.0.unknown == w.unknown || res.0.unknown == w.unknown - {"hwaddr"}
    ensures |w.effects| <= |res.0.effects| && res.0.effects[..|w.effects|] == w.effects
    ensures (info.hwaddr.Some? && info.hwaddr.value !in w.unknown) ==> res.1 != Err(UnknownLacksLiteralKey)
  {
    var (w1, r) := DiscoverNodeSpec(env, w, kind, info, node);
    if r == Ok(false) then (w1.(pending := w1.pending[node := info]), Ok(()))
    else if r.Err? then (w1, Err(r.error))
    else (w1, Ok(()))
  }

  /** `eval_node`. */
  function EvalNodeSpec(env: Env, w: World, kind: HandlerKind, info: Info, node: NodeName): (res: (World, Result<(), Fault>))
    ensures res.0.known == w.known
    ensures w.pending.Keys <= res.0.pending.Keys
    ensures res.0.unknown == w.unknown || res.0.unknown == w.unknown - {"hwaddr"}
    ensures (info.hwaddr.Some? && info.hwaddr.value !in w.unknown) ==> res.1 != Err(UnknownLacksLiteralKey)
    // preconfig is always the first thing done
    ensures |res.0.effects| > |w.effects| && res.0.effects[..|w.effects| + 1] == w.effects + [Preconfig(kind)]
    ensures (info.bay.Some? && env.preconfigSucceeds(kind, info) && |BayOccupants(w.store, node, info.bay.value)| != 1)
              ==> res == (w.(effects := w.effects + [Preconfig(kind)]), Err(AmbiguousEnclosure))
    ensures (info.bay.None? && !env.discoverableBySwitch(kind))
              ==> res.0 == w.(effects := w.effects + [Preconfig(kind)])
    ensures !env.preconfigSucceeds(kind, info) ==> res == (w.(effects := w.effects + [Preconfig(kind)]), Err(PreconfigFailed))
    // the one occupant of the bay, or the switch-resolved node itself, goes through the gate
    ensures forall n | env.preconfigSucceeds(kind, info) && info.bay.Some? && BayOccupants(w.store, node, info.bay.value) == {n} ::
              res == GateOrPark(env, w.(effects := w.effects + [Preconfig(kind)]), kind, info, n)
    ensures (env.preconfigSucceeds(kind, info) && info.bay.None? && env.discoverableBySwitch(kind))
              ==> res == GateOrPark(env, w.(effects := w.effects + [Preconfig(kind)]), kind, info, node)
  {
    var w1 := w.(effects := w.effects + [Preconfig(kind)]);
    if !env.preconfigSucceeds(kind, info) then (w1, Err(PreconfigFailed))
    else if info.bay.Some? then
      var nl := BayOccupants(w1.store, node, info.bay.value);
      if |nl| != 1 then (w1, Err(AmbiguousEnclosure))
      else
        SingletonMembers(nl);
        var n :| n in nl;
        GateOrPark(env, w1, kind, info, n)
    else if env.discoverableBySwitch(kind) then GateOrPark(env, w1, kind, info, node)
    else (w1, Ok(()))
  }

  /** Whether `detected` lets the event through its three gates: a
      registered service, a hardware address, and an address not yet known. */
  predicate PassesDedup(w: World, info: Info) {
    SelectHandler(info.services).Some? && info.hwaddr.Some? && info.hwaddr.value !in w.known
  }

  /** `detected`. */
  function DetectedSpec(env: Env, w: World, info: Info): (res: (World, Result<(), Fault>))
    ensures !PassesDedup(w, info) ==> res == (w, Ok(()))
    ensures res.0.known.Keys == w.known.Keys + (if PassesDedup(w, info) then {info.hwaddr.value} else {})
    ensures w.pending.Keys <= res.0.pending.Keys
    // a failed probe leaves the address known and nothing else changed
    ensures (PassesDedup(w, info) && env.probe(SelectHandler(info.services).value, info).None?)
              ==> res == (w.(known := w.known[info.hwaddr.value := info]), Ok(()))
    // an unresolved address is parked in the unknown cache and nothing else happens
    ensures (PassesDedup(w, info) && env.probe(SelectHandler(info.services).value, info).Some? &&
            !Truthy(env.findNodeByMac(info.hwaddr.value)))
              ==> var e := Enrich(info, env.probe(SelectHandler(info.services).value, info).value);
                  res == (w.(known := w.known[info.hwaddr.value := e], unknown := w.unknown[info.hwaddr.value := e]), Ok(()))
    // a resolved address is evaluated against that node
    ensures (PassesDedup(w, info) && env.probe(SelectHandler(info.services).value, info).Some? &&
            Truthy(env.findNodeByMac(info.hwaddr.value)))
              ==> var e := Enrich(info, env.probe(SelectHandler(info.services).value, info).value);
                  res == EvalNodeSpec(env, w.(known := w.known[info.hwaddr.value := e]),
                                      SelectHandler(info.services).value, e, env.findNodeByMac(info.hwaddr.value).value)
  {
    var handler := SelectHandler(info.services);
    if handler.None? || info.hwaddr.None? then (w, Ok(()))
    else
      var h := info.hwaddr.value;
      if h in w.known then (w, Ok(()))
      else
        var w1 := w.(known := w.known[h := info]);
        var probed := env.probe(handler.value, info);
        if probed.None? then (w1, Ok(()))
        else
          var e := Enrich(info, probed.value);
          var w2 := w1.(known := w1.known[h := e]);
          assert w2 == w.(known := w.known[h := e]);
          var nodename := env.findNodeByMac(h);
          if Truthy(nodename) then EvalNodeSpec(env, w2, handler.value, e, nodename.value)
          else (w2.(unknown := w2.unknown[h := e]), Ok(()))
  }

  /** `detected` keeps the cache invariant: an entry it parks in the unknown
      cache is filed under its own, now known, address. */
  lemma {:induction false} DetectedKeepsConsistent(env: Env, w: World, info: Info)
    requires Consistent(w)
    ensures Consistent(DetectedSpec(env, w, info).0)
  {
    if PassesDedup(w, info) {
      var h := info.hwaddr.value;
      var kind := SelectHandler(info.services).value;
      var probed := env.probe(kind, info);
      if probed.Some? {
        var e := Enrich(info, probed.value);
        var w2 := w.(known := w.known[h := e]);
        if Truthy(env.findNodeByMac(h)) {
          var res := EvalNodeSpec(env, w2, kind, e, env.findNodeByMac(h).value);
          assert res.0.unknown == w2.unknown || res.0.unknown == w2.unknown - {"hwaddr"};
        }
      }
    }
  }

  /** Where a re-check job comes from: an unknown entry (by address) or a
      pending entry (by node name). */
  datatype Source = FromUnknown(mac: HwAddr) | FromPending(node: NodeName)

  /** One `eval_node` call that the sweep hands to the scheduler. */
  datatype Job = Job(source: Source, kind: HandlerKind, info: Info, node: NodeName)

  function UnknownJobs(env: Env, w: World): set<Job> {
    set mac | mac in w.unknown && Truthy(env.findNodeByMac(mac)) && SelectHandler(w.unknown[mac].services).Some? ::
      Job(FromUnknown(mac), SelectHandler(w.unknown[mac].services).value, w.unknown[mac], env.findNodeByMac(mac).value)
  }

  function PendingJobs(w: World): set<Job> {
    set n | n in w.pending && SelectHandler(w.pending[n].services).Some? ::
      Job(FromPending(n), SelectHandler(w.pending[n].services).value, w.pending[n], n)
  }

  /** The jobs one run of `_recheck_nodes` dispatches. */
  function SweepJobs(env: Env, w: World): set<Job> {
    UnknownJobs(env, w) + PendingJobs(w)
  }

  /** The engine: the three caches and the attribute store, updated in place. */
  class Engine {
    var known: map<HwAddr, Info>
    var unknown: map<HwAddr, Info>
    var pending: map<NodeName, Info>
    var store: map<NodeName, map<string, string>>
    var effects: seq<Effect>

    function View(): World
      reads this
    {
      World(known, unknown, pending, store, effects)
    }

    ghost predicate Valid()
      reads this
    {
      Consistent(View())
    }

    constructor (initialStore: map<NodeName, map<string, string>>)
      ensures Valid()
      ensures View() == World(map[], map[], map[], initialStore, [])
    {
      known, unknown, pending := map[], map[], map[];
      store, effects := initialStore, [];
    }

    method DiscoverNode(env: Env, kind: HandlerKind, info: Info, node: NodeName) returns (r: Result<bool, Fault>)
      requires Valid()
      modifies this
      ensures Valid()
      ensures (View(), r) == DiscoverNodeSpec(env, old(View()), kind, info, node)
    {
      var policy := Attr(store, node, PolicyAttr);
      var lastfp := Attr(store, node, TlsAttr);
      if policy == Some("permissive") && Truthy(lastfp) {
        return Ok(false);
      }
      if !OpenOrPermissive(policy) {
        return Ok(false);
      }
      var cert := env.httpsCert(kind, info);
      if env.certMatches(lastfp, cert) {
        return Ok(true);
      }
      r := Configure(env, kind, info, node);
    }

    method Configure(env: Env, kind: HandlerKind, info: Info, node: NodeName) returns (r: Result<bool, Fault>)
      modifies this
      ensures (View(), r) == ConfigureSpec(env, old(View()), kind, info, node)
    {
      var cert := env.httpsCert(kind, info);
      if info.hwaddr.None? {
        return Err(InfoLacksHwaddr);
      }
      if info.hwaddr.value in unknown {
        if "hwaddr" !in unknown {
          return Err(UnknownLacksLiteralKey);
        }
        unknown := unknown - {"hwaddr"};
      }
      effects := effects + [Config(kind, node)];
      if !env.configSucceeds(kind, info, node) {
        return Err(ConfigFailed);
      }
      var attrs: map<string, string> := map[];
      if info.uuid.Some? {
        attrs := attrs[UuidAttr := info.uuid.value];
      }
      if Truthy(cert) {
        attrs := attrs[TlsAttr := env.fingerprint(cert.value)];
      }
      assert attrs == NewAttributes(env, kind, info);
      if attrs != map[] {
        store := Merge(store, node, attrs);
        effects := effects + [Write(node, attrs)];
      }
      return Ok(true);
    }

    method EvalNode(env: Env, kind: HandlerKind, info: Info, node: NodeName) returns (r: Result<(), Fault>)
      requires Valid()
      modifies this
      ensures Valid()
      ensures (View(), r) == EvalNodeSpec(env, old(View()), kind, info, node)
    {
      effects := effects + [Preconfig(kind)];
      if !env.preconfigSucceeds(kind, info) {
        return Err(PreconfigFailed);
      }
      var target := node;
      if info.bay.Some? {
        var nl := BayOccupants(store, node, info.bay.value);
        if |nl| != 1 {
          return Err(AmbiguousEnclosure);
        }
        SingletonMembers(nl);
        target :| target in nl;
      } else if !env.discoverableBySwitch(kind) {
        return Ok(());
      }
      var applied := DiscoverNode(env, kind, info, target);
      if applied == Ok(false) {
        pending := pending[target := info];
      }
      r := if applied.Err? then Err(applied.error) else Ok(());
    }

    method Detected(env: Env, info: Info) returns (r: Result<(), Fault>)
      requires Valid()
      modifies this
      ensures Valid()
      ensures (View(), r) == DetectedSpec(env, old(View()), info)
    {
      DetectedKeepsConsistent(env, View(), info);
      var handler := SelectHandler(info.services);
      if handler.None? {
        return Ok(());  // no registered driver: ignored
      }
      if info.hwaddr.None? {
        return Ok(());  // an address is required to proceed
      }
      var h := info.hwaddr.value;
      if h in known {
        return Ok(());  // a re-announcement
      }
      known := known[h := info];
      var probed := env.probe(handler.value, info);
      if probed.None? {
        return Ok(());  // the probe raised: logged, and the event is dropped
      }
      var enriched := Enrich(info, probed.value);
      known := known[h := enriched];
      var nodename := env.findNodeByMac(h);
      if Truthy(nodename) {
        r := EvalNode(env, handler.value, enriched, nodename.value);
      } else {
        unknown := unknown[h := enriched];
        r := Ok(());
      }
    }

    /** `_recheck_nodes`, returning the jobs it would spawn instead of spawning them. */
    method RecheckNodes(env: Env) returns (jobs: seq<Job>)
      requires Valid()
      ensures forall j :: j in jobs <==> j in SweepJobs(env, View())
      ensures forall i, k | 0 <= i < k < |jobs| :: jobs[i].source != jobs[k].source
    {
      jobs := [];
      var macs := unknown.Keys;
      while macs != {}
        invariant macs <= unknown.Keys
        invariant forall j | j in jobs :: j.source.FromUnknown? && j.source.mac !in macs
        invariant forall j :: j in jobs <==> j in UnknownJobs(env, View()) && j.source.mac !in macs
        invariant forall i, k | 0 <= i < k < |jobs| :: jobs[i].source != jobs[k].source
        decreases macs
      {
        var mac :| mac in macs;
        macs := macs - {mac};
        var info := unknown[mac];
        var nodename := env.findNodeByMac(info.hwaddr.value);
        if Truthy(nodename) {
          var handler := SelectHandler(info.services);
          if handler.Some? {
            jobs := jobs + [Job(FromUnknown(mac), handler.value, info, nodename.value)];
          }
        }
      }
      var fromUnknown := jobs;
      var names := pending.Keys;
      while names != {}
        invariant names <= pending.Keys
        invariant |fromUnknown| <= |jobs| && jobs[..|fromUnknown|] == fromUnknown
        invariant forall j | j in fromUnknown :: j.source.FromUnknown?
        invariant forall j | j in jobs[|fromUnknown|..] :: j.source.FromPending? && j.source.node !in names
        invariant forall j :: j in jobs[|fromUnknown|..] <==> j in PendingJobs(View()) && j.source.node !in names
        invariant forall i, k | 0 <= i < k < |jobs| :: jobs[i].source != jobs[k].source
        decreases names
      {
        var n :| n in names;
        names := names - {n};
        var info := pending[n];
        var handler := SelectHandler(info.services);
        if handler.Some? {
          var job := Job(FromPending(n), handler.value, info, n);
          assert (jobs + [job])[|fromUnknown|..] == jobs[|fromUnknown|..] + [job];
          jobs := jobs + [job];
        }
      }
      assert jobs == fromUnknown + jobs[|fromUnknown|..];
    }
  }

  /** A validated identity record of a discovered device. */
  class DiscoveredNode {
    var uuid: string
    var serial: Option<string>
    var fingerprints: map<string, (string, string)>
    var model: Option<string>
    var modelnumber: Option<string>

    /** The hardware address is accepted but not kept. */
    constructor (uuid: string, serial: Option<string>, hwaddr: Option<HwAddr>, model: Option<string>, modelnumber: Option<string>)
      ensures this.uuid == uuid && this.serial == serial && this.model == model && this.modelnumber == modelnumber
      ensures fingerprints == map[]
    {
      this.uuid := uuid;
      this.serial := serial;
      this.fingerprints := map[];
      this.model := model;
      this.modelnumber := modelnumber;
    }

    method AddFingerprint(kind: string, hashalgo: string, fingerprint: string)
      modifies this
      ensures fingerprints == old(fingerprints)[kind := (hashalgo, fingerprint)]
      ensures forall t | t in old(fingerprints) && t != kind :: t in fingerprints && fingerprints[t] == old(fingerprints)[t]
      ensures uuid == old(uuid) && serial == old(serial) && model == old(model) && modelnumber == old(modelnumber)
    {
      fingerprints := fingerprints[kind := (hashalgo, fingerprint)];
    }
  }
}
