/**
 * Request validators and message shapers: the input messages built from a
 * request body (power state, boot device, attribute updates) and the
 * attribute messages a plugin yields (plain, list and redacted secret
 * values).
 *
 * A request body is a dictionary; an absent body behaves as an empty one,
 * since every use tests it for truth first. Per-node data inside a body can
 * be any value.
 */
module Messages {
  import opened Wrappers
  import opened PyValue

  const PowerStates: set<string> := {"on", "off", "reset", "boot"}
  const BootDevices: set<string> := {"network", "hd", "setup", "default", "cd"}

  // ---------------------------------------------------------------------
  // Spreading a per-node datum over the requested nodes

  /** The first error among `step(n)` for the nodes in order, if any. */
  function FirstError<T>(nodes: seq<string>, step: string -> Result<T, Exc>): (r: Option<Exc>)
    ensures r.None? <==> forall i | 0 <= i < |nodes| :: step(nodes[i]).Ok?
    ensures r.Some? ==> exists i | 0 <= i < |nodes| ::
                          step(nodes[i]) == Err(r.value) && forall j | 0 <= j < i :: step(nodes[j]).Ok?
  {
    if nodes == [] then None
    else if step(nodes[0]).Err? then Some(step(nodes[0]).error)
    else
      var r := FirstError(nodes[1..], step);
      assert forall i | 1 <= i < |nodes| :: nodes[i] == nodes[1..][i - 1];
      if r.Some? then
        var i :| 0 <= i < |nodes[1..]| && step(nodes[1..][i]) == Err(r.value) &&
                 forall j | 0 <= j < i :: step(nodes[1..][j]).Ok?;
        assert step(nodes[i + 1]) == Err(r.value);
        r
      else r
  }

  /** A loop `for node in nodes: bynode[node] = step(node)` that stops at the
      first node whose datum raises. */
  function Spread<T>(nodes: seq<string>, step: string -> Result<T, Exc>): (r: Result<map<string, T>, Exc>)
    ensures r.Ok? <==> forall i | 0 <= i < |nodes| :: step(nodes[i]).Ok?
    ensures r.Ok? ==> (forall n :: n in r.value <==> n in nodes) &&
                      forall n | n in nodes :: r.value[n] == step(n).value
  {
    var e := FirstError(nodes, step);
    if e.Some? then Err(e.value) else Ok(map n | n in nodes :: step(n).value)
  }

  /** The loop itself. */
  method SpreadOver<T>(nodes: seq<string>, step: string -> Result<T, Exc>) returns (r: Result<map<string, T>, Exc>)
    ensures r == Spread(nodes, step)
  {
    var bynode: map<string, T> := map[];
    var i := 0;
    while i < |nodes|
      invariant 0 <= i <= |nodes|
      invariant forall j | 0 <= j < i :: step(nodes[j]).Ok?
      invariant forall n :: n in bynode <==> n in nodes[..i]
      invariant forall n | n in bynode :: bynode[n] == step(n).value
    {
      var datum := step(nodes[i]);
      if datum.Err? {
        SpreadStops(nodes, i, step);
        return Err(datum.error);
      }
      assert nodes[..i + 1] == nodes[..i] + [nodes[i]];
      bynode := bynode[nodes[i] := datum.value];
      i := i + 1;
    }
    assert nodes[..i] == nodes;
    SpreadFinishes(nodes, step, bynode);
    r := Ok(bynode);
  }

  /** The first failing node's error is the one reported. */
  lemma {:induction false} FirstErrorAt<T>(nodes: seq<string>, i: int, step: string -> Result<T, Exc>)
    requires 0 <= i < |nodes| && step(nodes[i]).Err?
    requires forall j | 0 <= j < i :: step(nodes[j]).Ok?
    ensures FirstError(nodes, step) == Some(step(nodes[i]).error)
  {
    if i > 0 {
      assert forall j | 0 <= j < i - 1 :: nodes[1..][j] == nodes[j + 1];
      FirstErrorAt(nodes[1..], i - 1, step);
    }
  }

  lemma SpreadStops<T>(nodes: seq<string>, i: int, step: string -> Result<T, Exc>)
    requires 0 <= i < |nodes| && step(nodes[i]).Err?
    requires forall j | 0 <= j < i :: step(nodes[j]).Ok?
    ensures Spread(nodes, step) == Err(step(nodes[i]).error)
  {
    FirstErrorAt(nodes, i, step);
  }

  lemma SpreadFinishes<T>(nodes: seq<string>, step: string -> Result<T, Exc>, bynode: map<string, T>)
    requires forall j | 0 <= j < |nodes| :: step(nodes[j]).Ok?
    requires forall n :: n in bynode <==> n in nodes
    requires forall n | n in bynode :: bynode[n] == step(n).value
    ensures Spread(nodes, step) == Ok(bynode)
  {
    assert bynode == map n | n in nodes :: step(n).value;
  }

  // ---------------------------------------------------------------------
  // Power state input

  /** The validated `state` of `input[key]` in the per-node form. */
  function PowerDatum(input: map<string, Value>, key: string): (r: Result<string, Exc>)
    ensures r.Ok? <==> key in input && input[key].Dict? && "state" in input[key].entries &&
                       input[key].entries["state"].Str? && input[key].entries["state"].s in PowerStates
    ensures r.Ok? ==> r.value == input[key].entries["state"].s
    ensures key !in input ==> r == Err(InvalidArgument)
    ensures key in input && input[key].Dict? && "state" in input[key].entries &&
            !input[key].entries["state"].List? && !input[key].entries["state"].Dict? && r.Err? ==>
              r == Err(InvalidArgument)
  {
    if key !in input then Err(InvalidArgument)
    else
      var datum := input[key];
      var present :- Contains(datum, "state");
      if !present then Err(InvalidArgument)
      else
        var state :- Index(datum, "state");
        var valid :- InStrSet(state, PowerStates);
        if !valid then Err(InvalidArgument) else Ok(state.s)
  }

  /** `InputPowerMessage.__init__`: the `powerbynode` map, or the raise. */
  function InputPower(nodes: Option<seq<string>>, input: map<string, Value>): (r: Result<map<string, string>, Exc>)
    ensures input == map[] ==> r == Err(InvalidArgument)
    ensures r.Ok? ==> nodes.Some? && r.value.Keys == set n | n in nodes.value
  {
    if input == map[] then Err(InvalidArgument)
    else if "state" !in input then
      if nodes.None? then Err(TypeError)
      else Spread(nodes.value, (key: string) => PowerDatum(input, key))
    else
      var valid :- InStrSet(input["state"], PowerStates);
      if !valid then Err(InvalidArgument)
      else if nodes.None? then Err(TypeError)
      else Spread(nodes.value, (_: string) => Ok(input["state"].s))
  }

  method NewInputPowerMessage(nodes: Option<seq<string>>, input: map<string, Value>) returns (r: Result<map<string, string>, Exc>)
    ensures r == InputPower(nodes, input)
  {
    if input == map[] {
      return Err(InvalidArgument);
    }
    if "state" !in input {
      // the per-node form
      if nodes.None? {
        return Err(TypeError);
      }
      r := SpreadOver(nodes.value, (key: string) => PowerDatum(input, key));
    } else {
      var valid := InStrSet(input["state"], PowerStates);
      if valid.Err? {
        return Err(valid.error);
      }
      if !valid.value {
        return Err(InvalidArgument);
      }
      if nodes.None? {
        return Err(TypeError);
      }
      var state := input["state"].s;
      r := SpreadOver(nodes.value, (_: string) => Ok(state));
    }
  }

  // ---------------------------------------------------------------------
  // Boot device input

  /**
   * The per-node boot datum as the source checks it: it tests the `state`
   * key against the boot devices, and a failed test names an exception the
   * exceptions module lacks, so it raises AttributeError. The device itself
   * is taken unchecked from `nextdevice`.
   */
  function BootDatum(input: map<string, Value>, key: string): (r: Result<Value, Exc>)
    ensures key !in input ==> r == Err(InvalidArgument)
    ensures r.Ok? ==> key in input && input[key].Dict? && "nextdevice" in input[key].entries &&
                      r.value == input[key].entries["nextdevice"]
  {
    if key !in input then Err(InvalidArgument)
    else
      var datum := input[key];
      var present :- Contains(datum, "state");
      if !present then Err(AttributeError)
      else
        var state :- Index(datum, "state");
        var valid :- InStrSet(state, BootDevices);
        if !valid then Err(AttributeError) else Index(datum, "nextdevice")
  }

  /** `InputBootDevice.__init__`: the `bootdevbynode` map, or the raise. */
  function InputBoot(nodes: Option<seq<string>>, input: map<string, Value>): (r: Result<map<string, Value>, Exc>)
    ensures input == map[] ==> r == Err(InvalidArgument)
    ensures r.Ok? ==> nodes.Some? && r.value.Keys == set n | n in nodes.value
  {
    if input == map[] then Err(InvalidArgument)
    else if "nextdevice" !in input then
      if nodes.None? then Err(TypeError)
      else Spread(nodes.value, (key: string) => BootDatum(input, key))
    else
      var valid :- InStrSet(input["nextdevice"], BootDevices);
      if !valid then Err(InvalidArgument)
      else if nodes.None? then Err(TypeError)
      else Spread(nodes.value, (_: string) => Ok(input["nextdevice"]))
  }

  method NewInputBootDevice(nodes: Option<seq<string>>, input: map<string, Value>) returns (r: Result<map<string, Value>, Exc>)
    ensures r == InputBoot(nodes, input)
  {
    if input == map[] {
      return Err(InvalidArgument);
    }
    if "nextdevice" !in input {
      if nodes.None? {
        return Err(TypeError);
      }
      r := SpreadOver(nodes.value, (key: string) => BootDatum(input, key));
    } else {
      var valid := InStrSet(input["nextdevice"], BootDevices);
      if valid.Err? {
        return Err(valid.error);
      }
      if !valid.value {
        return Err(InvalidArgument);
      }
      if nodes.None? {
        return Err(TypeError);
      }
      var device := input["nextdevice"];
      r := SpreadOver(nodes.value, (_: string) => Ok(device));
    }
  }

  // ---------------------------------------------------------------------
  // Attribute input

  /**
   * The state of an `InputAttributes` object as a value. Without nodes the
   * body is kept as `attribs`. With nodes, `nodeattribs` maps each requested
   * node to one dict: in the flat form every node in `sharedBy` maps to the
   * SAME dict `shared` (one object, aliased), in the per-node form node `n`
   * maps to its own value `own[n]`.
   */
  datatype AttrInput = AttrInput(
    attribs: Option<map<string, Value>>,
    sharedBy: set<string>,
    shared: map<string, Value>,
    own: map<string, Value>)
  {
    predicate Wellformed() { sharedBy !! own.Keys }
  }

  predicate Requests(nodes: seq<string>, input: map<string, Value>) {
    exists i | 0 <= i < |nodes| :: nodes[i] in input
  }

  /** `InputAttributes.__init__`. */
  function InputAttributesSpec(nodes: Option<seq<string>>, input: map<string, Value>): (r: Result<AttrInput, Exc>)
    ensures r.Ok? ==> r.value.Wellformed()
    ensures input == map[] ==> r == Err(InvalidArgument)
    // without nodes the body is classified and kept as `attribs`
    ensures input != map[] && nodes.None? ==> r == Ok(AttrInput(Some(ClassifyAll(input)), {}, map[], map[]))
    // per-node form: every key must be a requested node, and each keeps its own datum
    ensures input != map[] && nodes.Some? && Requests(nodes.value, input) ==>
              (r.Ok? <==> forall k | k in input :: k in nodes.value) &&
              (r.Ok? ==> r.value.attribs.None? && r.value.sharedBy == {} && r.value.own.Keys <= input.Keys &&
                         (forall n | n in input :: n in r.value.own && r.value.own[n] == input[n]))
    // flat form: every requested node designates the one body
    ensures input != map[] && nodes.Some? && !Requests(nodes.value, input) ==>
              r.Ok? && r.value.attribs.None? && r.value.sharedBy == (set n | n in nodes.value) &&
              r.value.shared == input && r.value.own == map[]
  {
    if input == map[] then Err(InvalidArgument)
    else if nodes.None? then Ok(AttrInput(Some(ClassifyAll(input)), {}, map[], map[]))
    else
      var ns := nodes.value;
      if Requests(ns, input) then
        if exists k | k in input :: k !in ns then Err(InvalidArgument)
        else Ok(AttrInput(None, {}, map[], map n | n in ns && n in input :: input[n]))
      else Ok(AttrInput(None, (set n | n in ns), input, map[]))
  }

  /** The flat form with a copy of the body per node, so that what is done
      to one node's attributes cannot reach another's. */
  function InputAttributesCopied(nodes: Option<seq<string>>, input: map<string, Value>): (r: Result<AttrInput, Exc>)
    ensures r.Ok? <==> InputAttributesSpec(nodes, input).Ok?
    ensures r.Ok? ==> r.value.Wellformed() && r.value.sharedBy == {}
    ensures nodes.None? || Requests(nodes.value, input) ==> r == InputAttributesSpec(nodes, input)
    // flat form: each requested node has its own copy of the body
    ensures r.Ok? && nodes.Some? && !Requests(nodes.value, input) ==>
              r.value.attribs.None? && r.value.own.Keys == (set n | n in nodes.value) &&
              forall n | n in r.value.own :: r.value.own[n] == Dict(input)
  {
    var r := InputAttributesSpec(nodes, input);
    if r.Ok? && nodes.Some? && !Requests(nodes.value, input) then
      Ok(AttrInput(None, {}, map[], map n | n in nodes.value :: Dict(input)))
    else r
  }

  /** Iterating this value yields nothing, so formatting its members is a no-op. */
  predicate EmptyIterable(v: Value) {
    v == Str("") || v == List([]) || v == StrSet({})
  }

  /** `get_attributes(node)`: the new object state and the returned value. */
  function GetAttributesSpec(a: AttrInput, node: string): (res: (AttrInput, Result<Value, Exc>))
    ensures res.0.Wellformed() == a.Wellformed()
    ensures res.0.attribs == a.attribs && res.0.sharedBy == a.sharedBy && res.0.own.Keys == a.own.Keys
    ensures node !in a.sharedBy && node !in a.own ==> res == (a, Ok(Dict(map[])))
    ensures res.1.Ok? ==> res.1.value.Dict? || EmptyIterable(res.1.value)
    ensures res.1.Err? ==> res.0 == a
    // the dict the node designates is classified in place and returned
    ensures node in a.sharedBy ==> res == (a.(shared := ClassifyAll(a.shared)), Ok(Dict(ClassifyAll(a.shared))))
    ensures node !in a.sharedBy && node in a.own && a.own[node].Dict? ==>
              var d := ClassifyAll(a.own[node].entries);
              res == (a.(own := a.own[node := Dict(d)]), Ok(Dict(d)))
  {
    if node in a.sharedBy then
      var d := ClassifyAll(a.shared);
      (a.(shared := d), Ok(Dict(d)))
    else if node in a.own then
      var v := a.own[node];
      if v.Dict? then
        var d := ClassifyAll(v.entries);
        (a.(own := a.own[node := Dict(d)]), Ok(Dict(d)))
      else if EmptyIterable(v) then (a, Ok(v))
      else (a, Err(TypeError))
    else (a, Ok(Dict(map[])))
  }

  /** `del nodeattr[k]` for each `k` in `keys`, on the dict `node` maps to. */
  function DeleteSpec(a: AttrInput, node: string, keys: set<string>): (r: AttrInput)
    ensures r.Wellformed() == a.Wellformed()
    ensures r.attribs == a.attribs && r.sharedBy == a.sharedBy && r.own.Keys == a.own.Keys
    ensures CurrentAttributes(r, node) == CurrentAttributes(a, node) - keys
    // every node designating the same dict sees the deletion, and no other node does
    ensures node in a.sharedBy ==> forall m | m in a.sharedBy :: CurrentAttributes(r, m) == a.shared - keys
    ensures forall m | m != node && !(m in a.sharedBy && node in a.sharedBy) ::
              CurrentAttributes(r, m) == CurrentAttributes(a, m)
  {
    if node in a.sharedBy then a.(shared := a.shared - keys)
    else if node in a.own && a.own[node].Dict? then a.(own := a.own[node := Dict(a.own[node].entries - keys)])
    else a
  }

  function DeleteBodySpec(a: AttrInput, keys: set<string>): AttrInput {
    if a.attribs.Some? then a.(attribs := Some(a.attribs.value - keys)) else a
  }

  /** The dict the object's `nodeattribs[node]` currently designates. */
  function CurrentAttributes(a: AttrInput, node: string): map<string, Value> {
    if node in a.sharedBy then a.shared
    else if node in a.own && a.own[node].Dict? then a.own[node].entries
    else map[]
  }

  /** Rewrites every string value of `d` in place as the intake does. */
  method ClassifyEach(d: map<string, Value>) returns (r: map<string, Value>)
    ensures r == ClassifyAll(d)
  {
    r := d;
    var pending := d.Keys;
    while pending != {}
      invariant pending <= d.Keys && r.Keys == d.Keys
      invariant forall k | k in d :: r[k] == if k in pending then d[k] else Classify(d[k])
      decreases pending
    {
      var k :| k in pending;
      r := r[k := Classify(r[k])];
      pending := pending - {k};
    }
  }

  class InputAttributes {
    var attribs: Option<map<string, Value>>
    var sharedBy: set<string>
    var shared: map<string, Value>
    var own: map<string, Value>

    function View(): AttrInput
      reads this
    {
      AttrInput(attribs, sharedBy, shared, own)
    }

    constructor FromValue(a: AttrInput)
      ensures View() == a
    {
      attribs, sharedBy, shared, own := a.attribs, a.sharedBy, a.shared, a.own;
    }

    /** The constructor of the source, which may raise; in the flat form
        each requested node is given a copy of the body (`InputAttributesCopied`). */
    static method Create(nodes: Option<seq<string>>, input: map<string, Value>) returns (r: Result<InputAttributes, Exc>)
      ensures r.Ok? <==> InputAttributesCopied(nodes, input).Ok?
      ensures r.Ok? ==> fresh(r.value) && r.value.View() == InputAttributesCopied(nodes, input).value
      ensures r.Err? ==> r.error == InputAttributesCopied(nodes, input).error
    {
      if input == map[] {
        return Err(InvalidArgument);
      }
      if nodes.None? {
        var formatted := ClassifyEach(input);
        var ia := new InputAttributes.FromValue(AttrInput(Some(formatted), {}, map[], map[]));
        return Ok(ia);
      }
      var ns := nodes.value;
      var nested := false;
      var own: map<string, Value> := map[];
      var i := 0;
      while i < |ns|
        invariant 0 <= i <= |ns|
        invariant nested <==> exists j | 0 <= j < i :: ns[j] in input
        invariant own == map n | n in ns[..i] && n in input :: input[n]
      {
        assert ns[..i + 1] == ns[..i] + [ns[i]];
        if ns[i] in input {
          nested := true;
          own := own[ns[i] := input[ns[i]]];
        }
        i := i + 1;
      }
      assert ns[..i] == ns;
      if nested {
        var keys := input.Keys;
        while keys != {}
          invariant keys <= input.Keys
          invariant forall k | k in input && k !in keys :: k in ns
          decreases keys
        {
          var k :| k in keys;
          if k !in ns {
            return Err(InvalidArgument);
          }
          keys := keys - {k};
        }
        var ia := new InputAttributes.FromValue(AttrInput(None, {}, map[], own));
        return Ok(ia);
      }
      var copies: map<string, Value> := map[];
      i := 0;
      while i < |ns|
        invariant 0 <= i <= |ns|
        invariant copies == map n | n in ns[..i] :: Dict(input)
      {
        assert ns[..i + 1] == ns[..i] + [ns[i]];
        copies := copies[ns[i] := Dict(input)];
        i := i + 1;
      }
      assert ns[..i] == ns;
      var ia := new InputAttributes.FromValue(AttrInput(None, {}, map[], copies));
      return Ok(ia);
    }

    method GetAttributes(node: string) returns (r: Result<Value, Exc>)
      modifies this
      ensures (View(), r) == GetAttributesSpec(old(View()), node)
    {
      if node in sharedBy {
        shared := ClassifyEach(shared);
        return Ok(Dict(shared));
      }
      if node !in own {
        return Ok(Dict(map[]));
      }
      var v := own[node];
      if v.Dict? {
        var d := ClassifyEach(v.entries);
        own := own[node := Dict(d)];
        return Ok(Dict(d));
      }
      if EmptyIterable(v) {
        return Ok(v);
      }
      return Err(TypeError);
    }

    /** `del attribs[k]` for each `k` in `keys`, on the node-less body. */
    method DeleteBodyKeys(keys: set<string>)
      modifies this
      ensures View() == DeleteBodySpec(old(View()), keys)
    {
      if attribs.Some? {
        attribs := Some(attribs.value - keys);
      }
    }

    method DeleteKeys(node: string, keys: set<string>)
      modifies this
      ensures View() == DeleteSpec(old(View()), node, keys)
    {
      if node in sharedBy {
        shared := shared - keys;
      } else if node in own && own[node].Dict? {
        own := own[node := Dict(own[node].entries - keys)];
      }
    }
  }

  // ---------------------------------------------------------------------
  // Dispatch

  datatype InputMessage =
    | PowerInput(powerbynode: map<string, string>)
    | AttributeInput(attributes: AttrInput)
    | BootInput(bootdevbynode: map<string, Value>)

  function MapResult<T, U>(r: Result<T, Exc>, f: T -> U): Result<U, Exc> {
    if r.Ok? then Ok(f(r.value)) else Err(r.error)
  }

  /** `get_input_message`. */
  function GetInputMessage(path: seq<string>, operation: string, input: map<string, Value>, nodes: Option<seq<string>>): (r: Result<Option<InputMessage>, Exc>)
    ensures path == [] ==> r == Err(IndexError)
    ensures |path| >= 2 && path[0] == "power" && path[1] == "state" && operation != "retrieve" ==>
              r == MapResult(InputPower(nodes, input), (m: map<string, string>) => Some(PowerInput(m)))
    ensures path != [] && path[0] == "attributes" && operation != "retrieve" ==>
              r == MapResult(InputAttributesCopied(nodes, input), (a: AttrInput) => Some(AttributeInput(a)))
    ensures path == ["boot", "nextdevice"] && operation != "retrieve" ==>
              r == MapResult(InputBoot(nodes, input), (m: map<string, Value>) => Some(BootInput(m)))
    ensures operation == "retrieve" && path != [] && !(path[0] == "power" && |path| < 2) ==>
              r == (if input != map[] then Err(InvalidArgument) else Ok(None))
    ensures path != [] && path[0] == "power" && |path| < 2 ==> r == Err(IndexError)
    ensures path != [] && !(path[0] == "power" && |path| < 2) &&
            !(path[0] == "power" && path[1] == "state" && operation != "retrieve") &&
            !(path[0] == "attributes" && operation != "retrieve") &&
            !(path == ["boot", "nextdevice"] && operation != "retrieve") ==>
              r == (if input != map[] then Err(InvalidArgument) else Ok(None))
    ensures r == Ok(None) ==> input == map[]
  {
    if path == [] then Err(IndexError)
    else if path[0] == "power" && |path| < 2 then Err(IndexError)
    else if path[0] == "power" && path[1] == "state" && operation != "retrieve" then
      MapResult(InputPower(nodes, input), (m: map<string, string>) => Some(PowerInput(m)))
    else if path[0] == "attributes" && operation != "retrieve" then
      MapResult(InputAttributesCopied(nodes, input), (a: AttrInput) => Some(AttributeInput(a)))
    else if path == ["boot", "nextdevice"] && operation != "retrieve" then
      MapResult(InputBoot(nodes, input), (m: map<string, Value>) => Some(BootInput(m)))
    else if input != map[] then Err(InvalidArgument)
    else Ok(None)
  }

  /** `powerstate(node)` of an `InputPowerMessage` and `bootdevice(node)` of
      an `InputBootDevice`: the datum validated for that node. */
  function ByNode<T>(bynode: map<string, T>, node: string): (r: Result<T, Exc>)
    ensures r.Ok? <==> node in bynode
    ensures r.Ok? ==> r.value == bynode[node]
    ensures r.Err? ==> r.error == KeyError
  {
    if node in bynode then Ok(bynode[node]) else Err(KeyError)
  }

  // ---------------------------------------------------------------------
  // Output messages

  datatype MsgKind = AttributesKind | ListAttributesKind | CryptedAttributesKind | PowerStateKind | BootDeviceKind

  /** A message: its class, its `kvpairs` and its description. */
  datatype Message = Message(kind: MsgKind, kvpairs: Value, desc: string)

  function UnderNode(node: Option<string>, kv: map<string, Value>): Value {
    if node.Some? then Dict(map[node.value := Dict(kv)]) else Dict(kv)
  }

  /** `Attributes`: each string value becomes `{'value': v}`. */
  function WrapStrings(kv: map<string, Value>): (r: map<string, Value>)
    ensures r.Keys == kv.Keys
    ensures forall k | k in kv && kv[k].Str? :: r[k] == Dict(map["value" := kv[k]])
    ensures forall k | k in kv && !kv[k].Str? :: r[k] == kv[k]
  {
    map k | k in kv :: if kv[k].Str? then Dict(map["value" := kv[k]]) else kv[k]
  }

  /** How an `Attributes` message shows one value. */
  function Shown(v: Value): Value {
    if v.Str? then Dict(map["value" := v]) else v
  }

  function AttributesMsg(node: Option<string>, kv: map<string, Value>, desc: string): (r: Message)
    ensures r.kind == AttributesKind && r.desc == desc
    ensures node.None? ==> r.kvpairs == Dict(WrapStrings(kv))
    ensures node.Some? ==> r.kvpairs == Dict(map[node.value := Dict(WrapStrings(kv))])
    ensures forall k | k in kv :: WrapStrings(kv)[k] == Shown(kv[k])
  {
    Message(AttributesKind, UnderNode(node, WrapStrings(kv)), desc)
  }

  method NewAttributes(node: Option<string>, kv: map<string, Value>, desc: string) returns (m: Message)
    ensures m == AttributesMsg(node, kv, desc)
  {
    var nkv: map<string, Value> := map[];
    var keys := kv.Keys;
    while keys != {}
      invariant keys <= kv.Keys
      invariant nkv.Keys == kv.Keys - keys
      invariant forall k | k in nkv :: nkv[k] == WrapStrings(kv)[k]
      decreases keys
    {
      var key :| key in keys;
      if kv[key].Str? {
        nkv := nkv[key := Dict(map["value" := kv[key]])];
      } else {
        nkv := nkv[key := kv[key]];
      }
      keys := keys - {key};
    }
    assert nkv == WrapStrings(kv);
    m := Message(AttributesKind, UnderNode(node, nkv), desc);
  }

  /** `ListAttributes`: the values are kept as they are. */
  function ListAttributesMsg(node: Option<string>, kv: map<string, Value>, desc: string): (r: Message)
    ensures r.kind == ListAttributesKind && r.desc == desc
    ensures node.None? ==> r.kvpairs == Dict(kv)
    ensures node.Some? ==> r.kvpairs == Dict(map[node.value := Dict(kv)])
  {
    Message(ListAttributesKind, UnderNode(node, kv), desc)
  }

  /** True when the stored secret counts as set. */
  predicate SecretIsSet(v: Value) {
    v.Dict? && "cryptvalue" in v.entries && v.entries["cryptvalue"] != Str("")
  }

  /** The redacted form of one secret: only whether it is set, and where it
      is inherited from when it is set. */
  function Redact(v: Value): (r: Result<Value, Exc>)
    ensures r.Err? <==> !v.PyNone? && !v.Dict?
    ensures r.Err? ==> r.error == TypeError
    ensures r.Ok? ==> r.value.Dict? && "isset" in r.value.entries && "cryptvalue" !in r.value.entries
    ensures r.Ok? ==> (r.value.entries["isset"] == Bool(true) <==> SecretIsSet(v))
    ensures r.Ok? ==> r.value.entries.Keys <= {"isset", "inheritedfrom"}
  {
    if v.PyNone? then Ok(Dict(map["isset" := Bool(false)]))
    else match Index(v, "cryptvalue")
      case Err(e) => if e == KeyError then Ok(Dict(map["isset" := Bool(false)])) else Err(e)
      case Ok(cv) =>
        if cv == Str("") then Ok(Dict(map["isset" := Bool(false)]))
        else match Index(v, "inheritedfrom")
          case Err(_) => Ok(Dict(map["isset" := Bool(true)]))
          case Ok(from) => Ok(Dict(map["isset" := Bool(true), "inheritedfrom" := from]))
  }

  /** `CryptedAttributes`: a secret that is neither None nor a dict makes
      the constructor raise. */
  function CryptedAttributesMsg(node: Option<string>, kv: map<string, Value>, desc: string): (r: Result<Message, Exc>)
    ensures r.Ok? <==> forall k | k in kv :: kv[k].PyNone? || kv[k].Dict?
    ensures r.Err? ==> r.error == TypeError
  {
    if exists k | k in kv :: Redact(kv[k]).Err? then Err(TypeError)
    else Ok(Message(CryptedAttributesKind, UnderNode(node, map k | k in kv :: Redact(kv[k]).value), desc))
  }

  /** An `Attributes` message about one attribute holds that attribute's
      value as shown. */
  lemma AttributesOfOne(node: Option<string>, a: string, v: Value, desc: string)
    ensures AttributesMsg(node, map[a := v], desc) == Message(AttributesKind, UnderNode(node, map[a := Shown(v)]), desc)
  {
    assert WrapStrings(map[a := v]) == map[a := Shown(v)];
  }

  /** A `CryptedAttributes` message about one attribute holds that
      attribute's redacted form, or the constructor raises. */
  lemma CryptedOfOne(node: Option<string>, a: string, v: Value, desc: string)
    ensures CryptedAttributesMsg(node, map[a := v], desc) ==
            if Redact(v).Ok? then Ok(Message(CryptedAttributesKind, UnderNode(node, map[a := Redact(v).value]), desc))
            else Err(TypeError)
  {
    var kv := map[a := v];
    if Redact(v).Ok? {
      assert forall k | k in kv :: k == a;
      assert (map k | k in kv :: Redact(kv[k]).value) == map[a := Redact(v).value];
    } else {
      assert a in kv && Redact(kv[a]).Err?;
    }
  }

  method NewCryptedAttributes(node: Option<string>, kv: map<string, Value>, desc: string) returns (r: Result<Message, Exc>)
    ensures r == CryptedAttributesMsg(node, kv, desc)
  {
    var nkv: map<string, Value> := map[];
    var keys := kv.Keys;
    while keys != {}
      invariant keys <= kv.Keys
      invariant nkv.Keys == kv.Keys - keys
      invariant forall k | k in nkv :: Redact(kv[k]).Ok? && nkv[k] == Redact(kv[k]).value
      decreases keys
    {
      var key :| key in keys;
      var redacted := Redact(kv[key]);
      if redacted.Err? {
        return Err(redacted.error);
      }
      nkv := nkv[key := redacted.value];
      keys := keys - {key};
    }
    assert nkv == map k | k in kv :: Redact(kv[k]).value;
    r := Ok(Message(CryptedAttributesKind, UnderNode(node, nkv), desc));
  }

  /** `PowerState(node, state)`. */
  function PowerStateMsg(node: string, state: string): (r: Message)
    ensures r.kind == PowerStateKind && r.kvpairs.Dict? && r.kvpairs.entries.Keys == {node}
    ensures r.kvpairs.entries[node] == Dict(map["state" := Dict(map["value" := Str(state)])])
  {
    Message(PowerStateKind, Dict(map[node := Dict(map["state" := Dict(map["value" := Str(state)])])]), "")
  }

  /** `BootDevice(node, device)`. */
  function BootDeviceMsg(node: string, device: string): (r: Result<Message, Exc>)
    ensures r.Ok? <==> device in BootDevices
    ensures r.Ok? ==> r.value.kvpairs == Dict(map[node := Dict(map["nextdevice" := Dict(map["value" := Str(device)])])])
    ensures r.Err? ==> r.error == Failure("Invalid boot device argument passed in:" + device)
  {
    if device !in BootDevices then Err(Failure("Invalid boot device argument passed in:" + device))
    else Ok(Message(BootDeviceKind, Dict(map[node := Dict(map["nextdevice" := Dict(map["value" := Str(device)])])]), ""))
  }

  /** `strip_node(node)`: replaces `kvpairs` by its entry for `node`. */
  function StripNode(m: Message, node: string): (r: Result<Message, Exc>)
    ensures r.Ok? <==> m.kvpairs.Dict? && node in m.kvpairs.entries
    ensures r.Ok? ==> r.value == m.(kvpairs := m.kvpairs.entries[node])
    ensures r.Err? ==> r.error == (if m.kvpairs.Dict? then KeyError else TypeError)
  {
    var inner :- Index(m.kvpairs, node);
    Ok(m.(kvpairs := inner))
  }
}
