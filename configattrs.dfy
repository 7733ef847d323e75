/**
 * The attribute configuration plugin: reading node and node-group
 * attributes into attribute messages, and applying an attribute update by
 * splitting it into attributes to clear (given as None) and attributes to
 * set. The configuration manager is an abstract store that records every
 * clear and set it is asked for.
 */
module ConfigAttributes {
  import opened Wrappers
  import opened PyValue
  import opened StrOrder
  import opened Messages

  /** The attribute schema: each attribute it defines, with the definition's
      description when it has one. */
  type Schema = map<string, Option<string>>

  /** `schema.get(a, {}).get('description', '')`. */
  function Description(schema: Schema, a: string): string {
    if a in schema && schema[a].Some? then schema[a].value else ""
  }

  /** `schema[a]['description']`, which raises when either lookup misses. */
  function StrictDescription(schema: Schema, a: string): (r: Result<string, Exc>)
    ensures r.Ok? <==> a in schema && schema[a].Some?
    ensures r.Ok? ==> r.value == Description(schema, a)
    ensures r.Err? ==> r.error == KeyError
  {
    if a in schema && schema[a].Some? then Ok(schema[a].value) else Err(KeyError)
  }

  predicate StartsWith(s: string, prefix: string) {
    |prefix| <= |s| && s[..|prefix|] == prefix
  }

  const SecretPrefix: string := "secret."
  const NodesDescription: string := "The nodes belonging to this group"
  const NoderangeDescription: string := "A dynamic noderange that this group refers to in noderange expansion"

  /** An attribute message about exactly one attribute `a` (of `node`, when
      one is given). */
  predicate About(m: Message, node: Option<string>, a: string) {
    m.kvpairs.Dict? &&
    if node.Some? then
      m.kvpairs.entries.Keys == {node.value} && m.kvpairs.entries[node.value].Dict? &&
      m.kvpairs.entries[node.value].entries.Keys == {a}
    else m.kvpairs.entries.Keys == {a}
  }

  // ---------------------------------------------------------------------
  // The configuration manager

  datatype Call =
    | ClearNode(node: string, cleared: set<string>)
    | SetNodes(updates: map<string, map<string, Value>>)
    | ClearGroup(group: string, cleared: set<string>)
    | SetGroup(group: string, values: map<string, Value>)

  /** The manager's state: attributes per node and per group, the known
      groups, whether the collective has quorum, and the calls made. */
  datatype Store = Store(
    nodeAttrs: map<string, map<string, Value>>,
    groupAttrs: map<string, map<string, Value>>,
    groups: set<string>,
    quorum: bool,
    calls: seq<Call>)

  /** When the manager refuses a set with ValueError. */
  datatype Checks = Checks(
    nodesRefused: map<string, map<string, Value>> -> bool,
    groupRefused: (string, map<string, Value>) -> bool)

  function Merge(base: map<string, map<string, Value>>, updates: map<string, map<string, Value>>): map<string, map<string, Value>> {
    map n | n in base.Keys + updates.Keys ::
      (if n in base then base[n] else map[]) + (if n in updates then updates[n] else map[])
  }

  function AfterClearNode(s: Store, node: string, attrs: set<string>): Store {
    s.(nodeAttrs := if node in s.nodeAttrs then s.nodeAttrs[node := s.nodeAttrs[node] - attrs] else s.nodeAttrs,
       calls := s.calls + [ClearNode(node, attrs)])
  }

  /** The store after a node set, and whether it was accepted. */
  function AfterSetNodes(s: Store, checks: Checks, updates: map<string, map<string, Value>>): (Store, bool) {
    var s1 := s.(calls := s.calls + [SetNodes(updates)]);
    if checks.nodesRefused(updates) then (s1, false) else (s1.(nodeAttrs := Merge(s.nodeAttrs, updates)), true)
  }

  function AfterClearGroup(s: Store, group: string, attrs: set<string>): Store {
    s.(groupAttrs := if group in s.groupAttrs then s.groupAttrs[group := s.groupAttrs[group] - attrs] else s.groupAttrs,
       calls := s.calls + [ClearGroup(group, attrs)])
  }

  function AfterSetGroup(s: Store, checks: Checks, group: string, attrs: map<string, Value>): (Store, bool) {
    var s1 := s.(calls := s.calls + [SetGroup(group, attrs)]);
    if checks.groupRefused(group, attrs) then (s1, false)
    else (s1.(groupAttrs := Merge(s.groupAttrs, map[group := attrs]), groups := s.groups + {group}), true)
  }

  /** `get_node_attributes(nodes)`: the stored attributes of the requested
      nodes that exist. */
  function NodeAttributes(s: Store, nodes: seq<string>): map<string, map<string, Value>> {
    map n | n in nodes && n in s.nodeAttrs :: s.nodeAttrs[n]
  }

  /** `get_nodegroup_attributes(group)` with its KeyError turned into
      NotFound for a group that does not exist. */
  function GroupConfig(s: Store, group: string): (r: Result<map<string, Value>, Exc>)
    ensures r.Ok? <==> group in s.groupAttrs
    ensures group !in s.groupAttrs && group !in s.groups ==>
              r == Err(NotFound("Invalid nodegroup: " + group + " not found"))
  {
    if group in s.groupAttrs then Ok(s.groupAttrs[group])
    else if group !in s.groups then Err(NotFound("Invalid nodegroup: " + group + " not found"))
    else Err(KeyError)
  }

  // ---------------------------------------------------------------------
  // Collecting a generator's messages

  /** One message per item, stopping at the first item that raises. */
  function MapMsgs<T>(xs: seq<T>, f: T -> Result<Message, Exc>): (r: Result<seq<Message>, Exc>)
    ensures r.Ok? <==> forall i | 0 <= i < |xs| :: f(xs[i]).Ok?
    ensures r.Ok? ==> |r.value| == |xs| && forall i | 0 <= i < |xs| :: r.value[i] == f(xs[i]).value
    decreases |xs|
  {
    if xs == [] then Ok([])
    else
      var init := xs[..|xs| - 1];
      assert forall i | 0 <= i < |init| :: init[i] == xs[i];
      var front :- MapMsgs(init, f);
      var last :- f(xs[|xs| - 1]);
      Ok(front + [last])
  }

  /** The messages of all items in order, stopping at the first that raises. */
  function FlatMapMsgs<T>(xs: seq<T>, f: T -> Result<seq<Message>, Exc>): (r: Result<seq<Message>, Exc>)
    ensures r.Ok? <==> forall i | 0 <= i < |xs| :: f(xs[i]).Ok?
    decreases |xs|
  {
    if xs == [] then Ok([])
    else
      var init := xs[..|xs| - 1];
      assert forall i | 0 <= i < |init| :: init[i] == xs[i];
      var front :- FlatMapMsgs(init, f);
      var last :- f(xs[|xs| - 1]);
      Ok(front + last)
  }

  // ---------------------------------------------------------------------
  // Reading node attributes

  /** What `'all'` reports for an attribute of `node`. */
  function AllEntry(schema: Schema, node: string, attrs: map<string, Value>, a: string): (r: Result<Message, Exc>)
    ensures r.Ok? ==> About(r.value, Some(node), a)
    ensures StartsWith(a, SecretPrefix) && r.Ok? ==> r.value.kind == CryptedAttributesKind
    ensures !StartsWith(a, SecretPrefix) ==> r.Ok?
    ensures !StartsWith(a, SecretPrefix) && a in attrs ==>
              r.value.kind == (if attrs[a].List? then ListAttributesKind else AttributesKind)
    ensures !StartsWith(a, SecretPrefix) && a !in attrs && a == "groups" ==>
              r.value == Message(ListAttributesKind, Dict(map[node := Dict(map["groups" := List([])])]), Description(schema, a))
    ensures !StartsWith(a, SecretPrefix) && a !in attrs && a != "groups" ==>
              r.value == Message(AttributesKind, Dict(map[node := Dict(map[a := Dict(map["value" := PyNone])])]), Description(schema, a))
    ensures r.Ok? ==> r.value.desc == Description(schema, a)
    ensures !StartsWith(a, SecretPrefix) && a in attrs ==>
              r.value.kvpairs == Dict(map[node := Dict(map[a := Shown(attrs[a])])])
    ensures StartsWith(a, SecretPrefix) && a in attrs ==> (r.Ok? <==> attrs[a].PyNone? || attrs[a].Dict?)
    ensures StartsWith(a, SecretPrefix) && a in attrs && r.Ok? ==>
              Redact(attrs[a]).Ok? && r.value.kvpairs == Dict(map[node := Dict(map[a := Redact(attrs[a]).value])])
    ensures StartsWith(a, SecretPrefix) && a !in attrs ==>
              r == Ok(Message(CryptedAttributesKind, Dict(map[node := Dict(map[a := Dict(map["isset" := Bool(false)])])]), Description(schema, a)))
  {
    var val := if a in attrs then attrs[a] else if a == "groups" then List([]) else Dict(map["value" := PyNone]);
    var desc := Description(schema, a);
    var kv := map[a := val];
    AttributesOfOne(Some(node), a, val, desc);
    CryptedOfOne(Some(node), a, val, desc);
    if StartsWith(a, SecretPrefix) then CryptedAttributesMsg(Some(node), kv, desc)
    else if val.List? then Ok(ListAttributesMsg(Some(node), kv, desc))
    else Ok(AttributesMsg(Some(node), kv, desc))
  }

  /** The attributes `'all'` walks for a node: those of the schema and those
      set on the node, in ascending order. */
  function AllNames(schema: Schema, attrs: map<string, Value>): seq<string> {
    Sorted(schema.Keys + attrs.Keys)
  }

  /** `'all'` for one node: one message per name, about that name. */
  function AllForNode(schema: Schema, attributes: map<string, map<string, Value>>, node: string): (r: Result<seq<Message>, Exc>)
    ensures node !in attributes ==> r == Err(KeyError)
    ensures r.Ok? ==> |r.value| == |AllNames(schema, attributes[node])|
    ensures r.Ok? ==> forall i | 0 <= i < |r.value| ::
                        AllEntry(schema, node, attributes[node], AllNames(schema, attributes[node])[i]) == Ok(r.value[i])
  {
    if node !in attributes then Err(KeyError)
    else
      var attrs := attributes[node];
      MapMsgs(AllNames(schema, attrs), (a: string) => AllEntry(schema, node, attrs, a))
  }

  /** What `'current'` reports for attribute `a` of `node` set to `v`. */
  function CurrentEntry(schema: Schema, node: string, a: string, v: Value): (r: Result<seq<Message>, Exc>)
    ensures v.PyNone? ==> r == Ok([])
    ensures r.Ok? ==> |r.value| <= 1 && forall i | 0 <= i < |r.value| :: About(r.value[i], Some(node), a)
    ensures v.Bool? || v.Int? ==> r == Err(TypeError)
    ensures v.Dict? && ("value" in v.entries || "expression" in v.entries) ==>
              r == Ok([AttributesMsg(Some(node), map[a := v], Description(schema, a))])
    ensures v.Dict? && "value" !in v.entries && "expression" !in v.entries && "cryptvalue" in v.entries ==>
              r.Ok? && |r.value| == 1 && r.value[0].kind == CryptedAttributesKind
    ensures v.Dict? && "value" !in v.entries && "expression" !in v.entries && "cryptvalue" in v.entries ==>
              r == Ok([Message(CryptedAttributesKind, Dict(map[node := Dict(map[a := Redact(v).value])]), Description(schema, a))])
    ensures v.Dict? && "value" !in v.entries && "expression" !in v.entries && "cryptvalue" !in v.entries ==>
              r == Err(Failure("BUGGY ATTRIBUTE FOR NODE"))
    ensures v.List? && Str("value") !in v.items && Str("expression") !in v.items && Str("cryptvalue") !in v.items ==>
              r == Ok([ListAttributesMsg(Some(node), map[a := v], Description(schema, a))])
    ensures v.Str? && !IsSubstring("value", v.s) && !IsSubstring("expression", v.s) && !IsSubstring("cryptvalue", v.s) ==>
              r == Ok([AttributesMsg(Some(node), map[a := v], Description(schema, a))])
  {
    if v.PyNone? then Ok([])
    else
      var desc := Description(schema, a);
      var hasValue :- Contains(v, "value");
      if hasValue || Contains(v, "expression").value then Ok([AttributesMsg(Some(node), map[a := v], desc)])
      else
        if Contains(v, "cryptvalue").value then
          CryptedOfOne(Some(node), a, v, desc);
          var m :- CryptedAttributesMsg(Some(node), map[a := v], desc);
          Ok([m])
        else if v.List? then Ok([ListAttributesMsg(Some(node), map[a := v], desc)])
        else if v.Str? then Ok([AttributesMsg(Some(node), map[a := v], desc)])
        else Err(Failure("BUGGY ATTRIBUTE FOR NODE"))
  }

  /** `'current'` for one node: its set attributes in ascending order. */
  function CurrentForNode(schema: Schema, attrs: map<string, Value>, node: string): (r: Result<seq<Message>, Exc>) {
    FlatMapMsgs(Sorted(attrs.Keys), (a: string) => if a in attrs then CurrentEntry(schema, node, a, attrs[a]) else Ok([]))
  }

  /** `'all'` for the nodes in the order given. */
  function AllForNodes(schema: Schema, attributes: map<string, map<string, Value>>, order: seq<string>): (r: Result<seq<Message>, Exc>)
    ensures r.Ok? <==> forall i | 0 <= i < |order| :: AllForNode(schema, attributes, order[i]).Ok?
    ensures (exists i | 0 <= i < |order| :: order[i] !in attributes) ==> r.Err?
  {
    FlatMapMsgs(order, (n: string) => AllForNode(schema, attributes, n))
  }

  /** `'current'` for the nodes in the order given; a name without
      attributes raises KeyError. */
  function CurrentForNodes(schema: Schema, attributes: map<string, map<string, Value>>, order: seq<string>): (r: Result<seq<Message>, Exc>)
    ensures r.Ok? <==> forall i | 0 <= i < |order| ::
                         order[i] in attributes && CurrentForNode(schema, attributes[order[i]], order[i]).Ok?
  {
    var f := (n: string) => if n in attributes then CurrentForNode(schema, attributes[n], n) else Err(KeyError);
    assert forall n :: f(n).Ok? <==> n in attributes && CurrentForNode(schema, attributes[n], n).Ok?;
    FlatMapMsgs(order, f)
  }

  /** `retrieve_nodes`, the nodes visited in the order `natSort` gives:
      `'all'` for every requested node, `'current'` for the requested nodes
      the store holds. */
  function RetrieveNodes(schema: Schema, natSort: seq<string> -> seq<string>, s: Store, nodes: seq<string>, element: seq<string>): (r: Result<seq<Message>, Exc>)
    ensures element == [] ==> r == Err(IndexError)
    ensures element != [] && element[|element| - 1] != "all" && element[|element| - 1] != "current" ==> r == Ok([])
    ensures element != [] && element[|element| - 1] == "all" ==>
              r == AllForNodes(schema, NodeAttributes(s, nodes), natSort(nodes))
    ensures (element != [] && element[|element| - 1] == "all" &&
             exists i | 0 <= i < |natSort(nodes)| :: natSort(nodes)[i] !in s.nodeAttrs) ==> r.Err?
    ensures element != [] && element[|element| - 1] == "current" ==>
              r == CurrentForNodes(schema, NodeAttributes(s, nodes), natSort(Sorted(NodeAttributes(s, nodes).Keys)))
  {
    var attributes := NodeAttributes(s, nodes);
    if element == [] then Err(IndexError)
    else if element[|element| - 1] == "all" then
      var order := natSort(nodes);
      assert forall i | 0 <= i < |order| && order[i] !in s.nodeAttrs :: order[i] !in attributes;
      AllForNodes(schema, attributes, order)
    else if element[|element| - 1] == "current" then CurrentForNodes(schema, attributes, natSort(Sorted(attributes.Keys)))
    else Ok([])
  }

  // ---------------------------------------------------------------------
  // Reading node-group attributes

  /** A list of the given strings in ascending order. */
  function SortedList(e: set<string>): (r: Value)
    ensures r.List? && |r.items| == |e|
    ensures forall i | 0 <= i < |r.items| :: r.items[i].Str? && r.items[i].s in e
    ensures forall x | x in e :: Str(x) in r.items
    ensures forall i, j | 0 <= i < j < |r.items| :: r.items[i].Str? && r.items[j].Str? && Lt(r.items[i].s, r.items[j].s)
  {
    var names := Sorted(e);
    var items := seq(|names|, i requires 0 <= i < |names| => Str(names[i]));
    assert forall x | x in e :: Str(x) in items by {
      forall x | x in e ensures Str(x) in items {
        var i :| 0 <= i < |names| && names[i] == x;
        assert items[i] == Str(x);
      }
    }
    List(items)
  }

  /** `list(v)`; the members of a set or the keys of a dict in ascending order. */
  function ToList(v: Value): (r: Result<Value, Exc>)
    ensures r.Ok? ==> r.value.List?
    ensures v.List? ==> r == Ok(v)
    ensures v.StrSet? ==> r == Ok(SortedList(v.elems))
    ensures v.Dict? ==> r == Ok(SortedList(v.entries.Keys))
    ensures v.Str? ==> r.Ok? && |r.value.items| == |v.s| && forall i | 0 <= i < |v.s| :: r.value.items[i] == Str([v.s[i]])
    ensures r.Err? <==> v.PyNone? || v.Bool? || v.Int?
    ensures r.Err? ==> r.error == TypeError
  {
    match v
    case List(_) => Ok(v)
    case StrSet(e) => Ok(SortedList(e))
    case Dict(d) => Ok(SortedList(d.Keys))
    case Str(t) => Ok(List(seq(|t|, i requires 0 <= i < |t| => Str([t[i]]))))
    case _ => Err(TypeError)
  }

  /** What `'all'` reports for attribute `a` of a group. */
  function GroupAllEntry(schema: Schema, grpcfg: map<string, Value>, a: string): (r: Result<seq<Message>, Exc>)
    ensures a == "groups" ==> r == Ok([])
    ensures r.Ok? ==> |r.value| <= 1 && forall i | 0 <= i < |r.value| :: About(r.value[i], None, a)
    ensures a == "nodes" && r.Ok? ==> |r.value| == 1 && r.value[0].kind == ListAttributesKind && r.value[0].desc == NodesDescription
    ensures a == "nodes" && "nodes" !in grpcfg ==> r == Ok([ListAttributesMsg(None, map["nodes" := List([])], NodesDescription)])
    ensures a != "groups" && a != "nodes" && r.Ok? ==> |r.value| == 1
    ensures a != "groups" && a != "nodes" && !StartsWith(a, SecretPrefix) ==> r.Ok?
    ensures a == "nodes" && "nodes" in grpcfg ==>
              (r.Ok? <==> ToList(grpcfg["nodes"]).Ok?) &&
              (r.Ok? ==> r.value == [ListAttributesMsg(None, map["nodes" := ToList(grpcfg["nodes"]).value], NodesDescription)])
    ensures a != "groups" && a != "nodes" && !StartsWith(a, SecretPrefix) ==>
              r.value[0].desc == Description(schema, a) &&
              r.value[0].kvpairs == Dict(map[a := if a in grpcfg then Shown(grpcfg[a]) else Dict(map["value" := PyNone])])
    ensures StartsWith(a, SecretPrefix) && StrictDescription(schema, a).Err? ==> r == Err(KeyError)
    ensures StartsWith(a, SecretPrefix) && r.Ok? ==>
              r.value[0].kind == CryptedAttributesKind && r.value[0].desc == Description(schema, a)
    ensures StartsWith(a, SecretPrefix) && a in grpcfg && r.Ok? ==>
              Redact(grpcfg[a]).Ok? && r.value[0].kvpairs == Dict(map[a := Redact(grpcfg[a]).value])
  {
    if a == "groups" then Ok([])
    else if a == "nodes" then GroupNodesEntry(grpcfg)
    else GroupValueEntry(schema, grpcfg, a)
  }

  /** What `'all'` reports for `nodes`: the group's members as a list. */
  function GroupNodesEntry(grpcfg: map<string, Value>): (r: Result<seq<Message>, Exc>)
    ensures r.Ok? ==> |r.value| == 1 && About(r.value[0], None, "nodes") &&
                      r.value[0].kind == ListAttributesKind && r.value[0].desc == NodesDescription
    ensures "nodes" !in grpcfg ==> r == Ok([ListAttributesMsg(None, map["nodes" := List([])], NodesDescription)])
    ensures "nodes" in grpcfg ==>
              (r.Ok? <==> ToList(grpcfg["nodes"]).Ok?) &&
              (r.Ok? ==> r.value == [ListAttributesMsg(None, map["nodes" := ToList(grpcfg["nodes"]).value], NodesDescription)])
  {
    var members :- ToList(if "nodes" in grpcfg then grpcfg["nodes"] else List([]));
    Ok([ListAttributesMsg(None, map["nodes" := members], NodesDescription)])
  }

  /** What `'all'` reports for a group attribute other than `groups` and
      `nodes`: its setting, or a blank. */
  function GroupValueEntry(schema: Schema, grpcfg: map<string, Value>, a: string): (r: Result<seq<Message>, Exc>)
    ensures r.Ok? ==> |r.value| == 1 && About(r.value[0], None, a)
    ensures !StartsWith(a, SecretPrefix) ==>
              r.Ok? && r.value[0].desc == Description(schema, a) &&
              r.value[0].kvpairs == Dict(map[a := if a in grpcfg then Shown(grpcfg[a]) else Dict(map["value" := PyNone])])
    ensures StartsWith(a, SecretPrefix) && StrictDescription(schema, a).Err? ==> r == Err(KeyError)
    ensures StartsWith(a, SecretPrefix) && r.Ok? ==>
              r.value[0].kind == CryptedAttributesKind && r.value[0].desc == Description(schema, a)
    ensures StartsWith(a, SecretPrefix) && a in grpcfg && r.Ok? ==>
              Redact(grpcfg[a]).Ok? && r.value[0].kvpairs == Dict(map[a := Redact(grpcfg[a]).value])
  {
    var val := if a in grpcfg then grpcfg[a] else Dict(map["value" := PyNone]);
    AttributesOfOne(None, a, val, Description(schema, a));
    CryptedOfOne(None, a, val, Description(schema, a));
    if StartsWith(a, SecretPrefix) then
      var desc :- StrictDescription(schema, a);
      var m :- CryptedAttributesMsg(None, map[a := val], desc);
      Ok([m])
    else if val.List? then Ok([ListAttributesMsg(None, map[a := val], Description(schema, a))])
    else Ok([AttributesMsg(None, map[a := val], Description(schema, a))])
  }


  function GroupAllStep(schema: Schema, grpcfg: map<string, Value>): string -> Result<seq<Message>, Exc> {
    (a: string) => GroupAllEntry(schema, grpcfg, a)
  }

  /** The names `'all'` walks for a group. */
  function GroupAllNames(schema: Schema, grpcfg: map<string, Value>): seq<string> {
    Sorted(schema.Keys + grpcfg.Keys + {"nodes"})
  }

  function GroupDescription(schema: Schema, a: string): string {
    if a == "nodes" then NodesDescription
    else if a == "noderange" then NoderangeDescription
    else Description(schema, a)
  }

  /** What `'current'` reports for attribute `a` of a group set to `v`. */
  function GroupCurrentEntry(schema: Schema, a: string, v: Value): (r: Result<seq<Message>, Exc>)
    ensures r.Ok? ==> |r.value| == 1 && About(r.value[0], None, a)
    ensures v.PyNone? || v.Bool? || v.Int? ==> r == Err(TypeError)
    ensures v.Dict? && "value" !in v.entries && "expression" !in v.entries && "cryptvalue" !in v.entries ==>
              r == Err(Failure("BUGGY ATTRIBUTE FOR NODEGROUP"))
    ensures v.StrSet? && "value" !in v.elems && "expression" !in v.elems && "cryptvalue" !in v.elems ==>
              r.Ok? && r.value[0].kind == ListAttributesKind
    ensures v.Dict? && ("value" in v.entries || "expression" in v.entries) ==>
              r == Ok([AttributesMsg(None, map[a := v], GroupDescription(schema, a))])
    ensures r.Ok? ==> r.value[0].desc == GroupDescription(schema, a)
    ensures r.Ok? && r.value[0].kind == CryptedAttributesKind ==>
              Redact(v).Ok? && r.value[0].kvpairs == Dict(map[a := Redact(v).value])
    ensures r.Ok? && r.value[0].kind == ListAttributesKind && v.StrSet? ==>
              r.value[0].kvpairs == Dict(map[a := SortedList(v.elems)])
    ensures r.Ok? && r.value[0].kind != CryptedAttributesKind && !(r.value[0].kind == ListAttributesKind && v.StrSet?) ==>
              r.value[0].kvpairs == Dict(map[a := Shown(v)])
  {
    var desc := GroupDescription(schema, a);
    AttributesOfOne(None, a, v, desc);
    CryptedOfOne(None, a, v, desc);
    var hasValue :- Contains(v, "value");
    if hasValue || Contains(v, "expression").value then Ok([AttributesMsg(None, map[a := v], desc)])
    else
      if Contains(v, "cryptvalue").value then
        var m :- CryptedAttributesMsg(None, map[a := v], desc);
        Ok([m])
      else if v.StrSet? then Ok([ListAttributesMsg(None, map[a := SortedList(v.elems)], desc)])
      else if v.List? then Ok([ListAttributesMsg(None, map[a := v], desc)])
      else Err(Failure("BUGGY ATTRIBUTE FOR NODEGROUP"))
  }

  /** `'all'` for a group: every schema attribute, every attribute the
      group sets, and `nodes`, each reported as `GroupAllEntry` says. */
  function GroupAll(schema: Schema, grpcfg: map<string, Value>): (r: Result<seq<Message>, Exc>)
    ensures r.Ok? <==> forall a | a in schema.Keys + grpcfg.Keys + {"nodes"} :: GroupAllEntry(schema, grpcfg, a).Ok?
  {
    var names := GroupAllNames(schema, grpcfg);
    assert forall a :: a in names <==> a in schema.Keys + grpcfg.Keys + {"nodes"};
    FlatMapMsgs(names, GroupAllStep(schema, grpcfg))
  }

  /** `'current'` for a group: its set attributes in ascending order. */
  function GroupCurrent(schema: Schema, grpcfg: map<string, Value>): (r: Result<seq<Message>, Exc>)
    ensures r.Ok? <==> forall a | a in grpcfg :: GroupCurrentEntry(schema, a, grpcfg[a]).Ok?
  {
    var names := Sorted(grpcfg.Keys);
    var f := (a: string) => if a in grpcfg then GroupCurrentEntry(schema, a, grpcfg[a]) else Ok([]);
    assert forall a :: a in names <==> a in grpcfg;
    FlatMapMsgs(names, f)
  }

  /** `retrieve_nodegroup`. */
  function RetrieveNodegroup(schema: Schema, s: Store, group: string, element: string): (r: Result<seq<Message>, Exc>)
    ensures group !in s.groupAttrs ==> r == Err(GroupConfig(s, group).error)
    ensures group in s.groupAttrs && element != "all" && element != "current" ==> r == Ok([])
    ensures group in s.groupAttrs && element == "all" ==> r == GroupAll(schema, s.groupAttrs[group])
    ensures group in s.groupAttrs && element == "current" ==> r == GroupCurrent(schema, s.groupAttrs[group])
  {
    var grpcfg :- GroupConfig(s, group);
    if element == "all" then GroupAll(schema, grpcfg)
    else if element == "current" then GroupCurrent(schema, grpcfg)
    else Ok([])
  }

  /** `retrieve`: the quorum check comes first; a request that is neither
      for nodes nor for a node group yields no generator at all. */
  function Retrieve(schema: Schema, natSort: seq<string> -> seq<string>, s: Store, nodes: Option<seq<string>>, element: seq<string>): (r: Result<Option<seq<Message>>, Exc>)
    ensures !s.quorum ==> r == Err(NoQuorum)
    ensures s.quorum && nodes.Some? ==>
              r == (var g := RetrieveNodes(schema, natSort, s, nodes.value, element); if g.Ok? then Ok(Some(g.value)) else Err(g.error))
    ensures s.quorum && nodes.None? && element == [] ==> r == Err(IndexError)
    ensures s.quorum && nodes.None? && element != [] && element[0] == "nodegroups" && |element| < 4 ==> r == Err(IndexError)
    ensures s.quorum && nodes.None? && |element| >= 4 && element[0] == "nodegroups" ==>
              r == (var g := RetrieveNodegroup(schema, s, element[1], element[3]); if g.Ok? then Ok(Some(g.value)) else Err(g.error))
    ensures s.quorum && nodes.None? && element != [] && element[0] != "nodegroups" ==> r == Ok(None)
  {
    if !s.quorum then Err(NoQuorum)
    else if nodes.Some? then
      var msgs :- RetrieveNodes(schema, natSort, s, nodes.value, element);
      Ok(Some(msgs))
    else if element == [] then Err(IndexError)
    else if element[0] == "nodegroups" then
      if |element| < 4 then Err(IndexError)
      else
        var msgs :- RetrieveNodegroup(schema, s, element[1], element[3]);
        Ok(Some(msgs))
    else Ok(None)
  }

  // ---------------------------------------------------------------------
  // Updating

  /** The attributes given as None. */
  function NoneKeys(d: map<string, Value>): set<string> {
    set k | k in d && d[k].PyNone?
  }

  method CollectNoneKeys(d: map<string, Value>) returns (clear: set<string>)
    ensures clear == NoneKeys(d)
  {
    clear := {};
    var pending := d.Keys;
    while pending != {}
      invariant pending <= d.Keys
      invariant clear == set k | k in d && k !in pending && d[k].PyNone?
      decreases pending
    {
      var k :| k in pending;
      if d[k].PyNone? {
        clear := clear + {k};
      }
      pending := pending - {k};
    }
  }

  /** The state `update_nodes` carries from node to node: the store, the
      input object, and the nodes put in `updatedict` so far. The entries of
      `updatedict` are the object's own dicts, so their contents are read
      only when the set is made. */
  datatype Pass = Pass(store: Store, input: AttrInput, updated: set<string>)

  /** One iteration of the loop of `update_nodes`, and the exception it raises. */
  function NodeStep(p: Pass, node: string): (res: (Pass, Option<Exc>))
    ensures res.0.input.Wellformed() == p.input.Wellformed()
    ensures res.0.input.sharedBy == p.input.sharedBy && res.0.input.own.Keys == p.input.own.Keys
    ensures res.0.updated == p.updated || res.0.updated == p.updated + {node}
    ensures res.1.Some? ==> res.0 == p
  {
    var (a1, got) := GetAttributesSpec(p.input, node);
    if got.Err? then (p, Some(got.error))
    else if !Truthy(got.value) then (p.(input := a1), None)
    else
      assert got.value.Dict?;
      var clear := NoneKeys(got.value.entries);
      if clear == {} then (Pass(p.store, a1, p.updated + {node}), None)
      else (Pass(AfterClearNode(p.store, node, clear), DeleteSpec(a1, node, clear), p.updated + {node}), None)
  }

  /** The loop of `update_nodes` over `nodes`, stopping at an exception. */
  function Sweep(p: Pass, nodes: seq<string>): (res: (Pass, Option<Exc>))
    decreases |nodes|
  {
    if nodes == [] then (p, None)
    else
      var (q, e) := Sweep(p, nodes[..|nodes| - 1]);
      if e.Some? then (q, e) else NodeStep(q, nodes[|nodes| - 1])
  }

  /** What `update_nodes` hands to the set: the current contents of each
      updated node's dict. */
  function UpdateDict(p: Pass): map<string, map<string, Value>> {
    map n | n in p.updated :: CurrentAttributes(p.input, n)
  }

  /** `update_nodes`: the new store, the new input object, and the result. */
  function UpdateNodesSpec(checks: Checks, schema: Schema, natSort: seq<string> -> seq<string>,
                           s: Store, a: AttrInput, nodes: seq<string>, element: seq<string>): (Store, AttrInput, Result<Option<seq<Message>>, Exc>) {
    var (p, e) := Sweep(Pass(s, a, {}), nodes);
    if e.Some? then (p.store, p.input, Err(e.value))
    else
      var (s2, accepted) := AfterSetNodes(p.store, checks, UpdateDict(p));
      if !accepted then (s2, p.input, Err(InvalidArgument))
      else (s2, p.input, Retrieve(schema, natSort, s2, Some(nodes), element))
  }

  /** `update_nodegroup`; it returns the group's generator without the
      quorum check that `retrieve` makes. */
  function UpdateNodegroupSpec(checks: Checks, schema: Schema, s: Store, a: AttrInput, group: string, element: string): (Store, AttrInput, Result<seq<Message>, Exc>) {
    if a.attribs.None? then (s, a, Err(AttributeError))
    else
      var clear := NoneKeys(a.attribs.value);
      var a2 := DeleteBodySpec(a, clear);
      var s1 := if clear != {} then AfterClearGroup(s, group, clear) else s;
      var (s2, accepted) := AfterSetGroup(s1, checks, group, a2.attribs.value);
      if !accepted then (s2, a2, Err(InvalidArgument))
      else (s2, a2, RetrieveNodegroup(schema, s2, group, element))
  }

  /** `update`. */
  function UpdateSpec(checks: Checks, schema: Schema, natSort: seq<string> -> seq<string>,
                      s: Store, a: AttrInput, nodes: Option<seq<string>>, element: seq<string>): (Store, AttrInput, Result<Option<seq<Message>>, Exc>) {
    if nodes.Some? then UpdateNodesSpec(checks, schema, natSort, s, a, nodes.value, element)
    else if element != [] && element[0] == "nodegroups" then
      if |element| < 4 then (s, a, Err(IndexError))
      else
        var (s2, a2, r) := UpdateNodegroupSpec(checks, schema, s, a, element[1], element[3]);
        (s2, a2, if r.Ok? then Ok(Some(r.value)) else Err(r.error))
    else if element == [] then (s, a, Err(IndexError))
    else (s, a, Err(Failure("This line should never be reached")))
  }

  /** The loop's next iteration: the sweep over one node more. */
  lemma SweepNext(p: Pass, nodes: seq<string>, i: int)
    requires 0 <= i < |nodes| && Sweep(p, nodes[..i]).1.None?
    ensures Sweep(p, nodes[..i + 1]) == NodeStep(Sweep(p, nodes[..i]).0, nodes[i])
  {
    assert nodes[..i + 1][..i] == nodes[..i];
  }

  lemma {:induction false} SweepStops(p: Pass, xs: seq<string>, ys: seq<string>)
    requires Sweep(p, xs).1.Some?
    ensures Sweep(p, xs + ys) == Sweep(p, xs)
    decreases |ys|
  {
    if ys != [] {
      var init := ys[..|ys| - 1];
      assert (xs + ys)[..|xs + ys| - 1] == xs + init;
      SweepStops(p, xs, init);
    } else {
      assert xs + ys == xs;
    }
  }

  class ConfigManager {
    var nodeAttrs: map<string, map<string, Value>>
    var groupAttrs: map<string, map<string, Value>>
    var groups: set<string>
    var quorum: bool
    var calls: seq<Call>

    function View(): Store
      reads this
    {
      Store(nodeAttrs, groupAttrs, groups, quorum, calls)
    }

    constructor (s: Store)
      ensures View() == s
    {
      nodeAttrs, groupAttrs, groups, quorum, calls := s.nodeAttrs, s.groupAttrs, s.groups, s.quorum, s.calls;
    }

    method ClearNodeAttributes(node: string, attrs: set<string>)
      modifies this
      ensures View() == AfterClearNode(old(View()), node, attrs)
    {
      if node in nodeAttrs {
        nodeAttrs := nodeAttrs[node := nodeAttrs[node] - attrs];
      }
      calls := calls + [ClearNode(node, attrs)];
    }

    method SetNodeAttributes(checks: Checks, updates: map<string, map<string, Value>>) returns (accepted: bool)
      modifies this
      ensures (View(), accepted) == AfterSetNodes(old(View()), checks, updates)
    {
      calls := calls + [SetNodes(updates)];
      accepted := !checks.nodesRefused(updates);
      if accepted {
        nodeAttrs := Merge(nodeAttrs, updates);
      }
    }

    method ClearGroupAttributes(group: string, attrs: set<string>)
      modifies this
      ensures View() == AfterClearGroup(old(View()), group, attrs)
    {
      if group in groupAttrs {
        groupAttrs := groupAttrs[group := groupAttrs[group] - attrs];
      }
      calls := calls + [ClearGroup(group, attrs)];
    }

    method SetGroupAttributes(checks: Checks, group: string, attrs: map<string, Value>) returns (accepted: bool)
      modifies this
      ensures (View(), accepted) == AfterSetGroup(old(View()), checks, group, attrs)
    {
      calls := calls + [SetGroup(group, attrs)];
      accepted := !checks.groupRefused(group, attrs);
      if accepted {
        groupAttrs := Merge(groupAttrs, map[group := attrs]);
        groups := groups + {group};
      }
    }

    method UpdateNodes(checks: Checks, schema: Schema, natSort: seq<string> -> seq<string>,
                       nodes: seq<string>, element: seq<string>, inputdata: InputAttributes)
      returns (r: Result<Option<seq<Message>>, Exc>)
      modifies this, inputdata
      ensures (View(), inputdata.View(), r) ==
              UpdateNodesSpec(checks, schema, natSort, old(View()), old(inputdata.View()), nodes, element)
    {
      var updated, err := SweepNodes(nodes, inputdata);
      if err.Some? {
        return Err(err.value);
      }
      var updates := map n | n in updated :: CurrentAttributes(inputdata.View(), n);
      r := SetThenRetrieve(checks, schema, natSort, nodes, element, updates);
    }

    /** The loop of `update_nodes`: each node's None keys are cleared and
        its remaining attributes kept for the one set that follows. */
    method SweepNodes(nodes: seq<string>, inputdata: InputAttributes) returns (updated: set<string>, err: Option<Exc>)
      modifies this, inputdata
      ensures (Pass(View(), inputdata.View(), updated), err) == Sweep(Pass(old(View()), old(inputdata.View()), {}), nodes)
    {
      ghost var p0 := Pass(View(), inputdata.View(), {});
      updated := {};
      var i := 0;
      while i < |nodes|
        invariant 0 <= i <= |nodes|
        invariant Sweep(p0, nodes[..i]) == (Pass(View(), inputdata.View(), updated), None)
      {
        var node := nodes[i];
        ghost var before := Pass(View(), inputdata.View(), updated);
        SweepNext(p0, nodes, i);
        updated, err := UpdateNode(node, updated, inputdata);
        if err.Some? {
          assert Sweep(p0, nodes[..i + 1]) == (before, err);
          SweepStops(p0, nodes[..i + 1], nodes[i + 1..]);
          assert nodes[..i + 1] + nodes[i + 1..] == nodes;
          return;
        }
        i := i + 1;
      }
      assert nodes[..i] == nodes;
      err := None;
    }

    /** The end of `update_nodes`: one set for all updated nodes, then the
        generator of `retrieve` when the set is accepted. */
    method SetThenRetrieve(checks: Checks, schema: Schema, natSort: seq<string> -> seq<string>,
                           nodes: seq<string>, element: seq<string>, updates: map<string, map<string, Value>>)
      returns (r: Result<Option<seq<Message>>, Exc>)
      modifies this
      ensures View() == AfterSetNodes(old(View()), checks, updates).0
      ensures r == if AfterSetNodes(old(View()), checks, updates).1
                   then Retrieve(schema, natSort, View(), Some(nodes), element) else Err(InvalidArgument)
    {
      var accepted := SetNodeAttributes(checks, updates);
      if !accepted {
        return Err(InvalidArgument);
      }
      r := Retrieve(schema, natSort, View(), Some(nodes), element);
    }

    /** One iteration of the loop of `update_nodes`. */
    method UpdateNode(node: string, updated: set<string>, inputdata: InputAttributes)
      returns (updated': set<string>, err: Option<Exc>)
      modifies this, inputdata
      ensures (Pass(View(), inputdata.View(), updated'), err) ==
              NodeStep(Pass(old(View()), old(inputdata.View()), updated), node)
    {
      var got := inputdata.GetAttributes(node);
      if got.Err? {
        return updated, Some(got.error);
      }
      var v := got.value;
      updated' := updated;
      if Truthy(v) {
        var clear := CollectNoneKeys(v.entries);
        if clear != {} {
          inputdata.DeleteKeys(node, clear);
          ClearNodeAttributes(node, clear);
        }
        updated' := updated + {node};
      }
      err := None;
    }

    method UpdateNodegroup(checks: Checks, schema: Schema, group: string, element: string, inputdata: InputAttributes)
      returns (r: Result<seq<Message>, Exc>)
      modifies this, inputdata
      ensures (View(), inputdata.View(), r) ==
              UpdateNodegroupSpec(checks, schema, old(View()), old(inputdata.View()), group, element)
    {
      if inputdata.attribs.None? {
        return Err(AttributeError);
      }
      var clear := CollectNoneKeys(inputdata.attribs.value);
      inputdata.DeleteBodyKeys(clear);
      if clear != {} {
        ClearGroupAttributes(group, clear);
      }
      var accepted := SetGroupAttributes(checks, group, inputdata.attribs.value);
      if !accepted {
        return Err(InvalidArgument);
      }
      r := RetrieveNodegroup(schema, View(), group, element);
    }

    method Update(checks: Checks, schema: Schema, natSort: seq<string> -> seq<string>,
                  nodes: Option<seq<string>>, element: seq<string>, inputdata: InputAttributes)
      returns (r: Result<Option<seq<Message>>, Exc>)
      modifies this, inputdata
      ensures (View(), inputdata.View(), r) ==
              UpdateSpec(checks, schema, natSort, old(View()), old(inputdata.View()), nodes, element)
    {
      if nodes.Some? {
        r := UpdateNodes(checks, schema, natSort, nodes.value, element, inputdata);
      } else if element != [] && element[0] == "nodegroups" {
        if |element| < 4 {
          return Err(IndexError);
        }
        var g := UpdateNodegroup(checks, schema, element[1], element[3], inputdata);
        r := if g.Ok? then Ok(Some(g.value)) else Err(g.error);
      } else if element == [] {
        r := Err(IndexError);
      } else {
        r := Err(Failure("This line should never be reached"));
      }
    }
  }
}
