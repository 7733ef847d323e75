/** Properties of the request validators and message shapers. */
module MessagesProps {
  import opened Wrappers
  import opened PyValue
  import opened Messages

  // ---------------------------------------------------------------------
  // Power state

  /** Flat form: the one state must be valid, and then every requested node
      maps to it. */
  lemma PowerFlat(ns: seq<string>, input: map<string, Value>)
    requires "state" in input
    ensures InputPower(Some(ns), input).Ok? <==> input["state"].Str? && input["state"].s in PowerStates
    ensures InputPower(Some(ns), input).Ok? ==>
              InputPower(Some(ns), input).value == map n | n in ns :: input["state"].s
    ensures input["state"].Str? && input["state"].s !in PowerStates ==>
              InputPower(Some(ns), input) == Err(InvalidArgument)
  {
    var r := InputPower(Some(ns), input);
    if r.Ok? {
      assert r.value == map n | n in ns :: input["state"].s;
    }
  }

  /** Per-node form: every requested node must carry a dict with a valid
      `state`, and then the keys are exactly the requested nodes. */
  lemma PowerPerNode(ns: seq<string>, input: map<string, Value>)
    requires input != map[] && "state" !in input
    ensures InputPower(Some(ns), input).Ok? <==>
              forall n | n in ns :: n in input && input[n].Dict? && "state" in input[n].entries &&
                                    input[n].entries["state"].Str? && input[n].entries["state"].s in PowerStates
    ensures InputPower(Some(ns), input).Ok? ==>
              var m := InputPower(Some(ns), input).value;
              (forall n :: n in m <==> n in ns) &&
              forall n | n in ns :: m[n] == input[n].entries["state"].s
  {
    var step := (key: string) => PowerDatum(input, key);
    assert InputPower(Some(ns), input) == Spread(ns, step);
    if forall n | n in ns :: n in input && input[n].Dict? && "state" in input[n].entries &&
                             input[n].entries["state"].Str? && input[n].entries["state"].s in PowerStates {
      assert forall i | 0 <= i < |ns| :: step(ns[i]).Ok?;
    }
    if InputPower(Some(ns), input).Ok? {
      forall n | n in ns
        ensures n in input && input[n].Dict? && "state" in input[n].entries &&
                input[n].entries["state"].Str? && input[n].entries["state"].s in PowerStates
      {
        var i :| 0 <= i < |ns| && ns[i] == n;
        assert step(ns[i]).Ok?;
      }
    }
  }

  /** Whatever the form, an accepted request answers `powerstate(n)` with a
      valid state for every requested node and raises for any other. */
  lemma PowerAnswersRequestedNodes(ns: seq<string>, input: map<string, Value>)
    requires InputPower(Some(ns), input).Ok?
    ensures forall n | n in ns :: ByNode(InputPower(Some(ns), input).value, n).Ok? &&
                                  ByNode(InputPower(Some(ns), input).value, n).value in PowerStates
    ensures forall n | n !in ns :: ByNode(InputPower(Some(ns), input).value, n) == Err(KeyError)
  {
    if "state" in input {
      PowerFlat(ns, input);
    } else {
      PowerPerNode(ns, input);
    }
  }

  /** The same for `bootdevice(n)`: a device for every requested node, and
      KeyError for any other. */
  lemma BootAnswersRequestedNodes(ns: seq<string>, input: map<string, Value>)
    requires InputBoot(Some(ns), input).Ok?
    ensures forall n | n in ns :: ByNode(InputBoot(Some(ns), input).value, n).Ok?
    ensures forall n | n !in ns :: ByNode(InputBoot(Some(ns), input).value, n) == Err(KeyError)
  {
  }

  /** Without a node list the power request cannot be spread. */
  lemma PowerNeedsNodes(input: map<string, Value>)
    requires input != map[]
    ensures InputPower(None, input).Err?
  {
  }

  // ---------------------------------------------------------------------
  // Boot device

  /** Flat form: the one device must be valid, and then every requested node
      maps to it. */
  lemma BootFlat(ns: seq<string>, input: map<string, Value>)
    requires "nextdevice" in input
    ensures InputBoot(Some(ns), input).Ok? <==> input["nextdevice"].Str? && input["nextdevice"].s in BootDevices
    ensures InputBoot(Some(ns), input).Ok? ==>
              InputBoot(Some(ns), input).value == map n | n in ns :: input["nextdevice"]
  {
    var r := InputBoot(Some(ns), input);
    if r.Ok? {
      assert r.value == map n | n in ns :: input["nextdevice"];
    }
  }

  /** Per-node form as written: a datum that names its device under
      `nextdevice` but has no `state` key is refused with AttributeError,
      the exception the misspelled name produces. */
  lemma BootPerNodeDemandsState(ns: seq<string>, input: map<string, Value>)
    requires "nextdevice" !in input && ns != [] && ns[0] in input
    requires input[ns[0]].Dict? && "state" !in input[ns[0]].entries
    ensures InputBoot(Some(ns), input) == Err(AttributeError)
  {
    var step := (key: string) => BootDatum(input, key);
    assert step(ns[0]) == Err(AttributeError);
    assert InputBoot(Some(ns), input) == Spread(ns, step);
  }

  /** A device outside the closed set has no boot-device message. */
  lemma BootDeviceClosed(node: string, device: string)
    requires device !in BootDevices
    ensures BootDeviceMsg(node, device).Err?
  {
  }

  // ---------------------------------------------------------------------
  // Attribute input

  /** Flat form: every requested node designates the same map, so a key
      deleted through one node is gone for all of them. */
  lemma AttributesFlatShared(ns: seq<string>, input: map<string, Value>, n1: string, n2: string, keys: set<string>)
    requires input != map[] && !Requests(ns, input)
    requires n1 in ns && n2 in ns
    ensures InputAttributesSpec(Some(ns), input).Ok?
    ensures var a := InputAttributesSpec(Some(ns), input).value;
            CurrentAttributes(a, n1) == input &&
            GetAttributesSpec(a, n1).1 == Ok(Dict(ClassifyAll(input))) &&
            CurrentAttributes(DeleteSpec(a, n1, keys), n2) == input - keys
  {
  }

  /** Flat form with a copy per node: every requested node starts from the
      whole body, and a key deleted through one node stays for the others. */
  lemma AttributesFlatCopied(ns: seq<string>, input: map<string, Value>, n1: string, n2: string, keys: set<string>)
    requires input != map[] && !Requests(ns, input)
    requires n1 in ns && n2 in ns && n1 != n2
    ensures InputAttributesCopied(Some(ns), input).Ok?
    ensures var a := InputAttributesCopied(Some(ns), input).value;
            CurrentAttributes(a, n1) == input &&
            GetAttributesSpec(a, n1).1 == Ok(Dict(ClassifyAll(input))) &&
            CurrentAttributes(DeleteSpec(a, n1, keys), n2) == input
  {
  }

  /** Per-node form: accepted exactly when every key is a requested node,
      and then each node keeps its own datum. */
  lemma AttributesPerNode(ns: seq<string>, input: map<string, Value>)
    requires Requests(ns, input)
    ensures InputAttributesSpec(Some(ns), input).Ok? <==> forall k | k in input :: k in ns
    ensures InputAttributesSpec(Some(ns), input).Ok? ==>
              var a := InputAttributesSpec(Some(ns), input).value;
              a.sharedBy == {} && a.own == input
    ensures InputAttributesCopied(Some(ns), input).Ok? <==> forall k | k in input :: k in ns
    ensures InputAttributesCopied(Some(ns), input).Ok? ==>
              var a := InputAttributesCopied(Some(ns), input).value;
              a.sharedBy == {} && a.own == input
  {
    var i :| 0 <= i < |ns| && ns[i] in input;
    assert InputAttributesCopied(Some(ns), input) == InputAttributesSpec(Some(ns), input);
    assert input != map[] by {
      assert ns[i] in input;
    }
    if forall k | k in input :: k in ns {
      var a := InputAttributesCopied(Some(ns), input).value;
      assert a.own == input;
    }
  }

  /** Without nodes the body itself is classified: keys are kept, brace-free
      strings and non-strings are stored as given, escaped text comes back
      literally. */
  lemma AttributesWithoutNodes(input: map<string, Value>)
    requires input != map[]
    ensures InputAttributesSpec(None, input) == InputAttributesCopied(None, input)
    ensures InputAttributesCopied(None, input).Ok?
    ensures var d := InputAttributesCopied(None, input).value.attribs;
            d.Some? && d.value.Keys == input.Keys &&
            (forall k | k in input && input[k].Str? && NoBraces(input[k].s) :: d.value[k] == input[k]) &&
            (forall k | k in input && !input[k].Str? :: d.value[k] == input[k])
  {
    var d := ClassifyAll(input);
    forall k | k in input && input[k].Str? && NoBraces(input[k].s) ensures d[k] == input[k] {
      ClassifyWithoutBraces(input[k].s);
    }
  }

  /** A node that was not requested gets an empty update and changes nothing. */
  lemma AttributesUnrequestedEmpty(ns: seq<string>, input: map<string, Value>, node: string)
    requires InputAttributesCopied(Some(ns), input).Ok? && node !in ns
    ensures var a := InputAttributesCopied(Some(ns), input).value;
            GetAttributesSpec(a, node) == (a, Ok(Dict(map[])))
  {
    var a := InputAttributesCopied(Some(ns), input).value;
    assert node !in a.own;
  }

  // ---------------------------------------------------------------------
  // Output messages

  /** Nesting under a node and stripping it again is the node-less message. */
  lemma StripAttributes(node: string, kv: map<string, Value>, desc: string)
    ensures StripNode(AttributesMsg(Some(node), kv, desc), node) == Ok(AttributesMsg(None, kv, desc))
  {
  }

  lemma StripListAttributes(node: string, kv: map<string, Value>, desc: string)
    ensures StripNode(ListAttributesMsg(Some(node), kv, desc), node) == Ok(ListAttributesMsg(None, kv, desc))
  {
  }

  /** A power-state message answers, for its node, with the one state. */
  lemma StripPowerState(node: string, state: string)
    ensures StripNode(PowerStateMsg(node, state), node).Ok?
    ensures StripNode(PowerStateMsg(node, state), node).value.kvpairs == Dict(map["state" := Dict(map["value" := Str(state)])])
  {
  }

  /** Redaction keeps the key set, marks each secret by whether it is set,
      and never passes a stored secret through. */
  lemma CryptedRedacts(node: Option<string>, kv: map<string, Value>, desc: string)
    requires CryptedAttributesMsg(node, kv, desc).Ok?
    ensures var m := CryptedAttributesMsg(node, kv, desc).value;
            var inner := if node.Some? then m.kvpairs.entries[node.value] else m.kvpairs;
            inner.Dict? && inner.entries.Keys == kv.Keys &&
            forall k | k in kv ::
              inner.entries[k].Dict? && "cryptvalue" !in inner.entries[k].entries &&
              (inner.entries[k].entries["isset"] == Bool(true) <==> SecretIsSet(kv[k]))
  {
    var red := map k | k in kv :: Redact(kv[k]).value;
    assert forall k | k in kv :: Redact(kv[k]).Ok?;
  }
}
