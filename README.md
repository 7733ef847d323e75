# Confluent discovery engine, request messages and attribute plugin

This project models three pieces of the Confluent cluster manager and proves properties about them.

1. **The discovery reconciliation engine** (`Discovery`, `DiscoveryProps`).
   - A detection event passes through `detected`. That function picks the driver of the first announced service that has one, requires a hardware address and admits each address once. It then probes the device and either evaluates the event against a resolved node or parks it in the unknown cache.
   - `eval_node` runs preconfig and resolves an enclosure bay to exactly one node.
   - `discover_node` is the policy gate. It acts on the `open` and `permissive` policies and on the stored TLS fingerprint.
   - `_recheck_nodes` re-drives the unknown and pending caches.
   - The three caches and the attribute store are the fields of the class `Engine`. Each method is proved equal to a function on `World` values. The device probe, the MAC lookup, the drivers' `preconfig`/`config`, the certificate comparison and the fingerprint function are oracles in `Env`.
   - `DiscoveredNode` keeps the identity record and its fingerprints.
2. **Request validators and message shapers** (`Messages`, `MessagesProps`).
   - These cover `get_input_message`, the power and boot-device inputs (flat and per-node forms) and the attribute input (`InputAttributes`, a class whose `get_attributes` rewrites its dicts in place).
   - They also cover the `Attributes`, `ListAttributes`, `CryptedAttributes`, `PowerState` and `BootDevice` messages, and `strip_node`.
   - Request data is a dynamically typed `Value` (`PyValue`). Python's `in`, `[]`, set membership and `str.format()` are modelled by value kind, including the `TypeError`s they raise: set membership raises for an unhashable list or dict, and a set is never a member.
3. **The attribute configuration plugin** (`ConfigAttributes`, `ConfigAttributesProps`).
   - `retrieve`, `retrieve_nodes` and `retrieve_nodegroup` are functions that return the sequence of messages the generators yield, or the exception they raise.
   - `update_nodes`, `update_nodegroup` and `update` are methods of a `ConfigManager` class. Its store records every clear and set call.
   - The attribute schema and `natural_sort` are parameters. Whether the store refuses a set with `ValueError` is a parameter (`Checks`).

Supporting modules:
- `Wrappers` holds `Option` and `Result`.
- `StrOrder` is code-point string order. It provides Python's `sorted` of a set of strings, with uniqueness and ordering proved.

## Where the code's behaviour may surprise

- **The certificate already matches.** `discover_node` returns True when the stored fingerprint already matches, with no config and no write, so a caller cannot tell a repeat sighting from a fresh configuration. See `DiscoveryProps.OpenApplyIdempotent`.
- **The unknown-cache delete uses the literal key `'hwaddr'`,** not the event's address. An event whose address is in the unknown cache therefore raises before `config`. This is why the re-check sweep never configures such an entry, and the entry stays in the unknown cache. A resolved unknown entry would be expected to leave that cache; it does not. See `DiscoveryProps.UnknownJobNeverConfigured`.
- **Nothing removes entries from the pending cache,** including after a successful configuration.
- **A successful probe enriches the event in place,** and the entry in the known cache is that same object.
- **The code looks for a driver before it checks the hardware address.** Both checks return with no change, so the order is not observable.
- **The per-node boot-device branch tests `'state'` against the boot devices.** It raises a misspelled exception name, which is an `AttributeError` in Python. This is modelled as written (`Messages.BootDatum`).

## Model

| member | source | states |
|---|---|---|
| Discovery.SelectHandler | confluent_server/confluent/discovery/core.py:236-241 | the chosen driver is that of the first announced service with a registered driver; none exactly when no announced service is registered |
| Discovery.NewAttributes | confluent_server/confluent/discovery/core.py:307-312 | the written attributes contain `id.uuid` iff the event has a UUID and `pubkeys.tls_hardwaremanager` iff the driver has a certificate, with the UUID and the certificate's fingerprint as values, and nothing else |
| Discovery.DiscoverNodeSpec | confluent_server/confluent/discovery/core.py:288-316 | permissive with a stored fingerprint, and any policy other than open/permissive, decline with no change; otherwise a matching certificate answers true with no change, a missing address raises, and on a mismatch the gate makes the literal-key delete (which fails, with no change, exactly when the address is in the unknown cache and `'hwaddr'` is not), then one config; `'hwaddr'` leaves the unknown cache only when the event's own address is in it, and the cache is otherwise unchanged; a successful config answers true and writes `NewAttributes` when non-empty, a failed one raises with the store unchanged; the known and pending caches are never touched |
| Discovery.ConfigureSpec | confluent_server/confluent/discovery/core.py:304-314 | the end of the gate after a certificate mismatch: a missing address raises with no change; the literal-key delete fails exactly when the address is in the unknown cache and `'hwaddr'` is not; otherwise `'hwaddr'` leaves the unknown cache only when the event's address is in it, config comes next, and on success the new attributes are written when non-empty and the answer is true |
| Discovery.GateOrPark | confluent_server/confluent/discovery/core.py:278-285 | a decline files the event as pending under that node and changes nothing else; otherwise the gate's world and result are kept; the pending cache only grows, the unknown cache loses at most the literal key, earlier effects are kept, and the literal-key fault cannot come from an address outside the unknown cache |
| Discovery.BayOccupants | confluent_server/confluent/discovery/core.py:270-274 | the nodes returned are exactly those whose `enclosure.manager` is the node and whose `enclosure.bay` is the event's bay |
| Discovery.EvalNodeSpec | confluent_server/confluent/discovery/core.py:268-285 | preconfig is always the first effect, and a failed preconfig stops there; with a bay, not exactly one occupant fails with no further effect, and the one occupant goes through the gate (a decline parks it pending); with no bay, a switch-discoverable driver sends the node itself through the gate, and any other driver changes nothing more; the known cache is untouched and the pending cache only grows |
| Discovery.DetectedSpec | confluent_server/confluent/discovery/core.py:235-265 | an event without a driver, without an address or with a known address changes nothing; otherwise the address becomes known before the probe; a failed probe leaves only that; an unresolved address is parked in the unknown cache; a resolved one is evaluated against the node the MAC lookup gives |
| Discovery.Engine.constructor | confluent_server/confluent/discovery/core.py:192-194 | the three caches start empty |
| Discovery.Engine.DiscoverNode | confluent_server/confluent/discovery/core.py:288-316 | keeps the cache invariant; the new engine state and result are those of `DiscoverNodeSpec` |
| Discovery.Engine.Configure | confluent_server/confluent/discovery/core.py:304-314 | the new engine state and result are those of `ConfigureSpec` |
| Discovery.Engine.EvalNode | confluent_server/confluent/discovery/core.py:268-285 | keeps the cache invariant; the new engine state and result are those of `EvalNodeSpec` |
| Discovery.Engine.Detected | confluent_server/confluent/discovery/core.py:235-265 | keeps the cache invariant; the new engine state and result are those of `DetectedSpec` |
| Discovery.Engine.RecheckNodes | confluent_server/confluent/discovery/core.py:197-221 | the jobs returned are exactly one per unknown entry whose MAC resolves and has a driver, and one per pending entry with a driver; no two jobs share a source; no cache changes |
| Discovery.DiscoveredNode.constructor | confluent_server/confluent/discovery/core.py:120-147 | the record keeps UUID, serial, model and model number, starts with no fingerprints, and does not keep the hardware address |
| Discovery.DiscoveredNode.AddFingerprint | confluent_server/confluent/discovery/core.py:149-161 | `fingerprints[t]` becomes `(hashalgo, fingerprint)`, every other type and every other field is unchanged |
| DiscoveryProps.KnownOnlyGrows | confluent_server/confluent/discovery/core.py:245-251 | over a stream of events the known addresses only grow |
| DiscoveryProps.AdmittedAtMostOnce | confluent_server/confluent/discovery/core.py:245-251 | across any stream of events, two events that pass the dedup gate have different addresses |
| Discovery.DetectedKeepsConsistent | confluent_server/confluent/discovery/core.py:251-265 | `detected` keeps every unknown entry filed under its own address, and that address known |
| DiscoveryProps.IntakeNeverHitsLiteralKey | confluent_server/confluent/discovery/core.py:304-305 | on the intake path the literal-key delete cannot fail |
| DiscoveryProps.UnknownJobNeverConfigured | confluent_server/confluent/discovery/core.py:199-210 | a sweep job for an unknown entry, at an open or permissive node whose certificate does not match, raises at the literal-key delete with no config and no change |
| DiscoveryProps.OpenTrustBootstrap | confluent_server/confluent/discovery/core.py:302-315 | open policy, no stored fingerprint, a presented certificate: the gate answers true and stores that certificate's fingerprint |
| DiscoveryProps.OpenApplyIdempotent | confluent_server/confluent/discovery/core.py:302-315 | after a successful open apply, a second call changes nothing when the certificate matches its own fingerprint, and answers true |
| DiscoveryProps.PermissiveLocksIn | confluent_server/confluent/discovery/core.py:300-301 | after a permissive apply that stored a non-empty fingerprint, every later gate call for that node, with any device, driver or certificate, declines and changes nothing |
| DiscoveryProps.EnclosureAmbiguity | confluent_server/confluent/discovery/core.py:270-276 | two nodes in the same bay of the same manager make the evaluation fail after preconfig, with no config and no write |
| DiscoveryProps.DeclinedBayEventParksUnderResolvedNode | confluent_server/confluent/discovery/core.py:277-281 | a declined bay event is filed as pending under the resolved node |
| PyValue.Contains | confluent/messages.py:251 | `key in v` is a key test on a dict, a substring test on a string and a member test on a list or set, and raises TypeError on None, booleans and integers |
| PyValue.Index | confluent/messages.py:252 | `v[key]` answers only for a dict that holds the key; KeyError for a dict without it, TypeError otherwise |
| PyValue.InStrSet | confluent/messages.py:252 | membership in a set of strings is true only for a member string; lists and dicts are unhashable and raise TypeError; a set is retried as a frozenset and is never a member |
| PyValue.Format | confluent/messages.py:194 | `str.format()` with no arguments never lengthens the text |
| PyValue.FormatEscapeRoundTrip | confluent/messages.py:186-195 | formatting the escaped form of any text gives that text back |
| PyValue.FormatOnlyEscaped | confluent/messages.py:186-195 | every string that formats is the escaped form of what it formats to: every brace in it is doubled |
| PyValue.FormatSucceedsIffEscaped | confluent/messages.py:186-201 | `format()` succeeds exactly on the escaped form of some text, so a string is stored as text iff all its braces are doubled and as an expression otherwise |
| PyValue.FormatWithoutBraces | confluent/messages.py:194-195 | a string with no braces formats to itself |
| PyValue.ClassifyAll | confluent/messages.py:184-201 | classifying a dict's values keeps its keys |
| PyValue.ClassifyWithoutBraces | confluent/messages.py:194-195 | a brace-free string is stored unchanged |
| PyValue.ClassifyEscaped | confluent/messages.py:194-195 | an escaped string is stored as the literal text |
| PyValue.ClassifyTwiceDiffers | confluent/messages.py:219-229 | classifying `"{{x}}"` gives the text `"{x}"`, and classifying that again gives the expression `{x}` |
| StrOrder.Sorted | confluent_server/confluent/plugins/configuration/attributes.py:105 | `sorted` of a set of names contains exactly those names, once each, in strictly ascending order |
| StrOrder.SortedNoDuplicates | confluent_server/confluent/plugins/configuration/attributes.py:105 | no name appears twice in a sorted set |
| Messages.Spread | confluent/messages.py:260-261 | spreading succeeds iff every node's datum is valid; its keys are then exactly the requested nodes, each mapped to its own datum |
| Messages.SpreadOver | confluent/messages.py:247-254 | the loop over the nodes, which stops at the first invalid datum, computes `Spread` |
| Messages.PowerDatum | confluent/messages.py:248-254 | a node's datum is accepted iff the node is a key whose value is a dict with a `state` in {on, off, reset, boot}; a missing node is InvalidArgument |
| Messages.InputPower | confluent/messages.py:241-261 | an empty request raises InvalidArgument; an accepted request has a node list and maps exactly the requested nodes |
| Messages.NewInputPowerMessage | confluent/messages.py:241-261 | `powerbynode`, or the exception, as `InputPower` defines them |
| Messages.BootDatum | confluent/messages.py:293-299 | a missing node is InvalidArgument; an accepted datum yields its `nextdevice` |
| Messages.InputBoot | confluent/messages.py:287-306 | an empty request raises InvalidArgument; an accepted request has a node list and maps exactly the requested nodes |
| Messages.NewInputBootDevice | confluent/messages.py:287-306 | `bootdevbynode`, or the exception, as `InputBoot` defines them |
| Messages.InputAttributesSpec | confluent/messages.py:177-213 | the constructor as written: an empty body raises InvalidArgument; without nodes the classified body is kept as `attribs`; in the per-node form it is accepted iff every key is a requested node, and each node keeps its own datum; in the flat form every requested node designates the one body; the object is well formed |
| Messages.InputAttributesCopied | confluent/messages.py:211-213 | the constructor as corrected: it accepts exactly what the original accepts and equals it except in the flat form, where each requested node gets its own copy of the body and no node shares a dict |
| Messages.GetAttributesSpec | confluent/messages.py:215-230 | an unrequested node gets `{}` and nothing changes; the dict a node designates (shared or its own) is classified in place and returned; the object keeps its shape; any value returned is a dict or an empty iterable; a raise leaves the object unchanged |
| Messages.DeleteSpec | confluent_server/confluent/plugins/configuration/attributes.py:212-213 | the dict the node designates loses exactly the given keys, every node sharing that dict sees the same loss, and no other node's dict changes; the object keeps its shape |
| Messages.ClassifyEach | confluent/messages.py:184-201 | the in-place loop rewrites every value as `ClassifyAll` does |
| Messages.InputAttributes.Create | confluent/messages.py:177-213 | the object built, or the exception raised, is that of `InputAttributesCopied` |
| Messages.InputAttributes.GetAttributes | confluent/messages.py:215-230 | the new object state and the result are those of `GetAttributesSpec` |
| Messages.InputAttributes.DeleteBodyKeys | confluent_server/confluent/plugins/configuration/attributes.py:168-169 | the node-less body loses exactly the given keys |
| Messages.InputAttributes.DeleteKeys | confluent_server/confluent/plugins/configuration/attributes.py:212-213 | the dict the node designates loses exactly the given keys |
| Messages.GetInputMessage | confluent/messages.py:164-172 | a non-retrieve `power/state` request builds the power input, a non-retrieve `attributes/...` request the attribute input (copied form), a non-retrieve `boot/nextdevice` request the boot input, each with its exception; a one-element `power` path raises IndexError; every other request (a retrieve, or a path none of these match) raises InvalidArgument when it carries data and gives None otherwise; an empty path raises IndexError |
| Messages.ByNode | confluent/messages.py:263-264 | `powerstate(node)` (and `bootdevice(node)`, lines 308-309) answers the node's validated datum iff the node is in the map, and raises KeyError otherwise |
| Messages.WrapStrings | confluent/messages.py:331-336 | keys are kept, each string value `v` becomes `{'value': v}`, other values are unchanged |
| Messages.AttributesMsg | confluent/messages.py:328-342 | the message keeps kind and description and holds `kv` with every string wrapped as `{'value': v}`, at top level without a node and as the node's only entry with one |
| Messages.ListAttributesMsg | confluent/messages.py:345-351 | the message holds `kv` unchanged, at top level without a node and as the node's only entry with one |
| Messages.PowerStateMsg | confluent/messages.py:320-325 | the message holds exactly `{node: {'state': {'value': state}}}` |
| Messages.AttributesOfOne | confluent/messages.py:328-342 | an attribute message about one attribute holds that attribute's value, a string wrapped |
| Messages.CryptedOfOne | confluent/messages.py:354-374 | a redacted message about one attribute holds its redacted form, and raises TypeError when the value is neither None nor a dict |
| PyValue.ClassifyByKind | confluent/messages.py:184-201 | a non-string is stored as given; a string that formats is stored as its formatted text and one that does not as `{'expression': s}`; a string stays text iff every brace in it is doubled |
| Messages.NewAttributes | confluent/messages.py:328-342 | the loop builds the message `AttributesMsg` describes |
| Messages.Redact | confluent/messages.py:361-368 | a None or dict secret gives `isset`, true iff it has a non-empty `cryptvalue`, possibly `inheritedfrom`, and never `cryptvalue`; any other value raises TypeError |
| Messages.CryptedAttributesMsg | confluent/messages.py:354-374 | the message exists iff every value is None or a dict; otherwise TypeError |
| Messages.NewCryptedAttributes | confluent/messages.py:354-374 | the loop builds the message, or raises, as `CryptedAttributesMsg` says |
| Messages.BootDeviceMsg | confluent/messages.py:276-283 | accepted iff the device is one of {network, hd, setup, default, cd}; then `kvpairs = {node: {'nextdevice': {'value': device}}}`; otherwise the exception names the device |
| Messages.StripNode | confluent/messages.py:42-43 | succeeds iff `kvpairs` is a dict holding the node, and then replaces `kvpairs` by that entry; a dict without the node raises KeyError and any other value TypeError |
| MessagesProps.PowerFlat | confluent/messages.py:255-261 | flat form: accepted iff the state is valid, and then every requested node maps to it |
| MessagesProps.PowerPerNode | confluent/messages.py:245-254 | per-node form: accepted iff every requested node carries a dict with a valid state; the keys are then exactly the requested nodes |
| MessagesProps.PowerAnswersRequestedNodes | confluent/messages.py:247-264 | an accepted request answers `powerstate(n)` with a valid state for each requested node and raises KeyError for any other |
| MessagesProps.BootAnswersRequestedNodes | confluent/messages.py:287-309 | an accepted boot request answers `bootdevice(n)` for each requested node and raises KeyError for any other |
| MessagesProps.PowerNeedsNodes | confluent/messages.py:245-261 | without a node list a non-empty power request raises |
| MessagesProps.BootFlat | confluent/messages.py:300-306 | flat form: accepted iff the device is valid, and then every requested node maps to it |
| MessagesProps.BootPerNodeDemandsState | confluent/messages.py:296-298 | a per-node datum without `state` raises AttributeError |
| MessagesProps.BootDeviceClosed | confluent/messages.py:277-278 | a device outside the closed set has no boot-device message |
| MessagesProps.AttributesFlatShared | confluent/messages.py:211-213 | as written, in the flat form a key deleted through one node is gone for every node |
| MessagesProps.AttributesFlatCopied | confluent/messages.py:211-213 | as corrected, every node starts from the whole body, and a key deleted through one node stays for the others |
| MessagesProps.AttributesPerNode | confluent/messages.py:203-210 | per-node form, as written and as corrected: accepted iff every key of the body is a requested node, and each node then keeps its own datum |
| MessagesProps.AttributesWithoutNodes | confluent/messages.py:182-202 | without nodes the two constructors agree; the body keeps its keys, and brace-free strings and non-strings are stored as given |
| MessagesProps.AttributesUnrequestedEmpty | confluent/messages.py:215-217 | an unrequested node gets `{}` and nothing changes |
| MessagesProps.StripAttributes | confluent/messages.py:337-342 | an attribute message nested under a node, stripped of it, is the node-less message |
| MessagesProps.StripListAttributes | confluent/messages.py:345-351 | the same for list messages |
| MessagesProps.StripPowerState | confluent/messages.py:320-325 | a power-state message answers, for its node, `{'state': {'value': state}}` |
| MessagesProps.CryptedRedacts | confluent/messages.py:357-373 | redaction keeps the key set, marks each secret set iff it has a non-empty `cryptvalue`, and never outputs `cryptvalue` |
| ConfigAttributes.StrictDescription | confluent_server/confluent/plugins/configuration/attributes.py:76-79 | the strict schema lookup raises KeyError exactly when the attribute or its description is missing |
| ConfigAttributes.GroupConfig | confluent_server/confluent/plugins/configuration/attributes.py:32-38 | a group's attributes are found iff it holds some; a group that does not exist gives `NotFound('Invalid nodegroup: <g> not found')` |
| ConfigAttributes.AllEntry | confluent_server/confluent/plugins/configuration/attributes.py:106-126 | each `'all'` message is about one attribute of one node and has the schema's description; `secret.` gives a redacted message, a list value a list message, anything else an attribute message; a non-secret message carries the stored value, a string wrapped as `{'value': v}`; a stored secret is shown redacted and raises TypeError unless it is None or a dict, an unset one shows `isset` false; an unset `groups` is `[]` and any other unset attribute is `{'value': None}` |
| ConfigAttributes.AllForNode | confluent_server/confluent/plugins/configuration/attributes.py:104-126 | one message per name of the schema and of the node, in sorted order, each as `AllEntry` gives it; an absent node raises KeyError |
| ConfigAttributes.CurrentEntry | confluent_server/confluent/plugins/configuration/attributes.py:130-150 | None is skipped; `value`/`expression` gives an attribute message, `cryptvalue` the redacted message `{node: {a: redacted}}` with the schema description, a list a list message and a string an attribute message; a dict with none of the three raises `BUGGY ATTRIBUTE FOR NODE`, and booleans and integers raise TypeError |
| ConfigAttributes.SortedList | confluent_server/confluent/plugins/configuration/attributes.py:86-89 | converting a set gives a list holding exactly the set's members as strings, each once, in strictly ascending order |
| ConfigAttributes.ToList | confluent_server/confluent/plugins/configuration/attributes.py:47 | `list(v)` keeps a list, gives a set's members or a dict's keys as a sorted list and a string's characters one by one; None, booleans and integers raise TypeError |
| ConfigAttributes.GroupAllEntry | confluent_server/confluent/plugins/configuration/attributes.py:43-67 | `groups` yields nothing; `nodes` yields one list message `{'nodes': list(...)}` with the group description (`[]` when unset), raising exactly when `list()` does; other attributes yield one message about them with the schema description, carrying the stored value (a string wrapped as `{'value': v}`) or `{'value': None}` when unset, which cannot fail unless the attribute is a secret; a secret without a schema description raises KeyError and is otherwise shown redacted |
| ConfigAttributes.GroupCurrentEntry | confluent_server/confluent/plugins/configuration/attributes.py:69-97 | one message about the attribute with the group description (`nodes`, `noderange`, the schema's or empty); a dict with `value` or `expression` gives the attribute message of the stored value, one with `cryptvalue` its redacted form, a set a list message of its members sorted, a list a list message of it; a dict with none of `value`, `expression` and `cryptvalue` raises `BUGGY ATTRIBUTE FOR NODEGROUP`; None, booleans and integers raise TypeError |
| ConfigAttributes.Retrieve | confluent_server/confluent/plugins/configuration/attributes.py:22-28 | without quorum it raises before any read; with nodes it is `retrieve_nodes`; without nodes an empty path or a `nodegroups` path shorter than four elements raises IndexError, a `nodegroups` path of four or more is `retrieve_nodegroup(element[1], element[3])`, and any other path gives None |
| ConfigAttributes.RetrieveNodes | confluent_server/confluent/plugins/configuration/attributes.py:100-150 | an empty path raises IndexError; `all` is the `'all'` entries of every requested node in `natural_sort` order and raises when the store lacks a requested node; `current` is the `'current'` entries of the requested nodes the store holds; any other element yields nothing |
| ConfigAttributes.AllForNodes | confluent_server/confluent/plugins/configuration/attributes.py:102-126 | the `'all'` pass succeeds iff every node's `'all'` entries do, and raises when a node has no attributes |
| ConfigAttributes.CurrentForNodes | confluent_server/confluent/plugins/configuration/attributes.py:127-150 | the `'current'` pass succeeds iff every node has attributes and its `'current'` entries succeed |
| ConfigAttributes.RetrieveNodegroup | confluent_server/confluent/plugins/configuration/attributes.py:31-97 | a group without attributes raises NotFound when it is not a group and KeyError otherwise; `all` is `GroupAll` of the group's attributes, `current` is `GroupCurrent`, any other element yields nothing |
| ConfigAttributes.GroupAll | confluent_server/confluent/plugins/configuration/attributes.py:39-67 | the `all` pass succeeds iff the entry of every schema attribute, every group attribute and `nodes` does |
| ConfigAttributes.GroupCurrent | confluent_server/confluent/plugins/configuration/attributes.py:68-97 | the `current` pass succeeds iff the entry of every attribute the group holds does |
| ConfigAttributes.GroupNodesEntry | confluent_server/confluent/plugins/configuration/attributes.py:45-49 | the `nodes` message is `{'nodes': list(...)}` with the group description, and raises exactly when `list()` does |
| ConfigAttributes.GroupValueEntry | confluent_server/confluent/plugins/configuration/attributes.py:50-67 | a group attribute's message has the schema description and carries the stored value, a string wrapped, or `{'value': None}`; a secret is redacted and needs a schema description |
| ConfigAttributes.CollectNoneKeys | confluent_server/confluent/plugins/configuration/attributes.py:208-210 | the loop collects exactly the attributes given as None |
| ConfigAttributes.NodeStep | confluent_server/confluent/plugins/configuration/attributes.py:205-215 | one iteration adds at most its own node to the update, keeps the shape of the input object, and leaves everything unchanged when it raises |
| ConfigAttributes.SweepStops | confluent_server/confluent/plugins/configuration/attributes.py:204-215 | once a node raises, the later nodes are not visited |
| ConfigAttributes.ConfigManager.ClearNodeAttributes | confluent_server/confluent/plugins/configuration/attributes.py:214 | the node loses the attributes and the call is recorded |
| ConfigAttributes.ConfigManager.SetNodeAttributes | confluent_server/confluent/plugins/configuration/attributes.py:217 | the call is recorded; when accepted the updates are merged into the store |
| ConfigAttributes.ConfigManager.ClearGroupAttributes | confluent_server/confluent/plugins/configuration/attributes.py:171 | the group loses the attributes and the call is recorded |
| ConfigAttributes.ConfigManager.SetGroupAttributes | confluent_server/confluent/plugins/configuration/attributes.py:172 | the call is recorded; when accepted the group's attributes are merged and the group exists |
| ConfigAttributes.ConfigManager.UpdateNodes | confluent_server/confluent/plugins/configuration/attributes.py:202-220 | the new store, the new input object and the result are those of `UpdateNodesSpec` |
| ConfigAttributes.ConfigManager.UpdateNode | confluent_server/confluent/plugins/configuration/attributes.py:205-215 | one iteration of the loop: the new store, input object and updated set are those of `NodeStep` |
| ConfigAttributes.ConfigManager.SweepNodes | confluent_server/confluent/plugins/configuration/attributes.py:204-215 | the loop over the nodes leaves the store, the input object, the updated set and the error `Sweep` gives |
| ConfigAttributes.ConfigManager.SetThenRetrieve | confluent_server/confluent/plugins/configuration/attributes.py:216-220 | the store after the one `set_node_attributes` call, then `retrieve` of the nodes when it is accepted and InvalidArgument otherwise |
| ConfigAttributes.ConfigManager.UpdateNodegroup | confluent_server/confluent/plugins/configuration/attributes.py:162-175 | the new store, the new input object and the result are those of `UpdateNodegroupSpec` |
| ConfigAttributes.ConfigManager.Update | confluent_server/confluent/plugins/configuration/attributes.py:153-159 | the new store, the new input object and the result are those of `UpdateSpec`: the node update with nodes, the group update for `nodegroups/<g>/attributes/<e>`, IndexError for too short a path, and `This line should never be reached` otherwise |
| ConfigAttributesProps.AllOnePerAttribute | confluent_server/confluent/plugins/configuration/attributes.py:103-126 | `'all'` for a node gives exactly one message per attribute of the schema and of the node, in sorted order, each about that attribute alone |
| ConfigAttributesProps.GroupAllNodesOnce | confluent_server/confluent/plugins/configuration/attributes.py:39-49 | `'all'` for a group mentions `nodes` exactly once and `groups` never |
| ConfigAttributesProps.GroupAllCountsNodes | confluent_server/confluent/plugins/configuration/attributes.py:45-49 | `nodes` is reported exactly once |
| ConfigAttributesProps.GroupAllCountsGroups | confluent_server/confluent/plugins/configuration/attributes.py:43-44 | `groups` is never reported |
| ConfigAttributesProps.NodesNamedOnce | confluent_server/confluent/plugins/configuration/attributes.py:40-42 | the walked names contain `nodes` exactly once |
| ConfigAttributesProps.GroupUpdateSkipsQuorum | confluent_server/confluent/plugins/configuration/attributes.py:162-175 | for every store, body, group and element, the group update's new store, input object and result do not depend on quorum, and it never raises the quorum exception |
| ConfigAttributesProps.GroupUpdateBeatsRetrieve | confluent_server/confluent/plugins/configuration/attributes.py:22-28 | without quorum a group update whose body only clears one attribute (`{k: None}`) returns no messages, where `retrieve` of the same group raises the quorum exception |
| ConfigAttributesProps.RetrieveNodegroupNeverNoQuorum | confluent_server/confluent/plugins/configuration/attributes.py:31-97 | `retrieve_nodegroup` never raises the quorum exception |
| ConfigAttributesProps.SetCarriesNoNone | confluent_server/confluent/plugins/configuration/attributes.py:207-215 | in every mode, no attribute handed to the set is None |
| ConfigAttributesProps.SweepKeepsClean | confluent_server/confluent/plugins/configuration/attributes.py:204-215 | the loop keeps the updated nodes' dicts free of None |
| ConfigAttributesProps.RefusedSetIsInvalidArgument | confluent_server/confluent/plugins/configuration/attributes.py:216-219 | a set the store refuses becomes InvalidArgument |
| ConfigAttributesProps.PerNodeSweepState | confluent_server/confluent/plugins/configuration/attributes.py:204-215 | with a dict per node, the loop's store, input object and updated nodes are the per-node clears, the taken dicts and the nodes with non-empty updates |
| ConfigAttributesProps.PerNodeUpdateSplit | confluent_server/confluent/plugins/configuration/attributes.py:203-215 | with a dict per node, each node's clear carries exactly its None-valued attributes, a node with an empty update gets no entry, and what is set is the formatted update without those attributes |
| ConfigAttributesProps.FlatClearReachesOnlyFirstNode | confluent_server/confluent/plugins/configuration/attributes.py:203-215 | as written, with one dict shared by two nodes, only the first node is asked to clear the None-valued attributes, and the second keeps its stored values |
| ConfigAttributesProps.FlatFormatsTwice | confluent_server/confluent/plugins/configuration/attributes.py:205-215 | as written, with one dict shared by two nodes, `"{{x}}"` is set for both nodes as the expression `{x}` |
| ConfigAttributesProps.CopiedFlatUpdatesEveryNode | confluent_server/confluent/plugins/configuration/attributes.py:203-215 | as corrected, every requested node is cleared of the None-valued attributes and set to the formatted body without them |
| ConfigAttributesProps.CopiedFlatKeepsEscapes | confluent_server/confluent/plugins/configuration/attributes.py:205-215 | as corrected, `"{{x}}"` reaches every node as the text `{x}` |
| ConfigAttributesProps.GroupUpdateSplit | confluent_server/confluent/plugins/configuration/attributes.py:162-174 | a group update removes exactly the None-valued attributes from the body, clears them only when there are some, then sets the rest; a refused set is InvalidArgument |

## Findings

| source | as written | input that shows it | evidently intended | confidence | as-written member | corrected member |
|---|---|---|---|---|---|---|
| confluent/messages.py:211-213 | In the flat form every requested node is given the same dict object. While handling the first node, `update_nodes` deletes the None-valued keys from it, so later nodes see no None and are never cleared | nodes `[n1, n2]`, body `{a: None}` | each node has its own copy and each node's None-valued attributes are cleared | not executed | ConfigAttributesProps.FlatClearReachesOnlyFirstNode | ConfigAttributesProps.CopiedFlatUpdatesEveryNode |
| confluent/messages.py:219-229 | `get_attributes` formats the shared dict in place once per node, so an escaped brace is un-escaped for the first node and read as an expression for the second. Both `updatedict` entries are that same dict | nodes `[n1, n2]`, body `{a: "{{x}}"}` | every node stores the literal text `{x}` | not executed | ConfigAttributesProps.FlatFormatsTwice | ConfigAttributesProps.CopiedFlatKeepsEscapes |

The as-written constructor is `Messages.InputAttributesSpec`. The corrected one is `Messages.InputAttributesCopied`. `Messages.InputAttributes.Create` and `Messages.GetInputMessage` use the corrected one.

## Left out

- Concurrency: `eventlet.spawn_n`, `safe_detected`/`eval_detected` (their catch-all), `_periodic_recheck`, `start_detection` and the main block. The sweep returns the jobs it would spawn, and the model runs events one at a time.
- Watches: `newnodes`, `watch_attributes`, `remove_watcher` and `watch_nodecollection` only re-register callbacks.
- The device drivers, `slp.snoop`, `macmap.find_node_by_mac`, `cert_matches` and `get_fingerprint` are oracles. A probe is modelled by what it adds to the event (a UUID and an enclosure bay).
- Discovery.RecheckNodes: a job records the driver kind. The source passes the driver module, not a driver instance, which would fail when `eval_node` calls `preconfig`; that failure is not modelled.
- Discovery.Engine.Detected: the configuration manager it creates is the engine's store.
- `add_validated_fingerprint` and `DiscoveredNode.identify` have empty bodies.
- Presentation: `html()`, `json()`, `raw()`, `LinkRelation`, `ChildCollection` and the `print` statements.
- The message text of `InvalidArgumentException` is not kept. The message of a `ValueError` passed through is lost as well.
- The configuration manager's value normalisation (inheritance, expressions, `cryptvalue` encryption) is reduced to a merge of the given values. Clears never raise. Its quorum exception is `NoQuorum`. The store's clear and set operations never consult quorum, so `ConfigAttributesProps.GroupUpdateSkipsQuorum` is a statement about attributes.py alone; whether the real configuration manager's setters check quorum is not part of this model.
- `_expand_expression` and `create` are not part of this model.
- Dictionary iteration order: a loop over keys visits them in an unspecified order. The order matters only where every error is the same, and where it would matter the model sorts the keys: ascending code-point order for `sorted`, and the `natSort` parameter for `natural_sort`.
- A generator that raises part-way is modelled as raising before it yields anything. Messages yielded before the raise are not kept.
- Messages.GetAttributesSpec: a per-node value that is a non-empty list is modelled as raising TypeError. Python would instead index the list by its own items, which succeeds for some lists of integers.
- ConfigAttributes.ToList: `list()` of a dict or a set is modelled in ascending order, where Python uses hash order.
- Booleans and integers in request data are distinct kinds. Python's `True == 1` is not modelled.
- Messages.InputAttributes.Create: in the flat form it gives each requested node its own copy of the body (`InputAttributesCopied`). The source gives every node the same dict object (messages.py:211-213). That as-written sharing is modelled by `InputAttributesSpec` and the lemmas about it, not by this constructor (see "## Findings").
- Messages.GetInputMessage: the attributes branch builds the corrected copy-per-node form. The source builds the shared flat form (see `Messages.InputAttributes.Create` above).
- Discovery.ConfigureSpec: `set_node_attributes` (core.py:313-314) never fails. The write is a merge into the store, and a refusal or exception from the configuration manager is not modelled.
- Discovery.BayOccupants: `filter_node_attributes` (core.py:271-273) is modelled as exact equality of the stored value with the filter value. Any pattern matching the configuration manager applies is not modelled.
- ConfigAttributes.CurrentEntry: `Str` stands for both `str` and `unicode`. Under Python 2, `isinstance(currattr, str)` (attributes.py:145) is false for a `unicode` value, so there such a value reaches the `BUGGY ATTRIBUTE FOR NODE` raise. The model yields an attribute message for it.
