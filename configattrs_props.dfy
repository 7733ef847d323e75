/** Properties of the attribute configuration plugin. */
module ConfigAttributesProps {
  import opened Wrappers
  import opened PyValue
  import opened StrOrder
  import opened Messages
  import opened ConfigAttributes

  // ---------------------------------------------------------------------
  // Reading

  /** `'all'` for a node: exactly one message per attribute of the schema
      or of the node, about that attribute, in ascending order. */
  lemma AllOnePerAttribute(schema: Schema, attributes: map<string, map<string, Value>>, node: string)
    requires AllForNode(schema, attributes, node).Ok?
    ensures var r := AllForNode(schema, attributes, node).value;
            var names := AllNames(schema, attributes[node]);
            |r| == |schema.Keys + attributes[node].Keys| && StrictlySorted(names) &&
            (forall a :: a in names <==> a in schema || a in attributes[node]) &&
            forall i | 0 <= i < |r| :: About(r[i], Some(node), names[i])
  {
    var r := AllForNode(schema, attributes, node).value;
    var names := AllNames(schema, attributes[node]);
    forall i | 0 <= i < |r| ensures About(r[i], Some(node), names[i]) {
      assert AllEntry(schema, node, attributes[node], names[i]) == Ok(r[i]);
    }
  }

  /** Whether a message carries attribute `a` at its top level. */
  predicate Mentions(m: Message, a: string) {
    m.kvpairs.Dict? && a in m.kvpairs.entries
  }

  function CountMentions(ms: seq<Message>, a: string): nat
    decreases |ms|
  {
    if ms == [] then 0
    else CountMentions(ms[..|ms| - 1], a) + (if Mentions(ms[|ms| - 1], a) then 1 else 0)
  }

  function Occurrences(xs: seq<string>, a: string): nat
    decreases |xs|
  {
    if xs == [] then 0
    else Occurrences(xs[..|xs| - 1], a) + (if xs[|xs| - 1] == a then 1 else 0)
  }

  lemma {:induction false} CountAppend(xs: seq<Message>, ys: seq<Message>, a: string)
    ensures CountMentions(xs + ys, a) == CountMentions(xs, a) + CountMentions(ys, a)
    decreases |ys|
  {
    if ys == [] {
      assert xs + ys == xs;
    } else {
      assert (xs + ys)[..|xs + ys| - 1] == xs + ys[..|ys| - 1];
      CountAppend(xs, ys[..|ys| - 1], a);
    }
  }

  /** When each item's messages mention `a` once if the item is `a` and
      never otherwise, the whole output mentions it as often as `a` occurs. */
  lemma {:induction false} CountFlatMap(xs: seq<string>, f: string -> Result<seq<Message>, Exc>, a: string)
    requires FlatMapMsgs(xs, f).Ok?
    requires forall i | 0 <= i < |xs| :: CountMentions(f(xs[i]).value, a) == if xs[i] == a then 1 else 0
    ensures CountMentions(FlatMapMsgs(xs, f).value, a) == Occurrences(xs, a)
    decreases |xs|
  {
    if xs != [] {
      var init := xs[..|xs| - 1];
      assert forall i | 0 <= i < |init| :: init[i] == xs[i];
      CountFlatMap(init, f, a);
      CountAppend(FlatMapMsgs(init, f).value, f(xs[|xs| - 1]).value, a);
    }
  }

  lemma {:induction false} CountFlatMapNone(xs: seq<string>, f: string -> Result<seq<Message>, Exc>, a: string)
    requires FlatMapMsgs(xs, f).Ok?
    requires forall i | 0 <= i < |xs| :: CountMentions(f(xs[i]).value, a) == 0
    ensures CountMentions(FlatMapMsgs(xs, f).value, a) == 0
    decreases |xs|
  {
    if xs != [] {
      var init := xs[..|xs| - 1];
      assert forall i | 0 <= i < |init| :: init[i] == xs[i];
      CountFlatMapNone(init, f, a);
      CountAppend(FlatMapMsgs(init, f).value, f(xs[|xs| - 1]).value, a);
    }
  }

  lemma {:induction false} OccursNever(xs: seq<string>, a: string)
    requires a !in xs
    ensures Occurrences(xs, a) == 0
    decreases |xs|
  {
    if xs != [] {
      OccursNever(xs[..|xs| - 1], a);
    }
  }

  lemma {:induction false} OccursOnce(xs: seq<string>, a: string)
    requires StrictlySorted(xs) && a in xs
    ensures Occurrences(xs, a) == 1
    decreases |xs|
  {
    var init := xs[..|xs| - 1];
    var last := xs[|xs| - 1];
    assert StrictlySorted(init);
    if last == a {
      if a in init {
        var i :| 0 <= i < |init| && init[i] == a;
        assert Lt(xs[i], xs[|xs| - 1]);
        LtIrreflexive(a);
      }
      OccursNever(init, a);
    } else {
      assert a in init by {
        var i :| 0 <= i < |xs| && xs[i] == a;
        assert i < |xs| - 1;
        assert init[i] == a;
      }
      OccursOnce(init, a);
    }
  }

  /** The messages of one step, all about `x`, mention `a` only if `x` is `a`. */
  lemma MentionsOfStep(ms: seq<Message>, x: string, a: string)
    requires |ms| <= 1 && forall i | 0 <= i < |ms| :: About(ms[i], None, x)
    ensures CountMentions(ms, a) == if x == a && |ms| == 1 then 1 else 0
  {
    if |ms| == 1 {
      assert ms[..0] == [];
    }
  }

  lemma GroupStepMentions(schema: Schema, grpcfg: map<string, Value>, x: string, a: string)
    requires GroupAllEntry(schema, grpcfg, x).Ok?
    ensures CountMentions(GroupAllEntry(schema, grpcfg, x).value, a) == if x == a && x != "groups" then 1 else 0
  {
    MentionsOfStep(GroupAllEntry(schema, grpcfg, x).value, x, a);
  }

  lemma GroupAllCountsNodes(schema: Schema, grpcfg: map<string, Value>)
    requires FlatMapMsgs(GroupAllNames(schema, grpcfg), GroupAllStep(schema, grpcfg)).Ok?
    ensures CountMentions(FlatMapMsgs(GroupAllNames(schema, grpcfg), GroupAllStep(schema, grpcfg)).value, "nodes") == 1
  {
    var names := GroupAllNames(schema, grpcfg);
    var f := GroupAllStep(schema, grpcfg);
    assert forall i | 0 <= i < |names| :: f(names[i]).Ok?;
    forall i | 0 <= i < |names|
      ensures CountMentions(f(names[i]).value, "nodes") == if names[i] == "nodes" then 1 else 0
    {
      GroupStepMentions(schema, grpcfg, names[i], "nodes");
    }
    CountFlatMap(names, f, "nodes");
    NodesNamedOnce(schema, grpcfg);
  }

  lemma OnceInSorted(all: set<string>, a: string)
    requires a in all
    ensures Occurrences(Sorted(all), a) == 1
  {
    OccursOnce(Sorted(all), a);
  }

  lemma NodesNamedOnce(schema: Schema, grpcfg: map<string, Value>)
    ensures Occurrences(GroupAllNames(schema, grpcfg), "nodes") == 1
  {
    OnceInSorted(schema.Keys + grpcfg.Keys + {"nodes"}, "nodes");
  }

  lemma GroupAllCountsGroups(schema: Schema, grpcfg: map<string, Value>)
    requires FlatMapMsgs(GroupAllNames(schema, grpcfg), GroupAllStep(schema, grpcfg)).Ok?
    ensures CountMentions(FlatMapMsgs(GroupAllNames(schema, grpcfg), GroupAllStep(schema, grpcfg)).value, "groups") == 0
  {
    var names := GroupAllNames(schema, grpcfg);
    var f := GroupAllStep(schema, grpcfg);
    assert forall i | 0 <= i < |names| :: f(names[i]).Ok?;
    forall i | 0 <= i < |names|
      ensures CountMentions(f(names[i]).value, "groups") == 0
    {
      GroupStepMentions(schema, grpcfg, names[i], "groups");
    }
    CountFlatMapNone(names, f, "groups");
  }

  /** `'all'` for a group never reports `groups` and reports `nodes` in
      exactly one message. */
  lemma GroupAllNodesOnce(schema: Schema, s: Store, group: string)
    requires RetrieveNodegroup(schema, s, group, "all").Ok?
    ensures CountMentions(RetrieveNodegroup(schema, s, group, "all").value, "nodes") == 1
    ensures CountMentions(RetrieveNodegroup(schema, s, group, "all").value, "groups") == 0
  {
    GroupAllCountsNodes(schema, GroupConfig(s, group).value);
    GroupAllCountsGroups(schema, GroupConfig(s, group).value);
  }

  /** An error of a flattened walk is the error of one of its items. */
  lemma {:induction false} FlatMapMsgsError<T>(xs: seq<T>, f: T -> Result<seq<Message>, Exc>)
    requires FlatMapMsgs(xs, f).Err?
    ensures exists i | 0 <= i < |xs| :: f(xs[i]) == Err(FlatMapMsgs(xs, f).error)
    decreases |xs|
  {
    var init := xs[..|xs| - 1];
    assert forall i | 0 <= i < |init| :: init[i] == xs[i];
    if FlatMapMsgs(init, f).Err? {
      FlatMapMsgsError(init, f);
      var i :| 0 <= i < |init| && f(init[i]) == Err(FlatMapMsgs(init, f).error);
      assert f(xs[i]) == Err(FlatMapMsgs(xs, f).error);
    } else {
      assert f(xs[|xs| - 1]) == Err(FlatMapMsgs(xs, f).error);
    }
  }

  lemma GroupEntriesNeverNoQuorum(schema: Schema, grpcfg: map<string, Value>, a: string)
    ensures GroupAllEntry(schema, grpcfg, a) != Err(NoQuorum)
    ensures a in grpcfg ==> GroupCurrentEntry(schema, a, grpcfg[a]) != Err(NoQuorum)
  {
  }

  /** `retrieve_nodegroup` never raises the quorum exception. */
  lemma RetrieveNodegroupNeverNoQuorum(schema: Schema, s: Store, group: string, element: string)
    ensures RetrieveNodegroup(schema, s, group, element) != Err(NoQuorum)
  {
    var r := RetrieveNodegroup(schema, s, group, element);
    if r == Err(NoQuorum) {
      var grpcfg := GroupConfig(s, group).value;
      if element == "all" {
        FlatMapMsgsError(GroupAllNames(schema, grpcfg), GroupAllStep(schema, grpcfg));
        var i :| 0 <= i < |GroupAllNames(schema, grpcfg)| &&
                 GroupAllStep(schema, grpcfg)(GroupAllNames(schema, grpcfg)[i]) == Err(NoQuorum);
        GroupEntriesNeverNoQuorum(schema, grpcfg, GroupAllNames(schema, grpcfg)[i]);
      } else {
        var f := (a: string) => if a in grpcfg then GroupCurrentEntry(schema, a, grpcfg[a]) else Ok([]);
        FlatMapMsgsError(Sorted(grpcfg.Keys), f);
        var i :| 0 <= i < |Sorted(grpcfg.Keys)| && f(Sorted(grpcfg.Keys)[i]) == Err(NoQuorum);
        GroupEntriesNeverNoQuorum(schema, grpcfg, Sorted(grpcfg.Keys)[i]);
      }
    }
  }

  lemma ClearGroupIgnoresQuorum(s: Store, group: string, attrs: set<string>, q: bool)
    ensures AfterClearGroup(s.(quorum := q), group, attrs) == AfterClearGroup(s, group, attrs).(quorum := q)
  {
  }

  lemma SetGroupIgnoresQuorum(s: Store, checks: Checks, group: string, attrs: map<string, Value>, q: bool)
    ensures AfterSetGroup(s.(quorum := q), checks, group, attrs).0 == AfterSetGroup(s, checks, group, attrs).0.(quorum := q)
    ensures AfterSetGroup(s.(quorum := q), checks, group, attrs).1 == AfterSetGroup(s, checks, group, attrs).1
  {
  }

  lemma RetrieveNodegroupIgnoresQuorum(schema: Schema, s: Store, group: string, element: string, q: bool)
    ensures RetrieveNodegroup(schema, s.(quorum := q), group, element) == RetrieveNodegroup(schema, s, group, element)
  {
    assert GroupConfig(s.(quorum := q), group) == GroupConfig(s, group);
  }

  /** `update_nodegroup` makes no quorum check: for every request, its store,
      input object and result are the same with or without quorum, and it
      never raises the quorum exception that `retrieve` raises. */
  lemma GroupUpdateSkipsQuorum(checks: Checks, schema: Schema, s: Store, a: AttrInput, group: string, element: string)
    ensures var (s1, a1, r1) := UpdateNodegroupSpec(checks, schema, s, a, group, element);
            var (s2, a2, r2) := UpdateNodegroupSpec(checks, schema, s.(quorum := !s.quorum), a, group, element);
            s2 == s1.(quorum := !s.quorum) && a2 == a1 && r2 == r1
    ensures UpdateNodegroupSpec(checks, schema, s, a, group, element).2 != Err(NoQuorum)
  {
    var q := !s.quorum;
    if a.attribs.Some? {
      var clear := NoneKeys(a.attribs.value);
      var a2 := DeleteBodySpec(a, clear);
      var s1 := if clear != {} then AfterClearGroup(s, group, clear) else s;
      var s1q := if clear != {} then AfterClearGroup(s.(quorum := q), group, clear) else s.(quorum := q);
      ClearGroupIgnoresQuorum(s, group, clear, q);
      assert s1q == s1.(quorum := q);
      SetGroupIgnoresQuorum(s1, checks, group, a2.attribs.value, q);
      var (s2, accepted) := AfterSetGroup(s1, checks, group, a2.attribs.value);
      if accepted {
        RetrieveNodegroupIgnoresQuorum(schema, s2, group, element, q);
        RetrieveNodegroupNeverNoQuorum(schema, s2, group, element);
      }
    }
  }

  /** `update_nodegroup` hands back the group's messages even when the
      collective has no quorum, where `retrieve` on the same store refuses. */
  lemma GroupUpdateBeatsRetrieve(checks: Checks, schema: Schema, s: Store, a: AttrInput, group: string, k: string)
    requires !s.quorum && a.attribs == Some(map[k := PyNone]) && !checks.groupRefused(group, map[])
    ensures UpdateNodegroupSpec(checks, schema, s, a, group, "none").2 == Ok([])
    ensures Retrieve(schema, (ns: seq<string>) => ns, UpdateNodegroupSpec(checks, schema, s, a, group, "none").0,
                     None, ["nodegroups", group, "attributes", "none"]) == Err(NoQuorum)
  {
    assert NoneKeys(a.attribs.value) == {k};
    assert a.attribs.value - {k} == map[];
  }

  // ---------------------------------------------------------------------
  // Updating

  predicate NoNone(d: map<string, Value>) {
    forall k | k in d :: !d[k].PyNone?
  }

  lemma ClassifyKeepsNone(d: map<string, Value>)
    ensures NoneKeys(ClassifyAll(d)) == NoneKeys(d)
  {
    forall k | k in d ensures Classify(d[k]).PyNone? <==> d[k].PyNone? {
    }
  }

  lemma NoNoneAfterClear(d: map<string, Value>)
    ensures NoNone(d - NoneKeys(d))
  {
  }

  lemma NoNoneIff(d: map<string, Value>)
    ensures NoNone(d) <==> NoneKeys(d) == {}
  {
    if !NoNone(d) {
      var k :| k in d && d[k].PyNone?;
      assert k in NoneKeys(d);
    }
  }

  /** One step on a node of the shared flat-form dict. */
  lemma SharedStep(q: Pass, n: string)
    requires n in q.input.sharedBy
    ensures var K := NoneKeys(q.input.shared);
            NodeStep(q, n) ==
            (Pass(if K != {} then AfterClearNode(q.store, n, K) else q.store,
                  q.input.(shared := Taken(q.input.shared)),
                  if q.input.shared != map[] then q.updated + {n} else q.updated), None)
  {
    var c := ClassifyAll(q.input.shared);
    ClassifyKeepsNone(q.input.shared);
    if q.input.shared != map[] {
      var k :| k in q.input.shared;
      assert k in c;
    } else {
      assert c == map[];
    }
    assert c - {} == c;
  }

  /** One step on a node with a dict of its own. */
  lemma OwnStep(q: Pass, n: string)
    requires n !in q.input.sharedBy && n in q.input.own && q.input.own[n].Dict?
    ensures var d := q.input.own[n].entries;
            var K := NoneKeys(d);
            NodeStep(q, n) ==
            (Pass(if K != {} then AfterClearNode(q.store, n, K) else q.store,
                  q.input.(own := q.input.own[n := Dict(Taken(d))]),
                  if d != map[] then q.updated + {n} else q.updated), None)
  {
    var a := q.input;
    var d := a.own[n].entries;
    var c := ClassifyAll(d);
    var K := NoneKeys(d);
    ClassifyKeepsNone(d);
    var a1 := a.(own := a.own[n := Dict(c)]);
    assert GetAttributesSpec(a, n) == (a1, Ok(Dict(c)));
    if d == map[] {
      assert c == map[];
      assert K == {};
      assert Taken(d) == c;
      assert NodeStep(q, n) == (q.(input := a1), None);
    } else {
      var k :| k in d;
      assert k in c;
      if K == {} {
        assert Taken(d) == c;
        assert NodeStep(q, n) == (Pass(q.store, a1, q.updated + {n}), None);
      } else {
        assert DeleteSpec(a1, n, K) == a.(own := a.own[n := Dict(Taken(d))]);
        assert NodeStep(q, n) == (Pass(AfterClearNode(q.store, n, K), DeleteSpec(a1, n, K), q.updated + {n}), None);
      }
    }
  }

  lemma SweepOne(p: Pass, n: string)
    ensures Sweep(p, [n]) == NodeStep(p, n)
  {
    assert [n][..0] == [];
  }

  lemma SweepTwo(p: Pass, n1: string, n2: string)
    requires NodeStep(p, n1).1.None?
    ensures Sweep(p, [n1, n2]) == NodeStep(NodeStep(p, n1).0, n2)
  {
    assert [n1, n2][..1] == [n1];
    SweepOne(p, n1);
  }

  /** A node's dict once its update has been taken: formatted, without the
      None-valued attributes. */
  function Taken(d: map<string, Value>): map<string, Value> {
    ClassifyAll(d) - NoneKeys(d)
  }

  lemma TakenClean(d: map<string, Value>)
    ensures NoNone(Taken(d))
  {
    ClassifyKeepsNone(d);
    NoNoneAfterClear(ClassifyAll(d));
  }

  lemma TakenKeepsClean(d: map<string, Value>)
    requires NoNone(d)
    ensures Taken(d) == ClassifyAll(d)
  {
    NoNoneIff(d);
    assert ClassifyAll(d) - {} == ClassifyAll(d);
  }

  /** The dicts of the updated nodes hold no None; they are what is set. */
  ghost predicate UpdatedClean(p: Pass) {
    forall n | n in p.updated ::
      if n in p.input.sharedBy then NoNone(p.input.shared)
      else n in p.input.own && p.input.own[n].Dict? && NoNone(p.input.own[n].entries)
  }

  lemma StepKeepsClean(p: Pass, node: string)
    requires p.input.Wellformed() && UpdatedClean(p)
    ensures UpdatedClean(NodeStep(p, node).0)
  {
    var a := p.input;
    if node in a.sharedBy {
      SharedStep(p, node);
      TakenClean(a.shared);
    } else if node in a.own && a.own[node].Dict? {
      OwnStep(p, node);
      TakenClean(a.own[node].entries);
    } else {
      assert NodeStep(p, node).0.input == a;
    }
  }

  lemma {:induction false} SweepKeepsClean(p: Pass, nodes: seq<string>)
    requires p.input.Wellformed() && UpdatedClean(p)
    ensures Sweep(p, nodes).0.input.Wellformed() && UpdatedClean(Sweep(p, nodes).0)
    decreases |nodes|
  {
    if nodes != [] {
      SweepKeepsClean(p, nodes[..|nodes| - 1]);
      var (q, e) := Sweep(p, nodes[..|nodes| - 1]);
      if e.None? {
        StepKeepsClean(q, nodes[|nodes| - 1]);
      }
    }
  }

  /** In every mode, no attribute handed to the set is None. */
  lemma SetCarriesNoNone(s: Store, a: AttrInput, nodes: seq<string>)
    requires a.Wellformed()
    ensures var p := Sweep(Pass(s, a, {}), nodes).0;
            forall n | n in UpdateDict(p) :: NoNone(UpdateDict(p)[n])
  {
    SweepKeepsClean(Pass(s, a, {}), nodes);
  }

  /** A refused set becomes InvalidArgument. */
  lemma RefusedSetIsInvalidArgument(checks: Checks, schema: Schema, natSort: seq<string> -> seq<string>,
                                    s: Store, a: AttrInput, nodes: seq<string>, element: seq<string>)
    requires Sweep(Pass(s, a, {}), nodes).1.None?
    requires checks.nodesRefused(UpdateDict(Sweep(Pass(s, a, {}), nodes).0))
    ensures UpdateNodesSpec(checks, schema, natSort, s, a, nodes, element).2 == Err(InvalidArgument)
  {
  }

  // Per-node dicts --------------------------------------------------------

  /** The clear calls expected when each node works on a dict of its own. */
  function PerNodeClears(own: map<string, Value>, nodes: seq<string>): seq<Call>
    requires forall n | n in own :: own[n].Dict?
    decreases |nodes|
  {
    if nodes == [] then []
    else
      var n := nodes[|nodes| - 1];
      PerNodeClears(own, nodes[..|nodes| - 1]) +
      if n in own && NoneKeys(own[n].entries) != {} then [ClearNode(n, NoneKeys(own[n].entries))] else []
  }

  /** The store after those clears. */
  function PerNodeCleared(s: Store, own: map<string, Value>, nodes: seq<string>): Store
    requires forall n | n in own :: own[n].Dict?
    decreases |nodes|
  {
    if nodes == [] then s
    else
      var n := nodes[|nodes| - 1];
      var s1 := PerNodeCleared(s, own, nodes[..|nodes| - 1]);
      if n in own && NoneKeys(own[n].entries) != {} then AfterClearNode(s1, n, NoneKeys(own[n].entries)) else s1
  }

  lemma {:induction false} PerNodeClearedCalls(s: Store, own: map<string, Value>, nodes: seq<string>)
    requires forall n | n in own :: own[n].Dict?
    ensures PerNodeCleared(s, own, nodes).calls == s.calls + PerNodeClears(own, nodes)
    decreases |nodes|
  {
    if nodes != [] {
      PerNodeClearedCalls(s, own, nodes[..|nodes| - 1]);
    }
  }

  function TakenOwn(own: map<string, Value>, done: set<string>): map<string, Value>
    requires forall n | n in own :: own[n].Dict?
  {
    map n | n in own :: if n in done then Dict(Taken(own[n].entries)) else own[n]
  }

  predicate Distinct(nodes: seq<string>) {
    forall i, j | 0 <= i < j < |nodes| :: nodes[i] != nodes[j]
  }

  function UpdatedNodes(own: map<string, Value>, nodes: seq<string>): set<string>
    requires forall n | n in own :: own[n].Dict?
  {
    set n | n in nodes && n in own && own[n].entries != map[]
  }

  lemma TakenOwnAdd(own: map<string, Value>, done: set<string>, n: string)
    requires forall m | m in own :: own[m].Dict?
    ensures n in own ==> TakenOwn(own, done)[n := Dict(Taken(own[n].entries))] == TakenOwn(own, done + {n})
    ensures n !in own ==> TakenOwn(own, done + {n}) == TakenOwn(own, done)
  {
  }

  lemma UpdatedNodesSnoc(own: map<string, Value>, done: seq<string>, n: string)
    requires forall m | m in own :: own[m].Dict?
    ensures UpdatedNodes(own, done + [n]) ==
            UpdatedNodes(own, done) + if n in own && own[n].entries != map[] then {n} else {}
  {
  }

  lemma PerNodeStep(q: Pass, s: Store, own: map<string, Value>, done: seq<string>, n: string)
    requires forall m | m in own :: own[m].Dict?
    requires q.input.sharedBy == {} && n !in done
    requires q == Pass(PerNodeCleared(s, own, done), q.input.(own := TakenOwn(own, set m | m in done)), UpdatedNodes(own, done))
    ensures NodeStep(q, n) ==
            (Pass(PerNodeCleared(s, own, done + [n]), q.input.(own := TakenOwn(own, set m | m in done + [n])), UpdatedNodes(own, done + [n])), None)
  {
    var doneSet := set m | m in done;
    var done2 := done + [n];
    assert done2[..|done2| - 1] == done;
    assert (set m | m in done2) == doneSet + {n};
    TakenOwnAdd(own, doneSet, n);
    UpdatedNodesSnoc(own, done, n);
    if n in own {
      var d := own[n].entries;
      var K := NoneKeys(d);
      assert q.input.own[n] == own[n];
      OwnStep(q, n);
      assert PerNodeCleared(s, own, done2) ==
             if K != {} then AfterClearNode(PerNodeCleared(s, own, done), n, K) else PerNodeCleared(s, own, done);
      assert q.input.own[n := Dict(Taken(d))] == TakenOwn(own, set m | m in done2);
      assert UpdatedNodes(own, done2) == if d != map[] then q.updated + {n} else q.updated;
    } else {
      assert n !in q.input.own;
      assert NodeStep(q, n) == (q, None);
      assert PerNodeCleared(s, own, done2) == PerNodeCleared(s, own, done);
      assert q.input.(own := TakenOwn(own, doneSet + {n})) == q.input;
      assert UpdatedNodes(own, done2) == UpdatedNodes(own, done);
      assert q == Pass(PerNodeCleared(s, own, done2), q.input.(own := TakenOwn(own, set m | m in done2)), UpdatedNodes(own, done2));
    }
  }

  lemma {:induction false} PerNodeSweepState(s: Store, a: AttrInput, nodes: seq<string>)
    requires a.sharedBy == {} && (forall n | n in a.own :: a.own[n].Dict?) && Distinct(nodes)
    ensures Sweep(Pass(s, a, {}), nodes) ==
            (Pass(PerNodeCleared(s, a.own, nodes), a.(own := TakenOwn(a.own, set n | n in nodes)), UpdatedNodes(a.own, nodes)), None)
    decreases |nodes|
  {
    if nodes == [] {
      assert (set n | n in nodes) == {};
      assert TakenOwn(a.own, {}) == a.own;
      assert UpdatedNodes(a.own, nodes) == {};
    } else {
      var init := nodes[..|nodes| - 1];
      var n := nodes[|nodes| - 1];
      assert Distinct(init);
      PerNodeSweepState(s, a, init);
      forall i | 0 <= i < |init| ensures init[i] != n {
        assert nodes[i] != nodes[|nodes| - 1];
      }
      PerNodeStep(Sweep(Pass(s, a, {}), init).0, s, a.own, init, n);
      assert init + [n] == nodes;
    }
  }

  /**
   * When every node has a dict of its own (the per-node form, and the
   * corrected flat form), each requested node's clear carries exactly its
   * None-valued attributes, a node with an empty update gets no entry, and
   * what is set for a node is its formatted update without those attributes.
   */
  lemma PerNodeUpdateSplit(s: Store, a: AttrInput, nodes: seq<string>)
    requires a.sharedBy == {} && (forall n | n in a.own :: a.own[n].Dict?) && Distinct(nodes)
    ensures var (p, e) := Sweep(Pass(s, a, {}), nodes);
            e.None? &&
            p.store.calls == s.calls + PerNodeClears(a.own, nodes) &&
            (forall n :: n in UpdateDict(p) <==> n in nodes && n in a.own && a.own[n].entries != map[]) &&
            forall n | n in UpdateDict(p) :: UpdateDict(p)[n] == Taken(a.own[n].entries)
  {
    PerNodeSweepState(s, a, nodes);
    PerNodeClearedCalls(s, a.own, nodes);
  }

  // The shared flat-form dict -------------------------------------------

  /** As written, with one dict shared by two nodes, only the first node's
      None-valued attributes are cleared, and the second node keeps them. */
  lemma FlatClearReachesOnlyFirstNode(s: Store, input: map<string, Value>, n1: string, n2: string)
    requires n1 != n2 && n1 !in input && n2 !in input && NoneKeys(input) != {}
    ensures InputAttributesSpec(Some([n1, n2]), input).Ok?
    ensures var a := InputAttributesSpec(Some([n1, n2]), input).value;
            var (p, e) := Sweep(Pass(s, a, {}), [n1, n2]);
            e.None? && p.store.calls == s.calls + [ClearNode(n1, NoneKeys(input))] &&
            (n2 in s.nodeAttrs ==> n2 in p.store.nodeAttrs && p.store.nodeAttrs[n2] == s.nodeAttrs[n2])
  {
    var ns := [n1, n2];
    assert !Requests(ns, input);
    var a := InputAttributesSpec(Some(ns), input).value;
    assert a == AttrInput(None, {n1, n2}, input, map[]);
    var K := NoneKeys(input);
    var k :| k in K;
    var p0 := Pass(s, a, {});
    SharedStep(p0, n1);
    var p1 := Pass(AfterClearNode(s, n1, K), a.(shared := Taken(input)), {n1});
    assert n1 in a.sharedBy;
    assert p0.input.shared == input;
    assert K != {};
    assert input != map[];
    assert NodeStep(p0, n1).0.store == p1.store;
    assert NodeStep(p0, n1).0.input == p1.input;
    assert NodeStep(p0, n1).0.updated == p1.updated;
    assert NodeStep(p0, n1) == (p1, None);
    TakenClean(input);
    NoNoneIff(Taken(input));
    SharedStep(p1, n2);
    SweepTwo(p0, n1, n2);
  }

  /** As written, with one dict shared by two nodes, an escaped brace is
      formatted twice and both nodes get an expression instead of the text. */
  lemma FlatFormatsTwice(s: Store, n1: string, n2: string, key: string)
    requires n1 != n2 && n1 != key && n2 != key
    ensures var input := map[key := Str("{{x}}")];
            InputAttributesSpec(Some([n1, n2]), input).Ok? &&
            var a := InputAttributesSpec(Some([n1, n2]), input).value;
            var (p, e) := Sweep(Pass(s, a, {}), [n1, n2]);
            e.None? &&
            UpdateDict(p) == map[n1 := map[key := Dict(map["expression" := Str("{x}")])],
                                 n2 := map[key := Dict(map["expression" := Str("{x}")])]]
  {
    var input := map[key := Str("{{x}}")];
    assert n1 !in input && n2 !in input && key in input;
    FlatPair(n1, n2, input);
    EscapedOnce(key);
    EscapedTwice(key);
    var a := AttrInput(None, {n1, n2}, input, map[]);
    FlatTwoSteps(Pass(s, a, {}), n1, n2);
  }

  /** Two clean steps over nodes sharing one dict classify it twice. */
  lemma FlatTwoSteps(p0: Pass, n1: string, n2: string)
    requires n1 != n2 && p0.input.sharedBy == {n1, n2} && p0.updated == {}
    requires p0.input.shared != map[]
    requires NoneKeys(p0.input.shared) == {} && NoneKeys(Taken(p0.input.shared)) == {}
    ensures var (p, e) := Sweep(p0, [n1, n2]);
            e.None? &&
            UpdateDict(p) == map[n1 := Taken(Taken(p0.input.shared)), n2 := Taken(Taken(p0.input.shared))]
  {
    var p1 := CleanSharedStep(p0, n1);
    var p2 := CleanSharedStep(p1, n2);
    SweepTwo(p0, n1, n2);
    assert p2.updated == {n1, n2};
    UpdateDictShared(p2);
  }

  /** One step for a node of a shared dict that holds no `None`. */
  lemma CleanSharedStep(q: Pass, n: string) returns (q': Pass)
    requires n in q.input.sharedBy && q.input.shared != map[] && NoneKeys(q.input.shared) == {}
    ensures q' == Pass(q.store, q.input.(shared := Taken(q.input.shared)), q.updated + {n})
    ensures NodeStep(q, n) == (q', None)
    ensures q'.input.shared != map[]
  {
    SharedStep(q, n);
    q' := Pass(q.store, q.input.(shared := Taken(q.input.shared)), q.updated + {n});
    var k :| k in q.input.shared;
    assert k in ClassifyAll(q.input.shared);
    assert ClassifyAll(q.input.shared) - {} == ClassifyAll(q.input.shared);
    assert k in q'.input.shared;
  }

  lemma UpdateDictShared(p: Pass)
    requires p.updated <= p.input.sharedBy
    ensures UpdateDict(p) == map n | n in p.updated :: p.input.shared
  {
  }

  lemma FlatPair(n1: string, n2: string, input: map<string, Value>)
    requires n1 !in input && n2 !in input && input != map[]
    ensures InputAttributesSpec(Some([n1, n2]), input) == Ok(AttrInput(None, {n1, n2}, input, map[]))
  {
    assert !Requests([n1, n2], input);
    assert (set n | n in [n1, n2]) == {n1, n2};
  }

  lemma EscapedOnce(key: string)
    ensures NoneKeys(map[key := Str("{{x}}")]) == {}
    ensures Taken(map[key := Str("{{x}}")]) == map[key := Str("{x}")]
  {
    ClassifyTwiceDiffers();
    assert ClassifyAll(map[key := Str("{{x}}")]) == map[key := Str("{x}")];
  }

  lemma EscapedTwice(key: string)
    ensures Taken(map[key := Str("{x}")]) == map[key := Dict(map["expression" := Str("{x}")])]
  {
    ClassifyTwiceDiffers();
    assert NoneKeys(map[key := Str("{x}")]) == {};
    assert ClassifyAll(map[key := Str("{x}")]) == map[key := Dict(map["expression" := Str("{x}")])];
  }

  /** With a copy per node, every requested node is cleared of the
      None-valued attributes and is set to the formatted body without them. */
  lemma CopiedFlatUpdatesEveryNode(s: Store, ns: seq<string>, input: map<string, Value>)
    requires input != map[] && !Requests(ns, input) && Distinct(ns)
    ensures InputAttributesCopied(Some(ns), input).Ok?
    ensures var a := InputAttributesCopied(Some(ns), input).value;
            var (p, e) := Sweep(Pass(s, a, {}), ns);
            e.None? &&
            p.store.calls == s.calls + PerNodeClears(a.own, ns) &&
            (forall i | 0 <= i < |ns| :: a.own[ns[i]] == Dict(input)) &&
            (forall n :: n in UpdateDict(p) <==> n in ns) &&
            forall n | n in UpdateDict(p) :: UpdateDict(p)[n] == Taken(input)
  {
    var a := InputAttributesCopied(Some(ns), input).value;
    PerNodeUpdateSplit(s, a, ns);
  }

  /** With a copy per node, an escaped brace reaches every node as the text. */
  lemma CopiedFlatKeepsEscapes(s: Store, ns: seq<string>, key: string)
    requires Distinct(ns) && key !in ns
    ensures var input := map[key := Str("{{x}}")];
            InputAttributesCopied(Some(ns), input).Ok? &&
            var (p, e) := Sweep(Pass(s, InputAttributesCopied(Some(ns), input).value, {}), ns);
            forall n | n in UpdateDict(p) :: UpdateDict(p)[n] == map[key := Str("{x}")]
  {
    var input := map[key := Str("{{x}}")];
    assert key in input;
    assert !Requests(ns, input);
    CopiedFlatUpdatesEveryNode(s, ns, input);
    EscapedOnce(key);
  }

  // Groups ----------------------------------------------------------------

  /** `update_nodegroup` clears exactly the None-valued attributes (and only
      when there are some), removes them from the body, and sets the rest. */
  lemma GroupUpdateSplit(checks: Checks, schema: Schema, s: Store, a: AttrInput, group: string, element: string)
    requires a.attribs.Some?
    ensures var (s2, a2, r) := UpdateNodegroupSpec(checks, schema, s, a, group, element);
            var d := a.attribs.value;
            a2.attribs == Some(d - NoneKeys(d)) && NoNone(d - NoneKeys(d)) &&
            s2.calls == s.calls + (if NoneKeys(d) != {} then [ClearGroup(group, NoneKeys(d))] else []) +
                        [SetGroup(group, d - NoneKeys(d))] &&
            (checks.groupRefused(group, d - NoneKeys(d)) ==> r == Err(InvalidArgument))
  {
    NoNoneAfterClear(a.attribs.value);
  }
}
