/**
 * Properties of the discovery engine that relate several calls: the dedup
 * gate over a stream of events, the policy gate's idempotence and lock-in,
 * the enclosure-bay ambiguity fault, the cache invariant, and what the
 * literal `'hwaddr'` delete does to entries that the sweep re-drives.
 */
module DiscoveryProps {
  import opened Wrappers
  import opened Discovery

  /** The world after `detected` has run on each event in turn. */
  function RunDetected(env: Env, w: World, events: seq<Info>): World
    decreases |events|
  {
    if events == [] then w
    else DetectedSpec(env, RunDetected(env, w, events[..|events| - 1]), events[|events| - 1]).0
  }

  lemma {:induction false} KnownOnlyGrows(env: Env, w: World, events: seq<Info>, i: nat, j: nat)
    requires i <= j <= |events|
    ensures RunDetected(env, w, events[..i]).known.Keys <= RunDetected(env, w, events[..j]).known.Keys
    decreases j - i
  {
    if i < j {
      KnownOnlyGrows(env, w, events, i, j - 1);
      assert events[..j][..j - 1] == events[..j - 1];
      assert events[..j][j - 1] == events[j - 1];
    }
  }

  /** Across any stream of events, two events that pass the dedup gate carry
      different hardware addresses: each address is admitted at most once. */
  lemma {:induction false} AdmittedAtMostOnce(env: Env, w: World, events: seq<Info>, i: nat, j: nat)
    requires i < j < |events|
    requires PassesDedup(RunDetected(env, w, events[..i]), events[i])
    requires PassesDedup(RunDetected(env, w, events[..j]), events[j])
    ensures events[i].hwaddr != events[j].hwaddr
  {
    assert events[..i + 1][..i] == events[..i];
    assert events[..i + 1][i] == events[i];
    assert events[i].hwaddr.value in RunDetected(env, w, events[..i + 1]).known;
    KnownOnlyGrows(env, w, events, i + 1, j);
  }

  /** On the intake path the literal-key delete never fails: an address that
      passes the dedup gate cannot already be in the unknown cache. */
  lemma IntakeNeverHitsLiteralKey(env: Env, w: World, info: Info)
    requires Consistent(w)
    ensures DetectedSpec(env, w, info).1 != Err(UnknownLacksLiteralKey)
  {
    if PassesDedup(w, info) {
      assert info.hwaddr.value !in w.unknown;
    }
  }

  /**
   * A re-check job for an unknown entry reaches `discover_node` with that
   * entry's address, which is still filed in the unknown cache; unless some
   * device's address is literally "hwaddr", the delete raises before
   * `config`, so an open or permissive node behind an unknown entry is never
   * configured by the sweep and the entry stays where it is.
   */
  lemma UnknownJobNeverConfigured(env: Env, w: World, job: Job, node: NodeName)
    requires Consistent(w) && job in UnknownJobs(env, w) && "hwaddr" !in w.unknown
    requires OpenOrPermissive(Attr(w.store, node, PolicyAttr))
    requires !(Attr(w.store, node, PolicyAttr) == Some("permissive") && Truthy(Attr(w.store, node, TlsAttr)))
    requires !env.certMatches(Attr(w.store, node, TlsAttr), env.httpsCert(job.kind, job.info))
    ensures DiscoverNodeSpec(env, w, job.kind, job.info, node) == (w, Err(UnknownLacksLiteralKey))
  {
    var mac :| mac in w.unknown && Truthy(env.findNodeByMac(mac)) && SelectHandler(w.unknown[mac].services).Some? &&
               job == Job(FromUnknown(mac), SelectHandler(w.unknown[mac].services).value, w.unknown[mac], env.findNodeByMac(mac).value);
    assert job.info.hwaddr == Some(mac);
  }

  /** Bootstrap under `open`: with no stored fingerprint, a device that
      presents a certificate gets configured and its fingerprint recorded. */
  lemma OpenTrustBootstrap(env: Env, w: World, kind: HandlerKind, info: Info, node: NodeName)
    requires Attr(w.store, node, PolicyAttr) == Some("open") && Attr(w.store, node, TlsAttr).None?
    requires Truthy(env.httpsCert(kind, info)) && !env.certMatches(None, env.httpsCert(kind, info))
    requires info.hwaddr.Some? && info.hwaddr.value !in w.unknown
    requires env.configSucceeds(kind, info, node)
    ensures DiscoverNodeSpec(env, w, kind, info, node).1 == Ok(true)
    ensures Attr(DiscoverNodeSpec(env, w, kind, info, node).0.store, node, TlsAttr)
            == Some(env.fingerprint(env.httpsCert(kind, info).value))
  {
    var attrs := NewAttributes(env, kind, info);
    assert TlsAttr in attrs;
  }

  /**
   * Applying under `open` twice in a row: the second call, on the world the
   * first one left, changes nothing, provided the certificate matches its
   * own fingerprint. It still answers true: the source returns True on a
   * match, where a "nothing was applied" answer might be expected.
   */
  lemma {:induction false} OpenApplyIdempotent(env: Env, w: World, kind: HandlerKind, info: Info, node: NodeName)
    requires Attr(w.store, node, PolicyAttr) == Some("open")
    requires DiscoverNodeSpec(env, w, kind, info, node).1 == Ok(true)
    requires Truthy(env.httpsCert(kind, info))
    requires env.certMatches(Some(env.fingerprint(env.httpsCert(kind, info).value)), env.httpsCert(kind, info))
    ensures var w1 := DiscoverNodeSpec(env, w, kind, info, node).0;
            DiscoverNodeSpec(env, w1, kind, info, node) == (w1, Ok(true))
  {
    var w1 := DiscoverNodeSpec(env, w, kind, info, node).0;
    var attrs := NewAttributes(env, kind, info);
    if w1 != w {
      assert PolicyAttr !in attrs && TlsAttr in attrs;
      assert w1.store == Merge(w.store, node, attrs);
      assert Attr(w1.store, node, TlsAttr) == Some(env.fingerprint(env.httpsCert(kind, info).value));
      assert Attr(w1.store, node, PolicyAttr) == Some("open");
    }
  }

  /**
   * Permissive lock-in: once a permissive node has been configured (its
   * stored fingerprint did not match) with a certificate whose fingerprint
   * is non-empty, every later call of the gate
   * for that node, with any device, driver or certificate, declines and
   * changes nothing.
   */
  lemma {:induction false} PermissiveLocksIn(env: Env, w: World, kind: HandlerKind, info: Info, node: NodeName,
                                             env2: Env, kind2: HandlerKind, info2: Info)
    requires Attr(w.store, node, PolicyAttr) == Some("permissive")
    requires DiscoverNodeSpec(env, w, kind, info, node).1 == Ok(true)
    requires !env.certMatches(Attr(w.store, node, TlsAttr), env.httpsCert(kind, info))
    requires Truthy(env.httpsCert(kind, info)) && env.fingerprint(env.httpsCert(kind, info).value) != ""
    ensures var w1 := DiscoverNodeSpec(env, w, kind, info, node).0;
            DiscoverNodeSpec(env2, w1, kind2, info2, node) == (w1, Ok(false))
  {
    var w1 := DiscoverNodeSpec(env, w, kind, info, node).0;
    var attrs := NewAttributes(env, kind, info);
    assert w1.store == Merge(w.store, node, attrs) by {
      assert TlsAttr in attrs;
    }
    {
      assert PolicyAttr !in attrs && TlsAttr in attrs;
      assert Attr(w1.store, node, TlsAttr) == Some(env.fingerprint(env.httpsCert(kind, info).value));
      assert Attr(w1.store, node, PolicyAttr) == Some("permissive");
    }
  }

  /** Two nodes claiming the same enclosure bay make the evaluation fail
      after preconfig, with no configuration and no write. */
  lemma EnclosureAmbiguity(env: Env, w: World, kind: HandlerKind, info: Info, manager: NodeName, n1: NodeName, n2: NodeName)
    requires info.bay.Some? && env.preconfigSucceeds(kind, info) && n1 != n2
    requires n1 in w.store && n2 in w.store
    requires Attr(w.store, n1, "enclosure.manager") == Some(manager) && Attr(w.store, n1, "enclosure.bay") == info.bay
    requires Attr(w.store, n2, "enclosure.manager") == Some(manager) && Attr(w.store, n2, "enclosure.bay") == info.bay
    ensures EvalNodeSpec(env, w, kind, info, manager) == (w.(effects := w.effects + [Preconfig(kind)]), Err(AmbiguousEnclosure))
  {
    var nl := BayOccupants(w.store, manager, info.bay.value);
    assert {n1, n2} <= nl;
    assert |{n1, n2}| == 2;
    assert |nl| >= 2 by {
      CardinalityOfSubset({n1, n2}, nl);
    }
  }

  lemma CardinalityOfSubset<T>(a: set<T>, b: set<T>)
    requires a <= b
    ensures |a| <= |b|
  {
    assert b == a + (b - a);
  }

  /** A declined event is filed as pending under the node the enclosure bay
      resolves to, not under the enclosure manager that found it. */
  lemma DeclinedBayEventParksUnderResolvedNode(env: Env, w: World, kind: HandlerKind, info: Info, manager: NodeName, n: NodeName)
    requires info.bay.Some? && env.preconfigSucceeds(kind, info)
    requires BayOccupants(w.store, manager, info.bay.value) == {n}
    requires DiscoverNodeSpec(env, w.(effects := w.effects + [Preconfig(kind)]), kind, info, n).1 == Ok(false)
    ensures EvalNodeSpec(env, w, kind, info, manager).0
            == w.(effects := w.effects + [Preconfig(kind)], pending := w.pending[n := info])
    ensures EvalNodeSpec(env, w, kind, info, manager).1 == Ok(())
  {
  }
}
