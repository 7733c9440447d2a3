/**
 Creation and deletion of OpenStack networks. The manager makes one router per network and
 finds it again by its name, which is the network's id. Any remote call may fail, and then
 has no effect.
 */
module OpenStackNetworks {
  import opened Listings
  import opened Outcomes

  /** Ids and names are drawn from one set, as in the source; `EMPTY` stands for the empty string. */
  type Id = nat

  const EMPTY: Id := 0

  datatype Network = Network(name: string, description: string)

  /** A router with its name and the network that its gateway leads to. */
  datatype Router = Router(name: Id, uplink: Id)

  /** The remote state; `external` is the network of the configured name, `next` the next unused id. */
  datatype Cloud = Cloud(networks: map<Id, Network>, routers: map<Id, Router>, external: Id, next: Id)

  /** The routers that carry a name. */
  function Named(s: Cloud, name: Id): set<Id> {
    set r | r in s.routers && s.routers[r].name == name
  }

  /** The routers in the answer to a listing by name: an empty name is left out of the query. */
  function Listed(s: Cloud, name: Id): set<Id> {
    if name == EMPTY then s.routers.Keys else Named(s, name)
  }

  datatype Step =
    | CreatingNetwork | FindingExternal | CreatingRouter
    | ListingRouters | TooManyRouters | DeletingRouter | DeletingNetwork

  datatype CreateResult =
    | Created(id: Id, name: string, cidr: string)
    | Failed(cause: Step, rollback: Option<Step>)

  /** The part of the networking service that the manager calls; `failed` records the failed calls. */
  class Neutron {
    var now: Cloud
    ghost var failed: seq<Step>

    constructor (initial: Cloud)
      ensures now == initial && failed == []
    {
      now, failed := initial, [];
    }

    method CreateNetwork(name: string, description: string) returns (r: Option<Id>)
      modifies this
      ensures failed == Extended(old(failed), r.None?, CreatingNetwork)
      ensures match r
              case None => now == old(now)
              case Some(id) =>
                && id == old(now).next
                && now == old(now).(networks := old(now).networks[id := Network(name, description)],
                                    next := id + 1)
    {
      if * {
        failed := failed + [CreatingNetwork];
        return None;
      }
      r := Some(now.next);
      now := now.(networks := now.networks[now.next := Network(name, description)], next := now.next + 1);
    }

    method DeleteNetwork(id: Id) returns (ok: bool)
      modifies this
      ensures failed == Extended(old(failed), !ok, DeletingNetwork)
      ensures now == if ok then old(now).(networks := old(now).networks - {id}) else old(now)
    {
      ok := *;
      failed := Extended(failed, !ok, DeletingNetwork);
      if ok {
        now := now.(networks := now.networks - {id});
      }
    }

    /** The id of the external network: a lookup by name. */
    method ExternalNetwork() returns (r: Option<Id>)
      modifies this`failed
      ensures failed == Extended(old(failed), r.None?, FindingExternal)
      ensures r.Some? ==> r.value == now.external
    {
      if * {
        failed := failed + [FindingExternal];
        return None;
      }
      return Some(now.external);
    }

    method CreateRouter(name: Id, external: Id) returns (r: Option<Id>)
      modifies this
      ensures failed == Extended(old(failed), r.None?, CreatingRouter)
      ensures match r
              case None => now == old(now)
              case Some(id) =>
                && id == old(now).next
                && now == old(now).(routers := old(now).routers[id := Router(name, external)], next := id + 1)
    {
      if * {
        failed := failed + [CreatingRouter];
        return None;
      }
      r := Some(now.next);
      now := now.(routers := now.routers[now.next := Router(name, external)], next := now.next + 1);
    }

    method DeleteRouter(id: Id) returns (ok: bool)
      modifies this
      ensures failed == Extended(old(failed), !ok, DeletingRouter)
      ensures now == if ok then old(now).(routers := old(now).routers - {id}) else old(now)
    {
      ok := *;
      failed := Extended(failed, !ok, DeletingRouter);
      if ok {
        now := now.(routers := now.routers - {id});
      }
    }

    /** The routers of one name, or all of them for the empty name, in an order that the service chooses. */
    method ListRouters(name: Id) returns (r: Option<seq<Id>>)
      modifies this`failed
      ensures failed == Extended(old(failed), r.None?, ListingRouters)
      ensures r.Some? ==> Lists(r.value, Listed(now, name))
    {
      if * {
        failed := failed + [ListingRouters];
        return None;
      }
      var listed := ListOf(Listed(now, name));
      return Some(listed);
    }
  }

  // ---------------------------------------------------------------- outcomes

  /** Ids in use lie between `EMPTY` and `next`, and no router has a name that is still to be issued. */
  ghost predicate WellFormed(s: Cloud) {
    && EMPTY < s.next
    && (forall n :: n in s.networks ==> EMPTY < n < s.next)
    && (forall r :: r in s.routers ==> EMPTY < r < s.next && s.routers[r].name < s.next)
  }

  ghost predicate AtMostOne(s: set<Id>) {
    forall x, y :: x in s && y in s ==> x == y
  }

  /** What `DeleteNetwork` leaves, given the error it reports. */
  ghost predicate DeleteOutcome(s: Cloud, id: Id, err: Option<Step>, t: Cloud) {
    var named := Listed(s, id);
    match err
    case None => AtMostOne(named) && t == s.(routers := s.routers - named, networks := s.networks - {id})
    case Some(ListingRouters) => t == s
    case Some(TooManyRouters) => !AtMostOne(named) && t == s
    case Some(DeletingRouter) => AtMostOne(named) && named != {} && t == s
    case Some(DeletingNetwork) => AtMostOne(named) && t == s.(routers := s.routers - named)
    case _ => false
  }

  /** What `CreateNetwork` leaves, given its result. */
  ghost predicate CreateOutcome(s: Cloud, name: string, cidr: string, r: CreateResult, t: Cloud) {
    var network := s.next;
    match r
    case Created(id, n, c) =>
      && id == network && n == name && c == cidr
      && t == s.(networks := s.networks[network := Network(name, cidr)],
                 routers := s.routers[network + 1 := Router(network, s.external)],
                 next := s.next + 2)
    case Failed(CreatingNetwork, rollback) => rollback == None && t == s
    case Failed(cause, rollback) =>
      && (cause == FindingExternal || cause == CreatingRouter)
      && (rollback == None || rollback == Some(ListingRouters) || rollback == Some(DeletingNetwork))
      && t == s.(networks := if rollback == None then s.networks
                             else s.networks[network := Network(name, cidr)],
                 next := s.next + 1)
  }

  class NetworkManager {
    const neutron: Neutron

    constructor (neutron: Neutron)
      ensures this.neutron == neutron
    {
      this.neutron := neutron;
    }

    /** `findRouter`: an error, no router, or the only one of that name. */
    method FindRouter(name: Id) returns (err: Option<Step>, router: Option<Id>)
      modifies neutron`failed
      ensures neutron.failed == if err == None || err == Some(TooManyRouters) then old(neutron.failed)
                                else old(neutron.failed) + [err.value]
      ensures var named := Listed(neutron.now, name);
              match err
              case Some(ListingRouters) => true
              case Some(TooManyRouters) => !AtMostOne(named)
              case None => named == (if router.Some? then {router.value} else {})
              case _ => false
    {
      var l := neutron.ListRouters(name);
      if l.None? {
        return Some(ListingRouters), None;
      }
      ghost var named := Listed(neutron.now, name);
      if |l.value| > 1 {
        assert l.value[0] in named && l.value[1] in named && l.value[0] != l.value[1];
        return Some(TooManyRouters), None;
      }
      if |l.value| == 0 {
        assert named == {};
        return None, None;
      }
      assert named == {l.value[0]};
      return None, Some(l.value[0]);
    }

    method DeleteNetwork(id: Id) returns (err: Option<Step>)
      requires WellFormed(neutron.now)
      modifies neutron
      ensures DeleteOutcome(old(neutron.now), id, err, neutron.now)
      ensures neutron.failed == if err == None || err == Some(TooManyRouters) then old(neutron.failed)
                                else old(neutron.failed) + [err.value]
    {
      var router;
      err, router := FindRouter(id);
      if err.Some? {
        return;
      }
      if router.Some? {
        assert router.value in Listed(neutron.now, id);
      } else {
        assert neutron.now.routers - {} == neutron.now.routers;
      }
      if router.Some? && router.value != EMPTY {
        var ok := neutron.DeleteRouter(router.value);
        if !ok {
          return Some(DeletingRouter);
        }
      }
      var ok := neutron.DeleteNetwork(id);
      return if ok then None else Some(DeletingNetwork);
    }

    method CreateRouter(network: Id) returns (err: Option<Step>)
      modifies neutron
      ensures neutron.failed == if err == None then old(neutron.failed) else old(neutron.failed) + [err.value]
      ensures match err
              case None =>
                neutron.now == old(neutron.now).(
                  routers := old(neutron.now).routers[
                    old(neutron.now).next := Router(network, old(neutron.now).external)],
                  next := old(neutron.now).next + 1)
              case Some(cause) =>
                (cause == FindingExternal || cause == CreatingRouter) && neutron.now == old(neutron.now)
    {
      var external := neutron.ExternalNetwork();
      if external.None? {
        return Some(FindingExternal);
      }
      var router := neutron.CreateRouter(network, external.value);
      return if router.Some? then None else Some(CreatingRouter);
    }

    method CreateNetwork(name: string, cidr: string) returns (r: CreateResult)
      requires WellFormed(neutron.now)
      modifies neutron
      ensures CreateOutcome(old(neutron.now), name, cidr, r, neutron.now)
      ensures match r
              case Created(_, _, _) => neutron.failed == old(neutron.failed)
              case Failed(cause, None) => neutron.failed == old(neutron.failed) + [cause]
              case Failed(cause, Some(call)) => neutron.failed == old(neutron.failed) + [cause] + [call]
    {
      ghost var s := neutron.now;
      var network := neutron.CreateNetwork(name, cidr);
      if network.None? {
        return Failed(CreatingNetwork, None);
      }
      var err := CreateRouter(network.value);
      if err.Some? {
        ghost var u := neutron.now;
        var err2 := DeleteNetwork(network.value);
        RollBackLeaves(s, Network(name, cidr), u, err2, neutron.now);
        return Failed(err.value, err2);
      }
      return Created(network.value, name, cidr);
    }
  }

  /** Rolling back finds no router of the new network, so it can only fail to list or to delete. */
  lemma RollBackLeaves(s: Cloud, network: Network, u: Cloud, err: Option<Step>, t: Cloud)
    requires WellFormed(s)
    requires u == s.(networks := s.networks[s.next := network], next := s.next + 1)
    requires DeleteOutcome(u, s.next, err, t)
    ensures err == None || err == Some(ListingRouters) || err == Some(DeletingNetwork)
    ensures t == if err == None then s.(next := s.next + 1) else u
  {
    assert Named(u, s.next) == {};
    assert u.routers - {} == u.routers;
    assert u.networks - {s.next} == s.networks;
  }

  // ---------------------------------------------------------------- single operations

  /**
   A completed creation adds one network, with the name and the block asked for, and one router,
   named by the network's id and leading to the external network; the answer describes the network.
   */
  lemma CompletedNetwork(s: Cloud, name: string, cidr: string, r: CreateResult, t: Cloud)
    requires WellFormed(s) && CreateOutcome(s, name, cidr, r, t) && r.Created?
    ensures r.id !in s.networks && r.id in t.networks && t.networks - {r.id} == s.networks
    ensures t.networks[r.id].name == name && t.networks[r.id].description == cidr
    ensures r.name == t.networks[r.id].name && r.cidr == t.networks[r.id].description
    ensures exists x: Id :: x !in s.routers && t.routers == s.routers[x := Router(r.id, s.external)]
  {
    assert s.next !in s.networks && s.next + 1 !in s.routers;
    assert t.networks - {s.next} == s.networks;
  }

  /** A failed creation leaves no router, and no network if and only if its rollback reported no failure. */
  lemma FailedNetwork(s: Cloud, name: string, cidr: string, cause: Step, rollback: Option<Step>, t: Cloud)
    requires WellFormed(s) && CreateOutcome(s, name, cidr, Failed(cause, rollback), t)
    ensures cause in {CreatingNetwork, FindingExternal, CreatingRouter}
    ensures rollback.Some? ==> cause != CreatingNetwork && rollback.value in {ListingRouters, DeletingNetwork}
    ensures t.routers == s.routers
    ensures t.networks == s.networks <==> rollback == None
    ensures rollback.Some? ==> exists v: Id :: v !in s.networks && t.networks == s.networks[v := Network(name, cidr)]
  {
    assert s.next !in s.networks;
  }

  /** A deletion without error has removed the network and the router named by its id, if there was one. */
  lemma DeletedNetwork(s: Cloud, id: Id, t: Cloud)
    requires DeleteOutcome(s, id, None, t) && id != EMPTY
    ensures t.networks == s.networks - {id}
    ensures forall r :: r in t.routers <==> r in s.routers && s.routers[r].name != id
    ensures forall r :: r in t.routers ==> t.routers[r] == s.routers[r]
  {
  }

  /** Deleting a network right after creating it restores networks and routers. */
  lemma CreateThenDelete(s: Cloud, name: string, cidr: string, r: CreateResult, t: Cloud, u: Cloud)
    requires WellFormed(s)
    requires CreateOutcome(s, name, cidr, r, t) && r.Created?
    requires DeleteOutcome(t, r.id, None, u)
    ensures u == s.(next := s.next + 2)
  {
    assert Named(t, r.id) == {s.next + 1};
    assert t.routers - {s.next + 1} == s.routers;
    assert t.networks - {s.next} == s.networks;
  }

  /** With the empty id, deletion takes the only router there is, also if it then reports a failure. */
  lemma EmptyIdTakesARouter(s: Cloud, router: Id, err: Option<Step>, t: Cloud)
    requires WellFormed(s) && s.routers.Keys == {router}
    requires DeleteOutcome(s, EMPTY, err, t)
    requires err == None || err == Some(DeletingNetwork)
    ensures t == s.(routers := map[])
    ensures TakesOwnRouters(s, EMPTY, t) <==> s.routers[router].name == EMPTY
  {
    assert s.routers - {router} == map[];
    assert s.networks - {EMPTY} == s.networks;
  }

  /** No router is gone but those named by `id`. */
  ghost predicate TakesOwnRouters(s: Cloud, id: Id, t: Cloud) {
    forall r :: r in s.routers && r !in t.routers ==> s.routers[r].name == id
  }

  /** All routers are named by the empty string. */
  ghost predicate Unnamed(s: Cloud) {
    forall r :: r in s.routers ==> s.routers[r].name == EMPTY
  }

  /**
   When deletion takes no router but the network's own: on the two exits behind the router's
   deletion, exactly with an id that is not empty, or with only unnamed routers around; on
   every exit, exactly then or when no router was taken at all.
   */
  lemma TakesOwnRoutersExactly(s: Cloud, id: Id, err: Option<Step>, t: Cloud)
    requires WellFormed(s) && DeleteOutcome(s, id, err, t)
    ensures err == None || err == Some(DeletingNetwork) ==>
              (TakesOwnRouters(s, id, t) <==> id != EMPTY || Unnamed(s))
    ensures TakesOwnRouters(s, id, t) <==> id != EMPTY || Unnamed(s) || t.routers == s.routers
  {
  }

  /**
   The same before the call: no outcome of it takes another router, exactly with an id that is
   not empty, or with only unnamed routers, or with so many that deletion refuses to choose.
   */
  lemma DeletionIsSafe(s: Cloud, id: Id)
    requires WellFormed(s)
    ensures (forall err, t :: DeleteOutcome(s, id, err, t) ==> TakesOwnRouters(s, id, t))
            <==> id != EMPTY || Unnamed(s) || !AtMostOne(s.routers.Keys)
  {
    forall err, t | DeleteOutcome(s, id, err, t)
      ensures TakesOwnRouters(s, id, t) <==> id != EMPTY || Unnamed(s) || t.routers == s.routers
    {
      TakesOwnRoutersExactly(s, id, err, t);
    }
    var removed := s.(routers := s.routers - Listed(s, id));
    if AtMostOne(Listed(s, id)) {
      assert DeleteOutcome(s, id, Some(DeletingNetwork), removed);
      TakesOwnRoutersExactly(s, id, Some(DeletingNetwork), removed);
    }
  }

  /** A deletion that stopped half-way can be repeated: in the end the two are one deletion. */
  lemma RetriedDelete(s: Cloud, id: Id, err: Option<Step>, t: Cloud, u: Cloud)
    requires DeleteOutcome(s, id, err, t) && DeleteOutcome(t, id, None, u)
    ensures u == s.(routers := s.routers - Listed(s, id), networks := s.networks - {id})
  {
    var named := Listed(s, id);
    if t.routers != s.routers {
      assert Listed(t, id) == {};
      assert t.routers - {} == t.routers;
    } else {
      assert Listed(t, id) == named;
    }
    assert s.networks - {id} - {id} == s.networks - {id};
  }

  // ---------------------------------------------------------------- runs

  /** An operation; `id` is what a creation draws for its network, or what a deletion is called with. */
  datatype Op =
    | Create(id: Id, name: string, cidr: string, result: CreateResult)
    | Delete(id: Id, err: Option<Step>)
  {
    /** A creation that leaves the network `v` with the value `w`: it completed, or its rollback failed. */
    predicate Makes(v: Id, w: Network) {
      Create? && id == v && w == Network(name, cidr) && (result.Created? || result.rollback.Some?)
    }

    predicate Ends(v: Id) {
      Delete? && id == v && err == None
    }

    /** A creation that leaves the router `r` with the name `n`. */
    predicate MakesRouter(r: Id, n: Id) {
      Create? && id == n && r == n + 1 && result.Created?
    }

    /** A deletion that takes the routers named `n`: its own, or with the empty id any. */
    predicate Takes(n: Id) {
      Delete? && (id == n || id == EMPTY) && (err == None || err == Some(DeletingNetwork))
    }
  }

  ghost predicate Performs(s: Cloud, op: Op, t: Cloud) {
    match op
    case Create(id, name, cidr, r) => id == s.next && CreateOutcome(s, name, cidr, r, t)
    case Delete(id, err) => DeleteOutcome(s, id, err, t)
  }

  /** A run of creations and deletions, each with any failures, including failed rollbacks. */
  ghost predicate Run(states: seq<Cloud>, ops: seq<Op>) {
    && |states| == |ops| + 1
    && (forall i :: 0 <= i < |ops| ==> Performs(states[i], ops[i], states[i + 1]))
  }

  /**
   Every router made since `start` is named by a live network that was created since then,
   and no such network has two routers of its name.
   */
  ghost predicate Invariant(start: Cloud, s: Cloud) {
    && WellFormed(s) && start.next <= s.next
    && (forall r :: r in s.routers && r >= start.next ==> s.routers[r].name >= start.next)
    && (forall r :: r in s.routers && s.routers[r].name >= start.next ==> s.routers[r].name in s.networks)
    && (forall n :: n >= start.next ==> AtMostOne(Named(s, n)))
  }

  lemma CreateKeepsInvariant(start: Cloud, s: Cloud, name: string, cidr: string, r: CreateResult, t: Cloud)
    requires Invariant(start, s)
    requires CreateOutcome(s, name, cidr, r, t)
    ensures Invariant(start, t)
  {
    forall n | n >= start.next
      ensures AtMostOne(Named(t, n))
    {
      NamedAfterCreate(s, name, cidr, r, t, n);
    }
  }

  lemma NamedAfterCreate(s: Cloud, name: string, cidr: string, r: CreateResult, t: Cloud, n: Id)
    requires WellFormed(s)
    requires CreateOutcome(s, name, cidr, r, t)
    ensures Named(t, n) == if n == s.next && r.Created? then {s.next + 1} else Named(s, n)
  {
  }

  lemma DeleteKeepsInvariant(start: Cloud, s: Cloud, id: Id, err: Option<Step>, t: Cloud)
    requires Invariant(start, s)
    requires DeleteOutcome(s, id, err, t)
    ensures Invariant(start, t)
  {
    forall n | n >= start.next
      ensures AtMostOne(Named(t, n))
    {
      assert Named(t, n) <= Named(s, n);
    }
  }

  /**
   Over every run, each router made in it is named by a live network made in it and no two by
   the same, and so the "more than one router" branch is never taken for such a network.
   */
  lemma {:induction false} OneRouterPerNetwork(states: seq<Cloud>, ops: seq<Op>, n: nat)
    requires Run(states, ops)
    requires WellFormed(states[0])
    requires n < |states|
    ensures Invariant(states[0], states[n])
    ensures n < |ops| && ops[n].Delete? && ops[n].id >= states[0].next ==> ops[n].err != Some(TooManyRouters)
  {
    if n > 0 {
      var i := n - 1;
      OneRouterPerNetwork(states, ops, i);
      assert Performs(states[i], ops[i], states[i + 1]);
      match ops[i] {
        case Create(_, name, cidr, r) => CreateKeepsInvariant(states[0], states[i], name, cidr, r, states[n]);
        case Delete(id, err) => DeleteKeepsInvariant(states[0], states[i], id, err, states[n]);
      }
    }
    if n < |ops| {
      assert Performs(states[n], ops[n], states[n + 1]);
    }
  }

  /** Of no name but the empty one are there two routers, unless there were in `start`. */
  ghost predicate NoNewPairs(start: Cloud, s: Cloud) {
    forall m: Id :: m != EMPTY && !AtMostOne(Named(s, m)) ==> m < start.next && !AtMostOne(Named(start, m))
  }

  lemma FewerRouters(s: Cloud, t: Cloud, m: Id)
    requires forall r :: r in t.routers && t.routers[r].name == m ==> r in s.routers && s.routers[r].name == m
    ensures AtMostOne(Named(s, m)) ==> AtMostOne(Named(t, m))
  {
    assert Named(t, m) <= Named(s, m);
  }

  lemma StepMakesNoPair(s: Cloud, op: Op, t: Cloud, m: Id)
    requires WellFormed(s) && Performs(s, op, t)
    ensures AtMostOne(Named(s, m)) ==> AtMostOne(Named(t, m))
  {
    match op
    case Create(_, name, cidr, r) => NamedAfterCreate(s, name, cidr, r, t, m);
    case Delete(id, err) => FewerRouters(s, t, m);
  }

  lemma {:induction false} RunMakesNoPair(states: seq<Cloud>, ops: seq<Op>, n: nat, m: Id)
    requires Run(states, ops)
    requires WellFormed(states[0])
    requires n < |states| && AtMostOne(Named(states[0], m))
    ensures AtMostOne(Named(states[n], m))
  {
    if n > 0 {
      var i := n - 1;
      RunMakesNoPair(states, ops, i, m);
      OneRouterPerNetwork(states, ops, i);
      assert Performs(states[i], ops[i], states[i + 1]);
      StepMakesNoPair(states[i], ops[i], states[n], m);
    }
  }

  lemma NoPairToCome(s: Cloud, m: Id)
    requires WellFormed(s)
    ensures m >= s.next ==> AtMostOne(Named(s, m))
  {
    assert m >= s.next ==> Named(s, m) == {};
  }

  /**
   Over every run from any state: two routers of one name are two of a name that had two at the
   start, or of the empty one. And the "more than one router" branch is taken exactly by a
   deletion that can list and has an id of such a name, or the empty id while there are two
   routers of any name.
   */
  lemma TooManyRoutersExactly(states: seq<Cloud>, ops: seq<Op>, n: nat)
    requires Run(states, ops)
    requires WellFormed(states[0])
    requires n < |states|
    ensures NoNewPairs(states[0], states[n])
    ensures n < |ops| && ops[n].Delete? ==>
              (ops[n].err == Some(TooManyRouters) <==>
               ops[n].err != Some(ListingRouters) && !AtMostOne(Listed(states[n], ops[n].id)))
    ensures n < |ops| && ops[n].Delete? && ops[n].err == Some(TooManyRouters) ==>
              if ops[n].id == EMPTY then !AtMostOne(states[n].routers.Keys)
              else ops[n].id < states[0].next && !AtMostOne(Named(states[0], ops[n].id))
  {
    forall m: Id | m != EMPTY && !AtMostOne(Named(states[n], m))
      ensures m < states[0].next && !AtMostOne(Named(states[0], m))
    {
      NoPairToCome(states[0], m);
      if AtMostOne(Named(states[0], m)) {
        RunMakesNoPair(states, ops, n, m);
      }
    }
    if n < |ops| {
      assert Performs(states[n], ops[n], states[n + 1]);
    }
  }

  /**
   If no name but the empty one has two routers at the start, that stays so, and the "more than
   one router" branch is taken exactly with the empty id while there are two routers.
   */
  lemma TooManyOnlyForEmptyId(states: seq<Cloud>, ops: seq<Op>, n: nat)
    requires Run(states, ops)
    requires WellFormed(states[0])
    requires forall m: Id :: m != EMPTY ==> AtMostOne(Named(states[0], m))
    requires n < |states|
    ensures forall m: Id :: m != EMPTY ==> AtMostOne(Named(states[n], m))
    ensures n < |ops| && ops[n].Delete? ==>
              (ops[n].err == Some(TooManyRouters) <==>
               ops[n].id == EMPTY && !AtMostOne(states[n].routers.Keys) && ops[n].err != Some(ListingRouters))
  {
    TooManyRoutersExactly(states, ops, n);
  }

  /** No operation after number `k` and before number `n` deletes the network `v`. */
  ghost predicate Stays(ops: seq<Op>, k: int, n: nat, v: Id)
    requires -1 <= k && n <= |ops|
  {
    forall m :: k < m < n ==> !ops[m].Ends(v)
  }

  lemma StaysNext(ops: seq<Op>, n: nat, v: Id)
    requires n < |ops|
    ensures forall k :: -1 <= k < n ==> (Stays(ops, k, n + 1, v) <==> Stays(ops, k, n, v) && !ops[n].Ends(v))
    ensures Stays(ops, n, n + 1, v)
  {
    forall k | -1 <= k < n
      ensures Stays(ops, k, n + 1, v) <==> Stays(ops, k, n, v) && !ops[n].Ends(v)
    {
      assert Stays(ops, k, n + 1, v) ==> !ops[n].Ends(v);
    }
  }

  ghost predicate Has(s: Cloud, v: Id, w: Network) {
    v in s.networks && s.networks[v] == w
  }

  lemma StepNetworks(s: Cloud, op: Op, t: Cloud, v: Id, w: Network)
    requires WellFormed(s) && Performs(s, op, t)
    ensures Has(t, v, w) <==> op.Makes(v, w) || (Has(s, v, w) && !op.Ends(v))
  {
  }

  /**
   The networks at the end of every run: those of the start, those of completed creations and
   those of creations whose rollback failed, less the ones deleted with success since.
   */
  lemma {:induction false} RunNetworks(states: seq<Cloud>, ops: seq<Op>, n: nat, v: Id, w: Network)
    requires Run(states, ops)
    requires WellFormed(states[0])
    requires n < |states|
    ensures Has(states[n], v, w) <==>
            || (Has(states[0], v, w) && Stays(ops, -1, n, v))
            || exists k :: 0 <= k < n && ops[k].Makes(v, w) && Stays(ops, k, n, v)
  {
    if n > 0 {
      var i := n - 1;
      RunNetworks(states, ops, i, v, w);
      OneRouterPerNetwork(states, ops, i);
      assert Performs(states[i], ops[i], states[i + 1]);
      StepNetworks(states[i], ops[i], states[n], v, w);
      StaysNext(ops, i, v);
    }
  }

  /** No operation after number `k` and before number `n` takes routers of the name `name`. */
  ghost predicate Untaken(ops: seq<Op>, k: int, n: nat, name: Id)
    requires -1 <= k && n <= |ops|
  {
    forall m :: k < m < n ==> !ops[m].Takes(name)
  }

  ghost predicate HasRouter(s: Cloud, r: Id, name: Id) {
    r in s.routers && s.routers[r].name == name
  }

  lemma UntakenNext(ops: seq<Op>, n: nat, name: Id)
    requires n < |ops|
    ensures forall k :: -1 <= k < n ==>
              (Untaken(ops, k, n + 1, name) <==> Untaken(ops, k, n, name) && !ops[n].Takes(name))
    ensures Untaken(ops, n, n + 1, name)
  {
    forall k | -1 <= k < n
      ensures Untaken(ops, k, n + 1, name) <==> Untaken(ops, k, n, name) && !ops[n].Takes(name)
    {
      assert Untaken(ops, k, n + 1, name) ==> !ops[n].Takes(name);
    }
  }

  lemma StepRouters(s: Cloud, op: Op, t: Cloud, r: Id, name: Id)
    requires WellFormed(s) && Performs(s, op, t)
    ensures HasRouter(t, r, name) <==> op.MakesRouter(r, name) || (HasRouter(s, r, name) && !op.Takes(name))
  {
  }

  /**
   The routers at the end of every run: those of the start and those of completed creations,
   less the ones that a deletion took since, with the id they are named by or with the empty one.
   */
  lemma {:induction false} RunRouters(states: seq<Cloud>, ops: seq<Op>, n: nat, r: Id, name: Id)
    requires Run(states, ops)
    requires WellFormed(states[0])
    requires n < |states|
    ensures HasRouter(states[n], r, name) <==>
            || (HasRouter(states[0], r, name) && Untaken(ops, -1, n, name))
            || exists k :: 0 <= k < n && ops[k].MakesRouter(r, name) && Untaken(ops, k, n, name)
  {
    if n > 0 {
      var i := n - 1;
      RunRouters(states, ops, i, r, name);
      OneRouterPerNetwork(states, ops, i);
      assert Performs(states[i], ops[i], states[i + 1]);
      StepRouters(states[i], ops[i], states[n], r, name);
      UntakenNext(ops, i, name);
    }
  }
}
