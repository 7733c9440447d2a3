/**
 Creation and deletion of AWS networks: sequences of remote calls, any of which may fail,
 with the rollback that the manager carries out by hand.

 The remote side is one value, `Cloud`. A call that fails leaves it unchanged; which calls
 fail is left open, so every contract holds for every schedule of failures.
 */
module AwsNetworks {
  import opened Listings
  import opened Outcomes

  type Id = nat

  /** The two destinations that `populateRouteTable` routes to the gateway. */
  datatype Destination = AnyV4 | AnyV6

  /** A VPC with its "name" tag and the routes of its table; the table itself can be missing. */
  datatype Vpc = Vpc(cidr: string, name: Option<string>, routes: Option<map<Destination, Id>>)

  /**
   The remote state. `attached` maps a gateway to its VPC, `next` is the next unused id.
   The two counters count failed calls of AttachInternetGateway and DeleteInternetGateway.
   */
  datatype Cloud = Cloud(
    vpcs: map<Id, Vpc>,
    gateways: set<Id>,
    attached: map<Id, Id>,
    next: Id,
    failedAttaches: nat,
    failedDeletes: nat)

  function AttachedTo(s: Cloud, vpc: Id): set<Id> {
    set g | g in s.attached && s.attached[g] == vpc
  }

  /** The gateways that exist without being attached to anything. */
  function Orphans(s: Cloud): set<Id> {
    s.gateways - s.attached.Keys
  }

  /** The remote calls that can fail, or answer with nothing. */
  datatype Step =
    | CreatingVpc | Tagging | CreatingGateway | AttachingGateway | Routing | UndoingRoutes
    | ReadingNetwork | EmptyReading | ListingGateways | DetachingGateway | DeletingGateway | DeletingVpc

  /** `Failed` carries the cause and, if the rollback failed too, the call that failed in it. */
  datatype CreateResult =
    | Created(id: Id, network: Option<Vpc>)
    | CreatedUnread(id: Id)
    | Failed(cause: Step, rollback: Option<Step>)

  /**
   The part of EC2 that the network manager calls; `failed` records the calls that failed, and
   the readings that found nothing, in order.
   */
  class Ec2 {
    var now: Cloud
    ghost var failed: seq<Step>

    constructor (initial: Cloud)
      ensures now == initial && failed == []
    {
      now, failed := initial, [];
    }

    /** EC2 gives a new VPC a route table, though possibly not at once. */
    method CreateVpc(cidr: string) returns (r: Option<Id>)
      modifies this
      ensures failed == Extended(old(failed), r.None?, CreatingVpc)
      ensures r.None? ==> now == old(now)
      ensures r.Some? ==>
                && r.value == old(now).next
                && now.vpcs.Keys == old(now).vpcs.Keys + {r.value}
                && (exists routes: Option<map<Destination, Id>> ::
                      && (routes.Some? ==> routes.value == map[])
                      && now == old(now).(vpcs := old(now).vpcs[r.value := Vpc(cidr, None, routes)],
                                          next := old(now).next + 1))
    {
      if * {
        failed := failed + [CreatingVpc];
        return None;
      }
      var routes: Option<map<Destination, Id>> := None;
      if * {
        routes := Some(map[]);
      }
      r := Some(now.next);
      now := now.(vpcs := now.vpcs[now.next := Vpc(cidr, None, routes)], next := now.next + 1);
    }

    method CreateTags(vpc: Id, name: string) returns (ok: bool)
      modifies this
      ensures failed == Extended(old(failed), !ok, Tagging)
      ensures now == if ok && vpc in old(now).vpcs
                     then old(now).(vpcs := old(now).vpcs[vpc := old(now).vpcs[vpc].(name := Some(name))])
                     else old(now)
      ensures ok ==> vpc in old(now).vpcs
    {
      ok := *;
      ok := ok && vpc in now.vpcs;
      failed := Extended(failed, !ok, Tagging);
      if ok {
        now := now.(vpcs := now.vpcs[vpc := now.vpcs[vpc].(name := Some(name))]);
      }
    }

    method CreateInternetGateway() returns (r: Option<Id>)
      modifies this
      ensures failed == Extended(old(failed), r.None?, CreatingGateway)
      ensures r.None? ==> now == old(now)
      ensures r.Some? ==>
                && r.value == old(now).next
                && now == old(now).(gateways := old(now).gateways + {r.value}, next := old(now).next + 1)
    {
      if * {
        failed := failed + [CreatingGateway];
        return None;
      }
      r := Some(now.next);
      now := now.(gateways := now.gateways + {now.next}, next := now.next + 1);
    }

    method AttachInternetGateway(gateway: Id, vpc: Id) returns (ok: bool)
      modifies this
      ensures failed == Extended(old(failed), !ok, AttachingGateway)
      ensures now == if ok then old(now).(attached := old(now).attached[gateway := vpc])
                     else old(now).(failedAttaches := old(now).failedAttaches + 1)
    {
      ok := *;
      failed := Extended(failed, !ok, AttachingGateway);
      if ok {
        now := now.(attached := now.attached[gateway := vpc]);
      } else {
        now := now.(failedAttaches := now.failedAttaches + 1);
      }
    }

    method DetachInternetGateway(gateway: Id, vpc: Id) returns (ok: bool)
      modifies this
      ensures failed == Extended(old(failed), !ok, DetachingGateway)
      ensures now == if ok then old(now).(attached := old(now).attached - {gateway}) else old(now)
    {
      ok := *;
      failed := Extended(failed, !ok, DetachingGateway);
      if ok {
        now := now.(attached := now.attached - {gateway});
      }
    }

    method DeleteInternetGateway(gateway: Id) returns (ok: bool)
      modifies this
      ensures failed == Extended(old(failed), !ok, DeletingGateway)
      ensures now == if ok then old(now).(gateways := old(now).gateways - {gateway})
                     else old(now).(failedDeletes := old(now).failedDeletes + 1)
    {
      ok := *;
      failed := Extended(failed, !ok, DeletingGateway);
      if ok {
        now := now.(gateways := now.gateways - {gateway});
      } else {
        now := now.(failedDeletes := now.failedDeletes + 1);
      }
    }

    method DeleteVpc(vpc: Id) returns (ok: bool)
      modifies this
      ensures failed == Extended(old(failed), !ok, DeletingVpc)
      ensures now == if ok then old(now).(vpcs := old(now).vpcs - {vpc}) else old(now)
    {
      ok := *;
      failed := Extended(failed, !ok, DeletingVpc);
      if ok {
        now := now.(vpcs := now.vpcs - {vpc});
      }
    }

    /** The gateways attached to a VPC, in an order that EC2 chooses. */
    method DescribeInternetGateways(vpc: Id) returns (r: Option<seq<Id>>)
      modifies this`failed
      ensures failed == Extended(old(failed), r.None?, ListingGateways)
      ensures r.Some? ==> Lists(r.value, AttachedTo(now, vpc))
    {
      if * {
        failed := failed + [ListingGateways];
        return None;
      }
      var listed := ListOf(AttachedTo(now, vpc));
      return Some(listed);
    }

    /** The VPC, if the answer lists it. */
    method DescribeVpcs(vpc: Id) returns (r: Option<Option<Vpc>>)
      modifies this`failed
      ensures failed == match r
                       case None => old(failed) + [ReadingNetwork]
                       case Some(None) => old(failed) + [EmptyReading]
                       case Some(Some(_)) => old(failed)
      ensures r.Some? && r.value.Some? ==> vpc in now.vpcs && r.value.value == now.vpcs[vpc]
    {
      if * {
        failed := failed + [ReadingNetwork];
        return None;
      }
      var listed: bool := *;
      listed := listed && vpc in now.vpcs;
      failed := Extended(failed, !listed, EmptyReading);
      return Some(if listed then Some(now.vpcs[vpc]) else None);
    }

    /** Whether the VPC has a route table; a failed or an empty answer are one error to the caller. */
    method DescribeRouteTables(vpc: Id) returns (found: bool)
      modifies this`failed
      ensures failed == Extended(old(failed), !found, Routing)
      ensures found ==> vpc in now.vpcs && now.vpcs[vpc].routes.Some?
    {
      found := *;
      found := found && vpc in now.vpcs && now.vpcs[vpc].routes.Some?;
      failed := Extended(failed, !found, Routing);
    }

    method CreateRoute(vpc: Id, to: Destination, gateway: Id) returns (ok: bool)
      modifies this
      ensures failed == Extended(old(failed), !ok, Routing)
      ensures OnlyRoutesOf(vpc, old(now), now)
      ensures ok ==> vpc in old(now).vpcs && old(now).vpcs[vpc].routes.Some?
                     && vpc in now.vpcs
                     && now.vpcs[vpc].routes == Some(old(now).vpcs[vpc].routes.value[to := gateway])
      ensures !ok ==> now == old(now)
    {
      ok := *;
      ok := ok && vpc in now.vpcs && now.vpcs[vpc].routes.Some?;
      failed := Extended(failed, !ok, Routing);
      if ok {
        var v := now.vpcs[vpc];
        now := now.(vpcs := now.vpcs[vpc := v.(routes := Some(v.routes.value[to := gateway]))]);
      }
    }

    method DeleteRoute(vpc: Id, to: Destination) returns (ok: bool)
      modifies this
      ensures failed == Extended(old(failed), !ok, UndoingRoutes)
      ensures OnlyRoutesOf(vpc, old(now), now)
    {
      ok := *;
      ok := ok && vpc in now.vpcs && now.vpcs[vpc].routes.Some?;
      failed := Extended(failed, !ok, UndoingRoutes);
      if ok {
        var v := now.vpcs[vpc];
        now := now.(vpcs := now.vpcs[vpc := v.(routes := Some(v.routes.value - {to}))]);
      }
    }

    method DeleteRouteTable(vpc: Id) returns (ok: bool)
      modifies this
      ensures ok ==> vpc in now.vpcs && now.vpcs[vpc].routes.None?
      ensures failed == Extended(old(failed), !ok, UndoingRoutes)
      ensures OnlyRoutesOf(vpc, old(now), now)
    {
      ok := *;
      ok := ok && vpc in now.vpcs;
      failed := Extended(failed, !ok, UndoingRoutes);
      if ok {
        now := now.(vpcs := now.vpcs[vpc := now.vpcs[vpc].(routes := None)]);
      }
    }
  }

  /** Nothing changed but the routes of one VPC. */
  ghost predicate OnlyRoutesOf(vpc: Id, s: Cloud, t: Cloud) {
    && t == s.(vpcs := t.vpcs)
    && t.vpcs.Keys == s.vpcs.Keys
    && (forall v :: v in s.vpcs && v != vpc ==> t.vpcs[v] == s.vpcs[v])
    && (vpc in s.vpcs ==> t.vpcs[vpc] == s.vpcs[vpc].(routes := t.vpcs[vpc].routes))
  }

  // ---------------------------------------------------------------- outcomes

  function AsSet(x: Option<Id>): set<Id> {
    match x
    case None => {}
    case Some(id) => {id}
  }

  /** `s` without the gateways `removed`, and with the gateway `stuck`, if any, detached but alive. */
  function WithoutGateways(s: Cloud, removed: set<Id>, stuck: Option<Id>): Cloud {
    s.(gateways := s.gateways - removed,
       attached := s.attached - (removed + AsSet(stuck)),
       failedDeletes := s.failedDeletes + if stuck.Some? then 1 else 0)
  }

  /** What `removeInternetGateway` leaves, given the error it reports. */
  ghost predicate RemovalOutcome(s: Cloud, vpc: Id, err: Option<Step>, t: Cloud,
                                 removed: set<Id>, stuck: Option<Id>)
  {
    var all := AttachedTo(s, vpc);
    && t == WithoutGateways(s, removed, stuck)
    && removed <= all && AsSet(stuck) <= all - removed
    && (stuck.Some? <==> err == Some(DeletingGateway))
    && match err
       case None => removed == all
       case Some(ListingGateways) => removed == {}
       case Some(DetachingGateway) => removed < all
       case Some(DeletingGateway) => true
       case _ => false
  }

  /** What `deleteNetwork` leaves, given the error it reports. */
  ghost predicate DeleteOutcome(s: Cloud, vpc: Id, err: Option<Step>, t: Cloud) {
    match err
    case None => t == WithoutGateways(s, AttachedTo(s, vpc), None).(vpcs := s.vpcs - {vpc})
    case Some(DeletingVpc) => t == WithoutGateways(s, AttachedTo(s, vpc), None)
    case _ => exists removed, stuck :: RemovalOutcome(s, vpc, err, t, removed, stuck)
  }

  /** Ids in use are below `next`, and only existing gateways are attached. */
  ghost predicate WellFormed(s: Cloud) {
    && (forall v :: v in s.vpcs ==> v < s.next)
    && (forall g :: g in s.gateways ==> g < s.next)
    && (forall g :: g in s.attached ==> g in s.gateways && s.attached[g] < s.next)
  }

  /**
   What `createNetwork` leaves when it fails after creating the VPC: a function of the two
   calls that its error names.
   */
  ghost predicate Leftover(s: Cloud, cause: Step, rollback: Option<Step>, t: Cloud) {
    var vpc, gateway := s.next, s.next + 1;
    var attachedBefore := cause == Routing;
    var stillAttached := attachedBefore && (rollback == Some(ListingGateways) || rollback == Some(DetachingGateway));
    var stillThere := stillAttached || cause == AttachingGateway || rollback == Some(DeletingGateway);
    && cause in {Tagging, CreatingGateway, AttachingGateway, Routing}
    && (rollback == None || rollback.value in {ListingGateways, DeletingVpc}
        || (attachedBefore && rollback.value in {DetachingGateway, DeletingGateway}))
    && (vpc in t.vpcs <==> rollback.Some?)
    && t.vpcs - {vpc} == s.vpcs
    && t.gateways == s.gateways + (if stillThere then {gateway} else {})
    && t.attached == (if stillAttached then s.attached[gateway := vpc] else s.attached)
    && t.failedAttaches == s.failedAttaches + (if cause == AttachingGateway then 1 else 0)
    && t.failedDeletes == s.failedDeletes + (if rollback == Some(DeletingGateway) then 1 else 0)
    && s.next < t.next
    && (stillThere ==> gateway < t.next)
  }

  /** What a completed creation adds: one tagged VPC and one gateway that both routes lead to. */
  ghost predicate IsNewNetwork(s: Cloud, cidr: string, name: string, t: Cloud) {
    var vpc, gateway := s.next, s.next + 1;
    var routes := map[AnyV4 := gateway, AnyV6 := gateway];
    t == s.(vpcs := s.vpcs[vpc := Vpc(cidr, Some(name), Some(routes))],
            gateways := s.gateways + {gateway},
            attached := s.attached[gateway := vpc],
            next := s.next + 2)
  }

  /** What `createNetwork` leaves, given its result. */
  ghost predicate CreateOutcome(s: Cloud, cidr: string, name: string, r: CreateResult, t: Cloud) {
    match r
    case Created(id, network) =>
      && id == s.next && IsNewNetwork(s, cidr, name, t)
      && (network.Some? ==> network.value == t.vpcs[id])
    case CreatedUnread(id) => id == s.next && IsNewNetwork(s, cidr, name, t)
    case Failed(CreatingVpc, rollback) => rollback == None && t == s
    case Failed(cause, rollback) => Leftover(s, cause, rollback, t)
  }

  lemma DeleteWithoutGateway(s: Cloud, vpc: Id, err: Option<Step>, t: Cloud)
    requires AttachedTo(s, vpc) == {}
    requires DeleteOutcome(s, vpc, err, t)
    ensures err == None || err == Some(ListingGateways) || err == Some(DeletingVpc)
    ensures t == if err == None then s.(vpcs := s.vpcs - {vpc}) else s
  {
    assert WithoutGateways(s, {}, None) == s;
    if err.Some? && err != Some(DeletingVpc) {
      var removed, stuck :| RemovalOutcome(s, vpc, err, t, removed, stuck);
      assert removed == {} && AsSet(stuck) == {};
    }
  }

  lemma DeleteWithOneGateway(s: Cloud, vpc: Id, gateway: Id, err: Option<Step>, t: Cloud)
    requires AttachedTo(s, vpc) == {gateway}
    requires DeleteOutcome(s, vpc, err, t)
    ensures var detached := s.attached - {gateway};
            var deleted := s.(attached := detached, gateways := s.gateways - {gateway});
            match err
            case None => t == deleted.(vpcs := s.vpcs - {vpc})
            case Some(DeletingVpc) => t == deleted
            case Some(ListingGateways) => t == s
            case Some(DetachingGateway) => t == s
            case Some(DeletingGateway) => t == s.(attached := detached, failedDeletes := s.failedDeletes + 1)
            case _ => false
  {
    assert WithoutGateways(s, {}, None) == s;
    assert {gateway} + {} == {gateway} == {} + {gateway};
    if err.Some? && err != Some(DeletingVpc) {
      var removed, stuck :| RemovalOutcome(s, vpc, err, t, removed, stuck);
      OneOrNone(removed, gateway);
      assert stuck == None || stuck == Some(gateway) by {
        if stuck.Some? {
          assert stuck.value in AsSet(stuck);
        }
      }
    }
  }

  lemma OneOrNone(s: set<Id>, x: Id)
    requires s <= {x}
    ensures s == {} || s == {x}
  {
    if s != {} {
      var y :| y in s;
      assert y == x;
    }
  }

  lemma RemovedInTurn(s: Cloud, removed: set<Id>, gateway: Id)
    ensures var t := WithoutGateways(s, removed, None);
            && WithoutGateways(t, {gateway}, None) == WithoutGateways(s, removed + {gateway}, None)
            && WithoutGateways(t, {}, Some(gateway)) == WithoutGateways(s, removed, Some(gateway))
  {
    assert s.gateways - removed - {gateway} == s.gateways - (removed + {gateway});
    assert s.attached - (removed + {}) - ({gateway} + {}) == s.attached - (removed + {gateway} + {});
    assert s.attached - (removed + {}) - ({} + {gateway}) == s.attached - (removed + {gateway});
  }

  class NetworkManager {
    const ec2: Ec2

    constructor (ec2: Ec2)
      ensures this.ec2 == ec2
    {
      this.ec2 := ec2;
    }

    method RemoveInternetGateway(vpc: Id) returns (err: Option<Step>, ghost removed: set<Id>, ghost stuck: Option<Id>)
      modifies ec2
      ensures RemovalOutcome(old(ec2.now), vpc, err, ec2.now, removed, stuck)
      ensures ec2.failed == if err.Some? then old(ec2.failed) + [err.value] else old(ec2.failed)
    {
      removed, stuck := {}, None;
      ghost var s := ec2.now;
      var list := ec2.DescribeInternetGateways(vpc);
      if list.None? {
        return Some(ListingGateways), {}, None;
      }
      for i := 0 to |list.value|
        invariant removed == set g | g in list.value[..i]
        invariant ec2.now == WithoutGateways(s, removed, None)
        invariant ec2.failed == old(ec2.failed)
      {
        var gateway := list.value[i];
        assert gateway in AttachedTo(s, vpc) - removed;
        err := RemoveOne(gateway, vpc);
        RemovedInTurn(s, removed, gateway);
        if err.Some? {
          return err, removed, if err == Some(DeletingGateway) then Some(gateway) else None;
        }
        removed := removed + {gateway};
      }
      assert list.value[..|list.value|] == list.value;
      return None, removed, None;
    }

    /** The body of the loop. */
    method RemoveOne(gateway: Id, vpc: Id) returns (err: Option<Step>)
      modifies ec2
      ensures ec2.failed == if err.Some? then old(ec2.failed) + [err.value] else old(ec2.failed)
      ensures match err
              case None => ec2.now == WithoutGateways(old(ec2.now), {gateway}, None)
              case Some(DetachingGateway) => ec2.now == old(ec2.now)
              case Some(DeletingGateway) => ec2.now == WithoutGateways(old(ec2.now), {}, Some(gateway))
              case _ => false
    {
      var ok := ec2.DetachInternetGateway(gateway, vpc);
      if !ok {
        return Some(DetachingGateway);
      }
      ok := ec2.DeleteInternetGateway(gateway);
      return if ok then None else Some(DeletingGateway);
    }

    method DeleteNetwork(vpc: Id) returns (err: Option<Step>)
      modifies ec2
      ensures DeleteOutcome(old(ec2.now), vpc, err, ec2.now)
      ensures ec2.failed == if err.Some? then old(ec2.failed) + [err.value] else old(ec2.failed)
    {
      ghost var removed, stuck;
      err, removed, stuck := RemoveInternetGateway(vpc);
      if err.Some? {
        return;
      }
      var ok := ec2.DeleteVpc(vpc);
      return if ok then None else Some(DeletingVpc);
    }

    /**
     `populateRouteTable`; on failure it tries to undo what it did to the route table, and
     `undoing` are the failures of that, which it does not report.
     */
    method PopulateRouteTable(vpc: Id, gateway: Id) returns (ok: bool, ghost undoing: seq<Step>)
      modifies ec2
      ensures OnlyRoutesOf(vpc, old(ec2.now), ec2.now)
      ensures ok ==>
                && vpc in old(ec2.now).vpcs && old(ec2.now).vpcs[vpc].routes.Some?
                && ec2.now.vpcs[vpc].routes
                   == Some(old(ec2.now).vpcs[vpc].routes.value[AnyV4 := gateway][AnyV6 := gateway])
      ensures !ok && ec2.now != old(ec2.now) && undoing == [] ==>
                vpc in ec2.now.vpcs && ec2.now.vpcs[vpc].routes.None?
      ensures ec2.failed == if ok then old(ec2.failed) else old(ec2.failed) + [Routing] + undoing
      ensures |undoing| <= (if ok then 0 else 2) && forall call :: call in undoing ==> call == UndoingRoutes
    {
      undoing := [];
      ok := ec2.DescribeRouteTables(vpc);
      if !ok {
        return;
      }
      ok := ec2.CreateRoute(vpc, AnyV4, gateway);
      if !ok {
        var deleted := ec2.DeleteRouteTable(vpc);
        undoing := Extended([], !deleted, UndoingRoutes);
        return;
      }
      ok := ec2.CreateRoute(vpc, AnyV6, gateway);
      if !ok {
        var removed := ec2.DeleteRoute(vpc, AnyV4);
        var deleted := ec2.DeleteRouteTable(vpc);
        undoing := Extended(Extended([], !removed, UndoingRoutes), !deleted, UndoingRoutes);
      }
    }

    /** `addInternetGateway`: when attaching fails, the gateway it made is not removed. */
    method AddInternetGateway(vpc: Id) returns (err: Option<Step>, gateway: Id)
      modifies ec2
      ensures var s := old(ec2.now);
              var made := s.(gateways := s.gateways + {s.next}, next := s.next + 1);
              match err
              case None => gateway == s.next && ec2.now == made.(attached := s.attached[gateway := vpc])
              case Some(CreatingGateway) => ec2.now == s
              case Some(AttachingGateway) => ec2.now == made.(failedAttaches := s.failedAttaches + 1)
              case _ => false
      ensures ec2.failed == if err.Some? then old(ec2.failed) + [err.value] else old(ec2.failed)
    {
      var out := ec2.CreateInternetGateway();
      if out.None? {
        return Some(CreatingGateway), 0;
      }
      var ok := ec2.AttachInternetGateway(out.value, vpc);
      return if ok then None else Some(AttachingGateway), out.value;
    }

    method CreateNetwork(cidr: string, name: string) returns (r: CreateResult, ghost undoing: seq<Step>)
      requires WellFormed(ec2.now)
      modifies ec2
      ensures CreateOutcome(old(ec2.now), cidr, name, r, ec2.now)
      ensures match r
              case Created(_, None) => ec2.failed == old(ec2.failed) + [EmptyReading]
              case Created(_, Some(_)) => ec2.failed == old(ec2.failed)
              case CreatedUnread(_) => ec2.failed == old(ec2.failed) + [ReadingNetwork]
              case Failed(cause, None) => ec2.failed == old(ec2.failed) + [cause] + undoing
              case Failed(cause, Some(call)) => ec2.failed == old(ec2.failed) + [cause] + undoing + [call]
      ensures |undoing| <= (if r.Failed? && r.cause == Routing then 2 else 0)
      ensures forall call :: call in undoing ==> call == UndoingRoutes
    {
      ghost var s := ec2.now;
      undoing := [];
      var out := ec2.CreateVpc(cidr);
      if out.None? {
        return Failed(CreatingVpc, None), [];
      }
      var vpc := out.value;
      var ok := ec2.CreateTags(vpc, name);
      if !ok {
        r := RollBack(s, vpc, Tagging);
        return;
      }
      var err, gateway := AddInternetGateway(vpc);
      if err.Some? {
        r := RollBack(s, vpc, err.value);
        return;
      }
      r, undoing := Complete(s, cidr, name, vpc, gateway);
    }

    /** The part of `createNetwork` after attaching the gateway: the routes, and reading the network. */
    method Complete(ghost s: Cloud, ghost cidr: string, ghost name: string, vpc: Id, gateway: Id)
      returns (r: CreateResult, ghost undoing: seq<Step>)
      requires WellFormed(s) && vpc == s.next && gateway == s.next + 1
      requires WithGateway(s, cidr, name, ec2.now)
      modifies ec2
      ensures CreateOutcome(s, cidr, name, r, ec2.now)
      ensures match r
              case Created(_, None) => ec2.failed == old(ec2.failed) + [EmptyReading]
              case Created(_, Some(_)) => ec2.failed == old(ec2.failed)
              case CreatedUnread(_) => ec2.failed == old(ec2.failed) + [ReadingNetwork]
              case Failed(cause, None) => ec2.failed == old(ec2.failed) + [cause] + undoing
              case Failed(cause, Some(call)) => ec2.failed == old(ec2.failed) + [cause] + undoing + [call]
      ensures |undoing| <= (if r.Failed? && r.cause == Routing then 2 else 0)
      ensures forall call :: call in undoing ==> call == UndoingRoutes
    {
      ghost var u := ec2.now;
      var ok;
      ok, undoing := PopulateRouteTable(vpc, gateway);
      RoutingKeepsUnderway(s, cidr, name, u, ec2.now);
      if !ok {
        r := RollBack(s, vpc, Routing);
        return;
      }
      RoutedIsNew(s, cidr, name, u, ec2.now);
      var answer := ec2.DescribeVpcs(vpc);
      return if answer.None? then CreatedUnread(vpc) else Created(vpc, answer.value), [];
    }

    /** The three error exits of `createNetwork`. */
    method RollBack(ghost s: Cloud, vpc: Id, cause: Step) returns (r: CreateResult)
      requires WellFormed(s) && Underway(s, cause, ec2.now)
      requires vpc == s.next
      modifies ec2
      ensures r.Failed? && r.cause == cause && Leftover(s, cause, r.rollback, ec2.now)
      ensures ec2.failed == if r.rollback.Some? then old(ec2.failed) + [r.rollback.value] else old(ec2.failed)
    {
      ghost var u := ec2.now;
      var err := DeleteNetwork(vpc);
      RollBackLeaves(s, cause, u, err, ec2.now);
      return Failed(cause, err);
    }
  }

  /** The state in which `createNetwork` meets the failing call `cause`. */
  ghost predicate Underway(s: Cloud, cause: Step, u: Cloud) {
    var vpc, gateway := s.next, s.next + 1;
    && cause in {Tagging, CreatingGateway, AttachingGateway, Routing}
    && vpc in u.vpcs && u.vpcs - {vpc} == s.vpcs
    && u.gateways == s.gateways + (if cause in {AttachingGateway, Routing} then {gateway} else {})
    && u.attached == (if cause == Routing then s.attached[gateway := vpc] else s.attached)
    && u.failedAttaches == s.failedAttaches + (if cause == AttachingGateway then 1 else 0)
    && u.failedDeletes == s.failedDeletes
    && u.next == s.next + (if cause in {AttachingGateway, Routing} then 2 else 1)
  }

  lemma RollBackLeaves(s: Cloud, cause: Step, u: Cloud, err: Option<Step>, t: Cloud)
    requires WellFormed(s) && Underway(s, cause, u)
    requires DeleteOutcome(u, s.next, err, t)
    ensures Leftover(s, cause, err, t)
  {
    if cause == Routing {
      RoutingRollBackLeaves(s, u, err, t);
    } else {
      assert AttachedTo(u, s.next) == {};
      DeleteWithoutGateway(u, s.next, err, t);
      assert u.vpcs - {s.next} - {s.next} == u.vpcs - {s.next};
    }
  }

  /** The state of a creation that has attached its gateway. */
  ghost predicate WithGateway(s: Cloud, cidr: string, name: string, u: Cloud) {
    var vpc, gateway := s.next, s.next + 1;
    && u == s.(vpcs := u.vpcs, gateways := s.gateways + {gateway}, attached := s.attached[gateway := vpc],
               next := s.next + 2)
    && vpc in u.vpcs && u.vpcs == s.vpcs[vpc := u.vpcs[vpc]]
    && u.vpcs[vpc].cidr == cidr && u.vpcs[vpc].name == Some(name)
    && (u.vpcs[vpc].routes.Some? ==> u.vpcs[vpc].routes.value == map[])
  }

  lemma RoutingKeepsUnderway(s: Cloud, cidr: string, name: string, u: Cloud, t: Cloud)
    requires WellFormed(s) && WithGateway(s, cidr, name, u) && OnlyRoutesOf(s.next, u, t)
    ensures Underway(s, Routing, t)
  {
    assert s.next !in s.vpcs;
    assert t.vpcs - {s.next} == u.vpcs - {s.next};
  }

  lemma RoutedIsNew(s: Cloud, cidr: string, name: string, u: Cloud, t: Cloud)
    requires WithGateway(s, cidr, name, u) && OnlyRoutesOf(s.next, u, t)
    requires u.vpcs[s.next].routes.Some?
    requires t.vpcs[s.next].routes == Some(u.vpcs[s.next].routes.value[AnyV4 := s.next + 1][AnyV6 := s.next + 1])
    ensures IsNewNetwork(s, cidr, name, t)
  {
    assert t.vpcs == s.vpcs[s.next := t.vpcs[s.next]];
  }

  lemma RoutingRollBackLeaves(s: Cloud, u: Cloud, err: Option<Step>, t: Cloud)
    requires WellFormed(s) && Underway(s, Routing, u)
    requires DeleteOutcome(u, s.next, err, t)
    ensures Leftover(s, Routing, err, t)
  {
    var vpc, gateway := s.next, s.next + 1;
    assert AttachedTo(u, vpc) == {gateway};
    DeleteWithOneGateway(u, vpc, gateway, err, t);
    assert u.attached - {gateway} == s.attached;
    assert u.gateways - {gateway} == s.gateways;
    assert u.vpcs - {vpc} - {vpc} == u.vpcs - {vpc};
  }

  // ---------------------------------------------------------------- single operations

  /** The orphan that a failed creation leaves. */
  function NewOrphan(s: Cloud, cause: Step, rollback: Option<Step>): Option<Id> {
    if cause == AttachingGateway || rollback == Some(DeletingGateway) then Some(s.next + 1) else None
  }

  lemma LeftoverOrphans(s: Cloud, cause: Step, rollback: Option<Step>, t: Cloud)
    requires WellFormed(s)
    requires Leftover(s, cause, rollback, t)
    ensures Orphans(t) == Orphans(s) + AsSet(NewOrphan(s, cause, rollback))
    ensures s.next + 1 !in Orphans(s)
  {
  }

  lemma LeftoverWithoutRollbackError(s: Cloud, cause: Step, t: Cloud)
    requires Leftover(s, cause, None, t)
    ensures t.vpcs == s.vpcs && t.attached == s.attached
  {
    assert t.vpcs - {s.next} == t.vpcs;
  }

  /**
   A completed creation adds one VPC, with the name and the block asked for, and one gateway,
   attached to that VPC and the target of both its routes; what is read back is that VPC.
   */
  lemma CompletedNetwork(s: Cloud, cidr: string, name: string, r: CreateResult, t: Cloud)
    requires WellFormed(s) && CreateOutcome(s, cidr, name, r, t) && !r.Failed?
    ensures r.id !in s.vpcs && r.id in t.vpcs && t.vpcs - {r.id} == s.vpcs
    ensures t.vpcs[r.id].cidr == cidr && t.vpcs[r.id].name == Some(name)
    ensures exists g :: && g !in s.gateways && t.gateways == s.gateways + {g}
                        && t.attached == s.attached[g := r.id]
                        && t.vpcs[r.id].routes == Some(map[AnyV4 := g, AnyV6 := g])
    ensures r.Created? && r.network.Some? ==> r.network.value == t.vpcs[r.id]
  {
    assert s.next !in s.vpcs && s.next + 1 !in s.gateways;
    assert t.vpcs - {s.next} == s.vpcs;
  }

  /**
   The errors of a failed creation, and what is left when its rollback fails too: the VPC, and its
   gateway still attached exactly if the rollback got no further than listing or detaching.
   */
  lemma FailedCreation(s: Cloud, cidr: string, name: string, cause: Step, rollback: Option<Step>, t: Cloud)
    requires WellFormed(s) && CreateOutcome(s, cidr, name, Failed(cause, rollback), t)
    ensures cause in {CreatingVpc, Tagging, CreatingGateway, AttachingGateway, Routing}
    ensures rollback.Some? ==>
              && cause != CreatingVpc
              && rollback.value in {ListingGateways, DetachingGateway, DeletingGateway, DeletingVpc}
              && (rollback.value in {DetachingGateway, DeletingGateway} ==> cause == Routing)
    ensures rollback.Some? ==> exists v :: v !in s.vpcs && v in t.vpcs && t.vpcs - {v} == s.vpcs
    ensures t.attached == s.attached
            || exists v: Id, g: Id :: v !in s.vpcs && g !in s.gateways && t.attached == s.attached[g := v]
    ensures t.attached != s.attached <==>
            cause == Routing && rollback in {Some(ListingGateways), Some(DetachingGateway)}
    ensures s.gateways <= t.gateways
  {
    assert s.next !in s.vpcs && s.next + 1 !in s.gateways && s.next + 1 !in s.attached;
  }

  /** A deletion without error has removed the VPC and exactly the gateways attached to it. */
  lemma DeletedNetwork(s: Cloud, vpc: Id, t: Cloud)
    requires DeleteOutcome(s, vpc, None, t)
    ensures t.vpcs == s.vpcs - {vpc}
    ensures forall g :: g in t.gateways <==> g in s.gateways && !(g in s.attached && s.attached[g] == vpc)
    ensures forall g :: g in t.attached <==> g in s.attached && s.attached[g] != vpc
    ensures forall g :: g in t.attached ==> t.attached[g] == s.attached[g]
  {
  }

  /** A deletion with an error has not removed the VPC, nor a gateway of another one. */
  lemma UndeletedNetwork(s: Cloud, vpc: Id, err: Option<Step>, t: Cloud)
    requires DeleteOutcome(s, vpc, err, t) && err.Some?
    ensures t.vpcs == s.vpcs
    ensures forall g :: g in s.gateways && !(g in s.attached && s.attached[g] == vpc) ==> g in t.gateways
    ensures forall g :: g in s.attached && s.attached[g] != vpc ==> g in t.attached && t.attached[g] == s.attached[g]
    ensures err == Some(DeletingVpc) ==> forall g :: g in s.attached && s.attached[g] == vpc ==> g !in t.gateways
    ensures err == Some(DetachingGateway) ==> exists g :: g in s.attached && g in t.attached && s.attached[g] == vpc
    ensures t.gateways <= s.gateways && (err == Some(ListingGateways) ==> t == s)
  {
    if err != Some(DeletingVpc) {
      var removed, stuck :| RemovalOutcome(s, vpc, err, t, removed, stuck);
      if err == Some(DetachingGateway) {
        assert !(AttachedTo(s, vpc) <= removed);
        var g :| g in AttachedTo(s, vpc) && g !in removed;
      }
    }
  }

  /**
   After a failed creation whose rollback succeeded, everything is as before except for one
   orphan, and that one is there exactly when attaching was the call that failed.
   */
  lemma CleanRollback(s: Cloud, cidr: string, name: string, cause: Step, t: Cloud)
    requires WellFormed(s)
    requires CreateOutcome(s, cidr, name, Failed(cause, None), t)
    ensures t.vpcs == s.vpcs && t.attached == s.attached
    ensures Orphans(t) == if cause == AttachingGateway then Orphans(s) + {s.next + 1} else Orphans(s)
    ensures s.next + 1 !in Orphans(s)
  {
    if cause != CreatingVpc {
      LeftoverWithoutRollbackError(s, cause, t);
      LeftoverOrphans(s, cause, None, t);
    }
  }

  /** A failed creation leaves nothing behind exactly when rolling back worked and attaching had not failed. */
  lemma NothingLeft(s: Cloud, cidr: string, name: string, cause: Step, rollback: Option<Step>, t: Cloud)
    requires WellFormed(s)
    requires CreateOutcome(s, cidr, name, Failed(cause, rollback), t)
    ensures t.vpcs == s.vpcs && t.gateways == s.gateways && t.attached == s.attached
            <==> rollback == None && cause != AttachingGateway
  {
    if rollback == None && cause != CreatingVpc {
      LeftoverWithoutRollbackError(s, cause, t);
      assert s.next + 1 !in s.gateways;
      assert s.next + 1 in s.gateways + {s.next + 1};
    }
  }

  /** Repeating a failed deletion until it succeeds leaves at most the gateway it had detached. */
  lemma RetriedDelete(s: Cloud, vpc: Id, err: Option<Step>, t: Cloud, u: Cloud)
    requires WellFormed(s)
    requires DeleteOutcome(s, vpc, err, t) && DeleteOutcome(t, vpc, None, u)
    ensures u.vpcs == s.vpcs - {vpc}
    ensures u.attached == s.attached - AttachedTo(s, vpc)
    ensures u.gateways == s.gateways - AttachedTo(s, vpc) <==> err != Some(DeletingGateway)
  {
    var all := AttachedTo(s, vpc);
    var removed, stuck := all, None;
    if err.Some? && err != Some(DeletingVpc) {
      removed, stuck :| RemovalOutcome(s, vpc, err, t, removed, stuck);
    }
    var gone := removed + AsSet(stuck);
    assert t.attached == s.attached - gone;
    StillAttached(s, t, vpc, gone);
    assert u.attached == s.attached - all;
    assert u.gateways == s.gateways - removed - (all - gone);
    TwoRemovals(s.gateways, all, removed, stuck);
  }

  lemma StillAttached(s: Cloud, t: Cloud, vpc: Id, gone: set<Id>)
    requires t.attached == s.attached - gone
    ensures AttachedTo(t, vpc) == AttachedTo(s, vpc) - gone
  {
  }

  lemma TwoRemovals(gateways: set<Id>, all: set<Id>, removed: set<Id>, stuck: Option<Id>)
    requires removed <= all <= gateways && AsSet(stuck) <= all - removed
    ensures gateways - removed - (all - (removed + AsSet(stuck))) == gateways - all <==> stuck.None?
  {
    if stuck.Some? {
      assert stuck.value in AsSet(stuck);
    }
  }

  /** Deleting a network right after creating it restores VPCs, gateways and attachments. */
  lemma CreateThenDelete(s: Cloud, cidr: string, name: string, t: Cloud, u: Cloud)
    requires WellFormed(s)
    requires IsNewNetwork(s, cidr, name, t)
    requires DeleteOutcome(t, s.next, None, u)
    ensures u == s.(next := s.next + 2)
  {
    var vpc, gateway := s.next, s.next + 1;
    assert AttachedTo(t, vpc) == {gateway};
    DeleteWithOneGateway(t, vpc, gateway, None, u);
    assert t.vpcs - {vpc} == s.vpcs;
    assert t.gateways - {gateway} == s.gateways;
    assert t.attached - {gateway} == s.attached;
  }

  // ---------------------------------------------------------------- runs

  /** An operation; `vpc` is what a creation draws for its VPC, or what a deletion is called with. */
  datatype Op =
    | Create(vpc: Id, cidr: string, name: string, result: CreateResult)
    | Delete(vpc: Id, err: Option<Step>)
  {
    /** A creation that leaves the VPC `v`: it completed, or its rollback failed. */
    predicate Makes(v: Id) {
      Create? && vpc == v && (result.Failed? ==> result.rollback.Some?)
    }

    predicate Ends(v: Id) {
      Delete? && vpc == v && err == None
    }
  }

  ghost predicate Performs(s: Cloud, op: Op, t: Cloud) {
    match op
    case Create(vpc, cidr, name, r) => vpc == s.next && CreateOutcome(s, cidr, name, r, t)
    case Delete(vpc, err) => DeleteOutcome(s, vpc, err, t)
  }

  /** A run of creations and deletions, each with any failures. */
  ghost predicate Run(states: seq<Cloud>, ops: seq<Op>) {
    && |states| == |ops| + 1
    && (forall i :: 0 <= i < |ops| ==> Performs(states[i], ops[i], states[i + 1]))
  }

  ghost predicate Attached(s: Cloud) {
    forall g :: g in s.attached ==> s.attached[g] in s.vpcs
  }

  /** VPCs created since `start` have at most one gateway each. */
  ghost predicate AtMostOneGateway(start: Cloud, s: Cloud) {
    forall g, h :: g in s.attached && h in s.attached && s.attached[g] == s.attached[h] >= start.next
      ==> g == h
  }

  /** Every orphan stays, and each new one goes with one failed call. */
  ghost predicate Accounted(s: Cloud, t: Cloud) {
    && Orphans(s) <= Orphans(t)
    && |Orphans(t) - Orphans(s)|
       == (t.failedAttaches - s.failedAttaches) + (t.failedDeletes - s.failedDeletes)
  }

  ghost predicate Sound(start: Cloud, s: Cloud) {
    && WellFormed(s) && Attached(s) && AtMostOneGateway(start, s)
    && start.next <= s.next
  }

  /** Dropping attachments is sound as long as what stays attached stays alive. */
  lemma DetachingIsSound(start: Cloud, s: Cloud, t: Cloud)
    requires Sound(start, s)
    requires s.next <= t.next
    requires forall g :: g in t.attached ==> g in s.attached && t.attached[g] == s.attached[g] && g in t.gateways
    requires forall v :: v in t.vpcs ==> v < t.next
    requires forall g :: g in t.gateways ==> g < t.next
    requires Attached(t)
    ensures Sound(start, t)
  {
  }

  /** Attaching a new gateway to a new VPC is sound. */
  lemma AttachingIsSound(start: Cloud, s: Cloud, t: Cloud)
    requires Sound(start, s)
    requires var vpc, gateway := s.next, s.next + 1;
             && t.attached == s.attached[gateway := vpc]
             && t.gateways == s.gateways + {gateway}
             && vpc in t.vpcs && gateway < t.next
    requires t.vpcs - {s.next} == s.vpcs
    ensures Sound(start, t)
  {
    assert forall v :: v in t.vpcs <==> v == s.next || v in t.vpcs - {s.next};
    assert AtMostOneGateway(start, t);
  }

  lemma LeftoverIsSound(start: Cloud, s: Cloud, cause: Step, rollback: Option<Step>, t: Cloud)
    requires Sound(start, s)
    requires Leftover(s, cause, rollback, t)
    ensures Sound(start, t)
  {
    if t.attached == s.attached {
      assert forall v :: v in t.vpcs ==> v == s.next || v in t.vpcs - {s.next};
      assert forall v :: v in s.vpcs ==> v in t.vpcs - {s.next};
      DetachingIsSound(start, s, t);
    } else {
      AttachingIsSound(start, s, t);
    }
  }

  lemma NewNetworkIsSound(start: Cloud, s: Cloud, cidr: string, name: string, t: Cloud)
    requires Sound(start, s)
    requires IsNewNetwork(s, cidr, name, t)
    ensures Sound(start, t)
  {
    assert t.vpcs - {s.next} == s.vpcs;
    AttachingIsSound(start, s, t);
  }

  lemma NewNetworkIsAccounted(s: Cloud, cidr: string, name: string, t: Cloud)
    requires WellFormed(s)
    requires IsNewNetwork(s, cidr, name, t)
    ensures Accounted(s, t)
  {
    assert Orphans(t) == Orphans(s);
    assert Orphans(t) - Orphans(s) == {};
  }

  lemma LeftoverIsAccounted(s: Cloud, cause: Step, rollback: Option<Step>, t: Cloud)
    requires WellFormed(s)
    requires Leftover(s, cause, rollback, t)
    ensures Accounted(s, t)
  {
    LeftoverOrphans(s, cause, rollback, t);
    NewMember(Orphans(s), Orphans(t), NewOrphan(s, cause, rollback));
    LeftoverCounts(s, cause, rollback, t);
  }

  lemma NewMember(s: set<Id>, t: set<Id>, x: Option<Id>)
    requires t == s + AsSet(x) && (x.Some? ==> x.value !in s)
    ensures s <= t && |t - s| == if x.Some? then 1 else 0
  {
    assert t - s == AsSet(x);
  }

  lemma LeftoverCounts(s: Cloud, cause: Step, rollback: Option<Step>, t: Cloud)
    requires Leftover(s, cause, rollback, t)
    ensures t.failedAttaches - s.failedAttaches + (t.failedDeletes - s.failedDeletes)
            == if NewOrphan(s, cause, rollback).Some? then 1 else 0
  {
  }

  lemma RemovalOrphans(s: Cloud, removed: set<Id>, stuck: Option<Id>, t: Cloud)
    requires WellFormed(s)
    requires removed <= s.attached.Keys && AsSet(stuck) <= s.attached.Keys - removed
    requires t.gateways == s.gateways - removed
    requires t.attached == s.attached - (removed + AsSet(stuck))
    ensures Orphans(s) <= Orphans(t) && Orphans(t) - Orphans(s) == AsSet(stuck)
  {
    assert t.attached.Keys == s.attached.Keys - (removed + AsSet(stuck));
  }

  lemma RemovalIsAccounted(s: Cloud, removed: set<Id>, stuck: Option<Id>, t: Cloud)
    requires WellFormed(s)
    requires removed <= s.attached.Keys && AsSet(stuck) <= s.attached.Keys - removed
    requires t.(vpcs := s.vpcs) == WithoutGateways(s, removed, stuck)
    ensures Accounted(s, t)
  {
    RemovalOrphans(s, removed, stuck, t);
  }

  lemma RemovalIsSound(start: Cloud, s: Cloud, vpc: Id, removed: set<Id>, stuck: Option<Id>, t: Cloud)
    requires Sound(start, s)
    requires removed <= AttachedTo(s, vpc) && AsSet(stuck) <= AttachedTo(s, vpc) - removed
    requires var u := WithoutGateways(s, removed, stuck);
             t == u || (removed == AttachedTo(s, vpc) && t == u.(vpcs := u.vpcs - {vpc}))
    ensures Sound(start, t)
  {
    assert forall g :: g in t.attached ==> g in s.attached && g !in removed;
    DetachingIsSound(start, s, t);
  }

  lemma DeleteKeeps(start: Cloud, s: Cloud, vpc: Id, err: Option<Step>, t: Cloud)
    requires Sound(start, s)
    requires DeleteOutcome(s, vpc, err, t)
    ensures Sound(start, t) && Accounted(s, t)
  {
    var removed, stuck := AttachedTo(s, vpc), None;
    if err.Some? && err != Some(DeletingVpc) {
      removed, stuck :| RemovalOutcome(s, vpc, err, t, removed, stuck);
    }
    RemovalIsSound(start, s, vpc, removed, stuck, t);
    RemovalIsAccounted(s, removed, stuck, t);
  }

  lemma CreateKeeps(start: Cloud, s: Cloud, cidr: string, name: string, r: CreateResult, t: Cloud)
    requires Sound(start, s)
    requires CreateOutcome(s, cidr, name, r, t)
    ensures Sound(start, t) && Accounted(s, t)
  {
    if !r.Failed? {
      NewNetworkIsSound(start, s, cidr, name, t);
      NewNetworkIsAccounted(s, cidr, name, t);
    } else if r.cause == CreatingVpc {
      assert Orphans(t) - Orphans(s) == {};
    } else {
      LeftoverIsSound(start, s, r.cause, r.rollback, t);
      LeftoverIsAccounted(s, r.cause, r.rollback, t);
    }
  }

  lemma AccountsAdd(s: Cloud, t: Cloud, u: Cloud)
    requires Accounted(s, t) && Accounted(t, u)
    ensures Accounted(s, u)
  {
    assert Orphans(u) - Orphans(s) == (Orphans(t) - Orphans(s)) + (Orphans(u) - Orphans(t));
  }

  lemma StepKeeps(start: Cloud, s: Cloud, op: Op, t: Cloud)
    requires Sound(start, s) && Accounted(start, s)
    requires Performs(s, op, t)
    ensures Sound(start, t) && Accounted(start, t)
  {
    match op {
      case Create(_, cidr, name, r) => CreateKeeps(start, s, cidr, name, r, t);
      case Delete(vpc, err) => DeleteKeeps(start, s, vpc, err, t);
    }
    AccountsAdd(start, s, t);
  }

  lemma StartIsSound(start: Cloud)
    requires WellFormed(start) && Attached(start)
    ensures Sound(start, start) && Accounted(start, start)
  {
    assert Orphans(start) - Orphans(start) == {};
  }

  /**
   Conservation, over every run and every schedule of failures: attached gateways belong to
   live VPCs, a VPC created in the run has at most one, no orphan is ever cleaned up, and the
   new orphans are as many as the failed attach calls and the failed deletions of a detached
   gateway.
   */
  lemma {:induction false} Conservation(states: seq<Cloud>, ops: seq<Op>, n: nat)
    requires Run(states, ops)
    requires WellFormed(states[0]) && Attached(states[0])
    requires n < |states|
    ensures Sound(states[0], states[n])
    ensures Accounted(states[0], states[n])
  {
    if n == 0 {
      StartIsSound(states[0]);
    } else {
      var i := n - 1;
      Conservation(states, ops, i);
      StepKeeps(states[0], states[i], ops[i], states[i + 1]);
    }
  }

  /** No operation after number `k` and before number `n` deletes the VPC `v`. */
  ghost predicate Stays(ops: seq<Op>, k: int, n: nat, v: Id)
    requires -1 <= k && n <= |ops|
  {
    forall m :: k < m < n ==> !ops[m].Ends(v)
  }

  lemma StaysNext(ops: seq<Op>, n: nat, v: Id)
    requires n < |ops|
    ensures forall k :: -1 <= k < n ==> (Stays(ops, k, n + 1, v) <==> Stays(ops, k, n, v) && !ops[n].Ends(v))
    ensures Stays(ops, n, n + 1, v)
  {
    forall k | -1 <= k < n
      ensures Stays(ops, k, n + 1, v) <==> Stays(ops, k, n, v) && !ops[n].Ends(v)
    {
      assert Stays(ops, k, n + 1, v) ==> !ops[n].Ends(v);
    }
  }

  lemma RunIsWellFormed(states: seq<Cloud>, ops: seq<Op>, n: nat)
    requires Run(states, ops)
    requires WellFormed(states[0]) && Attached(states[0])
    requires n < |states|
    ensures WellFormed(states[n])
  {
    Conservation(states, ops, n);
  }

  lemma LeftoverVpcs(s: Cloud, cause: Step, rollback: Option<Step>, t: Cloud, v: Id)
    requires WellFormed(s) && Leftover(s, cause, rollback, t)
    ensures v in t.vpcs <==> v in s.vpcs || (v == s.next && rollback.Some?)
  {
    assert v != s.next ==> (v in t.vpcs <==> v in t.vpcs - {s.next});
  }

  lemma StepVpcs(s: Cloud, op: Op, t: Cloud, v: Id)
    requires WellFormed(s) && Performs(s, op, t)
    ensures v in t.vpcs <==> op.Makes(v) || (v in s.vpcs && !op.Ends(v))
  {
    if op.Create? && op.result.Failed? && op.result.cause != CreatingVpc {
      LeftoverVpcs(s, op.result.cause, op.result.rollback, t, v);
    }
  }

  /**
   The VPCs at the end of every run: those of the start, those of completed creations and those
   of creations whose rollback failed, less the ones deleted with success since.
   */
  lemma {:induction false} RunVpcs(states: seq<Cloud>, ops: seq<Op>, n: nat, v: Id)
    requires Run(states, ops)
    requires WellFormed(states[0]) && Attached(states[0])
    requires n < |states|
    ensures v in states[n].vpcs <==>
            || (v in states[0].vpcs && Stays(ops, -1, n, v))
            || exists k :: 0 <= k < n && ops[k].Makes(v) && Stays(ops, k, n, v)
  {
    if n > 0 {
      var i := n - 1;
      RunVpcs(states, ops, i, v);
      RunIsWellFormed(states, ops, i);
      assert Performs(states[i], ops[i], states[i + 1]);
      StepVpcs(states[i], ops[i], states[n], v);
      StaysNext(ops, i, v);
    }
  }
}
