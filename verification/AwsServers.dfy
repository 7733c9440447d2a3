/**
 Creation of an on-demand AWS server, with its deferred key removal and its rollback, and
 deletion, which dissociates public addresses before terminating. Any remote call may fail,
 and then has no effect.
 */
module AwsServers {
  import opened Listings
  import opened Outcomes

  type Id = nat

  datatype Instance = Instance(
    image: string,
    template: string,
    key: Id,
    name: Option<string>,
    group: Option<string>,
    terminated: bool)

  /**
   The remote state. `addresses` maps every allocated public address to the instance it is
   associated with, if any; `next` is the next unused id.
   */
  datatype Cloud = Cloud(
    keyPairs: set<Id>,
    instances: map<Id, Instance>,
    addresses: map<Id, Option<Id>>,
    next: Id)

  datatype Options = Options(name: string, image: string, template: string, group: string)

  /** The remote calls that can fail; the status waits of `Create` give the same error. */
  datatype Step =
    | Importing | Launching | EmptyReply | Waiting | Tagging | Grouping | Reading
    | ListingAddresses | Dissociating(address: Id) | Terminating | WaitingTerminated | DeletingKey

  datatype Launch = LaunchFailed | LaunchedNothing | Launched(id: Id)

  datatype CreateResult =
    | Created(id: Id, read: Option<Instance>)
    | Failed(cause: Step, rollback: Option<Step>)

  /** The addresses of an instance. */
  function AddressesOf(s: Cloud, id: Id): set<Id> {
    set a | a in s.addresses && s.addresses[a] == Some(id)
  }

  function Associated(addresses: map<Id, Option<Id>>, given: set<Id>, id: Id): map<Id, Option<Id>> {
    map a | a in addresses :: if a in given then Some(id) else addresses[a]
  }

  /** `addresses` without the associations of the addresses `freed`. */
  function Freed(addresses: map<Id, Option<Id>>, freed: set<Id>): map<Id, Option<Id>> {
    map a | a in addresses :: if a in freed then None else addresses[a]
  }

  /**
   The part of EC2 that the server manager calls; `failed` records the calls that failed or
   gave an empty answer, in order, and `waits` counts the waits for an instance to be ready.
   */
  class Ec2 {
    var now: Cloud
    ghost var failed: seq<Step>
    ghost var waits: nat

    constructor (initial: Cloud)
      ensures now == initial && failed == [] && waits == 0
    {
      now, failed, waits := initial, [], 0;
    }

    /** A name that is not in use, as `uuid.New` gives. */
    method NewName() returns (name: Id)
      modifies this`now
      ensures name == old(now).next && now == old(now).(next := name + 1)
    {
      name := now.next;
      now := now.(next := name + 1);
    }

    method ImportKeyPair(name: Id) returns (ok: bool)
      modifies this`now, this`failed
      ensures failed == Extended(old(failed), !ok, Importing)
      ensures now == if ok then old(now).(keyPairs := old(now).keyPairs + {name}) else old(now)
    {
      ok := *;
      failed := Extended(failed, !ok, Importing);
      if ok {
        now := now.(keyPairs := now.keyPairs + {name});
      }
    }

    method DeleteKeyPair(name: Id) returns (ok: bool)
      modifies this`now, this`failed
      ensures failed == Extended(old(failed), !ok, DeletingKey)
      ensures now == if ok then old(now).(keyPairs := old(now).keyPairs - {name}) else old(now)
    {
      ok := *;
      failed := Extended(failed, !ok, DeletingKey);
      if ok {
        now := now.(keyPairs := now.keyPairs - {name});
      }
    }

    /** A new instance may come with any addresses that were free. */
    method RunInstances(image: string, template: string, key: Id)
      returns (r: Launch, ghost given: set<Id>)
      modifies this`now, this`failed
      ensures failed == match r
                       case LaunchFailed => old(failed) + [Launching]
                       case LaunchedNothing => old(failed) + [EmptyReply]
                       case Launched(_) => old(failed)
      ensures match r
              case Launched(id) =>
                && id == old(now).next
                && (forall a :: a in given ==> a in old(now).addresses && old(now).addresses[a] == None)
                && now == old(now).(
                     instances := old(now).instances[id := Instance(image, template, key, None, None, false)],
                     addresses := Associated(old(now).addresses, given, id),
                     next := id + 1)
              case _ => now == old(now) && given == {}
    {
      if * {
        failed := failed + [Launching];
        return LaunchFailed, {};
      }
      if * {
        failed := failed + [EmptyReply];
        return LaunchedNothing, {};
      }
      var id := now.next;
      var free := set a | a in now.addresses && now.addresses[a] == None;
      var chosen: set<Id> := *;
      given := chosen * free;
      now := now.(
        instances := now.instances[id := Instance(image, template, key, None, None, false)],
        addresses := Associated(now.addresses, chosen * free, id),
        next := id + 1);
      return Launched(id), given;
    }

    method WaitUntilInstanceStatusOk(id: Id) returns (ok: bool)
      modifies this`failed, this`waits
      ensures failed == Extended(old(failed), !ok, Waiting)
      ensures waits == old(waits) + 1
    {
      waits := waits + 1;
      ok := *;
      failed := Extended(failed, !ok, Waiting);
    }

    method CreateTags(id: Id, name: string) returns (ok: bool)
      modifies this`now, this`failed
      ensures failed == Extended(old(failed), !ok, Tagging)
      ensures ok ==> id in old(now).instances
                     && now == old(now).(instances := old(now).instances[
                          id := old(now).instances[id].(name := Some(name))])
      ensures !ok ==> now == old(now)
    {
      ok := *;
      ok := ok && id in now.instances;
      failed := Extended(failed, !ok, Tagging);
      if ok {
        now := now.(instances := now.instances[id := now.instances[id].(name := Some(name))]);
      }
    }

    method ModifyInstanceAttribute(id: Id, group: string) returns (ok: bool)
      modifies this`now, this`failed
      ensures failed == Extended(old(failed), !ok, Grouping)
      ensures ok ==> id in old(now).instances
                     && now == old(now).(instances := old(now).instances[
                          id := old(now).instances[id].(group := Some(group))])
      ensures !ok ==> now == old(now)
    {
      ok := *;
      ok := ok && id in now.instances;
      failed := Extended(failed, !ok, Grouping);
      if ok {
        now := now.(instances := now.instances[id := now.instances[id].(group := Some(group))]);
      }
    }

    method TerminateInstances(id: Id) returns (ok: bool)
      modifies this`now, this`failed
      ensures failed == Extended(old(failed), !ok, Terminating)
      ensures ok ==> id in old(now).instances
                     && now == old(now).(instances := old(now).instances[
                          id := old(now).instances[id].(terminated := true)])
      ensures !ok ==> now == old(now)
    {
      ok := *;
      ok := ok && id in now.instances;
      failed := Extended(failed, !ok, Terminating);
      if ok {
        now := now.(instances := now.instances[id := now.instances[id].(terminated := true)]);
      }
    }

    /** Polls the instance: it may give up, but it does not report a termination that is not there. */
    method WaitUntilInstanceTerminated(id: Id) returns (ok: bool)
      modifies this`failed
      ensures failed == Extended(old(failed), !ok, WaitingTerminated)
      ensures ok ==> id in now.instances && now.instances[id].terminated
    {
      ok := *;
      ok := ok && id in now.instances && now.instances[id].terminated;
      failed := Extended(failed, !ok, WaitingTerminated);
    }

    method DescribeInstances(id: Id) returns (r: Option<Instance>)
      modifies this`failed
      ensures r.Some? ==> id in now.instances && r.value == now.instances[id]
      ensures failed == Extended(old(failed), r.None?, Reading)
    {
      var listed: bool := *;
      listed := listed && id in now.instances;
      failed := Extended(failed, !listed, Reading);
      return if listed then Some(now.instances[id]) else None;
    }

    /** The addresses associated with an instance, in an order that EC2 chooses. */
    method DescribeAddresses(id: Id) returns (r: Option<seq<Id>>)
      modifies this`failed
      ensures r.Some? ==> Lists(r.value, AddressesOf(now, id))
      ensures failed == Extended(old(failed), r.None?, ListingAddresses)
    {
      if * {
        failed := failed + [ListingAddresses];
        return None;
      }
      var listed := ListOf(AddressesOf(now, id));
      return Some(listed);
    }

    /** Looks the address up, then disassociates it; each of the two may fail. */
    method DisassociateAddress(address: Id) returns (ok: bool)
      modifies this`now, this`failed
      ensures failed == Extended(old(failed), !ok, Dissociating(address))
      ensures now == if ok then old(now).(addresses := Freed(old(now).addresses, {address})) else old(now)
    {
      ok := *;
      failed := Extended(failed, !ok, Dissociating(address));
      if ok {
        now := now.(addresses := Freed(now.addresses, {address}));
      }
    }
  }

  // ---------------------------------------------------------------- outcomes

  ghost predicate WellFormed(s: Cloud) {
    && (forall k :: k in s.keyPairs ==> k < s.next)
    && (forall i :: i in s.instances ==> i < s.next)
    && (forall a :: a in s.addresses && s.addresses[a].Some? ==> s.addresses[a].value < s.next)
  }

  function Terminated(instances: map<Id, Instance>, id: Id): map<Id, Instance> {
    if id in instances then instances[id := instances[id].(terminated := true)] else instances
  }

  function Elements(xs: seq<Id>): set<Id> {
    set x | x in xs
  }

  ghost predicate Distinct(xs: seq<Id>) {
    forall i, j :: 0 <= i < j < |xs| ==> xs[i] != xs[j]
  }

  /** The failed calls of a dissociation loop that kept the addresses `kept`. */
  function Dissociations(kept: seq<Id>): seq<Step> {
    seq(|kept|, i requires 0 <= i < |kept| => Dissociating(kept[i]))
  }

  /**
   A way through `Delete`: the addresses could not be listed, or they were. Then `kept` are
   those that could not be dissociated, `killed` says that terminating worked and `ended` that
   the wait for it did.
   */
  datatype DeletePath =
    | Unlisted
    | Listed(kept: seq<Id>, killed: bool, ended: bool)
  {
    /** A record of failed calls, with those on this way after it. */
    function After(calls: seq<Step>): seq<Step> {
      match this
      case Unlisted => calls + [ListingAddresses]
      case Listed(kept, killed, ended) =>
        Extended(Extended(calls + Dissociations(kept), !killed, Terminating), !ended, WaitingTerminated)
    }

    /** The error at its end. */
    function Report(): Option<Step> {
      match this
      case Unlisted => Some(ListingAddresses)
      case Listed(_, _, ended) => if ended then None else Some(WaitingTerminated)
    }
  }

  function Removed(s: Cloud, id: Id, kept: set<Id>, killed: bool): Cloud {
    s.(addresses := Freed(s.addresses, AddressesOf(s, id) - kept),
       instances := if killed then Terminated(s.instances, id) else s.instances)
  }

  /** What a way through `Delete` leaves. */
  ghost predicate DeleteOutcome(s: Cloud, id: Id, p: DeletePath, t: Cloud) {
    match p
    case Unlisted => t == s
    case Listed(kept, killed, ended) =>
      && Distinct(kept) && Elements(kept) <= AddressesOf(s, id)
      && t == Removed(s, id, Elements(kept), killed)
      && (killed ==> id in s.instances)
      && (ended ==> id in t.instances && t.instances[id].terminated)
  }

  /**
   A way through `Create`, up to the deferred deletion of the key pair. `given` are the
   addresses the instance came with and `ungrouped` says that setting its group failed.
   */
  datatype CreatePath =
    | Unimported
    | Unlaunched(call: Step)
    | Undone(given: set<Id>, ungrouped: bool, call: Step, undo: DeletePath)
    | Done(given: set<Id>, ungrouped: bool, unread: bool)
  {
    /** A record of failed calls, with those on this way after it. */
    function After(calls: seq<Step>): seq<Step> {
      match this
      case Unimported => calls + [Importing]
      case Unlaunched(call) => calls + [call]
      case Undone(_, ungrouped, call, undo) => undo.After(Extended(calls, ungrouped, Grouping) + [call])
      case Done(_, ungrouped, unread) => Extended(Extended(calls, ungrouped, Grouping), unread, Reading)
    }
  }

  /** What a rollback leaves of an instance that came with the addresses `given`. */
  ghost predicate RolledBack(s: Cloud, given: set<Id>, undo: DeletePath, t: Cloud) {
    var id := s.next + 1;
    && id in t.instances && t.instances - {id} == s.instances
    && match undo
       case Unlisted => !t.instances[id].terminated && t.addresses == Associated(s.addresses, given, id)
       case Listed(kept, killed, ended) =>
         && t.instances[id].terminated == killed && (ended ==> killed)
         && Distinct(kept) && Elements(kept) <= given
         && t.addresses == Associated(s.addresses, Elements(kept), id)
  }

  /** The addresses that were free. */
  ghost predicate Free(s: Cloud, given: set<Id>) {
    forall a :: a in given ==> a in s.addresses && s.addresses[a] == None
  }

  /** The instance of a completed creation. */
  function NewInstance(s: Cloud, o: Options, ungrouped: bool): Instance {
    Instance(o.image, o.template, s.next, Some(o.name),
             if o.group == "" || ungrouped then None else Some(o.group), false)
  }

  /** What a way through `Create` reports and leaves, but for the key pair. */
  ghost predicate LeavesInstances(s: Cloud, o: Options, r: CreateResult, p: CreatePath, t: Cloud) {
    var id := s.next + 1;
    match p
    case Unimported => r == Failed(Importing, None) && t.instances == s.instances && t.addresses == s.addresses
    case Unlaunched(call) =>
      && call in {Launching, EmptyReply}
      && r == Failed(call, None) && t.instances == s.instances && t.addresses == s.addresses
    case Undone(given, ungrouped, call, undo) =>
      && call in {Waiting, Tagging} && (ungrouped ==> o.group != "")
      && r == Failed(call, undo.Report()) && Free(s, given) && id < t.next
      && RolledBack(s, given, undo, t)
    case Done(given, ungrouped, unread) =>
      && (ungrouped ==> o.group != "")
      && r == Created(id, if unread then None else Some(NewInstance(s, o, ungrouped)))
      && Free(s, given) && id < t.next
      && t.instances == s.instances[id := NewInstance(s, o, ungrouped)]
      && t.addresses == Associated(s.addresses, given, id)
  }

  /** The same with the key pair; `keyLeft` says that its deferred deletion failed. */
  ghost predicate CreateOutcome(s: Cloud, o: Options, r: CreateResult, p: CreatePath, keyLeft: bool, t: Cloud) {
    && t.keyPairs == (if keyLeft && !p.Unimported? then s.keyPairs + {s.next} else s.keyPairs)
    && s.next < t.next
    && LeavesInstances(s, o, r, p, t)
  }

  class ServerManager {
    const ec2: Ec2

    constructor (ec2: Ec2)
      ensures this.ec2 == ec2
    {
      this.ec2 := ec2;
    }

    method Delete(id: Id) returns (err: Option<Step>, ghost p: DeletePath)
      modifies ec2
      ensures err == p.Report()
      ensures DeleteOutcome(old(ec2.now), id, p, ec2.now)
      ensures ec2.failed == p.After(old(ec2.failed))
      ensures ec2.waits == old(ec2.waits)
    {
      var list := ec2.DescribeAddresses(id);
      if list.None? {
        return Some(ListingAddresses), Unlisted;
      }
      ghost var kept := DissociateAll(id, list.value);
      var killed := ec2.TerminateInstances(id);
      var ended := ec2.WaitUntilInstanceTerminated(id);
      return if ended then None else Some(WaitingTerminated), Listed(kept, killed, ended);
    }

    /** The dissociation loop; the result of each turn is dropped. */
    method DissociateAll(id: Id, list: seq<Id>) returns (ghost kept: seq<Id>)
      requires Lists(list, AddressesOf(ec2.now, id))
      modifies ec2
      ensures Distinct(kept) && Elements(kept) <= AddressesOf(old(ec2.now), id)
      ensures ec2.now == old(ec2.now).(
                addresses := Freed(old(ec2.now).addresses, AddressesOf(old(ec2.now), id) - Elements(kept)))
      ensures ec2.failed == old(ec2.failed) + Dissociations(kept)
      ensures ec2.waits == old(ec2.waits)
    {
      ghost var s := ec2.now;
      ghost var freed := {};
      kept := [];
      FreedNone(s.addresses);
      for i := 0 to |list|
        invariant Sorted(list[..i], freed, kept)
        invariant ec2.now == s.(addresses := Freed(s.addresses, freed))
        invariant ec2.failed == old(ec2.failed) + Dissociations(kept)
        invariant ec2.waits == old(ec2.waits)
      {
        var ok := ec2.DisassociateAddress(list[i]);
        SortedNext(list, i, freed, kept);
        FreedNext(s.addresses, freed, list[i]);
        if ok {
          freed := freed + {list[i]};
        } else {
          assert Dissociations(kept + [list[i]]) == Dissociations(kept) + [Dissociating(list[i])];
          kept := kept + [list[i]];
        }
      }
      SortedAll(list, AddressesOf(s, id), freed, kept);
    }

    /** `addSecurityGroups`: the result of the modification itself is overwritten. */
    method AddSecurityGroups(group: string, id: Id) returns (ok: bool, ghost ungrouped: bool)
      modifies ec2
      ensures group == "" ==> ok && !ungrouped && ec2.now == old(ec2.now)
      ensures ungrouped ==> ec2.now == old(ec2.now)
      ensures group != "" && !ungrouped ==>
                && id in old(ec2.now).instances
                && ec2.now == old(ec2.now).(instances := old(ec2.now).instances[
                     id := old(ec2.now).instances[id].(group := Some(group))])
      ensures ec2.failed == Extended(Extended(old(ec2.failed), ungrouped, Grouping), !ok, Waiting)
      ensures ec2.waits == old(ec2.waits) + if group == "" then 0 else 1
    {
      if group == "" {
        return true, false;
      }
      var modified := ec2.ModifyInstanceAttribute(id, group);
      ungrouped := !modified;
      ok := ec2.WaitUntilInstanceStatusOk(id);
    }

    /** The error exits of `Create` after the launch. */
    method RollBack(ghost s: Cloud, ghost given: set<Id>, id: Id, call: Step)
      returns (r: CreateResult, ghost undo: DeletePath)
      requires WellFormed(s)
      requires Underway(s, given, ec2.now) && id == s.next + 1
      modifies ec2
      ensures r == Failed(call, undo.Report())
      ensures ec2.now.keyPairs == old(ec2.now).keyPairs && ec2.now.next == old(ec2.now).next
      ensures RolledBack(s, given, undo, ec2.now)
      ensures ec2.failed == undo.After(old(ec2.failed))
      ensures ec2.waits == old(ec2.waits)
    {
      ghost var u := ec2.now;
      var err;
      err, undo := Delete(id);
      RollBackLeaves(s, given, u, undo, ec2.now);
      return Failed(call, err), undo;
    }

    /** What `Create` does between importing the key pair and the deferred deletion. */
    method CreateWithKey(ghost s: Cloud, o: Options, key: Id) returns (r: CreateResult, ghost p: CreatePath)
      requires WellFormed(s) && key == s.next
      requires ec2.now.instances == s.instances && ec2.now.addresses == s.addresses
      requires ec2.now.next == s.next + 1
      modifies ec2
      ensures ec2.now.keyPairs == old(ec2.now).keyPairs && s.next < ec2.now.next
      ensures !p.Unimported?
      ensures LeavesInstances(s, o, r, p, ec2.now)
      ensures ec2.failed == p.After(old(ec2.failed))
      ensures r.Created? ==> ec2.waits == old(ec2.waits) + if o.group == "" then 2 else 3
      ensures r.Failed? && r.cause == Tagging ==> ec2.waits == old(ec2.waits) + 1
      ensures r.Failed? && r.cause == Waiting ==> 1 <= ec2.waits - old(ec2.waits) <= if o.group == "" then 2 else 3
    {
      var out;
      ghost var given;
      out, given := ec2.RunInstances(o.image, o.template, key);
      if !out.Launched? {
        ghost var call := if out.LaunchFailed? then Launching else EmptyReply;
        return Failed(if out.LaunchFailed? then Launching else EmptyReply, None), Unlaunched(call);
      }
      r, p := Configure(s, o, given, out.id);
    }

    /** The part of `Create` that has an instance to roll back. */
    method Configure(ghost s: Cloud, o: Options, ghost given: set<Id>, id: Id)
      returns (r: CreateResult, ghost p: CreatePath)
      requires WellFormed(s) && id == s.next + 1
      requires Underway(s, given, ec2.now)
      requires ec2.now.instances[id] == Instance(o.image, o.template, s.next, None, None, false)
      modifies ec2
      ensures ec2.now.keyPairs == old(ec2.now).keyPairs && ec2.now.next == old(ec2.now).next
      ensures (p.Undone? || p.Done?) && p.given == given
      ensures LeavesInstances(s, o, r, p, ec2.now)
      ensures ec2.failed == p.After(old(ec2.failed))
      ensures r.Created? ==> ec2.waits == old(ec2.waits) + if o.group == "" then 2 else 3
      ensures r.Failed? && r.cause == Tagging ==> ec2.waits == old(ec2.waits) + 1
      ensures r.Failed? && r.cause == Waiting ==> 1 <= ec2.waits - old(ec2.waits) <= if o.group == "" then 2 else 3
    {
      ghost var undo;
      ghost var u := ec2.now;
      var ok := ec2.WaitUntilInstanceStatusOk(id);
      if !ok {
        r, undo := RollBack(s, given, id, Waiting);
        return r, Undone(given, false, Waiting, undo);
      }
      ok := ec2.CreateTags(id, o.name);
      if !ok {
        r, undo := RollBack(s, given, id, Tagging);
        return r, Undone(given, false, Tagging, undo);
      }
      StillUnderway(s, given, u, NewInstance(s, o, true), ec2.now);
      r, p := Finish(s, o, given, id);
    }

    /** The rest of it, once the instance is tagged. */
    method Finish(ghost s: Cloud, o: Options, ghost given: set<Id>, id: Id)
      returns (r: CreateResult, ghost p: CreatePath)
      requires WellFormed(s) && id == s.next + 1
      requires Underway(s, given, ec2.now)
      requires ec2.now.instances[id] == NewInstance(s, o, true)
      modifies ec2
      ensures ec2.now.keyPairs == old(ec2.now).keyPairs && ec2.now.next == old(ec2.now).next
      ensures (p.Undone? || p.Done?) && p.given == given
      ensures LeavesInstances(s, o, r, p, ec2.now)
      ensures ec2.failed == p.After(old(ec2.failed))
      ensures r.Created? ==> ec2.waits == old(ec2.waits) + if o.group == "" then 1 else 2
      ensures r.Failed? ==> r.cause == Waiting && 1 <= ec2.waits - old(ec2.waits) <= if o.group == "" then 1 else 2
    {
      ghost var undo, ungrouped;
      ghost var u := ec2.now;
      var ok;
      ok, ungrouped := AddSecurityGroups(o.group, id);
      StillUnderway(s, given, u, NewInstance(s, o, ungrouped), ec2.now);
      if !ok {
        r, undo := RollBack(s, given, id, Waiting);
        return r, Undone(given, ungrouped, Waiting, undo);
      }
      ok := ec2.WaitUntilInstanceStatusOk(id);
      if !ok {
        r, undo := RollBack(s, given, id, Waiting);
        return r, Undone(given, ungrouped, Waiting, undo);
      }
      var read := ec2.DescribeInstances(id);
      DoneLeaves(s, o, given, ungrouped, read.None?, ec2.now);
      return Created(id, read), Done(given, ungrouped, read.None?);
    }

    method Create(o: Options) returns (r: CreateResult, ghost p: CreatePath, ghost keyLeft: bool)
      requires WellFormed(ec2.now)
      modifies ec2
      ensures CreateOutcome(old(ec2.now), o, r, p, keyLeft, ec2.now)
      ensures ec2.failed == Extended(p.After(old(ec2.failed)), keyLeft, DeletingKey)
      ensures r.Created? ==> ec2.waits == old(ec2.waits) + if o.group == "" then 2 else 3
      ensures r.Failed? && r.cause == Tagging ==> ec2.waits == old(ec2.waits) + 1
      ensures r.Failed? && r.cause == Waiting ==> 1 <= ec2.waits - old(ec2.waits) <= if o.group == "" then 2 else 3
    {
      ghost var s := ec2.now;
      var key := ec2.NewName();
      var ok := ec2.ImportKeyPair(key);
      if ok {
        r, p := CreateWithKey(s, o, key);
      } else {
        r, p := Failed(Importing, None), Unimported;
      }
      // the deferred call: it runs on every exit after the import, also a failed one
      var gone := ec2.DeleteKeyPair(key);
      keyLeft := !gone;
      assert s.keyPairs + {key} - {key} == s.keyPairs - {key} == s.keyPairs;
    }
  }

  /** The addresses `done` are sorted into those freed and those kept. */
  ghost predicate Sorted(done: seq<Id>, freed: set<Id>, kept: seq<Id>) {
    && Distinct(kept)
    && (forall x :: x in done <==> x in freed || x in kept)
    && (forall x :: x in kept ==> x !in freed)
  }

  lemma SortedNext(list: seq<Id>, i: nat, freed: set<Id>, kept: seq<Id>)
    requires i < |list| && Distinct(list)
    requires Sorted(list[..i], freed, kept)
    ensures Sorted(list[..i + 1], freed + {list[i]}, kept) && Sorted(list[..i + 1], freed, kept + [list[i]])
  {
    assert list[i] !in list[..i];
    assert list[..i + 1] == list[..i] + [list[i]];
  }

  lemma SortedAll(list: seq<Id>, all: set<Id>, freed: set<Id>, kept: seq<Id>)
    requires Lists(list, all) && Sorted(list[..|list|], freed, kept)
    ensures Elements(kept) <= all && freed == all - Elements(kept)
  {
    assert list[..|list|] == list;
    forall x ensures x in freed <==> x in all - Elements(kept) {
      assert x in list <==> x in all;
    }
  }

  lemma FreedNone(addresses: map<Id, Option<Id>>)
    ensures Freed(addresses, {}) == addresses
  {
  }

  lemma FreedNext(addresses: map<Id, Option<Id>>, freed: set<Id>, a: Id)
    ensures Freed(Freed(addresses, freed), {a}) == Freed(addresses, freed + {a})
  {
  }

  /** The state of a creation from the launch on: one live instance more, with the given addresses. */
  ghost predicate Underway(s: Cloud, given: set<Id>, u: Cloud) {
    var id := s.next + 1;
    && id in u.instances && u.instances - {id} == s.instances && !u.instances[id].terminated
    && Free(s, given)
    && u.addresses == Associated(s.addresses, given, id)
    && u.next == s.next + 2
  }

  lemma StillUnderway(s: Cloud, given: set<Id>, u: Cloud, i: Instance, t: Cloud)
    requires Underway(s, given, u) && !i.terminated
    requires t == u.(instances := u.instances[s.next + 1 := i])
    ensures Underway(s, given, t)
  {
    assert t.instances - {s.next + 1} == u.instances - {s.next + 1};
  }

  lemma DoneLeaves(s: Cloud, o: Options, given: set<Id>, ungrouped: bool, unread: bool, t: Cloud)
    requires Underway(s, given, t) && t.instances[s.next + 1] == NewInstance(s, o, ungrouped)
    requires ungrouped ==> o.group != ""
    ensures LeavesInstances(s, o, Created(s.next + 1, if unread then None else Some(NewInstance(s, o, ungrouped))),
                            Done(given, ungrouped, unread), t)
  {
    var id := s.next + 1;
    assert t.instances == (t.instances - {id})[id := t.instances[id]];
  }

  /** What the instance was given and what could be taken back leave the addresses as computed. */
  lemma RollBackAddresses(s: Cloud, given: set<Id>, u: Cloud, kept: set<Id>)
    requires WellFormed(s) && Underway(s, given, u)
    requires kept <= given
    ensures AddressesOf(u, s.next + 1) == given
    ensures Freed(u.addresses, given - kept) == Associated(s.addresses, kept, s.next + 1)
  {
  }

  lemma RollBackLeaves(s: Cloud, given: set<Id>, u: Cloud, undo: DeletePath, t: Cloud)
    requires WellFormed(s) && Underway(s, given, u)
    requires DeleteOutcome(u, s.next + 1, undo, t)
    ensures RolledBack(s, given, undo, t)
    ensures t.keyPairs == u.keyPairs && t.next == u.next
  {
    var id := s.next + 1;
    RollBackAddresses(s, given, u, {});
    if undo.Listed? {
      RollBackAddresses(s, given, u, Elements(undo.kept));
    }
    assert Terminated(u.instances, id) - {id} == s.instances;
  }

  // ---------------------------------------------------------------- properties

  /** Which failed calls a way through `Delete` meets, in any order. */
  predicate DeleteMeets(p: DeletePath, x: Step) {
    match p
    case Unlisted => x == ListingAddresses
    case Listed(kept, killed, ended) =>
      || (x.Dissociating? && x.address in kept)
      || (x == Terminating && !killed)
      || (x == WaitingTerminated && !ended)
  }

  predicate CreateMeets(p: CreatePath, x: Step) {
    match p
    case Unimported => x == Importing
    case Unlaunched(call) => x == call
    case Undone(_, ungrouped, call, undo) => (ungrouped && x == Grouping) || x == call || DeleteMeets(undo, x)
    case Done(_, ungrouped, unread) => (ungrouped && x == Grouping) || (unread && x == Reading)
  }

  lemma DissociationsAre(kept: seq<Id>, x: Step)
    ensures x in Dissociations(kept) <==> x.Dissociating? && x.address in kept
  {
    if x.Dissociating? && x.address in kept {
      var i :| 0 <= i < |kept| && kept[i] == x.address;
      assert Dissociations(kept)[i] == x;
    }
  }

  lemma DeleteRecords(p: DeletePath, calls: seq<Step>, x: Step)
    ensures x in p.After(calls) <==> x in calls || DeleteMeets(p, x)
  {
    if p.Listed? {
      DissociationsAre(p.kept, x);
    }
  }

  lemma CreateRecords(p: CreatePath, calls: seq<Step>, x: Step)
    ensures x in p.After(calls) <==> x in calls || CreateMeets(p, x)
  {
    if p.Undone? {
      DeleteRecords(p.undo, Extended(calls, p.ungrouped, Grouping) + [p.call], x);
    }
  }

  lemma ExtendedAppends(a: seq<Step>, b: seq<Step>, more: bool, call: Step)
    ensures Extended(a + b, more, call) == a + Extended(b, more, call)
  {
  }

  lemma AppendedTwice(a: seq<Step>, b: seq<Step>, c: seq<Step>)
    ensures (a + b) + c == a + (b + c)
  {
  }

  lemma DeleteAppends(p: DeletePath, a: seq<Step>, b: seq<Step>)
    ensures p.After(a + b) == a + p.After(b)
  {
    match p
    case Unlisted => AppendedTwice(a, b, [ListingAddresses]);
    case Listed(kept, killed, ended) =>
      var d := Dissociations(kept);
      AppendedTwice(a, b, d);
      ExtendedAppends(a, b + d, !killed, Terminating);
      ExtendedAppends(a, Extended(b + d, !killed, Terminating), !ended, WaitingTerminated);
  }

  lemma CreateAppends(p: CreatePath, a: seq<Step>, b: seq<Step>)
    ensures p.After(a + b) == a + p.After(b)
  {
    match p
    case Unimported => AppendedTwice(a, b, [Importing]);
    case Unlaunched(call) => AppendedTwice(a, b, [call]);
    case Undone(_, ungrouped, call, undo) =>
      ExtendedAppends(a, b, ungrouped, Grouping);
      AppendedTwice(a, Extended(b, ungrouped, Grouping), [call]);
      DeleteAppends(undo, a, Extended(b, ungrouped, Grouping) + [call]);
    case Done(_, ungrouped, unread) =>
      ExtendedAppends(a, b, ungrouped, Grouping);
      ExtendedAppends(a, Extended(b, ungrouped, Grouping), unread, Reading);
  }

  /**
   The error of a deletion: there is one exactly if the listing or the last wait failed, and it
   is that call; failed dissociations and a failed termination are not reported.
   */
  lemma DeleteReports(p: DeletePath)
    ensures p.Report() == None <==> ListingAddresses !in p.After([]) && WaitingTerminated !in p.After([])
    ensures p.Report().Some? ==> p.Report().value in {ListingAddresses, WaitingTerminated}
                                 && p.Report().value in p.After([])
  {
    DeleteRecords(p, [], ListingAddresses);
    DeleteRecords(p, [], WaitingTerminated);
  }

  /** Each address is tried once. */
  lemma TriedOnce(p: DeletePath)
    requires p.Listed? ==> Distinct(p.kept)
    ensures NoneTwice(p.After([]))
    ensures var calls := p.After([]);
            forall i, j :: 0 <= i < j < |calls| && calls[i].Dissociating? ==> calls[i] != calls[j]
  {
    if p.Listed? {
      var calls := Dissociations(p.kept);
      assert [] + calls == calls;
      OneMore(calls, !p.killed, Terminating);
      OneMore(Extended(calls, !p.killed, Terminating), !p.ended, WaitingTerminated);
    }
  }

  /** No dissociation is recorded twice. */
  ghost predicate NoneTwice(calls: seq<Step>) {
    forall i, j :: 0 <= i < j < |calls| && calls[i].Dissociating? ==> calls[i] != calls[j]
  }

  lemma OneMore(calls: seq<Step>, more: bool, call: Step)
    requires NoneTwice(calls) && !call.Dissociating?
    ensures NoneTwice(Extended(calls, more, call))
  {
  }

  /** Deletion and rollback try each address once, and only those the server has. */
  lemma DeleteTriesOnce(s: Cloud, id: Id, p: DeletePath, t: Cloud)
    requires DeleteOutcome(s, id, p, t)
    ensures var calls := p.After([]);
            forall i, j :: 0 <= i < j < |calls| && calls[i].Dissociating? ==> calls[i] != calls[j]
    ensures forall call :: call in p.After([]) && call.Dissociating? ==>
              call.address in s.addresses && s.addresses[call.address] == Some(id)
  {
    TriedOnce(p);
    forall call | call in p.After([]) && call.Dissociating?
      ensures call.address in s.addresses && s.addresses[call.address] == Some(id)
    {
      DeleteRecords(p, [], call);
      assert call.address in Elements(p.kept);
    }
  }

  lemma RollBackTriesOnce(s: Cloud, o: Options, r: CreateResult, p: CreatePath, t: Cloud)
    requires LeavesInstances(s, o, r, p, t) && p.Undone?
    ensures var calls := p.undo.After([]);
            forall i, j :: 0 <= i < j < |calls| && calls[i].Dissociating? ==> calls[i] != calls[j]
  {
    TriedOnce(p.undo);
  }

  /** The errors of a creation are failed calls, and without one none but the ignored ones failed. */
  lemma CreateReports(s: Cloud, o: Options, r: CreateResult, p: CreatePath, t: Cloud)
    requires LeavesInstances(s, o, r, p, t)
    ensures r.Failed? ==> r.cause in p.After([])
                          && r.cause in {Importing, Launching, EmptyReply, Waiting, Tagging}
    ensures r.Failed? && r.rollback.Some? ==>
              r.rollback.value in p.After([]) && r.rollback.value in {ListingAddresses, WaitingTerminated}
    ensures r.Failed? && r.rollback == None ==>
              ListingAddresses !in p.After([]) && WaitingTerminated !in p.After([])
    ensures r.Created? ==> forall call :: call in p.After([]) ==> call in {Grouping, Reading}
    ensures r.Created? ==> (r.read == None <==> Reading in p.After([]))
    ensures Grouping in p.After([]) ==> o.group != ""
  {
    forall call
      ensures call in p.After([]) <==> CreateMeets(p, call)
    {
      CreateRecords(p, [], call);
    }
    if p.Undone? {
      DeleteReports(p.undo);
      DeleteRecords(p.undo, [], ListingAddresses);
      DeleteRecords(p.undo, [], WaitingTerminated);
    }
  }

  /**
   A completed creation adds one live instance, of the image and the template asked for, with the
   key pair it imported; what it reads back is that instance. The addresses the instance came
   with were free before, and no other has changed.
   */
  lemma CreatedServer(s: Cloud, o: Options, r: CreateResult, p: CreatePath, t: Cloud)
    requires WellFormed(s) && LeavesInstances(s, o, r, p, t) && r.Created?
    ensures r.id !in s.instances && r.id in t.instances && t.instances - {r.id} == s.instances
    ensures t.instances[r.id].image == o.image && t.instances[r.id].template == o.template
    ensures t.instances[r.id].key == s.next && t.instances[r.id].name == Some(o.name)
    ensures !t.instances[r.id].terminated
    ensures t.instances[r.id].group == if o.group != "" && Grouping !in p.After([]) then Some(o.group) else None
    ensures r.read.Some? ==> r.read.value == t.instances[r.id]
    ensures t.addresses.Keys == s.addresses.Keys
    ensures forall a :: a in s.addresses ==>
              t.addresses[a] == s.addresses[a] || (s.addresses[a] == None && t.addresses[a] == Some(r.id))
  {
    CreateRecords(p, [], Grouping);
    assert t.instances - {s.next + 1} == s.instances;
  }

  /** The failures that find an instance to roll back. */
  predicate Late(cause: Step) {
    cause in {Waiting, Tagging}
  }

  /**
   A creation that fails after the launch and reports no failure of its rollback has
   terminated the instance; its addresses are allocated and free again exactly when no
   dissociation failed; nothing else has changed.
   */
  lemma CleanRollback(s: Cloud, o: Options, cause: Step, p: CreatePath, keyLeft: bool, t: Cloud)
    requires WellFormed(s)
    requires CreateOutcome(s, o, Failed(cause, None), p, keyLeft, t)
    requires Late(cause)
    ensures t.instances.Keys == s.instances.Keys + {s.next + 1} && t.instances[s.next + 1].terminated
    ensures t.instances - {s.next + 1} == s.instances
    ensures t.addresses.Keys == s.addresses.Keys
    ensures t.addresses == s.addresses <==> forall a :: Dissociating(a) !in p.After([])
  {
    assert t.instances.Keys == (t.instances - {s.next + 1}).Keys + {s.next + 1};
    forall a
      ensures Dissociating(a) in p.After([]) <==> a in p.undo.kept
    {
      CreateRecords(p, [], Dissociating(a));
    }
    NothingAssociated(s, Elements(p.undo.kept), s.next + 1);
    assert forall a :: a in p.undo.kept <==> a in Elements(p.undo.kept);
  }

  lemma NothingAssociated(s: Cloud, given: set<Id>, id: Id)
    requires Free(s, given)
    ensures Associated(s.addresses, given, id) == s.addresses <==> given == {}
  {
    if given != {} {
      var a :| a in given;
      assert Associated(s.addresses, given, id)[a] != s.addresses[a];
    }
  }

  /**
   A deletion without error has terminated the server. It keeps every address allocated, and
   the server keeps those whose own dissociation failed, or all of them if the listing failed.
   */
  lemma DeleteIsTruthful(s: Cloud, id: Id, p: DeletePath, t: Cloud)
    requires DeleteOutcome(s, id, p, t)
    ensures p.Report() == None ==> id in t.instances && t.instances[id].terminated
    ensures t.addresses.Keys == s.addresses.Keys
    ensures forall a :: a in AddressesOf(t, id) <==>
              a in AddressesOf(s, id) && (ListingAddresses in p.After([]) || Dissociating(a) in p.After([]))
    ensures forall a :: a in s.addresses && a !in AddressesOf(s, id) ==> t.addresses[a] == s.addresses[a]
  {
    DeleteRecords(p, [], ListingAddresses);
    forall a
      ensures Dissociating(a) in p.After([]) <==> p.Listed? && a in p.kept
    {
      DeleteRecords(p, [], Dissociating(a));
    }
    if p.Listed? {
      assert forall a :: a in p.kept <==> a in Elements(p.kept);
    }
  }

  // ---------------------------------------------------------------- runs

  /** An operation of a run; `key` is the name that a creation draws for its key pair. */
  datatype Op =
    | Create(key: Id, options: Options, result: CreateResult, path: CreatePath, keyLeft: bool)
    | Delete(id: Id, way: DeletePath)
  {
    /** The failed calls of the operation, in order: what it adds to the client's record. */
    function Calls(): seq<Step> {
      match this
      case Create(_, _, _, path, keyLeft) => Extended(path.After([]), keyLeft, DeletingKey)
      case Delete(_, way) => way.After([])
    }

    predicate Fails(call: Step) {
      call in Calls()
    }

    /** A creation that launches the instance `i`. */
    predicate Launches(i: Id) {
      Create? && i == key + 1 && !Fails(Importing) && !Fails(Launching) && !Fails(EmptyReply)
    }

    /** A creation that fails and does not terminate the instance it has launched. */
    predicate Abandons(i: Id) {
      Launches(i) && result.Failed? && (Fails(ListingAddresses) || Fails(Terminating))
    }

    predicate LeavesKey() {
      Create? && !Fails(Importing) && Fails(DeletingKey)
    }

    /** A deletion, or the rollback of a creation, that terminates the instance `i`. */
    predicate Terminates(i: Id) {
      && ((Delete? && id == i) || (Launches(i) && result.Failed?))
      && !Fails(ListingAddresses) && !Fails(Terminating)
    }

    /** A deletion of the instance `i` in which dissociating `a` did not fail. */
    predicate Frees(a: Id, i: Id) {
      Delete? && id == i && !Fails(ListingAddresses) && !Fails(Dissociating(a))
    }

    /** The addresses that a new instance came with. */
    function Given(): set<Id> {
      if Create? && (path.Undone? || path.Done?) then path.given else {}
    }
  }

  /** What `Create` and `Delete` say of the client's record: it grows by the calls of the operation. */
  lemma RecordGrows(op: Op, calls: seq<Step>)
    ensures op.Create? ==> Extended(op.path.After(calls), op.keyLeft, DeletingKey) == calls + op.Calls()
    ensures op.Delete? ==> op.way.After(calls) == calls + op.Calls()
  {
    assert calls + [] == calls;
    match op
    case Create(_, _, _, path, keyLeft) =>
      CreateAppends(path, calls, []);
      ExtendedAppends(calls, path.After([]), keyLeft, DeletingKey);
    case Delete(_, way) => DeleteAppends(way, calls, []);
  }

  ghost predicate Performs(s: Cloud, op: Op, t: Cloud) {
    match op
    case Create(key, o, r, path, keyLeft) => key == s.next && CreateOutcome(s, o, r, path, keyLeft, t)
    case Delete(id, way) => DeleteOutcome(s, id, way, t)
  }

  ghost predicate Run(states: seq<Cloud>, ops: seq<Op>) {
    && |states| == |ops| + 1
    && (forall i :: 0 <= i < |ops| ==> Performs(states[i], ops[i], states[i + 1]))
  }

  /** What can be asked of a state. A stranded address is held by a terminated instance. */
  datatype Fact =
    | HasKeyPair(key: Id)
    | IsKnown(i: Id)
    | IsLive(i: Id)
    | IsOn(address: Id, i: Id)
    | IsStranded(address: Id, i: Id)

  predicate Holds(s: Cloud, f: Fact) {
    match f
    case HasKeyPair(key) => key in s.keyPairs
    case IsKnown(i) => i in s.instances
    case IsLive(i) => i in s.instances && !s.instances[i].terminated
    case IsOn(a, i) => a in AddressesOf(s, i)
    case IsStranded(a, i) => a in AddressesOf(s, i) && i in s.instances && s.instances[i].terminated
  }

  /** The operations that make a fact true, by their failed calls. */
  predicate Sets(op: Op, f: Fact) {
    match f
    case HasKeyPair(key) => op.LeavesKey() && op.key == key
    case IsKnown(i) => op.Launches(i)
    case IsLive(i) => op.Launches(i) && (op.result.Created? || op.Abandons(i))
    case IsOn(a, i) =>
      && op.Launches(i) && a in op.Given()
      && (op.result.Created? || op.Fails(ListingAddresses) || op.Fails(Dissociating(a)))
    case IsStranded(a, i) => op.Terminates(i) && op.Fails(Dissociating(a))
  }

  /** The operations that end it. */
  predicate Clears(op: Op, f: Fact) {
    match f
    case HasKeyPair(_) => false
    case IsKnown(_) => false
    case IsLive(i) => op.Delete? && op.Terminates(i)
    case IsOn(a, i) => op.Frees(a, i)
    case IsStranded(a, i) => op.Frees(a, i)
  }

  lemma OpRecords(op: Op, x: Step)
    ensures op.Create? ==> (op.Fails(x) <==> CreateMeets(op.path, x) || (op.keyLeft && x == DeletingKey))
    ensures op.Delete? ==> (op.Fails(x) <==> DeleteMeets(op.way, x))
  {
    match op
    case Create(_, _, _, path, _) => CreateRecords(path, [], x);
    case Delete(_, way) => DeleteRecords(way, [], x);
  }

  lemma DeleteDecides(s: Cloud, op: Op, t: Cloud, f: Fact, a: Id)
    requires op.Delete? && DeleteOutcome(s, op.id, op.way, t)
    requires (f.IsOn? || f.IsStranded?) ==> f.address == a
    ensures Holds(t, f) <==> Sets(op, f) || (Holds(s, f) && !Clears(op, f))
  {
    OpRecords(op, ListingAddresses);
    OpRecords(op, Terminating);
    OpRecords(op, Dissociating(a));
    if op.way.Listed? {
      assert a in op.way.kept <==> a in Elements(op.way.kept);
    }
  }

  lemma CreateCalls(op: Op, a: Id)
    requires op.Create?
    ensures op.Fails(Importing) <==> CreateMeets(op.path, Importing)
    ensures op.Fails(Launching) <==> CreateMeets(op.path, Launching)
    ensures op.Fails(EmptyReply) <==> CreateMeets(op.path, EmptyReply)
    ensures op.Fails(ListingAddresses) <==> CreateMeets(op.path, ListingAddresses)
    ensures op.Fails(Terminating) <==> CreateMeets(op.path, Terminating)
    ensures op.Fails(Dissociating(a)) <==> CreateMeets(op.path, Dissociating(a))
    ensures op.Fails(DeletingKey) <==> CreateMeets(op.path, DeletingKey) || op.keyLeft
  {
    OpRecords(op, Importing);
    OpRecords(op, Launching);
    OpRecords(op, EmptyReply);
    OpRecords(op, ListingAddresses);
    OpRecords(op, Terminating);
    OpRecords(op, Dissociating(a));
    OpRecords(op, DeletingKey);
  }

  lemma EarlyDecides(s: Cloud, op: Op, t: Cloud, f: Fact, a: Id)
    requires WellFormed(s)
    requires op.Create? && op.key == s.next && (op.path.Unimported? || op.path.Unlaunched?)
    requires CreateOutcome(s, op.options, op.result, op.path, op.keyLeft, t)
    requires (f.IsOn? || f.IsStranded?) ==> f.address == a
    ensures Holds(t, f) <==> Sets(op, f) || (Holds(s, f) && !Clears(op, f))
  {
    CreateCalls(op, a);
  }

  /** A rolled-back creation changes the instances and addresses of no other server. */
  lemma UndoneElsewhere(s: Cloud, given: set<Id>, undo: DeletePath, t: Cloud, i: Id)
    requires WellFormed(s) && Free(s, given) && RolledBack(s, given, undo, t)
    ensures i != s.next + 1 ==>
              && (i in t.instances <==> i in s.instances)
              && (i in s.instances ==> t.instances[i] == s.instances[i])
              && AddressesOf(t, i) == AddressesOf(s, i)
    ensures i == s.next + 1 ==>
              && i !in s.instances && AddressesOf(s, i) == {}
              && i in t.instances && t.instances[i].terminated == (undo.Listed? && undo.killed)
              && AddressesOf(t, i) == if undo.Listed? then Elements(undo.kept) else given
  {
    assert i != s.next + 1 ==> (i in t.instances <==> i in t.instances - {s.next + 1});
  }

  /** The facts that a rolled-back creation makes true. */
  predicate UndoneMakes(key: Id, given: set<Id>, undo: DeletePath, keyLeft: bool, f: Fact) {
    match f
    case HasKeyPair(k) => k == key && keyLeft
    case IsKnown(i) => i == key + 1
    case IsLive(i) => i == key + 1 && (undo.Unlisted? || !undo.killed)
    case IsOn(a, i) => i == key + 1 && a in given && (undo.Unlisted? || a in undo.kept)
    case IsStranded(a, i) => i == key + 1 && undo.Listed? && undo.killed && a in undo.kept
  }

  lemma UndoneSets(op: Op, f: Fact, a: Id)
    requires op.Create? && op.path.Undone? && op.path.call in {Waiting, Tagging} && op.result.Failed?
    requires (f.IsOn? || f.IsStranded?) ==> f.address == a
    ensures Sets(op, f) <==> UndoneMakes(op.key, op.path.given, op.path.undo, op.keyLeft, f)
  {
    CreateCalls(op, a);
  }

  lemma UndoneDecides(s: Cloud, op: Op, t: Cloud, f: Fact, a: Id)
    requires WellFormed(s)
    requires op.Create? && op.key == s.next && op.path.Undone?
    requires CreateOutcome(s, op.options, op.result, op.path, op.keyLeft, t)
    requires (f.IsOn? || f.IsStranded?) ==> f.address == a
    ensures Holds(t, f) <==> Sets(op, f) || (Holds(s, f) && !Clears(op, f))
  {
    UndoneSets(op, f, a);
    if !f.HasKeyPair? {
      UndoneElsewhere(s, op.path.given, op.path.undo, t, f.i);
    }
  }

  lemma DoneDecides(s: Cloud, op: Op, t: Cloud, f: Fact, a: Id)
    requires WellFormed(s)
    requires op.Create? && op.key == s.next && op.path.Done?
    requires CreateOutcome(s, op.options, op.result, op.path, op.keyLeft, t)
    requires (f.IsOn? || f.IsStranded?) ==> f.address == a
    ensures Holds(t, f) <==> Sets(op, f) || (Holds(s, f) && !Clears(op, f))
  {
    CreateCalls(op, a);
  }

  lemma StepDecides(s: Cloud, op: Op, t: Cloud, f: Fact)
    requires WellFormed(s) && Performs(s, op, t)
    ensures Holds(t, f) <==> Sets(op, f) || (Holds(s, f) && !Clears(op, f))
  {
    var a := if f.IsOn? || f.IsStranded? then f.address else 0;
    if op.Delete? {
      DeleteDecides(s, op, t, f, a);
    } else if op.path.Undone? {
      UndoneDecides(s, op, t, f, a);
    } else if op.path.Done? {
      DoneDecides(s, op, t, f, a);
    } else {
      EarlyDecides(s, op, t, f, a);
    }
  }

  /** Addresses stay allocated, instances stay known, and all that changes of one is that it is terminated. */
  ghost predicate Lasting(s: Cloud, t: Cloud) {
    && t.addresses.Keys == s.addresses.Keys
    && (forall i :: i in s.instances ==> i in t.instances)
    && (forall i :: i in s.instances ==> t.instances[i] == s.instances[i].(terminated := t.instances[i].terminated))
    && (forall i :: i in s.instances && s.instances[i].terminated ==> t.instances[i].terminated)
    && s.next <= t.next
  }

  lemma DeleteKeeps(s: Cloud, id: Id, p: DeletePath, t: Cloud)
    requires WellFormed(s) && DeleteOutcome(s, id, p, t)
    ensures WellFormed(t) && Lasting(s, t) && t.keyPairs == s.keyPairs
  {
  }

  lemma CreateKeeps(s: Cloud, o: Options, r: CreateResult, p: CreatePath, keyLeft: bool, t: Cloud)
    requires WellFormed(s) && CreateOutcome(s, o, r, p, keyLeft, t)
    ensures WellFormed(t) && Lasting(s, t) && s.next < t.next
  {
    if p.Undone? {
      assert forall i :: i in s.instances ==> i in t.instances - {s.next + 1};
      assert forall i :: i in t.instances ==> i == s.next + 1 || i in t.instances - {s.next + 1};
    }
  }

  lemma StepKeeps(s: Cloud, op: Op, t: Cloud)
    requires WellFormed(s) && Performs(s, op, t)
    ensures WellFormed(t) && Lasting(s, t)
    ensures op.Create? ==> s.next < t.next
  {
    match op
    case Create(_, o, r, p, keyLeft) => CreateKeeps(s, o, r, p, keyLeft, t);
    case Delete(id, way) => DeleteKeeps(s, id, way, t);
  }

  /**
   Over every run and every schedule of failures: no address is released, no server changes
   but by being terminated, and none comes back to life.
   */
  lemma {:induction false} RunConserves(states: seq<Cloud>, ops: seq<Op>, m: nat, n: nat)
    requires Run(states, ops)
    requires WellFormed(states[0])
    requires m <= n < |states|
    ensures WellFormed(states[n]) && WellFormed(states[m]) && Lasting(states[m], states[n])
    decreases n
  {
    if n > 0 {
      var k := n - 1;
      RunConserves(states, ops, if m < n then m else k, k);
      assert Performs(states[k], ops[k], states[k + 1]);
      StepKeeps(states[k], ops[k], states[n]);
    }
  }

  /** No operation after number `k` and before number `n` ends the fact `f`. */
  ghost predicate Stays(ops: seq<Op>, k: int, n: nat, f: Fact)
    requires -1 <= k && n <= |ops|
  {
    forall m :: k < m < n ==> !Clears(ops[m], f)
  }

  /** `f` held at first and nothing has ended it, or it was made true later and not ended since. */
  ghost predicate Decided(held: bool, ops: seq<Op>, n: nat, f: Fact)
    requires n <= |ops|
  {
    || (held && Stays(ops, -1, n, f))
    || exists k :: 0 <= k < n && Sets(ops[k], f) && Stays(ops, k, n, f)
  }

  /** The same on the answers to `Sets` and `Clears` alone. */
  ghost predicate DecidedBy(held: bool, on: seq<bool>, off: seq<bool>, n: nat)
    requires n <= |on| == |off|
  {
    || (held && forall m :: 0 <= m < n ==> !off[m])
    || exists k :: 0 <= k < n && on[k] && forall m :: k < m < n ==> !off[m]
  }

  lemma DecidedByNext(held: bool, on: seq<bool>, off: seq<bool>, n: nat)
    requires n < |on| == |off|
    ensures DecidedBy(held, on, off, n + 1) <==> on[n] || (DecidedBy(held, on, off, n) && !off[n])
  {
  }

  ghost function SetBy(ops: seq<Op>, f: Fact): (on: seq<bool>)
    ensures |on| == |ops| && forall k :: 0 <= k < |ops| ==> on[k] == Sets(ops[k], f)
  {
    seq(|ops|, i requires 0 <= i < |ops| => Sets(ops[i], f))
  }

  ghost function ClearedBy(ops: seq<Op>, f: Fact): (off: seq<bool>)
    ensures |off| == |ops| && forall k :: 0 <= k < |ops| ==> off[k] == Clears(ops[k], f)
  {
    seq(|ops|, i requires 0 <= i < |ops| => Clears(ops[i], f))
  }

  lemma StaysByAnswers(ops: seq<Op>, k: int, n: nat, f: Fact)
    requires -1 <= k && n <= |ops|
    ensures Stays(ops, k, n, f) <==> forall m :: k < m < n ==> !ClearedBy(ops, f)[m]
  {
    var off := ClearedBy(ops, f);
    assert forall m :: 0 <= m < n ==> off[m] == Clears(ops[m], f);
  }

  lemma DecidedByAnswers(held: bool, ops: seq<Op>, n: nat, f: Fact)
    requires n <= |ops|
    ensures Decided(held, ops, n, f) <==> DecidedBy(held, SetBy(ops, f), ClearedBy(ops, f), n)
  {
    var on := SetBy(ops, f);
    StaysByAnswers(ops, -1, n, f);
    forall k | 0 <= k < n
      ensures Sets(ops[k], f) && Stays(ops, k, n, f)
              <==> on[k] && forall m :: k < m < n ==> !ClearedBy(ops, f)[m]
    {
      StaysByAnswers(ops, k, n, f);
    }
  }

  lemma DecidedNext(held: bool, ops: seq<Op>, n: nat, f: Fact)
    requires n < |ops|
    ensures Decided(held, ops, n + 1, f) <==> Sets(ops[n], f) || (Decided(held, ops, n, f) && !Clears(ops[n], f))
  {
    DecidedByAnswers(held, ops, n, f);
    DecidedByAnswers(held, ops, n + 1, f);
    DecidedByNext(held, SetBy(ops, f), ClearedBy(ops, f), n);
  }

  /**
   Over every run, the failed calls decide what there is at its end: the key pairs, the
   instances, those that live, and the addresses on each, also on the terminated ones.
   */
  lemma {:induction false} RunDecides(states: seq<Cloud>, ops: seq<Op>, n: nat, f: Fact)
    requires Run(states, ops)
    requires WellFormed(states[0])
    requires n < |states|
    ensures Holds(states[n], f) <==> Decided(Holds(states[0], f), ops, n, f)
  {
    if n > 0 {
      var k := n - 1;
      RunDecides(states, ops, k, f);
      RunConserves(states, ops, k, k);
      assert Performs(states[k], ops[k], states[k + 1]);
      StepDecides(states[k], ops[k], states[n], f);
      DecidedNext(Holds(states[0], f), ops, k, f);
    }
  }

  /**
   The temporary key pairs: those there are at the end are those of the start and the ones
   that creations imported and then failed to delete.
   */
  lemma KeyPairIsTemporary(states: seq<Cloud>, ops: seq<Op>, n: nat)
    requires Run(states, ops)
    requires WellFormed(states[0])
    requires n < |states|
    ensures states[n].keyPairs == states[0].keyPairs + set k | 0 <= k < n && ops[k].LeavesKey() :: ops[k].key
  {
    forall key
      ensures key in states[n].keyPairs
              <==> key in states[0].keyPairs || exists k :: 0 <= k < n && ops[k].LeavesKey() && ops[k].key == key
    {
      RunDecides(states, ops, n, HasKeyPair(key));
      assert forall k :: -1 <= k < n ==> Stays(ops, k, n, HasKeyPair(key));
      assert forall k :: 0 <= k < n ==> (Sets(ops[k], HasKeyPair(key)) <==> ops[k].LeavesKey() && ops[k].key == key);
    }
  }

  /** The instances on record at the end: those of the start and one for each creation that launched. */
  lemma LaunchesLeaveInstances(states: seq<Cloud>, ops: seq<Op>, n: nat, i: Id)
    requires Run(states, ops)
    requires WellFormed(states[0])
    requires n < |states|
    ensures i in states[n].instances
            <==> i in states[0].instances || exists k :: 0 <= k < n && ops[k].Launches(i)
  {
    RunDecides(states, ops, n, IsKnown(i));
    assert forall k :: -1 <= k < n ==> Stays(ops, k, n, IsKnown(i));
    assert forall k :: 0 <= k < n ==> (Sets(ops[k], IsKnown(i)) <==> ops[k].Launches(i));
  }

  /** Ids are issued once: two operations of a run never launch the same instance. */
  lemma LaunchedOnce(states: seq<Cloud>, ops: seq<Op>, j: nat, k: nat)
    requires Run(states, ops)
    requires WellFormed(states[0])
    requires j < k < |ops| && ops[j].Create? && ops[k].Create?
    ensures ops[j].key < ops[k].key
  {
    assert Performs(states[j], ops[j], states[j + 1]);
    assert Performs(states[k], ops[k], states[k + 1]);
    RunConserves(states, ops, j, j);
    StepKeeps(states[j], ops[j], states[j + 1]);
    RunConserves(states, ops, j + 1, k);
  }

  lemma CallsOnTheWay(op: Op)
    requires op.Create?
    ensures op.Fails(Reading) <==> CreateMeets(op.path, Reading)
    ensures op.Fails(Importing) <==> CreateMeets(op.path, Importing)
    ensures op.Fails(Launching) <==> CreateMeets(op.path, Launching)
    ensures op.Fails(EmptyReply) <==> CreateMeets(op.path, EmptyReply)
  {
    OpRecords(op, Reading);
    OpRecords(op, Importing);
    OpRecords(op, Launching);
    OpRecords(op, EmptyReply);
  }

  /** A creation whose result names the instance `i`: only one that could read it in the end does. */
  predicate Reports(op: Op, i: Id) {
    op.Create? && op.result.Created? && op.result.read.Some? && op.result.id == i
  }

  /** A creation that leaves the instance `i` live without naming it. */
  predicate Hides(op: Op, i: Id) {
    op.Abandons(i) || (op.Launches(i) && op.Fails(Reading))
  }

  /** A creation that made the instance `i` live has either reported or hidden it, and it is the only one. */
  lemma LiveByOne(states: seq<Cloud>, ops: seq<Op>, k: nat, i: Id)
    requires Run(states, ops)
    requires WellFormed(states[0])
    requires k < |ops|
    ensures Sets(ops[k], IsLive(i)) <==> Reports(ops[k], i) || Hides(ops[k], i)
    ensures Hides(ops[k], i) ==> forall j :: 0 <= j < |ops| ==> !Reports(ops[j], i)
  {
    assert Performs(states[k], ops[k], states[k + 1]);
    if ops[k].Create? {
      CallsOnTheWay(ops[k]);
    }
    if Hides(ops[k], i) {
      forall j | 0 <= j < |ops|
        ensures !Reports(ops[j], i)
      {
        assert Performs(states[j], ops[j], states[j + 1]);
        if j < k && Reports(ops[j], i) {
          LaunchedOnce(states, ops, j, k);
        } else if k < j && Reports(ops[j], i) {
          LaunchedOnce(states, ops, k, j);
        }
      }
    }
  }

  /**
   The live servers of a run that no result names: those whose creation could not read them in
   the end, or failed and could not list the addresses or not terminate the instance, and that
   were not terminated since.
   */
  lemma UnnamedServers(states: seq<Cloud>, ops: seq<Op>, n: nat, i: Id)
    requires Run(states, ops)
    requires WellFormed(states[0])
    requires n < |states| && i !in states[0].instances
    ensures i in states[n].instances && !states[n].instances[i].terminated
            && (forall j :: 0 <= j < n ==> !Reports(ops[j], i))
            <==> exists k :: 0 <= k < n && Hides(ops[k], i) && Stays(ops, k, n, IsLive(i))
  {
    RunDecides(states, ops, n, IsLive(i));
    forall k: nat | k < n
      ensures Sets(ops[k], IsLive(i)) <==> Reports(ops[k], i) || Hides(ops[k], i)
      ensures Hides(ops[k], i) ==> forall j :: 0 <= j < |ops| ==> !Reports(ops[j], i)
    {
      LiveByOne(states, ops, k, i);
    }
  }

  /**
   An address is left on a server terminated in the run exactly if its dissociation failed in
   an operation that terminated the server, and has not worked since.
   */
  lemma StrandedAddresses(states: seq<Cloud>, ops: seq<Op>, n: nat, a: Id, i: Id)
    requires Run(states, ops)
    requires WellFormed(states[0])
    requires n < |states| && !Holds(states[0], IsStranded(a, i))
    ensures Holds(states[n], IsStranded(a, i))
            <==> exists k :: 0 <= k < n && ops[k].Terminates(i) && ops[k].Fails(Dissociating(a))
                             && forall m :: k < m < n ==> !ops[m].Frees(a, i)
  {
    var f := IsStranded(a, i);
    RunDecides(states, ops, n, f);
    assert forall k :: 0 <= k < n ==> (Sets(ops[k], f) <==> ops[k].Terminates(i) && ops[k].Fails(Dissociating(a)));
    assert forall k :: 0 <= k < n ==> (Stays(ops, k, n, f) <==> forall m :: k < m < n ==> !ops[m].Frees(a, i));
  }

  /**
   A reported server is in the group asked for, at any later time, exactly if none was asked
   for or setting it did not fail, which the creation does not tell.
   */
  lemma GroupIsNotGuaranteed(states: seq<Cloud>, ops: seq<Op>, k: nat, n: nat)
    requires Run(states, ops)
    requires WellFormed(states[0])
    requires k < n < |states| && ops[k].Create? && ops[k].result.Created?
    ensures var o, i := ops[k].options, ops[k].result.id;
            && i in states[n].instances && states[n].instances[i].name == Some(o.name)
            && (states[n].instances[i].group == (if o.group == "" then None else Some(o.group))
                <==> !ops[k].Fails(Grouping))
  {
    assert Performs(states[k], ops[k], states[k + 1]);
    OpRecords(ops[k], Grouping);
    RunConserves(states, ops, k + 1, n);
  }
}
