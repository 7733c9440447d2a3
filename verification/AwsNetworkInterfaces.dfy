/**
 Creation and deletion of AWS network interfaces, with the three rollback paths of creation.
 Any remote call may fail, and then has no effect.
 */
module AwsNetworkInterfaces {
  import opened Outcomes

  type Id = nat

  datatype Spec = Spec(description: string, subnet: string, group: string, privateIP: Option<string>)

  /** An attachment has an id of its own, by which it is undone. */
  datatype Attachment = Attachment(id: Id, server: string)

  datatype Interface = Interface(spec: Spec, attachment: Option<Attachment>)

  /** The remote state; `next` is the next unused id. */
  datatype Cloud = Cloud(interfaces: map<Id, Interface>, next: Id)

  datatype Step = Creating | Waiting | Attaching | Describing | NotFound | Detaching | Deleting

  /**
   `Failed` lists the calls that the error names: the cause, then the failures of the rollback.
   A completed creation has no reading if that failed, and crashes if the reading was empty.
   */
  datatype CreateResult =
    | Created(id: Id, read: Option<Interface>)
    | Crashed
    | Failed(errors: seq<Step>)

  /** `interfaces` with the attachment of one id undone. */
  function Detached(interfaces: map<Id, Interface>, attachment: Id): map<Id, Interface> {
    map i | i in interfaces ::
      if interfaces[i].attachment.Some? && interfaces[i].attachment.value.id == attachment
      then interfaces[i].(attachment := None)
      else interfaces[i]
  }

  /**
   The part of EC2 that the interface manager calls; `failed` records the calls that failed or
   gave an empty answer, in order, and `waits` counts the waits for an interface to be available.
   */
  class Ec2 {
    var now: Cloud
    ghost var failed: seq<Step>
    ghost var waits: nat

    constructor (initial: Cloud)
      ensures now == initial && failed == [] && waits == 0
    {
      now, failed, waits := initial, [], 0;
    }

    method CreateNetworkInterface(spec: Spec) returns (r: Option<Id>)
      modifies this`now, this`failed
      ensures failed == old(failed) + if r.None? then [Creating] else []
      ensures match r
              case None => now == old(now)
              case Some(id) =>
                && id == old(now).next
                && now == Cloud(old(now).interfaces[id := Interface(spec, None)], id + 1)
    {
      if * {
        failed := failed + [Creating];
        return None;
      }
      r := Some(now.next);
      now := Cloud(now.interfaces[now.next := Interface(spec, None)], now.next + 1);
    }

    method WaitUntilNetworkInterfaceAvailable(id: Id) returns (ok: bool)
      modifies this`failed, this`waits
      ensures failed == old(failed) + if ok then [] else [Waiting]
      ensures waits == old(waits) + 1
    {
      waits := waits + 1;
      ok := *;
      failed := failed + if ok then [] else [Waiting];
    }

    method AttachNetworkInterface(id: Id, server: string) returns (r: Option<Id>)
      modifies this`now, this`failed
      ensures failed == old(failed) + if r.None? then [Attaching] else []
      ensures match r
              case None => now == old(now)
              case Some(attachment) =>
                && attachment == old(now).next
                && id in old(now).interfaces
                && now == Cloud(old(now).interfaces[id := old(now).interfaces[id].(
                                  attachment := Some(Attachment(attachment, server)))],
                                attachment + 1)
    {
      var accepted: bool := *;
      if !accepted || id !in now.interfaces {
        failed := failed + [Attaching];
        return None;
      }
      r := Some(now.next);
      now := Cloud(now.interfaces[id := now.interfaces[id].(attachment := Some(Attachment(now.next, server)))],
                   now.next + 1);
    }

    method DetachNetworkInterface(attachment: Id) returns (ok: bool)
      modifies this`now, this`failed
      ensures failed == old(failed) + if ok then [] else [Detaching]
      ensures now == if ok then old(now).(interfaces := Detached(old(now).interfaces, attachment)) else old(now)
    {
      ok := *;
      failed := failed + if ok then [] else [Detaching];
      if ok {
        now := now.(interfaces := Detached(now.interfaces, attachment));
      }
    }

    method DeleteNetworkInterface(id: Id) returns (ok: bool)
      modifies this`now, this`failed
      ensures failed == old(failed) + if ok then [] else [Deleting]
      ensures now == if ok then old(now).(interfaces := old(now).interfaces - {id}) else old(now)
    {
      ok := *;
      failed := failed + if ok then [] else [Deleting];
      if ok {
        now := now.(interfaces := now.interfaces - {id});
      }
    }

    /** `None` is a failed call, `Some(None)` an answer that lists nothing. */
    method DescribeNetworkInterfaces(id: Id) returns (r: Option<Option<Interface>>)
      modifies this`failed
      ensures r.Some? && r.value.Some? ==> id in now.interfaces && r.value.value == now.interfaces[id]
      ensures failed == old(failed) + if r.None? then [Describing] else if r.value.None? then [NotFound] else []
    {
      if * {
        failed := failed + [Describing];
        return None;
      }
      var listed: bool := *;
      if listed && id in now.interfaces {
        return Some(Some(now.interfaces[id]));
      }
      failed := failed + [NotFound];
      return Some(None);
    }
  }

  // ---------------------------------------------------------------- outcomes

  /** Ids in use are below `next`, and no two interfaces share an attachment id. */
  ghost predicate WellFormed(s: Cloud) {
    && (forall i :: i in s.interfaces ==> i < s.next)
    && (forall i :: i in s.interfaces && s.interfaces[i].attachment.Some?
                    ==> s.interfaces[i].attachment.value.id < s.next)
    && (forall i, j :: i in s.interfaces && j in s.interfaces
                       && s.interfaces[i].attachment.Some? && s.interfaces[j].attachment.Some?
                       && s.interfaces[i].attachment.value.id == s.interfaces[j].attachment.value.id
                       ==> i == j)
  }

  /**
   The ways through `delete`: the failed calls, the error it reports and what it leaves. A
   failure to detach or to delete is not reported.
   */
  ghost predicate DeleteOutcome(s: Cloud, id: Id, err: Option<Step>, failed: seq<Step>, t: Cloud) {
    || (failed == [Describing] && err == Some(Describing) && t == s)
    || (failed == [NotFound] && err == Some(NotFound) && t == s)
    || (err == None && id in s.interfaces && Deletes(s, id, failed, t))
  }

  ghost predicate Deletes(s: Cloud, id: Id, failed: seq<Step>, t: Cloud)
    requires id in s.interfaces
  {
    var attached := s.interfaces[id].attachment.Some?;
    || (failed == [] && t == s.(interfaces := s.interfaces - {id}))
    || (failed == [Detaching] && attached && t == s.(interfaces := s.interfaces - {id}))
    || (failed == [Deleting] && t == s.(interfaces := s.interfaces[id := s.interfaces[id].(attachment := None)]))
    || (failed == [Detaching, Deleting] && attached && t == s)
  }

  function Attached(s: Cloud, spec: Spec, server: string): Interface {
    Interface(spec, Some(Attachment(s.next + 1, server)))
  }

  /** The ways through `create` without a server. */
  ghost predicate CreatesFree(s: Cloud, spec: Spec, r: CreateResult, failed: seq<Step>, t: Cloud) {
    var id, free := s.next, Interface(spec, None);
    var made := Cloud(s.interfaces[id := free], id + 1);
    || (failed == [Creating] && r == Failed([Creating]) && t == s)
    || (failed == [] && r == Created(id, Some(free)) && t == made)
    || (failed == [Describing] && r == Created(id, None) && t == made)
    || (failed == [NotFound] && r == Crashed && t == made)
    || (failed == [Waiting] && r == Failed([Waiting]) && t == Cloud(s.interfaces, id + 1))
    || ((failed == [Waiting, Describing] || failed == [Waiting, NotFound]) && r == Failed(failed) && t == made)
    || (failed == [Waiting, Deleting] && r == Failed([Waiting]) && t == made)
  }

  /** The ways through `create` with a server. */
  ghost predicate CreatesAttached(
    s: Cloud, spec: Spec, server: string, r: CreateResult, failed: seq<Step>, t: Cloud)
  {
    var id := s.next;
    var made := Cloud(s.interfaces[id := Attached(s, spec, server)], id + 2);
    || (failed == [Creating] && r == Failed(failed) && t == s)
    || (failed == [Attaching] && r == Failed(failed) && t == Cloud(s.interfaces, id + 1))
    || (failed == [Attaching, Deleting] && r == Failed(failed)
        && t == Cloud(s.interfaces[id := Interface(spec, None)], id + 1))
    || (failed == [] && r == Created(id, Some(Attached(s, spec, server))) && t == made)
    || (failed == [Describing] && r == Created(id, None) && t == made)
    || (failed == [NotFound] && r == Crashed && t == made)
    || ((failed == [Waiting] || failed == [Waiting, Detaching]) && r == Failed(failed)
        && t == Cloud(s.interfaces, id + 2))
    || (failed == [Waiting, Deleting] && r == Failed(failed)
        && t == Cloud(s.interfaces[id := Interface(spec, None)], id + 2))
    || (failed == [Waiting, Detaching, Deleting] && r == Failed(failed) && t == made)
  }

  ghost predicate CreateOutcome(
    s: Cloud, spec: Spec, server: Option<string>, r: CreateResult, failed: seq<Step>, t: Cloud)
  {
    match server
    case None => CreatesFree(s, spec, r, failed, t)
    case Some(name) => CreatesAttached(s, spec, name, r, failed, t)
  }

  lemma DetachedOnlyOne(s: Cloud, id: Id)
    requires WellFormed(s)
    requires id in s.interfaces && s.interfaces[id].attachment.Some?
    ensures Detached(s.interfaces, s.interfaces[id].attachment.value.id)
            == s.interfaces[id := s.interfaces[id].(attachment := None)]
  {
  }

  class NetworkInterfaceManager {
    const ec2: Ec2

    constructor (ec2: Ec2)
      ensures this.ec2 == ec2
    {
      this.ec2 := ec2;
    }

    method Delete(id: Id) returns (err: Option<Step>, ghost failed: seq<Step>)
      requires WellFormed(ec2.now)
      modifies ec2
      ensures DeleteOutcome(old(ec2.now), id, err, failed, ec2.now)
      ensures ec2.failed == old(ec2.failed) + failed
      ensures ec2.waits == old(ec2.waits)
    {
      var out := ec2.DescribeNetworkInterfaces(id);
      if out.None? {
        return Some(Describing), [Describing];
      }
      if out.value.None? {
        return Some(NotFound), [NotFound];
      }
      failed := [];
      var attachment := out.value.value.attachment;
      if attachment.Some? {
        DetachedOnlyOne(ec2.now, id);
        var detached := ec2.DetachNetworkInterface(attachment.value.id);
        failed := if detached then [] else [Detaching];
      }
      var ok := ec2.DeleteNetworkInterface(id);
      failed := failed + if ok then [] else [Deleting];
      assert ok ==> ec2.now.interfaces == old(ec2.now).interfaces - {id};
      return None, failed;
    }

    method Create(spec: Spec, server: Option<string>) returns (r: CreateResult, ghost failed: seq<Step>)
      requires WellFormed(ec2.now)
      modifies ec2
      ensures CreateOutcome(old(ec2.now), spec, server, r, failed, ec2.now)
      ensures ec2.failed == old(ec2.failed) + failed
      ensures ec2.waits == old(ec2.waits) + if Creating in failed || Attaching in failed then 0 else 1
    {
      ghost var s := ec2.now;
      var out := ec2.CreateNetworkInterface(spec);
      if out.None? {
        return Failed([Creating]), [Creating];
      }
      var id := out.value;
      if server.None? {
        r, failed := WaitFree(s, spec, id);
      } else {
        r, failed := AttachNew(s, spec, server.value, id);
      }
    }

    /** The part of `create` for an interface with a server. */
    method AttachNew(ghost s: Cloud, spec: Spec, server: string, id: Id)
      returns (r: CreateResult, ghost failed: seq<Step>)
      requires WellFormed(s) && id == s.next
      requires ec2.now == Cloud(s.interfaces[id := Interface(spec, None)], id + 1)
      modifies ec2
      ensures CreatesAttached(s, spec, server, r, failed, ec2.now)
      ensures ec2.failed == old(ec2.failed) + failed
      ensures ec2.waits == old(ec2.waits) + (if Attaching in failed then 0 else 1) && Creating !in failed
    {
      var att := ec2.AttachNetworkInterface(id, server);
      if att.None? {
        assert ec2.now.interfaces - {id} == s.interfaces;
        var ok := ec2.DeleteNetworkInterface(id);
        failed := if ok then [Attaching] else [Attaching, Deleting];
        return Failed(if ok then [Attaching] else [Attaching, Deleting]), failed;
      }
      var ready := ec2.WaitUntilNetworkInterfaceAvailable(id);
      if !ready {
        var errors;
        ghost var undone;
        errors, undone := UndoAttached(s, spec, server, id, att.value);
        assert Creating !in errors && Attaching !in errors;
        return Failed(errors), errors;
      }
      r, failed := Read(id);
    }

    /** The part of `create` for an interface without a server. */
    method WaitFree(ghost s: Cloud, spec: Spec, id: Id) returns (r: CreateResult, ghost failed: seq<Step>)
      requires WellFormed(s) && id == s.next
      requires ec2.now == Cloud(s.interfaces[id := Interface(spec, None)], id + 1)
      modifies ec2
      ensures CreatesFree(s, spec, r, failed, ec2.now)
      ensures ec2.failed == old(ec2.failed) + failed
      ensures ec2.waits == old(ec2.waits) + 1 && Creating !in failed && Attaching !in failed
    {
      ghost var made := ec2.now;
      var ready := ec2.WaitUntilNetworkInterfaceAvailable(id);
      if !ready {
        var err2;
        err2, failed := Delete(id);
        UndoneFree(s, spec, made, err2, failed, ec2.now);
        return Failed(if err2.Some? then [Waiting, err2.value] else [Waiting]), [Waiting] + failed;
      }
      r, failed := Read(id);
    }

    /** The answer of a creation that has done its work; it indexes the listed interfaces without a test. */
    method Read(id: Id) returns (r: CreateResult, ghost failed: seq<Step>)
      modifies ec2`failed
      ensures ec2.failed == old(ec2.failed) + failed
      ensures match r
              case Created(i, None) => i == id && failed == [Describing]
              case Created(i, Some(x)) =>
                i == id && failed == [] && id in ec2.now.interfaces && x == ec2.now.interfaces[id]
              case Crashed => failed == [NotFound]
              case Failed(_) => false
    {
      var read := ec2.DescribeNetworkInterfaces(id);
      if read.None? {
        return Created(id, None), [Describing];
      }
      if read.value.None? {
        return Crashed, [NotFound];
      }
      return Created(id, read.value), [];
    }

    /** The last rollback path of `create`: detach, then delete whether or not that worked. */
    method UndoAttached(ghost s: Cloud, spec: Spec, server: string, id: Id, att: Id)
      returns (errors: seq<Step>, ghost undone: seq<Step>)
      requires WellFormed(s) && id == s.next && att == s.next + 1
      requires ec2.now == Cloud(s.interfaces[id := Attached(s, spec, server)], s.next + 2)
      modifies ec2
      ensures CreatesAttached(s, spec, server, Failed(errors), errors, ec2.now)
      ensures errors == [Waiting] + undone && ec2.failed == old(ec2.failed) + undone
      ensures ec2.waits == old(ec2.waits)
    {
      UndoneAttached(s, spec, server);
      errors, undone := [Waiting], [];
      var ok := ec2.DetachNetworkInterface(att);
      if !ok {
        errors, undone := errors + [Detaching], [Detaching];
      }
      ok := ec2.DeleteNetworkInterface(id);
      if !ok {
        errors, undone := errors + [Deleting], undone + [Deleting];
      }
      assert || errors == [Waiting] || errors == [Waiting, Detaching]
             || errors == [Waiting, Deleting] || errors == [Waiting, Detaching, Deleting];
    }
  }

  /** Deleting a new interface without a server is the rollback of its creation. */
  lemma UndoneFree(s: Cloud, spec: Spec, made: Cloud, err: Option<Step>, failed: seq<Step>, t: Cloud)
    requires WellFormed(s)
    requires made == Cloud(s.interfaces[s.next := Interface(spec, None)], s.next + 1)
    requires DeleteOutcome(made, s.next, err, failed, t)
    ensures CreatesFree(s, spec, Failed(if err.Some? then [Waiting, err.value] else [Waiting]), [Waiting] + failed, t)
  {
    assert s.next !in s.interfaces;
    assert made.interfaces - {s.next} == s.interfaces;
    assert made.interfaces[s.next := Interface(spec, None)] == made.interfaces;
    assert err == None ==> [Waiting] + failed == [Waiting] || [Waiting] + failed == [Waiting, Deleting];
    assert err.Some? ==> [Waiting] + failed == [Waiting, err.value];
  }

  /** What detaching and what deleting make of a new attached interface. */
  lemma UndoneAttached(s: Cloud, spec: Spec, server: string)
    requires WellFormed(s)
    ensures var made := s.interfaces[s.next := Attached(s, spec, server)];
            && Detached(made, s.next + 1) == s.interfaces[s.next := Interface(spec, None)]
            && made - {s.next} == s.interfaces
            && s.interfaces[s.next := Interface(spec, None)] - {s.next} == s.interfaces
  {
    assert s.next !in s.interfaces;
  }

  // ---------------------------------------------------------------- properties

  /** A failed call because of which an interface that was to be deleted is still there. */
  predicate Survives(failed: seq<Step>) {
    Describing in failed || NotFound in failed || Deleting in failed
  }

  /** Whether a creation with these failed calls leaves a new interface behind. */
  predicate Adds(r: CreateResult, failed: seq<Step>) {
    Completes(r) || Survives(failed)
  }

  /** A creation that has done its work, whether or not it could read the interface in the end. */
  predicate Completes(r: CreateResult) {
    r.Created? || r.Crashed?
  }

  /** The interface it leaves: one of a failed creation is attached only if detaching failed. */
  function Left(id: Id, spec: Spec, server: Option<string>, r: CreateResult, failed: seq<Step>): Interface {
    var attached := server.Some? && (Completes(r) || Detaching in failed);
    Interface(spec, if attached then Some(Attachment(id + 1, server.value)) else None)
  }

  /** Creation, by its failed calls: one new interface or none, and no other change. */
  lemma CreateLeaves(s: Cloud, spec: Spec, server: Option<string>, r: CreateResult, failed: seq<Step>, t: Cloud)
    requires CreateOutcome(s, spec, server, r, failed, t)
    ensures t.interfaces == if Adds(r, failed)
                            then s.interfaces[s.next := Left(s.next, spec, server, r, failed)] else s.interfaces
    ensures s.next <= t.next <= s.next + 2
    ensures Adds(r, failed) ==>
              && s.next < t.next
              && (Left(s.next, spec, server, r, failed).attachment.Some? ==> s.next + 1 < t.next)
  {
  }

  /** A failed creation leaves no trace exactly when no call of its rollback failed but detaching. */
  lemma FailureLeavesNothing(
    s: Cloud, spec: Spec, server: Option<string>, errors: seq<Step>, failed: seq<Step>, t: Cloud)
    requires WellFormed(s)
    requires CreateOutcome(s, spec, server, Failed(errors), failed, t)
    ensures t.interfaces == s.interfaces
            <==> forall step :: step in failed ==> step in {Creating, Attaching, Waiting, Detaching}
    ensures t.interfaces != s.interfaces ==>
              && s.next !in s.interfaces && s.next in t.interfaces && t.interfaces - {s.next} == s.interfaces
              && t.interfaces[s.next].spec == spec
              && (t.interfaces[s.next].attachment.Some? <==> server.Some? && Detaching in failed)
              && (t.interfaces[s.next].attachment.Some? ==>
                    t.interfaces[s.next].attachment.value.server == server.value)
  {
    assert s.next !in s.interfaces;
    OthersUnchanged(s, spec, server, Failed(errors), failed, t);
    CreateLeaves(s, spec, server, Failed(errors), failed, t);
    if !Survives(failed) {
      forall step | step in failed
        ensures step in {Creating, Attaching, Waiting, Detaching}
      {
        assert step != Describing && step != NotFound && step != Deleting;
      }
    }
  }

  /** The error names every failed call, but not a failed deletion of an interface without a server. */
  lemma ErrorIsComplete(s: Cloud, spec: Spec, server: Option<string>, errors: seq<Step>, failed: seq<Step>, t: Cloud)
    requires CreateOutcome(s, spec, server, Failed(errors), failed, t)
    ensures errors == failed <==> server == None ==> Deleting !in failed
    ensures errors <= failed
  {
  }

  /** Which result goes with which failed calls. */
  lemma CreateReports(s: Cloud, spec: Spec, server: Option<string>, r: CreateResult, failed: seq<Step>, t: Cloud)
    requires CreateOutcome(s, spec, server, r, failed, t)
    ensures r.Failed? <==> Creating in failed || Attaching in failed || Waiting in failed
    ensures r.Failed? ==> r.errors != [] && r.errors[0] == failed[0]
    ensures r.Crashed? <==> failed == [NotFound]
    ensures r.Created? && r.read == None <==> failed == [Describing]
    ensures r.Created? && r.read.Some? <==> failed == []
    ensures server == None ==> Attaching !in failed && Detaching !in failed
  {
  }

  /** Whatever happens, creation changes no other interface. */
  lemma OthersUnchanged(s: Cloud, spec: Spec, server: Option<string>, r: CreateResult, failed: seq<Step>, t: Cloud)
    requires WellFormed(s)
    requires CreateOutcome(s, spec, server, r, failed, t)
    ensures t.interfaces - {s.next} == s.interfaces
  {
    assert s.next !in s.interfaces;
    CreateLeaves(s, spec, server, r, failed, t);
  }

  /** A completed creation adds one interface, attached to the given server if there is one. */
  lemma CreatedIsAttached(s: Cloud, spec: Spec, server: Option<string>, r: CreateResult, failed: seq<Step>, t: Cloud)
    requires WellFormed(s)
    requires CreateOutcome(s, spec, server, r, failed, t)
    requires Completes(r)
    ensures t.interfaces.Keys - s.interfaces.Keys == {s.next}
    ensures r.Created? ==> r.id == s.next
    ensures r.Created? && r.read.Some? ==> r.read.value == t.interfaces[s.next]
    ensures t.interfaces[s.next].spec == spec
    ensures t.interfaces[s.next].attachment.Some? <==> server.Some?
    ensures server.Some? ==> t.interfaces[s.next].attachment.value.server == server.value
  {
    assert s.next !in s.interfaces;
    CreateLeaves(s, spec, server, r, failed, t);
  }

  /** The only failures after which an attached interface remains are two failed compensations. */
  lemma AttachedLeftover(s: Cloud, spec: Spec, server: Option<string>, errors: seq<Step>, failed: seq<Step>, t: Cloud)
    requires WellFormed(s)
    requires CreateOutcome(s, spec, server, Failed(errors), failed, t)
    ensures s.next in t.interfaces && t.interfaces[s.next].attachment.Some?
            <==> errors == [Waiting, Detaching, Deleting]
  {
    assert s.next !in s.interfaces;
  }

  /** Deletion, by its failed calls: the interface is gone, or there with or without its attachment. */
  lemma DeleteLeaves(s: Cloud, id: Id, err: Option<Step>, failed: seq<Step>, t: Cloud)
    requires DeleteOutcome(s, id, err, failed, t)
    ensures t.next == s.next
    ensures t.interfaces - {id} == s.interfaces - {id}
    ensures id in t.interfaces <==>
            id in s.interfaces && (Describing in failed || NotFound in failed || Deleting in failed)
    ensures id in t.interfaces && (Describing in failed || NotFound in failed || Detaching in failed) ==>
              t.interfaces[id] == s.interfaces[id]
    ensures id in t.interfaces && Describing !in failed && NotFound !in failed && Detaching !in failed ==>
              t.interfaces[id] == s.interfaces[id].(attachment := None)
    ensures err == None <==> Describing !in failed && NotFound !in failed
    ensures err.Some? ==> failed == [err.value]
    ensures !Survives(failed) || Frees(failed) ==> id in s.interfaces
  {
  }

  /** No failed call of a deletion kept it from detaching. */
  predicate Frees(failed: seq<Step>) {
    Describing !in failed && NotFound !in failed && Detaching !in failed
  }

  /**
   `delete` can report success without success: then repeating it helps. Two deletions are
   one exactly when the interface was not there or one of the two met no failed call but
   that of detaching.
   */
  lemma DeleteSuccess(s: Cloud, id: Id, err: Option<Step>, failed: seq<Step>, t: Cloud,
                      err2: Option<Step>, failed2: seq<Step>, u: Cloud)
    requires DeleteOutcome(s, id, err, failed, t)
    requires DeleteOutcome(t, id, err2, failed2, u)
    ensures u.interfaces == s.interfaces - {id}
            <==> id !in s.interfaces || !Survives(failed) || !Survives(failed2)
    ensures id in t.interfaces && err == None <==> Deleting in failed
  {
    DeleteLeaves(s, id, err, failed, t);
    DeleteLeaves(t, id, err2, failed2, u);
    if id !in u.interfaces {
      assert u.interfaces - {id} == u.interfaces;
    }
  }

  /**
   Deleting right after creating, whatever came of that, restores the interfaces, unless a
   call of the deletion failed that keeps an interface which is there.
   */
  lemma CreateThenDelete(s: Cloud, spec: Spec, server: Option<string>, r: CreateResult, failed: seq<Step>, t: Cloud,
                         err: Option<Step>, failed2: seq<Step>, u: Cloud)
    requires WellFormed(s)
    requires CreateOutcome(s, spec, server, r, failed, t)
    requires DeleteOutcome(t, s.next, err, failed2, u)
    ensures u.interfaces == s.interfaces <==> !Adds(r, failed) || !Survives(failed2)
  {
    assert s.next !in s.interfaces;
    OthersUnchanged(s, spec, server, r, failed, t);
    CreateLeaves(s, spec, server, r, failed, t);
    DeleteLeaves(t, s.next, err, failed2, u);
    if s.next !in u.interfaces {
      assert u.interfaces - {s.next} == u.interfaces;
    }
  }

  // ---------------------------------------------------------------- runs

  /** An operation with its failed calls; `id` is the interface it makes or is to delete. */
  datatype Op =
    | Create(id: Id, spec: Spec, server: Option<string>, result: CreateResult, failed: seq<Step>)
    | Delete(id: Id, err: Option<Step>, failed: seq<Step>)
  {
    /** A creation that leaves an interface, reported or not. */
    predicate Bears() {
      Create? && Adds(result, failed)
    }

    /** A creation that fails and leaves an interface. */
    predicate Leaks() {
      Create? && result.Failed? && Survives(failed)
    }

    /** A deletion that met its interface and deleted it. */
    predicate Removes() {
      Delete? && !Survives(failed)
    }

    /** A deletion that met the interface `i` and undid its attachment, if it had one. */
    predicate Detaches(i: Id) {
      Delete? && id == i && Frees(failed)
    }

    function Borne(): Interface
      requires Create?
    {
      Left(id, spec, server, result, failed)
    }
  }

  ghost predicate Performs(s: Cloud, op: Op, t: Cloud) {
    match op
    case Create(id, spec, server, r, failed) => id == s.next && CreateOutcome(s, spec, server, r, failed, t)
    case Delete(id, err, failed) => DeleteOutcome(s, id, err, failed, t)
  }

  ghost predicate Run(states: seq<Cloud>, ops: seq<Op>) {
    && |states| == |ops| + 1
    && (forall i :: 0 <= i < |ops| ==> Performs(states[i], ops[i], states[i + 1]))
  }

  /** How many of the first `n` operations satisfy `p`. */
  function Count(ops: seq<Op>, n: nat, p: Op -> bool): nat
    requires n <= |ops|
  {
    if n == 0 then 0 else Count(ops, n - 1, p) + if p(ops[n - 1]) then 1 else 0
  }

  function Borne(ops: seq<Op>): set<Id> {
    set op | op in ops && op.Bears() :: op.id
  }

  function Removed(ops: seq<Op>): set<Id> {
    set op | op in ops && op.Removes() :: op.id
  }

  /** `v` is what the interface `i` was when the run began, or when an operation of the run made it. */
  ghost predicate CameAs(start: Cloud, ops: seq<Op>, i: Id, v: Interface) {
    || (i in start.interfaces && v == start.interfaces[i])
    || exists op :: op in ops && op.Bears() && op.id == i && v == op.Borne()
  }

  /** Whether a deletion undid the attachment of `i`. */
  ghost predicate WasDetached(ops: seq<Op>, i: Id) {
    exists op :: op in ops && op.Detaches(i)
  }

  ghost function Since(ops: seq<Op>, i: Id, v: Interface): Interface {
    if WasDetached(ops, i) then v.(attachment := None) else v
  }

  ghost predicate IsNow(start: Cloud, ops: seq<Op>, i: Id, x: Interface) {
    exists v :: CameAs(start, ops, i, v) && x == Since(ops, i, v)
  }

  /** Exactly which interfaces there are after `ops`, and what has become of each. */
  ghost predicate Accounts(start: Cloud, ops: seq<Op>, s: Cloud) {
    && s.interfaces.Keys == start.interfaces.Keys + Borne(ops) - Removed(ops)
    && forall i :: i in s.interfaces ==> IsNow(start, ops, i, s.interfaces[i])
  }

  /** What deletions met was there. */
  ghost predicate MetKnown(ops: seq<Op>, s: Cloud) {
    forall op :: op in ops && (op.Removes() || op.Detaches(op.id)) ==> op.id < s.next
  }

  lemma StepKeepsWellFormed(s: Cloud, op: Op, t: Cloud)
    requires WellFormed(s) && Performs(s, op, t)
    ensures WellFormed(t) && s.next <= t.next
    ensures op.Bears() ==> op.id < t.next
  {
    match op
    case Create(id, spec, server, r, failed) => CreateLeaves(s, spec, server, r, failed, t);
    case Delete(id, err, failed) => DeleteLeaves(s, id, err, failed, t);
  }

  /** One step: at most one interface comes or goes, and at most one loses its attachment. */
  lemma StepAccounts(s: Cloud, op: Op, t: Cloud)
    requires WellFormed(s) && Performs(s, op, t)
    ensures op.Bears() ==> op.id == s.next
    ensures op.Removes() || op.Detaches(op.id) ==> op.id in s.interfaces
    ensures t.interfaces.Keys
            == s.interfaces.Keys + (if op.Bears() then {op.id} else {}) - (if op.Removes() then {op.id} else {})
    ensures forall i :: i in t.interfaces ==>
              t.interfaces[i] == if op.Bears() && i == op.id then op.Borne()
                                 else if op.Detaches(i) then s.interfaces[i].(attachment := None)
                                 else s.interfaces[i]
  {
    match op
    case Create(id, spec, server, r, failed) => CreateLeaves(s, spec, server, r, failed, t);
    case Delete(id, err, failed) =>
      DeleteLeaves(s, id, err, failed, t);
      assert forall i :: i != id ==> (i in t.interfaces <==> i in t.interfaces - {id});
      assert forall i :: i in s.interfaces && i != id ==> s.interfaces[i] == (s.interfaces - {id})[i];
  }

  lemma BorneNext(ops: seq<Op>, op: Op)
    ensures Borne(ops + [op]) == Borne(ops) + if op.Bears() then {op.id} else {}
    ensures Removed(ops + [op]) == Removed(ops) + if op.Removes() then {op.id} else {}
  {
    assert forall o :: o in ops + [op] <==> o in ops || o == op;
  }

  lemma DetachedNext(ops: seq<Op>, op: Op, i: Id)
    ensures WasDetached(ops + [op], i) <==> WasDetached(ops, i) || op.Detaches(i)
  {
    assert forall o :: o in ops + [op] <==> o in ops || o == op;
  }

  lemma CameAsNext(start: Cloud, ops: seq<Op>, op: Op, i: Id, v: Interface)
    requires CameAs(start, ops, i, v) || (op.Bears() && op.id == i && v == op.Borne())
    ensures CameAs(start, ops + [op], i, v)
  {
    assert forall o :: o in ops + [op] <==> o in ops || o == op;
  }

  lemma KeysNext(start: Cloud, ops: seq<Op>, s: Cloud, op: Op, t: Cloud)
    requires WellFormed(s) && MetKnown(ops, s) && Performs(s, op, t)
    requires s.interfaces.Keys == start.interfaces.Keys + Borne(ops) - Removed(ops)
    ensures t.interfaces.Keys == start.interfaces.Keys + Borne(ops + [op]) - Removed(ops + [op])
  {
    StepAccounts(s, op, t);
    BorneNext(ops, op);
    RemovedBefore(ops, s);
    PlusAndMinus(start.interfaces.Keys, Borne(ops), Removed(ops), op.id, op.Bears(), op.Removes());
  }

  lemma RemovedBefore(ops: seq<Op>, s: Cloud)
    requires MetKnown(ops, s)
    ensures s.next !in Removed(ops)
  {
  }

  lemma PlusAndMinus(first: set<Id>, more: set<Id>, less: set<Id>, x: Id, plus: bool, minus: bool)
    requires plus ==> x !in less && !minus
    ensures first + more - less + (if plus then {x} else {}) - (if minus then {x} else {})
            == first + (more + if plus then {x} else {}) - (less + if minus then {x} else {})
  {
  }

  lemma IsNowNext(start: Cloud, ops: seq<Op>, s: Cloud, op: Op, t: Cloud, i: Id)
    requires WellFormed(s) && MetKnown(ops, s) && Performs(s, op, t)
    requires i in s.interfaces ==> IsNow(start, ops, i, s.interfaces[i])
    requires i in t.interfaces
    ensures IsNow(start, ops + [op], i, t.interfaces[i])
  {
    StepAccounts(s, op, t);
    DetachedNext(ops, op, i);
    if op.Bears() && i == op.id {
      CameAsNext(start, ops, op, i, op.Borne());
      assert t.interfaces[i] == Since(ops + [op], i, op.Borne());
    } else {
      var v :| CameAs(start, ops, i, v) && s.interfaces[i] == Since(ops, i, v);
      CameAsNext(start, ops, op, i, v);
      assert t.interfaces[i] == Since(ops + [op], i, v);
    }
  }

  lemma MetKnownNext(ops: seq<Op>, s: Cloud, op: Op, t: Cloud)
    requires WellFormed(s) && MetKnown(ops, s) && Performs(s, op, t)
    ensures MetKnown(ops + [op], t)
  {
    StepAccounts(s, op, t);
    StepKeepsWellFormed(s, op, t);
  }

  lemma StartAccounts(start: Cloud)
    ensures Accounts(start, [], start) && MetKnown([], start)
  {
    forall i | i in start.interfaces
      ensures IsNow(start, [], i, start.interfaces[i])
    {
      assert CameAs(start, [], i, start.interfaces[i]);
      assert start.interfaces[i] == Since([], i, start.interfaces[i]);
    }
  }

  /**
   Over every run and every schedule of failures: the interfaces there are, are those of the
   start and those that completed or leaking creations made, less those that deletions met
   and deleted; each is what it was made, less an attachment that a deletion undid.
   */
  lemma {:induction false} RunAccounts(states: seq<Cloud>, ops: seq<Op>, n: nat)
    requires Run(states, ops)
    requires WellFormed(states[0])
    requires n < |states|
    ensures WellFormed(states[n])
    ensures Accounts(states[0], ops[..n], states[n]) && MetKnown(ops[..n], states[n])
    ensures states[0].next <= states[n].next
  {
    if n == 0 {
      StartAccounts(states[0]);
    } else {
      var k := n - 1;
      RunAccounts(states, ops, k);
      assert Performs(states[k], ops[k], states[k + 1]);
      assert ops[..n] == ops[..k] + [ops[k]];
      StepKeepsWellFormed(states[k], ops[k], states[n]);
      KeysNext(states[0], ops[..k], states[k], ops[k], states[n]);
      MetKnownNext(ops[..k], states[k], ops[k], states[n]);
      forall i | i in states[n].interfaces
        ensures IsNow(states[0], ops[..n], i, states[n].interfaces[i])
      {
        IsNowNext(states[0], ops[..k], states[k], ops[k], states[n], i);
      }
    }
  }

  function Creations(ops: seq<Op>, n: nat): nat
    requires n <= |ops|
  {
    Count(ops, n, (op: Op) => op.Create? && Completes(op.result))
  }

  function Leaks(ops: seq<Op>, n: nat): nat
    requires n <= |ops|
  {
    Count(ops, n, (op: Op) => op.Leaks())
  }

  function Deletions(ops: seq<Op>, n: nat): nat
    requires n <= |ops|
  {
    Count(ops, n, (op: Op) => op.Removes())
  }

  lemma StepCounts(s: Cloud, op: Op, t: Cloud)
    requires WellFormed(s) && Performs(s, op, t)
    ensures |t.interfaces| + (if op.Removes() then 1 else 0)
            == |s.interfaces| + (if op.Create? && Completes(op.result) then 1 else 0) + (if op.Leaks() then 1 else 0)
  {
    StepAccounts(s, op, t);
    assert s.next !in s.interfaces.Keys;
    assert |t.interfaces| == |t.interfaces.Keys| && |s.interfaces| == |s.interfaces.Keys|;
  }

  /**
   Over every run: the interfaces at the end are as many as those at the start, the completed
   creations and the leaking ones, less the deletions that met and deleted one.
   */
  lemma {:induction false} RunCounts(states: seq<Cloud>, ops: seq<Op>, n: nat)
    requires Run(states, ops)
    requires WellFormed(states[0])
    requires n < |states|
    ensures |states[n].interfaces| + Deletions(ops, n) == |states[0].interfaces| + Creations(ops, n) + Leaks(ops, n)
  {
    if n > 0 {
      var k := n - 1;
      RunCounts(states, ops, k);
      RunAccounts(states, ops, k);
      assert Performs(states[k], ops[k], states[k + 1]);
      StepCounts(states[k], ops[k], states[n]);
    }
  }

  /** The failed calls of a run, in order. */
  function FailedCalls(ops: seq<Op>, n: nat): seq<Step>
    requires n <= |ops|
  {
    if n == 0 then [] else FailedCalls(ops, n - 1) + ops[n - 1].failed
  }

  lemma LeakTakesTwo(s: Cloud, op: Op, t: Cloud)
    requires Performs(s, op, t)
    ensures op.Leaks() ==> |op.failed| >= 2
  {
  }

  /** Over every run, each leaked interface has taken at least two failed calls. */
  lemma {:induction false} LeaksAreRare(states: seq<Cloud>, ops: seq<Op>, n: nat)
    requires Run(states, ops) && n < |states|
    ensures 2 * Leaks(ops, n) <= |FailedCalls(ops, n)|
  {
    if n > 0 {
      var k := n - 1;
      LeaksAreRare(states, ops, k);
      assert Performs(states[k], ops[k], states[k + 1]);
      LeakTakesTwo(states[k], ops[k], states[n]);
    }
  }

  lemma BornLater(states: seq<Cloud>, ops: seq<Op>, n: nat, op: Op)
    requires Run(states, ops)
    requires WellFormed(states[0])
    requires n < |states| && op in ops[..n] && op.Bears()
    ensures states[0].next <= op.id
  {
    var k :| 0 <= k < n && ops[k] == op;
    RunAccounts(states, ops, k);
    assert Performs(states[k], ops[k], states[k + 1]);
    StepAccounts(states[k], ops[k], states[k + 1]);
  }

  /** Over every run, an interface that no operation deletes stays as it was. */
  lemma RunTouchesOnlyDeleted(states: seq<Cloud>, ops: seq<Op>, n: nat, i: Id)
    requires Run(states, ops)
    requires WellFormed(states[0])
    requires n < |states| && i in states[0].interfaces
    requires forall op :: op in ops[..n] && op.Delete? ==> op.id != i
    ensures i in states[n].interfaces && states[n].interfaces[i] == states[0].interfaces[i]
  {
    RunAccounts(states, ops, n);
    assert i in states[n].interfaces.Keys;
    var v :| CameAs(states[0], ops[..n], i, v) && states[n].interfaces[i] == Since(ops[..n], i, v);
    if v != states[0].interfaces[i] {
      var op :| op in ops[..n] && op.Bears() && op.id == i;
      BornLater(states, ops, n, op);
      assert false;
    }
  }
}
