/**
 The rule list of an Azure security group, edited by reading the group, changing the list and
 writing the group back.
 */
module AzureSecurityRules {
  import opened Outcomes
  import opened AzurePortRanges
  import opened Decimal
  import opened Text

  /** Rule names; new ones are drawn as `uuid.New` does, never twice. */
  type Name = nat

  datatype Protocol = TCP | UDP | ICMP | AnyProtocol

  datatype AzProtocol = AzTCP | AzUDP | AzICMP | Asterisk

  datatype Direction = Ingress | Egress

  datatype AzDirection = Inbound | Outbound

  datatype Options = Options(
    description: string,
    protocol: Protocol,
    range: PortRange,
    cidr: string,
    direction: Direction)

  datatype Rule = Rule(
    name: Name,
    description: string,
    protocol: AzProtocol,
    portRange: string,
    cidr: string,
    direction: AzDirection)

  function AzSecurityRule(o: Options, name: Name): Rule {
    Rule(name,
         o.description,
         match o.protocol
         case TCP => AzTCP
         case UDP => AzUDP
         case ICMP => AzICMP
         case AnyProtocol => Asterisk,
         ConvertAzPortRange(o.range),
         o.cidr,
         if o.direction.Egress? then Outbound else Inbound)
  }

  /** `convertRule`: a stored rule as the caller sees it. */
  function ConvertRule(r: Rule): Options {
    Options(r.description,
            match r.protocol
            case AzTCP => TCP
            case AzUDP => TCP
            case AzICMP => ICMP
            case Asterisk => AnyProtocol,
            ConvertPortRange(Some(r.portRange)),
            r.cidr,
            if r.direction.Inbound? then Ingress else Egress)
  }

  /**
   Reading back a rule gives what was asked for exactly if that was not UDP and had no negative
   port; with UDP, all the rest is read back, and the protocol as TCP.
   */
  lemma RuleReadBack(o: Options, name: Name)
    requires Fits(o.range.from) && Fits(o.range.to)
    ensures ConvertRule(AzSecurityRule(o, name)) == o
            <==> o.protocol != UDP && o.range.from >= 0 && o.range.to >= 0
    ensures o.protocol == UDP && o.range.from >= 0 && o.range.to >= 0 ==>
              ConvertRule(AzSecurityRule(o, name)) == o.(protocol := TCP)
  {
    PortRangeRoundTrip(o.range);
  }

  /** The remote state: the groups, each with its rule list or with none, and the next new name. */
  datatype Cloud = Cloud(groups: map<string, Option<seq<Rule>>>, next: Name)

  /** The rules of a group; a group without a list has none. */
  function RulesOf(s: Cloud, group: string): seq<Rule> {
    if group in s.groups && s.groups[group].Some? then s.groups[group].value else []
  }

  datatype Step = Getting | Absent | Updating | WaitingForUpdate | ReadingResult

  datatype UpdateResult = Refused | Unfinished | Done

  /**
   The part of the service that the manager calls; a refused call has no effect. `failed`
   records the calls and the waits that did not succeed, in order.
   */
  class Azure {
    var now: Cloud
    ghost var failed: seq<Step>

    constructor (initial: Cloud)
      ensures now == initial && failed == []
    {
      now, failed := initial, [];
    }

    method NewName() returns (name: Name)
      modifies this`now
      ensures name == old(now).next && now == old(now).(next := name + 1)
    {
      name := now.next;
      now := now.(next := name + 1);
    }

    method Get(group: string) returns (r: Option<Option<seq<Rule>>>)
      modifies this`failed
      ensures failed == Extended(old(failed), r.None?, Getting)
      ensures r.Some? ==> group in now.groups && r.value == now.groups[group]
    {
      var found: bool := *;
      found := found && group in now.groups;
      failed := Extended(failed, !found, Getting);
      return if found then Some(now.groups[group]) else None;
    }

    /** Sends the group and waits for the update, which may have been made even if waiting fails. */
    method CreateOrUpdate(group: string, rules: seq<Rule>) returns (r: UpdateResult, ghost applied: bool)
      modifies this
      ensures now == if applied then old(now).(groups := old(now).groups[group := Some(rules)]) else old(now)
      ensures r.Refused? ==> !applied
      ensures r.Done? ==> applied
      ensures failed == match r
                       case Refused => old(failed) + [Updating]
                       case Unfinished => old(failed) + [WaitingForUpdate]
                       case Done => old(failed)
    {
      var accepted: bool, made: bool, waited: bool := *, *, *;
      applied := accepted && made;
      if accepted && made {
        now := now.(groups := now.groups[group := Some(rules)]);
      }
      r := if !accepted then Refused else if made && waited then Done else Unfinished;
      failed := match r
        case Refused => failed + [Updating]
        case Unfinished => failed + [WaitingForUpdate]
        case Done => failed;
    }

    /** Decoding the answer to an update. */
    method Result() returns (ok: bool)
      modifies this`failed
      ensures failed == Extended(old(failed), !ok, ReadingResult)
    {
      ok := *;
      failed := Extended(failed, !ok, ReadingResult);
    }
  }

  predicate HasName(rules: seq<Rule>, name: Name) {
    exists i :: 0 <= i < |rules| && rules[i].name == name
  }

  /** `rules` without those whose name is in `names`, in their order. */
  function Without(rules: seq<Rule>, names: set<Name>): seq<Rule> {
    if rules == [] then []
    else
      var last := rules[|rules| - 1];
      Without(rules[..|rules| - 1], names) + if last.name in names then [] else [last]
  }

  /** What `AddSecurityRule` leaves; `applied` says that its update was made. */
  ghost predicate AddOutcome(s: Cloud, group: string, o: Options, err: Option<Step>, applied: bool, t: Cloud) {
    && (err in {None, Some(ReadingResult)} ==> applied)
    && (err in {Some(Getting), Some(Updating)} ==> !applied)
    && err != Some(Absent)
    && (applied ==> group in s.groups)
    && s.next <= t.next
    && (applied ==> s.next < t.next)
    && t.groups == if applied
                   then s.groups[group := Some(RulesOf(s, group) + [AzSecurityRule(o, s.next)])]
                   else s.groups
  }

  /** What `RemoveSecurityRule` leaves. */
  ghost predicate RemoveOutcome(s: Cloud, group: string, name: Name, err: Option<Step>, applied: bool, t: Cloud) {
    && (err == None ==> applied)
    && (err in {Some(Getting), Some(Updating), Some(Absent)} ==> !applied)
    && err != Some(ReadingResult)
    && (err == Some(Absent) ==> group in s.groups && !HasName(RulesOf(s, group), name))
    && (applied ==> group in s.groups && HasName(RulesOf(s, group), name))
    && t == if applied
            then s.(groups := s.groups[group := Some(Without(RulesOf(s, group), {name}))])
            else s
  }

  class SecurityGroupManager {
    const azure: Azure

    constructor (azure: Azure)
      ensures this.azure == azure
    {
      this.azure := azure;
    }

    method AddSecurityRule(group: string, o: Options) returns (err: Option<Step>, ghost applied: bool)
      modifies azure
      ensures AddOutcome(old(azure.now), group, o, err, applied, azure.now)
      ensures azure.failed == if err.Some? then old(azure.failed) + [err.value] else old(azure.failed)
    {
      ghost var s := azure.now;
      var sg := azure.Get(group);
      if sg.None? {
        return Some(Getting), false;
      }
      var rules: seq<Rule> := [];
      if sg.value.Some? {
        rules := rules + sg.value.value;
      }
      assert rules == RulesOf(s, group);
      var name := azure.NewName();
      rules := rules + [AzSecurityRule(o, name)];
      var update;
      update, applied := azure.CreateOrUpdate(group, rules);
      if update.Refused? {
        return Some(Updating), applied;
      }
      if update.Unfinished? {
        return Some(WaitingForUpdate), applied;
      }
      var ok := azure.Result();
      return if ok then None else Some(ReadingResult), applied;
    }

    method RemoveSecurityRule(group: string, name: Name) returns (err: Option<Step>, ghost applied: bool)
      modifies azure
      ensures RemoveOutcome(old(azure.now), group, name, err, applied, azure.now)
      ensures azure.failed == if err == None || err == Some(Absent) then old(azure.failed)
                              else old(azure.failed) + [err.value]
    {
      var sg := azure.Get(group);
      if sg.None? {
        return Some(Getting), false;
      }
      var rules, done := [], false;
      if sg.value.Some? {
        rules, done := RemoveByName(sg.value.value, name);
      }
      if !done {
        return Some(Absent), false;
      }
      var update;
      update, applied := azure.CreateOrUpdate(group, rules);
      err := match update case Refused => Some(Updating) case Unfinished => Some(WaitingForUpdate) case Done => None;
    }

    /** The loop of `RemoveSecurityRule`. */
    method RemoveByName(all: seq<Rule>, name: Name) returns (rules: seq<Rule>, done: bool)
      ensures rules == Without(all, {name})
      ensures done <==> HasName(all, name)
    {
      rules, done := [], false;
      for i := 0 to |all|
        invariant rules == Without(all[..i], {name})
        invariant done <==> HasName(all[..i], name)
      {
        assert all[..i + 1][..i] == all[..i];
        if all[i].name != name {
          rules := rules + [all[i]];
        } else {
          done := true;
          assert all[..i + 1][i].name == name;
        }
      }
      assert all[..|all|] == all;
    }
  }

  // ---------------------------------------------------------------- runs

  datatype Op =
    | Add(group: string, options: Options, err: Option<Step>, applied: bool)
    | Remove(group: string, name: Name, err: Option<Step>, applied: bool)

  ghost predicate Performs(s: Cloud, op: Op, t: Cloud) {
    match op
    case Add(group, o, err, applied) => AddOutcome(s, group, o, err, applied, t)
    case Remove(group, name, err, applied) => RemoveOutcome(s, group, name, err, applied, t)
  }

  /** A run of additions and removals on any groups, each with any failures. */
  ghost predicate Run(states: seq<Cloud>, ops: seq<Op>) {
    && |states| == |ops| + 1
    && (forall i :: 0 <= i < |ops| ==> Performs(states[i], ops[i], states[i + 1]))
  }

  /** The rules that the operations of a run added to a group, in order. */
  ghost function Added(states: seq<Cloud>, ops: seq<Op>, group: string): seq<Rule>
    requires |ops| <= |states|
  {
    if ops == [] then []
    else
      var n := |ops| - 1;
      Added(states, ops[..n], group) + AddedBy(ops[n], states[n].next, group)
  }

  /** What one operation adds to a group, when `next` is the next new name. */
  function AddedBy(op: Op, next: Name, group: string): seq<Rule> {
    if op.Add? && op.applied && op.group == group then [AzSecurityRule(op.options, next)] else []
  }

  /** The names that the operations of a run removed from a group. */
  function RemovedNames(ops: seq<Op>, group: string): set<Name> {
    if ops == [] then {}
    else
      var n := |ops| - 1;
      RemovedNames(ops[..n], group) + RemovedBy(ops[n], group)
  }

  function RemovedBy(op: Op, group: string): set<Name> {
    if op.Remove? && op.applied && op.group == group then {op.name} else {}
  }

  ghost predicate UniqueNames(rules: seq<Rule>) {
    forall i, j :: 0 <= i < j < |rules| ==> rules[i].name != rules[j].name
  }

  ghost predicate NamesBelow(rules: seq<Rule>, bound: Name) {
    forall i :: 0 <= i < |rules| ==> rules[i].name < bound
  }

  lemma {:induction false} WithoutAppended(rules: seq<Rule>, last: Rule, names: set<Name>)
    ensures Without(rules + [last], names)
            == Without(rules, names) + if last.name in names then [] else [last]
  {
    assert (rules + [last])[..|rules|] == rules;
  }

  lemma {:induction false} WithoutTwice(rules: seq<Rule>, a: set<Name>, b: set<Name>)
    ensures Without(Without(rules, a), b) == Without(rules, a + b)
  {
    if rules != [] {
      var init, last := rules[..|rules| - 1], rules[|rules| - 1];
      WithoutTwice(init, a, b);
      if last.name in a {
        assert Without(rules, a) == Without(init, a);
      } else {
        WithoutAppended(Without(init, a), last, b);
      }
    }
  }

  lemma {:induction false} WithoutNothing(rules: seq<Rule>, names: set<Name>)
    requires forall i :: 0 <= i < |rules| ==> rules[i].name !in names
    ensures Without(rules, names) == rules
  {
    if rules != [] {
      WithoutNothing(rules[..|rules| - 1], names);
    }
  }

  lemma {:induction false} WithoutMembers(rules: seq<Rule>, names: set<Name>)
    ensures forall i :: 0 <= i < |Without(rules, names)| ==>
              HasName(rules, Without(rules, names)[i].name) && Without(rules, names)[i].name !in names
  {
    if rules != [] {
      var init, last := rules[..|rules| - 1], rules[|rules| - 1];
      WithoutMembers(init, names);
      forall i | 0 <= i < |Without(rules, names)|
        ensures HasName(rules, Without(rules, names)[i].name)
      {
        if i < |Without(init, names)| {
          var k :| 0 <= k < |init| && init[k].name == Without(init, names)[i].name;
          assert rules[k] == init[k];
        } else {
          assert rules[|rules| - 1] == last;
        }
      }
    }
  }

  lemma {:induction false} WithoutStaysUnique(rules: seq<Rule>, names: set<Name>)
    requires UniqueNames(rules)
    ensures UniqueNames(Without(rules, names))
  {
    if rules != [] {
      var init := rules[..|rules| - 1];
      WithoutStaysUnique(init, names);
      WithoutMembers(init, names);
    }
  }

  /** `rules` is what remains of `all`; all names are distinct and older than the next new one. */
  ghost predicate IsEdited(rules: seq<Rule>, all: seq<Rule>, removed: set<Name>, next: Name) {
    && rules == Without(all, removed)
    && UniqueNames(all) && NamesBelow(all, next)
    && (forall name :: name in removed ==> name < next)
  }

  lemma AddEdits(s: Cloud, group: string, o: Options, all: seq<Rule>, removed: set<Name>)
    requires IsEdited(RulesOf(s, group), all, removed, s.next)
    ensures var rule := AzSecurityRule(o, s.next);
            IsEdited(RulesOf(s, group) + [rule], all + [rule], removed, s.next + 1)
  {
    WithoutAppended(all, AzSecurityRule(o, s.next), removed);
  }

  lemma RemoveEdits(s: Cloud, group: string, name: Name, all: seq<Rule>, removed: set<Name>)
    requires IsEdited(RulesOf(s, group), all, removed, s.next)
    requires HasName(RulesOf(s, group), name)
    ensures IsEdited(Without(RulesOf(s, group), {name}), all, removed + {name}, s.next)
  {
    WithoutTwice(all, removed, {name});
    WithoutMembers(all, removed);
  }

  lemma LaterNamesFit(rules: seq<Rule>, all: seq<Rule>, removed: set<Name>, next: Name, later: Name)
    requires IsEdited(rules, all, removed, next) && next <= later
    ensures IsEdited(rules, all, removed, later)
  {
  }

  lemma StepEdits(s: Cloud, op: Op, t: Cloud, group: string, all: seq<Rule>, removed: set<Name>)
    requires Performs(s, op, t)
    requires IsEdited(RulesOf(s, group), all, removed, s.next)
    ensures IsEdited(RulesOf(t, group), all + AddedBy(op, s.next, group), removed + RemovedBy(op, group), t.next)
  {
    NothingMore(all, removed);
    if op.applied && op.group == group {
      StepEditsHere(s, op, t, all, removed);
    } else {
      ElsewhereUnchanged(s, op, t, group);
      LaterNamesFit(RulesOf(s, group), all, removed, s.next, t.next);
    }
  }

  lemma StepEditsHere(s: Cloud, op: Op, t: Cloud, all: seq<Rule>, removed: set<Name>)
    requires Performs(s, op, t) && op.applied
    requires IsEdited(RulesOf(s, op.group), all, removed, s.next)
    ensures op.Add? ==> IsEdited(RulesOf(t, op.group), all + [AzSecurityRule(op.options, s.next)], removed, t.next)
    ensures op.Remove? ==> IsEdited(RulesOf(t, op.group), all, removed + {op.name}, t.next)
  {
    if op.Add? {
      AddEdits(s, op.group, op.options, all, removed);
      LaterNamesFit(RulesOf(t, op.group), all + [AzSecurityRule(op.options, s.next)], removed, s.next + 1, t.next);
    } else {
      RemoveEdits(s, op.group, op.name, all, removed);
    }
  }

  lemma NothingMore(all: seq<Rule>, removed: set<Name>)
    ensures all + [] == all && removed + {} == removed
  {
  }

  lemma ElsewhereUnchanged(s: Cloud, op: Op, t: Cloud, group: string)
    requires Performs(s, op, t) && !(op.applied && op.group == group)
    ensures RulesOf(t, group) == RulesOf(s, group) && s.next <= t.next
  {
  }

  /**
   Over every run, whatever fails: a group's list is its first list followed by the rules
   added to it in order, minus the removed names; names stay unique.
   */
  lemma {:induction false} RunEdits(states: seq<Cloud>, ops: seq<Op>, n: nat, group: string)
    requires Run(states, ops) && n <= |ops|
    requires UniqueNames(RulesOf(states[0], group)) && NamesBelow(RulesOf(states[0], group), states[0].next)
    ensures IsEdited(RulesOf(states[n], group),
                     RulesOf(states[0], group) + Added(states, ops[..n], group),
                     RemovedNames(ops[..n], group),
                     states[n].next)
    ensures UniqueNames(RulesOf(states[n], group))
  {
    var first := RulesOf(states[0], group);
    if n == 0 {
      WithoutNothing(first, {});
      assert first + [] == first;
    } else {
      var k := n - 1;
      RunEdits(states, ops, k, group);
      assert Performs(states[k], ops[k], states[k + 1]);
      assert ops[..n][..k] == ops[..k];
      var added := Added(states, ops[..k], group);
      StepEdits(states[k], ops[k], states[n], group, first + added, RemovedNames(ops[..k], group));
      AppendedTwice(first, added, AddedBy(ops[k], states[k].next, group));
    }
    EditedIsUnique(RulesOf(states[n], group), first + Added(states, ops[..n], group),
                   RemovedNames(ops[..n], group), states[n].next);
  }

  lemma EditedIsUnique(rules: seq<Rule>, all: seq<Rule>, removed: set<Name>, next: Name)
    requires IsEdited(rules, all, removed, next)
    ensures UniqueNames(rules)
  {
    WithoutStaysUnique(all, removed);
  }

  lemma AppendedTwice(a: seq<Rule>, b: seq<Rule>, c: seq<Rule>)
    ensures (a + b) + c == a + (b + c)
  {
  }

  /** The rules of a group as the service stores them. */
  lemma StoredRules(s: Cloud, group: string)
    ensures group in s.groups && s.groups[group].Some? ==> RulesOf(s, group) == s.groups[group].value
    ensures group in s.groups && s.groups[group].None? ==> RulesOf(s, group) == []
  {
  }

  /**
   An addition that was made has put one rule behind those of the group, under a new name, with
   the description, the protocol, the ports, the block and the direction asked for.
   */
  lemma AddedRule(s: Cloud, group: string, o: Options, err: Option<Step>, t: Cloud)
    requires AddOutcome(s, group, o, err, true, t)
    requires NamesBelow(RulesOf(s, group), s.next)
    ensures group in t.groups && t.groups[group].Some?
    ensures var rules, before := t.groups[group].value, RulesOf(s, group);
            && |rules| == |before| + 1 && rules[..|before|] == before
            && (forall i :: 0 <= i < |before| ==> before[i].name != rules[|before|].name)
            && rules[|before|].description == o.description && rules[|before|].cidr == o.cidr
            && (rules[|before|].direction == Outbound <==> o.direction == Egress)
            && (rules[|before|].protocol == AzTCP <==> o.protocol == TCP)
            && (rules[|before|].protocol == AzUDP <==> o.protocol == UDP)
            && (rules[|before|].protocol == AzICMP <==> o.protocol == ICMP)
            && (rules[|before|].protocol == Asterisk <==> o.protocol == AnyProtocol)
    ensures var ports := t.groups[group].value[|RulesOf(s, group)|].portRange;
            o.range.from >= 0 && o.range.to >= 0 ==>
              Split(ports, "-") == [Format(o.range.from), Format(o.range.to)]
    ensures forall g :: g != group ==> (g in t.groups <==> g in s.groups)
    ensures forall g :: g != group && g in s.groups ==> t.groups[g] == s.groups[g]
  {
    RangeTokens(o.range);
  }

  /** An addition that was not made changes no group; one that reports success was made. */
  lemma AdditionIsTruthful(s: Cloud, group: string, o: Options, err: Option<Step>, applied: bool, t: Cloud)
    requires AddOutcome(s, group, o, err, applied, t)
    ensures err != Some(Absent)
    ensures err == None || err == Some(ReadingResult) ==> applied
    ensures err == Some(Getting) || err == Some(Updating) || !applied ==> t.groups == s.groups
    ensures group !in s.groups ==> err != None && t.groups == s.groups
  {
  }

  /** The same of a removal; only a name that is not there is refused by the manager itself. */
  lemma RemovalIsTruthful(s: Cloud, group: string, name: Name, err: Option<Step>, applied: bool, t: Cloud)
    requires RemoveOutcome(s, group, name, err, applied, t)
    ensures err != Some(ReadingResult)
    ensures err == None ==> applied
    ensures err in {Some(Getting), Some(Absent), Some(Updating)} || !applied ==> t == s
    ensures err == Some(Absent) ==> group in s.groups && forall rule :: rule in RulesOf(s, group) ==> rule.name != name
    ensures group !in s.groups ==> err != None && t == s
  {
    forall rule | rule in RulesOf(s, group) && rule.name == name
      ensures HasName(RulesOf(s, group), name)
    {
      var i :| 0 <= i < |RulesOf(s, group)| && RulesOf(s, group)[i] == rule;
    }
  }

  /** What a removal that was made keeps: the rules of other names, all of them and in their order. */
  lemma RemovedRule(s: Cloud, group: string, name: Name, err: Option<Step>, t: Cloud)
    requires RemoveOutcome(s, group, name, err, true, t)
    ensures group in t.groups && t.groups[group].Some?
    ensures t.groups[group].value == Kept(RulesOf(s, group), name)
  {
    WithoutIsKept(RulesOf(s, group), name);
  }

  /** The rules of other names, in their order, from the front. */
  function Kept(rules: seq<Rule>, name: Name): seq<Rule> {
    if rules == [] then []
    else if rules[0].name != name then [rules[0]] + Kept(rules[1..], name)
    else Kept(rules[1..], name)
  }

  lemma {:induction false} KeptAppended(rules: seq<Rule>, last: Rule, name: Name)
    ensures Kept(rules + [last], name) == Kept(rules, name) + if last.name != name then [last] else []
  {
    if rules != [] {
      assert (rules + [last])[1..] == rules[1..] + [last];
      KeptAppended(rules[1..], last, name);
    }
  }

  lemma {:induction false} WithoutIsKept(rules: seq<Rule>, name: Name)
    ensures Without(rules, {name}) == Kept(rules, name)
  {
    if rules != [] {
      var init, last := rules[..|rules| - 1], rules[|rules| - 1];
      WithoutIsKept(init, name);
      KeptAppended(init, last, name);
      assert init + [last] == rules;
    }
  }

  /** Removing a name that is not there fails and changes nothing; removing one that is there removes it. */
  lemma RemoveIsExact(s: Cloud, group: string, name: Name, err: Option<Step>, applied: bool, t: Cloud)
    requires RemoveOutcome(s, group, name, err, applied, t)
    ensures !HasName(RulesOf(s, group), name) ==> err != None && t == s
    ensures err == None ==> !HasName(RulesOf(t, group), name) && HasName(RulesOf(s, group), name)
    ensures forall g :: g != group ==> RulesOf(t, g) == RulesOf(s, g)
  {
    WithoutMembers(RulesOf(s, group), {name});
  }

  /** Removing the rule just added restores the list exactly. */
  lemma AddThenRemove(s: Cloud, group: string, o: Options, t: Cloud, u: Cloud)
    requires NamesBelow(RulesOf(s, group), s.next)
    requires AddOutcome(s, group, o, None, true, t)
    requires RemoveOutcome(t, group, s.next, None, true, u)
    ensures RulesOf(u, group) == RulesOf(s, group)
  {
    var rules, rule := RulesOf(s, group), AzSecurityRule(o, s.next);
    WithoutAppended(rules, rule, {s.next});
    WithoutNothing(rules, {s.next});
  }
}
