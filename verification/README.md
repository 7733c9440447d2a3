# Verified model of anyclouds

A Dafny model of the parts of anyclouds that compute something or that must keep promises
against a failing cloud, with proofs of what they keep.

- **Addresses** (`iputils/ip.go`): `BigEndian`, `IpAddress`, `IpNetwork` and `IpRange`. Addresses
  are byte strings; `add` writes the digits of a big integer over a buffer that is not blank;
  `GetRange` walks a CIDR block by a byte-wise mask test. The byte code is proved to refine
  arithmetic on 128-bit numbers, for IPv4 and IPv6, including where it goes wrong.
- **Create and compensate** (`AwsNetworks`, `AwsNetworkInterfaces`, `AwsServers`,
  `OpenStackNetworks`): sequences of remote calls with hand-written rollback.
- **Selection, search and encodings** (`PortSelection`, `AwsTags`, `AwsTemplates`, `AzureImages`,
  `AzurePortRanges`, `AzureSecurityRules`, with `Text` and `Decimal` below them).

`Outcomes` and `Listings` hold what several modules share.

How the remote side is modelled. The remote state is one value (`Cloud`) held by a class that
stands for the client (`Ec2`, `Neutron`, `Azure`). Every remote call may fail, and a call that
fails has no effect; which calls fail is left open in each call, so a contract holds for every
schedule of failures. A manager's method states exactly what it leaves behind as a relation
between the state before, the state after and the error it reports (the `...Outcome` predicates).
Each client also records the calls that failed, in order (`failed`), and each contract says what
is added for each result, so an error names a call that failed, and every failed call is either
named in the result or one of the hidden facts. Waits for a new instance or interface, which leave
no trace when they succeed, are counted. Over whole runs of network interfaces and servers,
results and failed calls decide what there is at the end. Facts that the code hides from its
caller, such as a deletion whose error is dropped, are ghost results. A run is a sequence of
states in which neighbours are related by one operation's outcome, and the run lemmas speak about
all of them. Ids, names of key pairs and names of rules are numbers drawn from a counter, which
models that the services and the uuid library never issue one twice; `WellFormed` says that
nothing uses an id that is still to come. An error is the remote call that failed, and for a
failed rollback also the call that failed there, which is what the source's error stacks carry.
Waiting calls are calls that may fail. Terminating an instance is taken to change nothing else:
that it leaves the associations of its addresses alone is an assumption about EC2, on which
`StrandedAddresses` rests. An index out of range, which stops a Go program, is the result
`Panicked` or `Crashed`.

Foreign code that the model rests on is written out from its documented behaviour:
`math/big` (`Bytes`, `SetBytes`), `net` (`To4`, `To16`, `CIDRMask`, `Mask`, `Contains`),
`encoding/binary`, `strings.Split`, `strconv.ParseInt` and `Atoi`, `sort.Search`, and the
index search of the talgo library. Strings are sequences of characters, one per byte.

Where code and documentation differ, the model follows the code, and the lemmas say how they
differ: `NextIP` "gives the next IP v4" but leaves IPv4 at 255.255.255.255
(`StepsLeaveV4AtTheEnds`); `add` is wrong below 2^40 (`AddExact`, `AddInexactAtZero`); `GetRange`
meets its description exactly on the blocks of `WalksCleanly`, which are all IPv4 blocks and not
all IPv6 ones (`UnspecifiedAddressRange` and `CrashFromSmallAddress` are inputs on which it does
not); a rolled-back AWS network creation can leave a gateway (`CleanRollback`); the interface
deletion reports success although the interface is there (`DeleteSuccess`), and a failed interface
creation does not name the failed deletion of what it leaves (`ErrorIsComplete`); a server
creation reports success without the security group asked for (`GroupIsNotGuaranteed`); the tag
lookup searches a list that is not sorted (`LookupIsExact`); the two port filters can be met by
different fixed IPs of one port (`FiltersCanSplit`), and the port used has the requested address
on the requested subnet exactly if some port has, when no address occurs twice
(`BoundPortIsTheOne`), so for all requests exactly if each port lies in one subnet
(`BoundPortByStructure`); deleting the OpenStack network with the empty id takes the only router
there is (`EmptyIdTakesARouter`), and a deletion is sure to take no router but its own exactly
under the condition of `DeletionIsSafe`, while finding too many routers is left to the empty id
and to names that had two at the start (`TooManyRoutersExactly`, `TooManyOnlyForEmptyId`); a UDP
rule of an Azure group is read back as TCP (`RuleReadBack`).

## Model

| member | source | states |
|---|---|---|
| BigEndian.ValueOfBytes | iputils/ip.go:10-14 | reading back the digits of a number gives the number |
| BigEndian.BytesLength | iputils/ip.go:14-17 | the digits are as few as possible: k bytes suffice exactly below 256^k |
| BigEndian.FirstWeighsMost | iputils/ip.go:10-14 | the number of four bytes, the first weighing most |
| IpAddress.Add | iputils/ip.go:9-22 | the buffer ends as the filler with the digits of the magnitude of the sum over its tail; a 17th digit panics |
| IpAddress.Overwrite | iputils/ip.go:17-20 | the loop replaces exactly the trailing bytes |
| IpAddress.IncrementIP | iputils/ip.go:24-26 | is the sum with 1 |
| IpAddress.DecrementIP | iputils/ip.go:28-30 | is the sum with -1 |
| IpAddress.NextIP | iputils/ip.go:45-48 | is the increment |
| IpAddress.PreviousIP | iputils/ip.go:51-54 | is the decrement |
| IpAddress.SumNumber | iputils/ip.go:9-22 | the number of the result for every address and offset, also where filler shows in front of it, and the exact panic condition |
| IpAddress.AddExact | iputils/ip.go:9-22 | the result encodes the sum if and only if the sum lies in [2^40, 2^128) |
| IpAddress.SumIsLarge | iputils/ip.go:13-20 | no result is below 2^40 |
| IpAddress.AddInexactAtZero | iputils/ip.go:9-22 | `::` + 1 comes out as `::ffff:255.255.255.1` |
| IpAddress.IncrementThenDecrement | iputils/ip.go:24-30 | decrementing undoes incrementing exactly on [2^40, 2^128 - 1) |
| IpAddress.DecrementThenIncrement | iputils/ip.go:24-30 | incrementing undoes decrementing exactly above 2^40 |
| IpAddress.Itou | iputils/ip.go:33-35 | reads the four bytes of an IPv4 address, panics on any other |
| IpAddress.Utoi | iputils/ip.go:38-42 | writes the number into bytes 12 to 15 of a mapped address |
| IpAddress.To4IsInterval | iputils/ip.go:34 | the addresses that are IPv4 are the numbers in [0xffff00000000, 2^48) |
| IpAddress.ItouUndoesUtoi | iputils/ip.go:33-42 | identity on every 32-bit number |
| IpAddress.UtoiUndoesItou | iputils/ip.go:33-42 | identity on the 16-byte form of exactly the IPv4 addresses |
| IpAddress.V4Bytes | iputils/ip.go:33-42 | `Itou` and `Utoi` byte by byte, on the short and the mapped form |
| IpAddress.V4Number | iputils/ip.go:9-12 | the number of a.b.c.d in both forms |
| IpAddress.FastFormsAgree | iputils/ip.go:44-54 | the byte-level steps equal the commented-out 32-bit ones except at the last and at the first IPv4 address |
| IpAddress.StepsLeaveV4AtTheEnds | iputils/ip.go:44-54 | at those two addresses the result is not IPv4 |
| IpAddress.NextInBytes | iputils/ip.go:44-54 | the address after and before a.b.c.d, without and with a carry |
| IpNetwork.Contains | iputils/ip.go:70 | the loop decides agreement under the mask after the length test |
| IpNetwork.MatchIsInterval | iputils/ip.go:70 | the byte-wise test under a prefix mask is membership of one aligned interval of numbers, for any width and prefix length |
| IpNetwork.ContainsIsInterval | iputils/ip.go:70 | an address is contained if and only if its number lies in the block and both or neither are IPv4 |
| IpNetwork.ContainsIsPrefix | iputils/ip.go:70 | an address is contained if and only if it agrees with the one in front of the slash on the prefix, and the families agree |
| IpNetwork.V4BlockIs | iputils/ip.go:64-70 | which blocks are compared on four bytes: IPv4 ones, and mapped ones with a prefix of 96 or more |
| IpNetwork.OwnAddress | iputils/ip.go:64-68 | the address in front of the slash lies in its block |
| IpNetwork.BlockBounds | iputils/ip.go:64-70 | a block compared on four bytes lies within the IPv4 range, any block below 2^128 |
| IpRange.Walk | iputils/ip.go:69-72 | the loop terminates, stops at the last address reached through members, and turns once per address passed |
| IpRange.GetRange | iputils/ip.go:63-77 | first address, last address, number of turns, rejected text and panic, for every block |
| IpRange.ReachIsMaximal | iputils/ip.go:70-72 | every address moved to is contained and the one after the end is not |
| IpRange.ReachIsStop | iputils/ip.go:70-72 | closed form of the end: the end of the block, or the address before the IPv4 range, or the start |
| IpRange.RangeIsDocumented | iputils/ip.go:62-77 | FirstIP = a+1 and LastIP = max(a, B-1) if and only if the walk is clean, which every IPv4 block is |
| IpRange.RangeByPrefix | iputils/ip.go:62-77 | the same in terms of the address and the last one of its prefix, with the condition for IPv6 written out |
| IpRange.RangeCrashes | iputils/ip.go:63-77 | the exact blocks on which the walk panics, in closed form: an address next to the last one, or a block that ends there and an address above the IPv4 range or two below 256, 256^2, 256^3, 256^4 or 256^5 |
| IpRange.UnspecifiedAddressRange | iputils/ip.go:63-77 | a wrong range: `::/128` gives `::ffff:255.255.255.1` to `::ffff:255.255.255.0` |
| IpRange.CrashFromSmallAddress | iputils/ip.go:63-77 | a panic: `::fe` with prefix length 0 |
| IpRange.V4RangeIsInterior | iputils/ip.go:62-77 | for a network address and p <= 30: exactly the 2^(32-p)-2 contained addresses other than the first and the last |
| IpRange.CleanSteps | iputils/ip.go:70-72 | max(0, B-(a+1)) turns of every clean walk, on IPv4 and IPv6 |
| IpRange.OnePastTheEnd | iputils/ip.go:70 | the address after 255.255.255.255 is contained in no IPv4 block |
| AwsNetworks.NetworkManager.CreateNetwork | providers/aws/networks.go:23-49 | what is left for every result: a complete network, or the leftovers that the named cause and rollback failure determine |
| AwsNetworks.NetworkManager.AddInternetGateway | providers/aws/networks.go:51-62 | a gateway made and attached, made and left unattached, or not made, by error |
| AwsNetworks.NetworkManager.Complete | providers/aws/networks.go:43-48 | the part after attaching the gateway: both routes and the reading, or the rollback |
| AwsNetworks.NetworkManager.RollBack | providers/aws/networks.go:33-47 | the leftovers of the three error exits |
| AwsNetworks.NetworkManager.PopulateRouteTable | providers/aws/networks.go:255-287 | on success both routes lead to the gateway; in any case nothing but the routes of this VPC changes |
| AwsNetworks.NetworkManager.RemoveInternetGateway | providers/aws/networks.go:64-86 | which gateways are gone and which one is detached but alive, by error |
| AwsNetworks.NetworkManager.RemoveOne | providers/aws/networks.go:70-82 | one turn of that loop |
| AwsNetworks.NetworkManager.DeleteNetwork | providers/aws/networks.go:105-115 | the VPC and exactly its gateways are gone, or what the error says is left |
| AwsNetworks.RollBackLeaves | providers/aws/networks.go:33-47 | deleting from any state in which creation can fail leaves what the error pair determines |
| AwsNetworks.CleanRollback | providers/aws/networks.go:32-62 | after a successful rollback VPCs and attachments are as before; one new orphan gateway exactly if attaching was the call that failed |
| AwsNetworks.CompletedNetwork | providers/aws/networks.go:23-62 | what a completed creation adds: a VPC with the name and block asked for, a gateway attached to it and the target of both routes; the reading is that VPC |
| AwsNetworks.FailedCreation | providers/aws/networks.go:28-47 | which calls the errors can name, and what VPC and attachment are left for each |
| AwsNetworks.DeletedNetwork | providers/aws/networks.go:105-115 | without error the VPC and exactly its gateways are gone |
| AwsNetworks.UndeletedNetwork | providers/aws/networks.go:64-115 | with an error the VPC is there and other gateways are untouched |
| AwsNetworks.NothingLeft | providers/aws/networks.go:32-62 | a failed creation leaves nothing if and only if the rollback succeeded and attaching did not fail |
| AwsNetworks.RetriedDelete | providers/aws/networks.go:105-115 | repeating a failed deletion removes everything except a gateway that was detached and not deleted |
| AwsNetworks.CreateThenDelete | providers/aws/networks.go:23-115 | deletion undoes creation |
| AwsNetworks.Conservation | providers/aws/networks.go:23-115 | over every run: attached gateways belong to live VPCs, new VPCs have at most one, orphans stay, and new orphans are as many as failed attach calls plus failed gateway deletions |
| AwsNetworks.RunVpcs | providers/aws/networks.go:23-115 | over every run: the VPCs are those of the start, of completed creations and of creations whose rollback failed, less the ones deleted with success since |
| OpenStackNetworks.NetworkManager.FindRouter | providers/openstack/networks.go:133-149 | none, the only one, or an error when there are two, of the routers of one name, or of all for the empty name |
| OpenStackNetworks.NetworkManager.DeleteNetwork | providers/openstack/networks.go:43-60 | what is left, by error |
| OpenStackNetworks.NetworkManager.CreateRouter | providers/openstack/networks.go:97-118 | one router named by the network, or no change |
| OpenStackNetworks.NetworkManager.CreateNetwork | providers/openstack/networks.go:18-40 | a network with its router, or what the cause and the rollback failure leave |
| OpenStackNetworks.RollBackLeaves | providers/openstack/networks.go:29-34 | the rollback can only fail to list or to delete, and leaves at most the network |
| OpenStackNetworks.CompletedNetwork | providers/openstack/networks.go:18-40 | what a completed creation adds: a network with the name and block asked for and a router named by its id on the external network; the answer describes the network |
| OpenStackNetworks.FailedNetwork | providers/openstack/networks.go:24-34 | which calls the errors can name; no router is left, and a network if and only if the rollback failed |
| OpenStackNetworks.DeletedNetwork | providers/openstack/networks.go:43-60 | without error the network and the routers of its id are gone |
| OpenStackNetworks.CreateThenDelete | providers/openstack/networks.go:18-60 | deletion undoes creation |
| OpenStackNetworks.RetriedDelete | providers/openstack/networks.go:43-60 | a deletion that failed at any step and is repeated is one deletion |
| OpenStackNetworks.EmptyIdTakesARouter | providers/openstack/networks.go:43-60 | the failing input: deleting the network with the empty id deletes the only router there is, also when deleting the network then fails |
| OpenStackNetworks.TakesOwnRoutersExactly | providers/openstack/networks.go:43-60 | a deletion that got past the router took only the own one if and only if the id is not empty or all routers are unnamed; on every exit, also if none was taken |
| OpenStackNetworks.DeletionIsSafe | providers/openstack/networks.go:43-60 | before the call: no outcome takes another router if and only if the id is not empty, all routers are unnamed, or there are two or more |
| OpenStackNetworks.OneRouterPerNetwork | providers/openstack/networks.go:18-60 | over every run: each router made in it is named by a live network made in it, no two by the same, and the more-than-one branch is never taken for such a network |
| OpenStackNetworks.TooManyRoutersExactly | providers/openstack/networks.go:43-60 | over every run from any state: the more-than-one branch is taken exactly by a deletion that can list and finds two; with an id that is not empty only if that name had two routers at the start |
| OpenStackNetworks.TooManyOnlyForEmptyId | providers/openstack/networks.go:43-60 | over every run from a state without such a name: no name but the empty one ever has two routers, and the branch is taken if and only if the id is empty, two routers exist and listing worked |
| OpenStackNetworks.RunNetworks | providers/openstack/networks.go:18-60 | over every run: the networks are those of the start, of completed creations and of creations whose rollback failed, less the ones deleted with success since |
| OpenStackNetworks.RunRouters | providers/openstack/networks.go:18-60 | over every run: the routers are those of the start and of completed creations, less the ones taken since with their own id or the empty one |
| AwsNetworkInterfaces.NetworkInterfaceManager.Create | providers/aws/networkinterfaces.go:40-88 | for every way through: the calls that failed, the error and what is left |
| AwsNetworkInterfaces.NetworkInterfaceManager.WaitFree | providers/aws/networkinterfaces.go:50-62 | the same for an interface without a server |
| AwsNetworkInterfaces.NetworkInterfaceManager.AttachNew | providers/aws/networkinterfaces.go:63-87 | the same for an interface with a server |
| AwsNetworkInterfaces.NetworkInterfaceManager.Read | providers/aws/networkinterfaces.go:128-136 | the reading in the end: the interface, an error, or a panic on an empty answer |
| AwsNetworkInterfaces.NetworkInterfaceManager.UndoAttached | providers/aws/networkinterfaces.go:76-86 | the detach-then-delete rollback |
| AwsNetworkInterfaces.NetworkInterfaceManager.Delete | providers/aws/networkinterfaces.go:95-122 | for every way through: the calls that failed, the error, which never names a failed detaching or deletion, and what is left |
| AwsNetworkInterfaces.FailureLeavesNothing | providers/aws/networkinterfaces.go:50-86 | on all failing ways, interfaces and attachments are as before if and only if the failed calls are among creating, attaching, waiting and detaching; otherwise one interface as asked for is left, attached if and only if detaching failed |
| AwsNetworkInterfaces.CreateLeaves | providers/aws/networkinterfaces.go:40-88 | on all ways, from the failed calls: no new interface, or one, attached if creation succeeded with a server or detaching failed |
| AwsNetworkInterfaces.ErrorIsComplete | providers/aws/networkinterfaces.go:50-86 | the error names every failed call if and only if no deletion failed that was made without a server |
| AwsNetworkInterfaces.CreateReports | providers/aws/networkinterfaces.go:40-88 | which result goes with which failed calls |
| AwsNetworkInterfaces.OthersUnchanged | providers/aws/networkinterfaces.go:40-88 | no other interface changes, whatever happens |
| AwsNetworkInterfaces.CreatedIsAttached | providers/aws/networkinterfaces.go:50-87 | a creation that did its work, read or not: exactly one new interface, attached to the given server if and only if one was given |
| AwsNetworkInterfaces.AttachedLeftover | providers/aws/networkinterfaces.go:73-86 | an attached interface remains only after waiting, detaching and deleting all failed |
| AwsNetworkInterfaces.DeleteLeaves | providers/aws/networkinterfaces.go:95-122 | from the failed calls: whether the interface and its attachment are still there; nothing else changes |
| AwsNetworkInterfaces.DeleteSuccess | providers/aws/networkinterfaces.go:95-122 | two deletions amount to one if and only if one of them met no failed call but detaching; success is reported with the interface there if and only if deleting failed |
| AwsNetworkInterfaces.CreateThenDelete | providers/aws/networkinterfaces.go:40-122 | deleting after a creation with any outcome restores the interfaces, if and only if the creation left none or no call of the deletion failed but detaching |
| AwsNetworkInterfaces.RunAccounts | providers/aws/networkinterfaces.go:40-122 | over every run: exactly which interfaces there are, from the failed calls, including those that failed creations leaked, and what spec and attachment each has |
| AwsNetworkInterfaces.RunCounts | providers/aws/networkinterfaces.go:40-122 | over every run: as many interfaces as at the start, plus completed creations, plus leaks, minus deletions that met and deleted one |
| AwsNetworkInterfaces.LeaksAreRare | providers/aws/networkinterfaces.go:50-86 | over every run, each leaked interface has taken at least two failed calls |
| AwsNetworkInterfaces.RunTouchesOnlyDeleted | providers/aws/networkinterfaces.go:40-122 | over every run, an interface that no operation deletes stays as it was |
| AwsServers.ServerManager.Create | providers/aws/servers.go:194-248 | for every way through an on-demand creation: the calls that failed in order, the result, and what instances, addresses and key pairs are left |
| AwsServers.ServerManager.CreateWithKey | providers/aws/servers.go:206-246 | the same between the import and the deferred deletion of the key pair |
| AwsServers.ServerManager.Configure | providers/aws/servers.go:216-246 | the same from the first status wait on, when there is an instance to roll back |
| AwsServers.ServerManager.Finish | providers/aws/servers.go:231-246 | the same from setting the security group on |
| AwsServers.ServerManager.AddSecurityGroups | providers/aws/servers.go:250-266 | the group is set or not, independently of the result |
| AwsServers.ServerManager.RollBack | providers/aws/servers.go:220-244 | what the four error exits leave of the launched instance |
| AwsServers.ServerManager.Delete | providers/aws/servers.go:269-287 | for every way through: the calls that failed, the error, which addresses are dissociated and whether the instance is terminated |
| AwsServers.ServerManager.DissociateAll | providers/aws/servers.go:275-277 | every listed address is free unless its own dissociation failed; nothing else changes |
| AwsServers.RollBackLeaves | providers/aws/servers.go:220-287 | the rollback gives back exactly the addresses it could dissociate |
| AwsServers.DeleteReports | providers/aws/servers.go:269-287 | a deletion reports an error if and only if the listing or the last wait failed, and that one |
| AwsServers.DeleteTriesOnce | providers/aws/servers.go:275-277 | only addresses of the server are dissociated, each once |
| AwsServers.RollBackTriesOnce | providers/aws/servers.go:220-244 | the same in a rollback |
| AwsServers.CreateReports | providers/aws/servers.go:194-248 | the errors of a creation are calls that failed; on success none failed but setting the group and reading |
| AwsServers.CreatedServer | providers/aws/servers.go:194-248 | what a completed creation adds: a live instance of the image, template, key pair, name and group asked for, which is what it reads; only free addresses were taken |
| AwsServers.RecordGrows | providers/aws/servers.go:194-287 | the record of failed calls grows by exactly those of the operation |
| AwsServers.KeyPairIsTemporary | providers/aws/servers.go:200-205 | over every run: the key pairs at the end are those of the start and the ones whose import worked and whose deferred deletion failed |
| AwsServers.CleanRollback | providers/aws/servers.go:216-244 | without a rollback error the instance is terminated and nothing else has changed; the addresses are all free again if and only if no dissociation is among the failed calls |
| AwsServers.LaunchesLeaveInstances | providers/aws/servers.go:201-244 | over every run: an instance is on record at the end if and only if it was at the start or a creation drew its id and neither the import nor the launch failed |
| AwsServers.GroupIsNotGuaranteed | providers/aws/servers.go:231-266 | at any later time of a run, a reported server is in the group asked for if and only if the overwritten call did not fail |
| AwsServers.DeleteIsTruthful | providers/aws/servers.go:269-287 | no error implies terminated; addresses stay allocated, those of other servers untouched; the server keeps exactly those whose dissociation failed, or all if the listing failed |
| AwsServers.RunConserves | providers/aws/servers.go:194-287 | between any two states of a run: no address is released, no server changes but by being terminated, nothing terminated comes back |
| AwsServers.RunDecides | providers/aws/servers.go:194-287 | over every run, the failed calls decide key pairs, instances, which of them live, and which addresses are on each, also on terminated ones |
| AwsServers.UnnamedServers | providers/aws/servers.go:216-287 | over every run: the live servers that no result names are those whose creation could not read them in the end, or failed and could not list or not terminate, and that no later deletion terminated |
| AwsServers.StrandedAddresses | providers/aws/servers.go:216-287 | over every run: an address is left on a terminated server if and only if its dissociation failed in an operation that terminated the server and no later deletion dissociated it |
| PortSelection.SelectPorts | providers/openstack/publicipaddresses.go:115-139 | the result is the strictly increasing list of exactly the suitable indices |
| PortSelection.SelectionHolds | providers/openstack/publicipaddresses.go:115-139 | which ports are selected, by their fixed IPs; an empty option filters nothing |
| PortSelection.EverythingSelected | providers/openstack/publicipaddresses.go:115-127 | without options all ports are selected, the first one first |
| PortSelection.FilterByAddress | providers/openstack/publicipaddresses.go:128-139 | the second filter with the in-place remapping |
| PortSelection.RemappedSelection | providers/openstack/publicipaddresses.go:134-137 | composing the two index lists selects what both filters accept |
| PortSelection.SelectionIsOneFilter | providers/openstack/publicipaddresses.go:115-139 | the composed filters equal the one filter that asks for both conditions |
| PortSelection.Associate | providers/openstack/publicipaddresses.go:106-147 | the floating IP is bound to the least suitable port and nothing else changes; it panics only if no port suits; with distinct addresses the port has the address on the subnet if and only if some port has |
| PortSelection.FirstByFixedIPs | providers/openstack/publicipaddresses.go:115-144 | the port used by its fixed IPs, and none before it |
| PortSelection.FiltersCanSplit | providers/openstack/publicipaddresses.go:119-133 | a port can pass the two filters with two different fixed IPs |
| PortSelection.FiltersMeetOnAllPairs | providers/openstack/publicipaddresses.go:119-133 | a port that passes both filters has both in one fixed IP, for all requests, if and only if each of its addresses occurs on each of its subnets |
| PortSelection.AllPairsIsOneSubnet | providers/openstack/publicipaddresses.go:119-133 | on a port with distinct addresses that is: all its fixed IPs lie in one subnet |
| PortSelection.BoundPortIsTheOne | providers/openstack/publicipaddresses.go:115-144 | per request, with addresses distinct over the ports: the port used has both if and only if some port of the list has both |
| PortSelection.BoundPortByStructure | providers/openstack/publicipaddresses.go:115-144 | for all requests, with addresses distinct and nothing empty: the port used has both if and only if the fixed IPs of each port lie in one subnet |
| PortSelection.BoundPortHasBoth | providers/openstack/publicipaddresses.go:115-144 | for all requests on any list: it is enough to ask for the subnets and addresses that occur (`BindsBoth`) |
| PortSelection.AllPairsBindBoth | providers/openstack/publicipaddresses.go:115-144 | ports with all pairs are enough for that, and on a list of one port needed |
| AwsTags.Search | providers/aws/volumes.go:78-80 | the binary search over the tags |
| AwsTags.Name | providers/aws/volumes.go:77-86 | the value found, or the empty string |
| AwsTags.NameByScan | providers/aws/publicaddresses.go:195-202 | the value of the first "name" tag, or the empty string |
| AwsTags.SearchIsSound | providers/aws/networks.go:141-146 | on every list the result is empty or the value of a tag with the key "name"; without such a tag it is empty |
| AwsTags.ScanIsFirst | providers/aws/publicaddresses.go:195-202 | the scan gives the value of the first tag with the key "name", or nothing if there is none |
| AwsTags.LookupsAgreeOnSuffix | providers/aws/volumes.go:77-86 | search and scan agree when the "name" tags come last or are absent |
| AwsTags.LookupIsExact | providers/aws/volumes.go:77-86 | with distinct keys in any order, the search finds the tag if and only if its distance from the end is half the length, rounded up, or a half, a quarter and so on of that, rounded down; otherwise it finds nothing |
| AwsTags.NameIsFound | providers/aws/volumes.go:77-86 | with distinct keys the search gives the value of the "name" tag at such a position, and nothing at any other |
| AwsTags.LookupFinds | providers/aws/volumes.go:77-86 | on every list, the search finds something if and only if a "name" tag is at such a position |
| AwsTags.NameIsMissed | providers/aws/volumes.go:77-86 | a "name" tag in front of one other tag is not found |
| AwsTemplates.ParseEmbedded | providers/aws/templates.go:108-133 | the two scanning loops; the test for an empty token is never true |
| AwsTemplates.SkipDigits | providers/aws/templates.go:119-126 | the second loop stops behind the digits |
| AwsTemplates.EmbeddedNumber | providers/aws/templates.go:108-133 | prefix, sign, digits and suffix are read as the signed number, or as out of range |
| AwsTemplates.EmbeddedFormat | providers/aws/templates.go:108-133 | every printed 64-bit number is found again in its surroundings |
| AwsTemplates.NothingFound | providers/aws/templates.go:115-118 | fails when there is no digit or sign |
| AwsTemplates.SignWithoutDigits | providers/aws/templates.go:119-132 | fails when the first sign has no digit after it |
| AwsTemplates.ScanIsExact | providers/aws/templates.go:108-133 | on every text: a number if and only if digits follow the first start and fit 64 bits, a syntax error if and only if no digits follow |
| AwsTemplates.ScanInCharacters | providers/aws/templates.go:108-133 | what is skipped, where a number starts, its value and the bounds, in characters |
| AwsTemplates.ScanOfEveryText | providers/aws/templates.go:108-133 | every text is of that form or has no digits where they are looked for, and then fails |
| Decimal.ParseIntOfDigits | providers/aws/templates.go:132 | a sign and digits are read as their value, or clamped as out of range |
| Decimal.ParseIntOfFormat | providers/azure/securitygroups.go:94-102 | reading undoes printing on all 64-bit values |
| Decimal.DigitsOneByOne | providers/azure/securitygroups.go:242-244 | the digits of a number are its decimal ones |
| Decimal.ParseIntLimits | providers/aws/templates.go:132 | the exact bounds of what is read |
| Decimal.ParseIntRejects | providers/aws/templates.go:132 | what is not a number |
| Text.FirstToken | providers/azure/images.go:20-21 | the first token of t + sep + rest is t if and only if the first cut comes after t |
| Text.SeparatorAddsToken | providers/azure/images.go:20-24 | every separator written adds at least one token, whatever the texts around it hold |
| Text.JoinOfSplit | providers/azure/images.go:20-24 | joining the tokens gives the text back, and every cut is the first one possible |
| AzureImages.CreatedIsReadable | providers/azure/images.go:15-26 | reading a printed id never indexes past its tokens |
| AzureImages.RoundTrip | providers/azure/images.go:15-26 | reading undoes printing if and only if no component contains "##" and none of the first three ends in "#" |
| AzureImages.IdFormat | providers/azure/images.go:15-26 | the form of an id, and which tokens of any text are read |
| AzureImages.IdTokens | providers/azure/images.go:15-26 | the tokens of a printed id are the components, if those are printable |
| AzureImages.PrintableIsInjective | providers/azure/images.go:15-17 | such components never share an id |
| AzurePortRanges.RangeTokens | providers/azure/securitygroups.go:92-109 | the tokens of a printed range, and that a negative end makes three or more |
| AzurePortRanges.OtherRanges | providers/azure/securitygroups.go:79-113 | what every text is read as: none, "*", empty, one token, two, or more |
| AzurePortRanges.SinglePort | providers/azure/securitygroups.go:92-98 | one number is read as the ports from it to 65535 |
| AzurePortRanges.PortRangeRoundTrip | providers/azure/securitygroups.go:79-113 | reading undoes printing if and only if neither end is negative; otherwise the result is 0-0 |
| AzurePortRanges.PortRangeIsInjective | providers/azure/securitygroups.go:242-244 | different ranges without a negative end are printed differently |
| AzureSecurityRules.SecurityGroupManager.AddSecurityRule | providers/azure/securitygroups.go:261-284 | the rule is appended with a new name, or nothing changes, by failing step |
| AzureSecurityRules.RuleReadBack | providers/azure/securitygroups.go:115-129 | reading a stored rule back gives what was asked for if and only if that was not UDP and had no negative port; UDP comes back as TCP |
| AzureSecurityRules.AddedRule | providers/azure/securitygroups.go:222-270 | the rule stored: description, protocol, ports, block and direction asked for, a new name, behind the rules there were |
| AzureSecurityRules.AdditionIsTruthful | providers/azure/securitygroups.go:261-284 | which errors there are, and that success and only an update changes the group |
| AzureSecurityRules.SecurityGroupManager.RemoveSecurityRule | providers/azure/securitygroups.go:293-321 | the rule is taken out, or nothing changes, by failing step |
| AzureSecurityRules.RemovedRule | providers/azure/securitygroups.go:298-312 | the rules of other names are kept, all of them and in their order |
| AzureSecurityRules.RemovalIsTruthful | providers/azure/securitygroups.go:293-321 | which errors there are; a refusal means that no rule has the name |
| AzureSecurityRules.SecurityGroupManager.RemoveByName | providers/azure/securitygroups.go:298-308 | the loop keeps the others in order and reports whether the name occurred |
| AzureSecurityRules.RunEdits | providers/azure/securitygroups.go:261-321 | over every run: a list is its first list and the additions in order, minus the removed names, with unique names |
| AzureSecurityRules.RemoveIsExact | providers/azure/securitygroups.go:300-312 | removing an absent name fails and changes nothing; success removes the name and touches no other group |
| AzureSecurityRules.AddThenRemove | providers/azure/securitygroups.go:261-321 | adding and then removing a rule restores the list |

## Left out

- Add: takes and returns byte strings, not pointers to them; that the returned buffer is a new one and that `first` and `last` share one buffer in `GetRange` is not stated, as no buffer is written after it is returned.
- Delete: an answer whose list is empty but not nil, on which the deletion of an interface and the reading of a server panic; an empty answer to them has no list here.
- GetRange: starts from the parsed address and prefix length; the text syntax read by `net.ParseCIDR` is not part of this model.
- Associate: the answer of a lookup that finds no floating IP or no server is a failed call.
- AddSecurityRule: the returned rule; the source looks for it by comparing pointers, which never match.
- Create: only on-demand servers; spot and reserved leasing, with their own remote calls, and the early exit for options that ask for both are not part of this model.
- CreateNetwork: the reading of the network at the end does no rollback in the source; it is a separate result (`CreatedUnread`, or `Created` without an answer).
- LookupIsExact: which of several "name" tags is found is not stated, as EC2 allows a key once per resource; `LookupFinds` and `SearchIsSound` cover such lists otherwise.
- `createSubnet` on AWS: one remote resource with a tag and a route table association, rolled back by one deletion; the same shape as `CreateNetwork` with less state. OpenStack subnets look their router up by the subnet's name.
- Listing and reading operations, volumes, images, templates other than the integer scanner: no further multi-step protocol or algorithm in them.
- Refusals that a provider makes for reasons of its own, such as deleting a VPC in use: they are among the calls that may fail.
- Other actors: between two calls of one operation the remote state changes only by that operation, except for addresses given to a new instance.
- Error texts and error types: an error is the call that failed; in the server and security-group managers the source wraps even a nil cause in a non-nil error, so results are told apart by the failing call and not by the error value.
- Clients, authentication, configuration, SSH, key generation, HTTP and JSON: foreign code and input or output.
- Polling with the retry library and wall-clock time; waiting calls are calls that may fail.
- State names, prices and units: one-line tables or floating point.
