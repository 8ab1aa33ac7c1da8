# aws-global-accelerator-controller: model and proofs

The controller keeps three kinds of remote state in step with Kubernetes objects: Route 53 records for the hostnames
of a Service or Ingress, a Global Accelerator with its listener and endpoint group, and the endpoints of an existing
endpoint group (EndpointGroupBinding). This project models these three reconciliation protocols, the text and
set-difference code they rest on, and the work queue that drives them.

**How faults and concurrency appear.** Every API call is one atomic step that takes effect, is refused, or is lost.
Between any two calls of one owner (cluster, resource, namespace, name), any number of steps of other owners and of
outsiders may happen. Each client class has a constant `quiet`: when it is set, nobody interferes and every call
reaches the service. The accelerator client also counts its lost calls, so that its results hold under interference
too. A `Valid` client carries a legal run of the shared machine from its start state to the present one, so the
imperative code is proved to take only steps that the machine allows, and the theorems about all runs apply to it.

| file | content |
|---|---|
| `Route53Store`, `RecordNames`, `HostedZones`, `OwnerValues` | record sets, stored names, the nearest zone, owner texts and tags |
| `Route53Protocol`, `Route53Safety` | the ownership protocol as a machine with one program counter per owner; safety over all runs |
| `Route53Controller`, `Route53Sequential`, `Route53Orphans`, `Route53Driver` | the code of ensure and cleanup, its undisturbed effect, what a failure between two calls leaves behind, the per-key drivers |
| `Accelerators`, `AcceleratorSafety`, `AcceleratorController` | the accelerator tree and its tags, isolation and shape over all runs, the code of ensure and cleanup |
| `EndpointGroupBindings`, `EndpointGroupBindingWebhook`, `BindingLifecycle` | reconcile on aliased slices, the webhook, the life of the object under stale reads and conflicts |
| `WorkQueues` | the disposition of each key, over all interleavings of workers, timers and events |
| `LoadBalancerNames`, `CloudProviders`, `ListenerPorts`, `Strings`, `Sequences` | hostname parsing, port comparison, the string operations used |

**Where the code falls short of its apparent intent.** The model keeps the code as it is; the exact conditions are theorems.

- One lost call leaves a TXT record without its alias (`OrphanIsReachable`), which blocks every later ensure of that hostname
  until the owner's next cleanup (`OrphanBlocksUntilCleanup`, `EnsureRoute53`); an undisturbed ensure
  succeeds exactly under `EnsureSucceedsExactly`, and a cleanup helps exactly under `CleanupUnblocks`.
- `replaceWildcards` undoes one escape only, so a hostname with two wildcards is never recognised again (`FindableExactly`).
- With two or more endpoint ids the delete loop of a binding runs past its own slice, and for an id with fewer than
  three colons it indexes out of bounds, so the deletion stays stuck as long as the endpoint group exists (`RemoveAll`,
  `DeletionCompletesExactly`, `FinishDeletion`).
- An endpoint that was added by an update whose status write was rejected stays in the group when the binding is deleted
  next (`RejectedStatusLeaks`; the exact condition is `TrackKeptExactly`).
- An update whose status write was rejected has overwritten the cached status; a replacement of ids is then taken for done,
  and the stored status is never corrected (`ForgottenUpdate`, `ForgottenExactly`).
- `AddLBToEndpointGroup` looks every load balancer up in the region of the last hostname; the persisted status is the
  wanted set exactly when that finds the same ARNs (`PersistedExactly`, `SecondRegionShadowsFirst`).
- Without hostnames but with ids in the status, the nil client of `reconcileUpdate` is used (`ReconcileUpdate`: Panicked).
- `CleanupGlobalAccelerator` reports success when its first lookup is lost, and then nothing is deleted (`Cleanup`).
- `createGlobalAcceleratorForIngress` reports success without a listener exactly when creating it is lost (`Create`), and
  `acceleratorChanged` takes unreadable tags for unchanged ones (`AcceleratorChanged`, `Update`).
- Two owners of one cluster behind one load balancer hostname keep the Route 53 controller waiting for both
  (`MatchesCountClaimants`, `EnsureAmongConverged`).
- A new port listed twice goes unnoticed (`UnchangedExactly`, `NewPortListedTwiceIsMissed`).
- Two AWS load balancers with different names make every run of the Global Accelerator driver write again
  (`ProcessCreateOrUpdate` with `ConvergedForOneHostname`).
- Hyphens in namespaces can give two accelerators the same default name (`HyphensCollide`); nothing but the name shown is affected, since ownership rests on tags.
- An annotation tag that overwrites an ownership mark makes the new accelerator invisible to its owner (`CreatedIsFoundExactly`).
- The EndpointGroupBinding controller drops a key after any error; the other controllers drop it after a store error (`ReturnsExactly`).

## Model

| member | source | states |
|---|---|---|
| Route53Safety.NamesAreExclusive | pkg/cloudprovider/aws/route53.go:81-126 | in every state of every interleaving of any number of owners, with failures at any call, each alias last written by an owner lies at a name whose TXT record carries that owner's value, and no name is held by two owners |
| Route53Safety.CleanupLeavesNothing | pkg/cloudprovider/aws/route53.go:132-165 | once an owner's cleanup has returned nil, no record set of any zone carries its value and no alias it wrote last exists, for every hostname of its whole history |
| Route53Safety.RunsIsolate | pkg/cloudprovider/aws/route53.go:81-165 | over any run in which an owner does nothing, everything at its names and its aliases stays as it was |
| Route53Safety.RunsKeepInv | pkg/cloudprovider/aws/route53.go:81-165 | the store and program-counter invariant holds along every run |
| Route53Safety.StepKeepsInv | pkg/cloudprovider/aws/route53.go:240-315 | every call, whether it takes effect, is refused or is lost, keeps the invariant of all owners |
| Route53Safety.StepIsolates | pkg/cloudprovider/aws/route53.go:183-315 | no action of anyone else changes a record set at an owner's name, or gives it or takes from it a name |
| Route53Safety.NothingLeft | pkg/cloudprovider/aws/route53.go:138-164 | in an invariant state an owner that has finished its cleanup has neither texts nor aliases anywhere |
| Route53Protocol.PcInvStable | pkg/cloudprovider/aws/route53.go:82-126 | what an owner has established before its next call cannot be spoiled by steps that leave it untouched |
| Route53Controller.Route53Client.EnsureRoute53 | pkg/cloudprovider/aws/route53.go:68-130 | success under any interference means every hostname has the owner's TXT and an alias of the accelerator, and that none of them had a TXT without an alias before; undisturbed it succeeds and writes exactly as the reference function says; created tells exactly whether record sets were added; from a synced store it writes nothing and reports created = false; a retry exactly for no or several accelerators |
| Route53Controller.Route53Client.SyncHostname | pkg/cloudprovider/aws/route53.go:82-126 | one round makes its hostname synced and keeps all others synced; a synced, recognisable hostname costs no write |
| Route53Controller.Route53Client.CreatePair | pkg/cloudprovider/aws/route53.go:100-113 | TXT first, then alias: success leaves both, undisturbed exactly when neither set existed |
| Route53Controller.Route53Client.PointAlias | pkg/cloudprovider/aws/route53.go:119-123 | an update of a held name cannot be refused and leaves the hostname synced |
| Route53Controller.Route53Client.LookUp | pkg/cloudprovider/aws/route53.go:92-99 | a record is found exactly when the owner's TXT and an alias lie at the hostname's own stored name |
| Route53Controller.Route53Client.FindOwneredARecordSets | pkg/cloudprovider/aws/route53.go:216-238 | the two loops return the alias sets at the names carrying the value, in listing order |
| Route53Controller.Route53Client.FindOwneredMetadataRecordSets | pkg/cloudprovider/aws/route53.go:167-181 | one result for each record that equals the value, in listing order |
| Route53Controller.Route53Client.CleanupRecordSet | pkg/cloudprovider/aws/route53.go:132-165 | nil under any interference means nothing of the owner is left; undisturbed it succeeds and removes exactly the sets with its value and the aliases at its names |
| Route53Controller.Route53Client.CleanZone | pkg/cloudprovider/aws/route53.go:138-163 | undisturbed, a round leaves in its zone exactly the surviving sets and all other zones as they were |
| Route53Controller.SyncedSurvives | pkg/cloudprovider/aws/route53.go:82-126 | other owners can neither break nor forge what an owner has synced |
| Route53Controller.TwoPhasesClean | pkg/cloudprovider/aws/route53.go:139-162 | aliases first, then texts: together exactly the survivors are left |
| Route53Sequential.EnsureSucceedsExactly | pkg/cloudprovider/aws/route53.go:81-126 | an undisturbed run succeeds if and only if each hostname has a zone, both records or neither, and is not repeated unless it can be recognised |
| Route53Sequential.OrphanTextBlocks | pkg/cloudprovider/aws/route53.go:100-107 | a TXT record without an alias makes an undisturbed round of its hostname fail |
| Route53Orphans.OrphanStays | pkg/cloudprovider/aws/route53.go:81-126 | along every run without a cleanup of its owner, whatever anybody does, a TXT record without an alias stays one |
| Route53Orphans.OrphanBlocksUntilCleanup | pkg/cloudprovider/aws/route53.go:100-113 | meanwhile its hostname is never synced, for any accelerator, so no ensure that names it succeeds |
| Route53Orphans.OrphanIsReachable | pkg/cloudprovider/aws/route53.go:103-112 | in every reachable state, for every hostname with a zone and a free name, one lost call between the two CREATEs leaves such a record |
| Route53Sequential.CleanupUnblocks | pkg/cloudprovider/aws/route53.go:132-165 | after a cleanup the hostname can be synced if and only if no plain A set lies there |
| Route53Store.OwnedAliasesExactly | pkg/cloudprovider/aws/route53.go:216-238 | on a clean store a listing yields exactly the aliases at the names the owner holds |
| Route53Store.OwnedTextsExactly | pkg/cloudprovider/aws/route53.go:167-181 | on a clean store a listing yields exactly the owner's TXT sets |
| Route53Store.RecognisedExactly | pkg/cloudprovider/aws/route53.go:360-381 | a hostname is recognised exactly when its stored name has the owner's TXT and an alias and it has one wildcard at most |
| Route53Store.HoldersAgree | pkg/cloudprovider/aws/route53.go:18-20 | a name is held by one owner at most |
| Route53Driver.ProcessCreateOrUpdate | pkg/controller/route53/service.go:48-111 | with its own lookups: without the annotation everything of the owner is removed; success means all hostnames point to an accelerator that matched the last AWS load balancer during the pass; with truthful lookups an undisturbed pass succeeds if and only if each load balancer has a name and exactly one accelerator, the hostnames are ready, and with several load balancers can be recognised again, and a pass over a synced store writes nothing; what ends a pass early is told exactly: a crash for a hostname without a dot, with truthful lookups a retry for a load balancer with no or several accelerators, an error otherwise |
| Route53Driver.ServeOne | pkg/controller/route53/service.go:72-108 | one load balancer: a crash exactly without a dot in its hostname, with truthful lookups a retry exactly when not one accelerator matches it, undisturbed success exactly when it can be answered and the hostnames are ready |
| Route53Driver.ServeAll | pkg/controller/route53/service.go:70-111 | the first load balancer that cannot be served ends the pass, with the result of its own round |
| Route53Driver.EnsureForLoadBalancer | pkg/cloudprovider/aws/route53.go:22-130 | success means that every hostname points to an accelerator that matched the load balancer at some time during the call, and to the owner's own one if that matches; with truthful lookups a retry if and only if not exactly one accelerator matches |
| Route53Driver.EnsureAmongConverged | pkg/cloudprovider/aws/route53.go:62-78 | when all owners have converged, a retry if and only if not exactly one owner of the cluster is behind the hostname, so two owners of one hostname both wait |
| Route53Driver.SyncedIsReady | pkg/cloudprovider/aws/route53.go:98-125 | synced hostnames are ready again exactly when they can be recognised |
| Route53Driver.ProcessDelete | pkg/controller/route53/service.go:29-46 | success leaves no text with the owner's value and none of its aliases |
| Route53Driver.SyncedForOneAccelerator | pkg/controller/route53/ingress.go:63-101 | two load balancers with different accelerators are never both served |
| RecordNames.FindableExactly | pkg/cloudprovider/aws/route53.go:360-371 | the stored form is turned back into the hostname if and only if it has at most one wildcard and no literal escape before it |
| RecordNames.EscapeInvertsReplace | pkg/cloudprovider/aws/route53.go:369-371 | escaping inverts replaceWildcards on every stored name |
| RecordNames.MatchIsStored | pkg/cloudprovider/aws/route53.go:360-367 | the record findARecord accepts lies at the very name that a write for the hostname goes to |
| HostedZones.GetHostedZone | pkg/cloudprovider/aws/route53.go:335-358 | the loop ends and, unless a lookup is lost, returns the zone of the longest label-boundary suffix that names one, or an error when none does |
| HostedZones.NearestExcludesNone | pkg/cloudprovider/aws/route53.go:335-358 | no zone is returned if and only if no suffix names one, and a zone is returned if and only if it is the nearest ancestor (section 4.3.2 of RFC 1034) |
| HostedZones.ParentDomainDropsFirstLabel | pkg/cloudprovider/aws/route53.go:383-386 | parentDomain is what follows the first dot, and strictly shorter |
| OwnerValues.Route53OwnerValueInjective | pkg/cloudprovider/aws/route53.go:18-20 | distinct owners have distinct TXT values, whatever text the cluster names hold |
| OwnerValues.AcceleratorOwnerTagValueInjective | pkg/cloudprovider/aws/global_accelerator.go:31-33 | the owner tag determines resource, namespace and name |
| OwnerValues.SlashesCollide | pkg/cloudprovider/aws/route53.go:18-20 | with slashes in a namespace or name the encoding is not injective |
| OwnerValues.AcceleratorTags | pkg/cloudprovider/aws/global_accelerator.go:35-51 | the loop yields the tags of the well-formed items in order |
| OwnerValues.TagsRoundTrip | pkg/cloudprovider/aws/global_accelerator.go:35-51 | printing plain tags as the annotation and parsing it gives them back |
| OwnerValues.MalformedItemsAreSkipped | pkg/cloudprovider/aws/global_accelerator.go:39-42 | a malformed item disturbs neither order nor content of the others |
| AcceleratorSafety.RunsKeepSound | pkg/cloudprovider/aws/global_accelerator.go:132-157 | in every interleaving of any number of owners with failures anywhere, each owner has at most one accelerator with at most one listener and one endpoint group, and no child outlives its parent |
| AcceleratorSafety.RunsIsolate | pkg/cloudprovider/aws/global_accelerator.go:87-110 | over a run in which an owner does nothing, its whole tree stays as it was |
| AcceleratorSafety.StepIsolates | pkg/cloudprovider/aws/global_accelerator.go:87-110 | no action of anyone else shows in an owner's tree |
| AcceleratorSafety.CallCommutes | pkg/cloudprovider/aws/global_accelerator.go:654-869 | a call of the owner does to its tree what it does to the store, and is refused by both or neither |
| AcceleratorSafety.StepKeepsSound | pkg/cloudprovider/aws/global_accelerator.go:654-1013 | every single call keeps every owner's shape |
| AcceleratorController.AcceleratorClient.Ensure | pkg/cloudprovider/aws/global_accelerator.go:112-211 | success without a lost call means the tree is enabled, named, tagged, with the protocol, the ports and the load balancer asked for, under any interference; success with a lost call means either an Ingress accelerator left without a listener or everything but the tags, which are then as before; an Ingress whose listener call is lost is reported as created; without a lost call or a vanished accelerator an active load balancer means success and an inactive one a retry; created exactly when the owner had no accelerator; a converged tree gets no write even under faults; whatever the result, no listener or group is written but with exactly what was asked for, and with success the same holds of names and tags |
| AcceleratorController.AcceleratorClient.Update | pkg/cloudprovider/aws/global_accelerator.go:290-410 | success means everything but the tags is in order, and the tags too unless their lookup was the one lost call, which leaves the accelerator as it was; a converged tree gets no write |
| AcceleratorController.AcceleratorClient.Create | pkg/cloudprovider/aws/global_accelerator.go:213-252 | success means convergence if no call was lost, and otherwise an Ingress accelerator left without a listener; conversely an Ingress whose listener call is lost is reported as success, and a Service without a listener never; the new accelerator has exactly the name and tags of the code, a listener exactly the ports and the protocol asked for, and an endpoint group the load balancer and nothing else, whatever the outcome |
| AcceleratorController.AcceleratorClient.SyncAccelerator | pkg/cloudprovider/aws/global_accelerator.go:291-296 | success means enabled and named, and tagged unless the tag lookup was lost, which is reported as success without a write; an accelerator in order is not written; whatever happens it is left alone, or enabled and renamed with the tags merged as the code lists them |
| AcceleratorController.AcceleratorClient.SyncListener | pkg/cloudprovider/aws/global_accelerator.go:298-321 | succeeds exactly when no call is lost, with the protocol and an unchanged verdict on the ports; a listener in order is not written; each listener is left alone or gets exactly the ports and the protocol asked for |
| AcceleratorController.AcceleratorClient.SyncGroup | pkg/cloudprovider/aws/global_accelerator.go:322-345 | succeeds exactly when no call is lost, and then the endpoint group contains the load balancer; a new group has nothing else, and an existing one keeps its list, gets the load balancer added or holds it alone |
| AcceleratorController.AcceleratorClient.AcceleratorChanged | pkg/cloudprovider/aws/global_accelerator.go:412-437 | without a lost call a change is reported exactly when something differs; when the tags cannot be read, exactly when name or state differ |
| AcceleratorController.AcceleratorClient.ListByResource | pkg/cloudprovider/aws/global_accelerator.go:87-110 | finds exactly the owner's accelerators, although tags are read after the listing and others change the store meanwhile; fails exactly when a call is lost or a listed accelerator has vanished |
| AcceleratorController.AcceleratorClient.Cleanup | pkg/cloudprovider/aws/global_accelerator.go:254-288 | a run without a write is one whose first lookup was lost: it reports success with the tree untouched; any other success means that the tree is gone; without a lost call it succeeds; unless the lookup of a child was lost no deletion is refused, so children go before their parent and the accelerator is disabled first; no listener or group that it leaves is changed |
| AcceleratorController.AcceleratorClient.DeleteDisabled | pkg/cloudprovider/aws/global_accelerator.go:743-784 | without a listener the accelerator can be disabled and deleted without refusal |
| AcceleratorController.AcceleratorClient.GetListener | pkg/cloudprovider/aws/global_accelerator.go:789-813 | not found means that the tree has no listener |
| AcceleratorController.AcceleratorClient.GetEndpointGroup | pkg/cloudprovider/aws/global_accelerator.go:885-907 | not found means that the tree has no endpoint group |
| AcceleratorController.AcceleratorClient.ProcessDelete | pkg/controller/globalaccelerator/service.go:28-52 | success with something left means that one call was lost and nothing was written; conversely a listed accelerator that nothing was written to is reported as a success; without a lost call or a vanished accelerator nothing is left |
| AcceleratorController.AcceleratorClient.ServeOne | pkg/controller/globalaccelerator/service.go:86-122 | one load balancer: a crash exactly without a dot in its hostname, a retry only for one that is not active yet and always unless a call is lost or an accelerator vanishes, success always for a serviceable one |
| AcceleratorController.AcceleratorClient.ProcessCreateOrUpdate | pkg/controller/globalaccelerator/service.go:54-126 | success means convergence for the last AWS load balancer if no call was lost, and at least a served or a bare tree otherwise; without mishaps a run writes nothing if and only if the tree is converged for all load balancers; what ends a pass early is told exactly: a crash for a hostname without a dot, a retry for a load balancer that is not active yet, an error otherwise, and the retry is never withheld unless a call was lost or an accelerator vanished |
| AcceleratorController.ConvergedMeans | pkg/cloudprovider/aws/global_accelerator.go:290-345 | what convergence amounts to: one accelerator, one listener and one endpoint group, each below the one before, enabled, named, with the last value of each annotation tag, the protocol and the load balancer |
| AcceleratorController.ConvergedForOneHostname | pkg/controller/globalaccelerator/ingress.go:90-126 | a tree is converged for one load balancer name only |
| AcceleratorController.FoundByHostnameExactly | pkg/cloudprovider/aws/global_accelerator.go:62-85 | the Route 53 controller finds a converged accelerator by its load balancer's hostname and by no other |
| AcceleratorController.MatchesCountClaimants | pkg/cloudprovider/aws/global_accelerator.go:62-85 | when all owners have converged, a lookup by hostname finds as many accelerators as the cluster has owners behind that hostname, so exactly one if and only if there is one such owner |
| AcceleratorController.AcceleratorClient.ListByHostname | pkg/cloudprovider/aws/global_accelerator.go:62-85 | of the owner's own accelerators exactly the matching ones are found under any interference, and every one that is found matched at some time during the call; undisturbed exactly the matching ones of the store, each once |
| AcceleratorController.ConvergedPorts | pkg/cloudprovider/aws/global_accelerator.go:313-321 | as long as no port is asked for twice, no listener of the owner ever lists one twice, and a converged listener has exactly the desired set of ports and the protocol |
| AcceleratorController.DefaultNamesDiffer | pkg/cloudprovider/aws/global_accelerator.go:53-60 | an annotated name wins; default names tell objects of one kind apart when no namespace has a hyphen |
| AcceleratorController.HyphensCollide | pkg/cloudprovider/aws/global_accelerator.go:53-60 | with hyphens in namespaces two default names can be equal, while the owner tags differ |
| AcceleratorController.DesiredForService | pkg/cloudprovider/aws/global_accelerator.go:213-220 | a Service asks for the numbers of all its ports in order, for UDP if and only if some "udp" port has no "tcp" port after it, and for its well-formed annotation tags |
| AcceleratorController.DesiredForIngress | pkg/cloudprovider/aws/global_accelerator.go:234-240 | an Ingress asks for TCP and the ports of the annotation, or of its backends when there is no annotation |
| Accelerators.CreatedIsFoundExactly | pkg/cloudprovider/aws/global_accelerator.go:654-701 | a created accelerator is found again by its owner if and only if the annotation leaves the ownership marks alone |
| Accelerators.CreatedTagsExactly | pkg/cloudprovider/aws/global_accelerator.go:654-674 | the tags of a new accelerator are the last ones of the annotation for each key, for other keys the four marks with their values, and no others |
| Accelerators.RetaggedExactly | pkg/cloudprovider/aws/global_accelerator.go:715-733 | after an update they are the last ones of the annotation for each key, for other keys the three own marks, and what was there before |
| Accelerators.RetaggedIsFound | pkg/cloudprovider/aws/global_accelerator.go:703-741 | tagging keeps an accelerator visible to its owner |
| Accelerators.RetaggedMatches | pkg/cloudprovider/aws/global_accelerator.go:426-436 | after tagging, acceleratorChanged sees no difference, whatever tags were there |
| Accelerators.CreatedMatches | pkg/cloudprovider/aws/global_accelerator.go:426-436 | after creation, acceleratorChanged sees no difference |
| Accelerators.ManagersAgree | pkg/cloudprovider/aws/global_accelerator.go:99-103 | no accelerator is found by two owners |
| Accelerators.TagsContainsAllValues | pkg/cloudprovider/aws/global_accelerator.go:559-570 | true exactly when each target key has its value, where a missing key has the empty one |
| ListenerPorts.ListenerPortChanged | pkg/cloudprovider/aws/global_accelerator.go:458-492 | unchanged exactly when each port occurs at least twice in both lists together |
| ListenerPorts.UnchangedExactly | pkg/cloudprovider/aws/global_accelerator.go:458-474 | unchanged if and only if a port that only one list names is named there at least twice |
| ListenerPorts.UnchangedWithoutDuplicates | pkg/cloudprovider/aws/global_accelerator.go:458-474 | for duplicate-free lists unchanged is equality of the port sets |
| ListenerPorts.SamePortsAreUnchanged | pkg/cloudprovider/aws/global_accelerator.go:458-474 | equal port sets never cause an update |
| ListenerPorts.NewPortListedTwiceIsMissed | pkg/cloudprovider/aws/global_accelerator.go:464-473 | a new desired port that is listed twice goes unnoticed |
| ListenerPorts.ListenerForService | pkg/cloudprovider/aws/global_accelerator.go:503-515 | the numbers of all ports in order, and UDP if and only if some "udp" port has no "tcp" port after it |
| ListenerPorts.UdpExactly | pkg/cloudprovider/aws/global_accelerator.go:506-513 | the last port with a known protocol decides |
| ListenerPorts.ListenerProtocolChangedFromService | pkg/cloudprovider/aws/global_accelerator.go:439-450 | a change is reported exactly when the protocol is not the one listenerForService sets: TCP although some "udp" port has no "tcp" port after it, or UDP although none has |
| ListenerPorts.ListenerForIngress | pkg/cloudprovider/aws/global_accelerator.go:522-557 | TCP with the ports of the annotation, none when it is malformed, or those of the backends |
| ListenerPorts.AnnotationPortsExactly | pkg/cloudprovider/aws/global_accelerator.go:533-540 | with legal numbers the annotation asks for exactly the ports it names |
| ListenerPorts.AnnotationPortsConcatenate | pkg/cloudprovider/aws/global_accelerator.go:533-540 | the objects of the annotation are read one after the other |
| ListenerPorts.AnnotationPortsOfOne | pkg/cloudprovider/aws/global_accelerator.go:533-540 | each gives its HTTP port, then its HTTPS port, each once if present |
| ListenerPorts.RulePortsExactly | pkg/cloudprovider/aws/global_accelerator.go:547-555 | exactly the Service ports of the paths are asked for |
| ListenerPorts.RulePortsConcatenate | pkg/cloudprovider/aws/global_accelerator.go:547-555 | rules are read one after the other, those without an HTTP part skipped |
| ListenerPorts.PathPortsConcatenate | pkg/cloudprovider/aws/global_accelerator.go:549-553 | paths are read one after the other, each Service port once, other backends skipped |
| LoadBalancerNames.PublicAlbRoundTrip | pkg/cloudprovider/aws/load_balancer.go:46-76 | parsing inverts the public ALB format if and only if the name does not look internal |
| LoadBalancerNames.InternalAlbRoundTrip | pkg/cloudprovider/aws/load_balancer.go:60-67 | parsing inverts the internal ALB format |
| LoadBalancerNames.NlbRoundTrip | pkg/cloudprovider/aws/load_balancer.go:78-93 | parsing inverts the NLB format if and only if the region is not named elb or the name does not look internal |
| LoadBalancerNames.ParsesExactly | pkg/cloudprovider/aws/load_balancer.go:32-93 | which name and region any text gives: with the ALB suffix the first two labels, the internal prefix cut off, with the NLB pattern the first and the third; every other text is an error |
| LoadBalancerNames.NlbPatternExactly | pkg/cloudprovider/aws/load_balancer.go:34-34 | the NLB pattern matches exactly texts with .elb., something on one line, and the suffix |
| LoadBalancerNames.NameGroupExactly | pkg/cloudprovider/aws/load_balancer.go:69-76 | the captured group is what precedes the last hyphen, and the split is unique |
| LoadBalancerNames.EnoughParts | pkg/cloudprovider/aws/load_balancer.go:32-49 | indexing the parts of a matched hostname stays in bounds on every string |
| LoadBalancerNames.HasRegionExactly | pkg/cloudprovider/aws/load_balancer.go:95-98 | GetRegionFromARN stays in bounds if and only if the text has three colons |
| LoadBalancerNames.RegionOfArn | pkg/cloudprovider/aws/load_balancer.go:95-98 | the region is what stands between the third colon and the fourth, or the end |
| CloudProviders.DetectsExactly | pkg/cloudprovider/provider.go:8-17 | AWS exactly for amazonaws.com and names below it; out of bounds exactly for names without a dot |
| CloudProviders.ParsedIsDetected | pkg/controller/globalaccelerator/service.go:86-101 | every hostname that parses as a load balancer is detected as AWS |
| EndpointGroupBindings.Reconciler.ReconcileUpdate | pkg/controller/endpointgroupbinding/reconcile.go:112-217 | past the early return a completed update removes exactly status minus ARNs, adds exactly ARNs minus status, all of them active, weighs each ARN once and persists the kept ids and the added ARNs, despite the aliased slices; the early return is taken exactly when nothing differs and then nothing is called; a panic happens only without hostnames and with ids in the status, and then always unless another call fails first; whatever becomes of the request, the new status is then written over the cached one; undisturbed, every update that is needed sends its status, and one whose new load balancers are all found again but not all active asks for a retry in 30 seconds and sends nothing; an unknown hostname, or a missing group when something differs, is an error before any call |
| EndpointGroupBindings.Reconciler.ChangeEndpoints | pkg/controller/endpointgroupbinding/reconcile.go:161-216 | removals, additions and weights in this order, in one group; a panic exactly at a nil client with something to remove, before any call |
| EndpointGroupBindings.Reconciler.RemoveStale | pkg/controller/endpointgroupbinding/reconcile.go:167-178 | after any number of removals the cached status itself holds the shrunk list, and empty strings behind it |
| EndpointGroupBindings.Reconciler.AddNew | pkg/controller/endpointgroupbinding/reconcile.go:180-195 | appends what was added to the results, in the cached status as far as it reaches and after that in a copy; undisturbed, with all new load balancers found again, it succeeds if all are active and asks for a retry in 30 seconds if one is not, after adding those before it |
| EndpointGroupBindings.Reconciler.AddOne | pkg/cloudprovider/aws/global_accelerator.go:572-596 | undisturbed: success if and only if the load balancer is found again and active, a retry in 30 seconds if and only if it is found and not active, else an error; only a success issues a call and appends the ARN |
| EndpointGroupBindings.Reconciler.UpdateWeights | pkg/controller/endpointgroupbinding/reconcile.go:197-204 | each wanted ARN gets its weight once, in some order |
| EndpointGroupBindings.Reconciler.CollectArns | pkg/controller/endpointgroupbinding/reconcile.go:117-140 | the map from ARN to name, and the client of the last region, nil exactly without hostnames |
| EndpointGroupBindings.ResolvesAll | pkg/controller/endpointgroupbinding/reconcile.go:122-140 | the map exists if and only if each hostname stands for a known load balancer |
| EndpointGroupBindings.ResolvesExactly | pkg/controller/endpointgroupbinding/reconcile.go:122-140 | it holds the ARN of each hostname and no other, with the name in the last hostname of that ARN |
| EndpointGroupBindings.Reconciler.ReconcileDelete | pkg/controller/endpointgroupbinding/reconcile.go:36-97 | finalizers are cleared only for an empty status or a missing group; one id with a region is removed and the status emptied; undisturbed with the group found it panics if and only if the status has two or more ids or one without a region, and then never writes |
| EndpointGroupBindings.ReleasableExactly | pkg/controller/endpointgroupbinding/reconcile.go:70-85 | the loop gets to its end exactly for an empty status and for a single text with three colons, such as an ARN |
| EndpointGroupBindings.Reconciler.RemoveAll | pkg/controller/endpointgroupbinding/reconcile.go:70-85 | on two or more ids with regions the loop removes every second one, repeats the last and runs out of bounds, and never removes anything else; a first id without a region panics before any call; one id with a region, that is with three colons, never does |
| EndpointGroupBindings.Reconciler.Reconcile | pkg/controller/endpointgroupbinding/reconcile.go:20-34 | whatever branch is taken, the calls and the request stay within what the lifecycle allows; only a current copy is accepted; an undisturbed pass over a deletion succeeds exactly from a releasable status; an undisturbed update waiting for a load balancer ends in a retry without a request |
| EndpointGroupBindings.DeleteFunc | pkg/controller/endpointgroupbinding/reconcile.go:175-177 | compacts in place: the remaining elements in order, then empty strings |
| EndpointGroupBindings.PersistedExactly | pkg/controller/endpointgroupbinding/reconcile.go:161-209 | from a duplicate-free status the persisted status is exactly the ARN set, each once, if and only if each added ARN is the one its name has in the last region |
| EndpointGroupBindings.OneRegionSuffices | pkg/controller/endpointgroupbinding/reconcile.go:122-140 | hostnames of one region meet this condition |
| EndpointGroupBindings.SecondRegionShadowsFirst | pkg/controller/endpointgroupbinding/reconcile.go:122-140 | with equal names in two regions the first is not found again, the second is |
| EndpointGroupBindings.RerunIsUnneeded | pkg/controller/endpointgroupbinding/reconcile.go:157-159 | after that, a rerun at the same generation takes the early return |
| EndpointGroupBindings.ForgottenExactly | pkg/controller/endpointgroupbinding/reconcile.go:143-159 | after an update whose status was not stored, the next pass over the same copy finds nothing to do if and only if there are as many wanted ARNs as stored ids and the generation was already observed |
| EndpointGroupBindings.ForgottenUpdate | pkg/controller/endpointgroupbinding/reconcile.go:143-217 | the code, twice over one copy: the first request is rejected; the second pass succeeds, and without a request exactly under that condition, so the stored status is never corrected |
| EndpointGroupBindings.SilenceIsRightExactly | pkg/controller/endpointgroupbinding/reconcile.go:157-159 | a pass that finds nothing to do is right about the stored status if and only if its copy has the same ids |
| EndpointGroupBindings.RemovingStaleKeepsWanted | pkg/controller/endpointgroupbinding/reconcile.go:150-178 | removing the stale ids one by one leaves the wanted ones in order, also with repeated ids |
| EndpointGroupBindings.InSyncExactly | pkg/controller/endpointgroupbinding/reconcile.go:145-159 | the early return is taken exactly when status and ARNs are the same set at this generation |
| EndpointGroupBindingWebhook.AdmittedUpdatesKeepArn | pkg/webhoook/endpointgroupbinding/validator.go:15-58 | however many updates are admitted, the endpoint group is the first one |
| EndpointGroupBindingWebhook.RefusedExactly | pkg/webhoook/endpointgroupbinding/validator.go:15-58 | allowed, with 200, if and only if the kind is EndpointGroupBinding and the request is no update, has no old object, or both objects decode to one ARN; 400 exactly for another kind, 403 exactly for an update between two ARNs, 500 exactly for one that does not decode |
| BindingLifecycle.EndpointsAreGuarded | pkg/controller/endpointgroupbinding/reconcile.go:27-64 | in every state of every run, with stale reads and conflicting writes, a binding with endpoints in its status has a finalizer |
| BindingLifecycle.GoneMeansReleased | pkg/controller/endpointgroupbinding/reconcile.go:36-67 | when a binding is gone, its last status was empty or some reconcile had found the endpoint group missing |
| BindingLifecycle.RejectedStatusLeaks | pkg/controller/endpointgroupbinding/reconcile.go:157-217 | by the code, undisturbed, for every group and set of usable load balancers: an update over a copy from before an edit has its status rejected, and a deletion then leaves the endpoints it added in the group when the binding is gone |
| BindingLifecycle.TrackKeptExactly | pkg/controller/endpointgroupbinding/reconcile.go:167-214 | a step keeps every endpoint that may be in the group in the status if and only if a written status was made from a copy that knows them and lists whatever was added or weighed, and an unwritten one would have listed nothing new; a weight update counts as putting its endpoint in, so this holds however the service merges |
| BindingLifecycle.AcceptedUpdateKeepsTrack | pkg/controller/endpointgroupbinding/reconcile.go:117-217 | an update of the code from a fresh copy, with an accepted status and hostnames of one region, is such a step |
| BindingLifecycle.NothingLeaks | pkg/controller/endpointgroupbinding/reconcile.go:36-217 | along a run of such steps a binding that is gone has left nothing in a group that was always there, however the service merges |
| BindingLifecycle.OneGroupForever | pkg/controller/endpointgroupbinding/controller.go:84-93 | all calls ever issued for a binding target the group it was created with, and no version has another group, so no update event is filtered out |
| BindingLifecycle.DisappearsSafely | pkg/controller/endpointgroupbinding/reconcile.go:37-67 | a step removes the object only with an empty status or a missing group |
| BindingLifecycle.RunsKeepGood | pkg/controller/endpointgroupbinding/reconcile.go:20-217 | the lifecycle invariant holds along every run |
| BindingLifecycle.DeletionStuck | pkg/controller/endpointgroupbinding/reconcile.go:70-85 | with two or more ids, or one without a region, and an existing group, no run ends a deletion |
| BindingLifecycle.DeletionCompletesExactly | pkg/controller/endpointgroupbinding/reconcile.go:36-97 | while the group exists, some run completes a deletion if and only if the status is empty or lists one text with three colons |
| BindingLifecycle.FinishDeletion | pkg/controller/endpointgroupbinding/reconcile.go:36-97 | two undisturbed passes of the code over fresh copies end the object, with its one endpoint removed, if and only if its status is empty or lists one text with three colons, as every ARN has |
| BindingLifecycle.SyncBinding | pkg/controller/endpointgroupbinding/controller.go:143-177 | one pass over any cached copy is one enabled step of the lifecycle, accepted exactly when it reports success and only if the copy is current |
| WorkQueues.NothingIsLost | pkg/reconcile/reconcile.go:26-91 | over every interleaving until shutdown, an item whose latest sync asked for another is queued, delayed or being processed |
| WorkQueues.EventsAreSeen | pkg/controller/endpointgroupbinding/controller.go:180-187 | from an event until its item is taken or the queue shut down, the item is queued, delayed, or marked while it is being processed |
| WorkQueues.SyncsAreSerial | pkg/reconcile/reconcile.go:27-33 | no item is synced by two workers at once |
| WorkQueues.ReturnsExactly | pkg/reconcile/reconcile.go:70-91 | without a new event an item comes back if and only if its result asks for it: a requeue or a delay, or in the shared handler a retriable error of a string key |
| WorkQueues.FailuresExactly | pkg/reconcile/reconcile.go:70-91 | a sync resets the failure count of its item on success and for a foreign item, raises it by one for a retriable error or a plain requeue, leaves it for any other error, and never touches that of another item |
| WorkQueues.ComesBackExactly | pkg/reconcile/reconcile.go:48-91 | which results those are, for both handlers |
| WorkQueues.RunsKeepInv | pkg/reconcile/reconcile.go:26-91 | the queue, worker and requeue invariants hold along every run |
| WorkQueues.Worker.HandleReconcile | pkg/reconcile/reconcile.go:44-91 | the result is that of processDelete exactly for a missing object, of processCreateOrUpdate for one that is found, and an error of the store otherwise; each branch performs exactly its disposition, amid other workers and timers, and a requeued item is waiting afterwards |
| WorkQueues.Worker.HandleSync | pkg/controller/endpointgroupbinding/controller.go:143-178 | the same for the EndpointGroupBinding controller, where a missing object needs nothing |
| WorkQueues.Worker.ProcessNextWorkItem | pkg/reconcile/reconcile.go:26-42 | ends idle, with the item taken, handled with the result its object calls for, and done; false only for an empty queue after shutdown |

## Left out

- Route53Controller.Route53Client.EnsureRoute53: takes the result of the accelerator lookup as a parameter, which EnsureForLoadBalancer supplies; DNS names of accelerators are a function of their ARNs.
- AcceleratorController.AcceleratorClient.Ensure: requires that annotation tags leave the ownership marks alone; CreatedIsFoundExactly shows what happens otherwise.
- HostedZones.GetHostedZone: zones do not change during a run, and ListHostedZonesByName is assumed to order an existing zone of that name first.
- EndpointGroupBindings.Reconciler.ReconcileUpdate: how UpdateEndpointGroup and AddEndpoints merge the endpoint list is not modelled; the theorems are about the calls, and those about leaks hold for every merge because a weight update counts as putting its endpoint in.
- AcceleratorController.AcceleratorClient.SyncGroup: the region and the client-IP-preservation flag of the endpoint group are not modelled; an update may replace the list of the group or add to it, whichever the service does.
- EndpointGroupBindings.Reconciler.UpdateWeights: the weight itself and the client-IP-preservation flag are not modelled.
- WorkQueues.Worker.ProcessNextWorkItem: Get does not block; an empty queue that is not shut down counts as a round without work, and rate limits have no durations.
- Services and ingresses differ only in the resource name, the listener function and one swallowed error; one model serves both, with the resource in the owner.
- Outsiders leave every accelerator with the managed tag, and what lies below it, alone, and the service refuses to delete a parent before its children.
- Outsiders never write a text that looks like an owner value, nor touch a name carrying one, nor remove finalizers; without this no ownership protocol by records could be safe.
- Route 53's lower-casing of names, its escapes other than the one for the star, and weighted or multi-value record sets: one set per name and type.
- Pagination, polling intervals and timeouts: listings are atomic and show everything; a poll that ends without success is a failed call.
- The regular expressions and JSON decoding are replaced by direct predicates on text and by decoded values.
- IP address types, events, logging, leader election, signal handling and informer caches other than the binding's.
- Panics end the call with a result of its own; what the process does afterwards is not modelled.
- Re-creation of a binding under the same name: the lifecycle is that of one object.
