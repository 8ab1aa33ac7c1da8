/**
 * Ensure, update and cleanup of the accelerator tree as pkg/cloudprovider/aws/global_accelerator.go does it for
 * one service or ingress, while other owners change the store between any two calls and any call may fail.
 */
module AcceleratorController {
  import opened Sequences
  import opened Strings
  import opened OwnerValues
  import opened ListenerPorts
  import opened CloudProviders
  import opened LoadBalancerNames
  import opened Accelerators
  import opened AcceleratorSafety

  /** What the annotations and ports of the service or ingress ask for. */
  datatype Desired = Desired(nameAnnotation: string, ports: seq<int>, protocol: Protocol, tags: seq<Tag>)

  /** What a Service asks for. */
  method DesiredForService(nameAnnotation: string, tagsAnnotation: string, specPorts: seq<ServicePort>)
    returns (d: Desired)
    ensures d.nameAnnotation == nameAnnotation && d.tags == ParseItems(Split(tagsAnnotation, ','))
    ensures |d.ports| == |specPorts| && forall k | 0 <= k < |specPorts| :: d.ports[k] == specPorts[k].port
    ensures d.protocol == UDP <==> exists i: nat :: UdpStands(specPorts, i)
  {
    hide UdpStands;
    var ports, protocol := ListenerForService(specPorts);
    var tags := AcceleratorTags(tagsAnnotation);
    d := Desired(nameAnnotation, ports, protocol, tags);
  }

  /** What an Ingress asks for: always TCP. */
  method DesiredForIngress(
      nameAnnotation: string, tagsAnnotation: string,
      listenPorts: Option<Option<seq<IngressPort>>>, defaultBackend: Option<int>, rules: seq<Option<seq<Option<int>>>>)
    returns (d: Desired)
    ensures d.protocol == TCP && d.nameAnnotation == nameAnnotation
    ensures d.tags == ParseItems(Split(tagsAnnotation, ','))
    ensures listenPorts.None? ==> d.ports == BackendItem(defaultBackend) + RulePorts(rules)
    ensures listenPorts.Some? ==>
              d.ports == if listenPorts.value.Some? then AnnotationPorts(listenPorts.value.value) else []
  {
    var ports, protocol := ListenerForIngress(listenPorts, defaultBackend, rules);
    var tags := AcceleratorTags(tagsAnnotation);
    d := Desired(nameAnnotation, ports, protocol, tags);
  }

  datatype Found = Found(arn: string, enabled: bool, name: string)

  datatype Lookup = NotFound | LookupError | Exists(arn: string)

  datatype EnsureResult = Failed | Retry | Done(arn: string, created: bool)

  /** acceleratorName */
  function AcceleratorName(o: OwnerId, annotation: string): string {
    if annotation != "" then annotation else o.resource + "-" + o.ns + "-" + o.name
  }

  /** Default names tell the objects of one kind apart as long as namespaces have no hyphen; a given name wins. */
  lemma DefaultNamesDiffer(o: OwnerId, p: OwnerId, annotation: string)
    ensures annotation != "" ==> AcceleratorName(o, annotation) == annotation
    ensures AcceleratorName(o, "") == o.resource + "-" + o.ns + "-" + o.name
    ensures o.resource == p.resource && '-' !in o.ns && '-' !in p.ns ==>
              (AcceleratorName(o, "") == AcceleratorName(p, "") <==> o.ns == p.ns && o.name == p.name)
  {
    if o.resource == p.resource && '-' !in o.ns && '-' !in p.ns && AcceleratorName(o, "") == AcceleratorName(p, "") {
      hide Split, Join;
      var k := |o.resource| + 1;
      assert AcceleratorName(o, "")[k..] == o.ns + ['-'] + o.name;
      assert AcceleratorName(p, "")[k..] == p.ns + ['-'] + p.name;
      SplitHead(o.ns, o.name, '-');
      SplitHead(p.ns, p.name, '-');
      JoinInvertsSplit(o.name, '-');
      JoinInvertsSplit(p.name, '-');
      DropFirst(o.ns, Split(o.name, '-'));
      DropFirst(p.ns, Split(p.name, '-'));
    }
  }

  /** A hyphen in a namespace can make two default names equal; the owner tags still differ. */
  lemma HyphensCollide()
    ensures var o, p := OwnerId("c", "service", "a-b", "x"), OwnerId("c", "service", "a", "b-x");
            && o != p && AcceleratorName(o, "") == AcceleratorName(p, "")
            && AcceleratorOwnerTagValue(o.resource, o.ns, o.name) != AcceleratorOwnerTagValue(p.resource, p.ns, p.name)
  {
    var o, p := OwnerId("c", "service", "a-b", "x"), OwnerId("c", "service", "a", "b-x");
    assert AcceleratorName(o, "") == "service-a-b-x" == AcceleratorName(p, "");
    assert AcceleratorOwnerTagValue(o.resource, o.ns, o.name)[9] == '-';
    assert AcceleratorOwnerTagValue(p.resource, p.ns, p.name)[9] == '/';
  }

  predicate Named(a: Accelerator, o: OwnerId, d: Desired) {
    a.enabled && a.name == AcceleratorName(o, d.nameAnnotation)
  }

  predicate AcceleratorOk(a: Accelerator, o: OwnerId, d: Desired, hostname: string) {
    Named(a, o, d) && Contains(a.tags, TargetTags(o, hostname, d.tags))
  }

  ghost predicate ListenerOk(l: Listener, d: Desired) {
    l.protocol == d.protocol && PortsUnchanged(l.ports, d.ports)
  }

  predicate GroupOk(g: Group, lb: string) {
    lb in g.endpoints
  }

  /** One accelerator, listener and endpoint group, and each is as it should be, whatever the tags say. */
  ghost predicate Served(t: Store, o: OwnerId, d: Desired, lb: LoadBalancer) {
    && Shape(t) && NoOrphans(t)
    && t.accelerators != map[]
    && (forall a | a in t.accelerators :: Named(t.accelerators[a], o, d))
    && ListenersOk(t, d)
    && GroupsOk(t, lb.arn)
  }

  predicate TagsOk(accelerators: map<string, Accelerator>, o: OwnerId, d: Desired, hostname: string) {
    forall a | a in accelerators :: Contains(accelerators[a].tags, TargetTags(o, hostname, d.tags))
  }

  ghost predicate Converged(t: Store, o: OwnerId, d: Desired, lb: LoadBalancer) {
    Served(t, o, d, lb) && TagsOk(t.accelerators, o, d, lb.dnsName)
  }

  /** Of the tags of the annotation, the last one with its key. */
  predicate Counts(tags: seq<Tag>, i: nat) {
    i < |tags| && forall j | i < j < |tags| :: tags[j].key != tags[i].key
  }

  /**
   * A converged tree is one accelerator, one listener and one endpoint group, one below the other: enabled, with
   * the name, with each tag of the annotation, with the protocol, and with the load balancer.
   */
  lemma ConvergedMeans(
      t: Store, o: OwnerId, d: Desired, lb: LoadBalancer, a: string, l: string, g: string, i: nat)
    requires Converged(t, o, d, lb) && a in t.accelerators && l in t.listeners && g in t.groups
    ensures t.accelerators.Keys == {a} && t.listeners.Keys == {l} && t.groups.Keys == {g}
    ensures t.accelerators[a].enabled && t.accelerators[a].name == AcceleratorName(o, d.nameAnnotation)
    ensures Counts(d.tags, i) ==>
              var tags, Tag(k, value) := t.accelerators[a].tags, d.tags[i];
              if k in tags then tags[k] == value else value == ""
    ensures t.listeners[l].parent == a && t.listeners[l].protocol == d.protocol
    ensures t.groups[g].parent == l && lb.arn in t.groups[g].endpoints
  {
    hide Merge, CreationTags, UpdateTags;
    if Counts(d.tags, i) {
      RetaggedExactly(map[], o, lb.dnsName, d.tags, d.tags[i].key, i);
    }
  }

  /** What createGlobalAcceleratorForIngress takes for success: an accelerator without a listener. */
  predicate LeftBare(t: Store, o: OwnerId) {
    o.resource == "ingress" && t.accelerators != map[] && t.listeners == map[]
  }

  ghost predicate Describes(t: Store, f: Found) {
    && f.arn in t.accelerators
    && t.accelerators[f.arn].enabled == f.enabled && t.accelerators[f.arn].name == f.name
  }

  ghost predicate Finds(t: Store, found: seq<Found>) {
    && (forall f | f in found :: Describes(t, f))
    && (forall a | a in t.accelerators :: exists f :: f in found && f.arn == a)
    && (forall i, j | 0 <= i < j < |found| :: found[i].arn != found[j].arn)
  }

  ghost predicate ListenersOk(t: Store, d: Desired) {
    t.listeners != map[] && forall l | l in t.listeners :: ListenerOk(t.listeners[l], d)
  }

  ghost predicate GroupsOk(t: Store, lb: string) {
    t.groups != map[] && forall g | g in t.groups :: GroupOk(t.groups[g], lb)
  }

  /** Each listener has been left alone, or has exactly the ports and the protocol that were asked for. */
  ghost predicate ListenersWritten(t: Store, t': Store, d: Desired) {
    forall l | l in t'.listeners ::
      || (l in t.listeners && t'.listeners[l] == t.listeners[l])
      || (t'.listeners[l].ports == d.ports && t'.listeners[l].protocol == d.protocol)
  }

  /** Each endpoint group has been left alone, or got the load balancer as its only or as one more endpoint. */
  ghost predicate GroupsWritten(t: Store, t': Store, lb: string) {
    forall g | g in t'.groups ::
      || t'.groups[g].endpoints == [lb]
      || (g in t.groups && t'.groups[g] == t.groups[g])
      || (g in t.groups && t'.groups[g].endpoints == t.groups[g].endpoints + [lb])
  }

  /** The accelerator as the code creates it. */
  function NewAccelerator(o: OwnerId, d: Desired, hostname: string): Accelerator {
    Accelerator(true, AcceleratorName(o, d.nameAnnotation), Merge(map[], CreationTags(o, hostname, d.tags)))
  }

  /** Each accelerator has been left alone, or renamed and enabled, with its tags as they were or set anew. */
  ghost predicate AcceleratorsWritten(t: Store, t': Store, o: OwnerId, d: Desired, hostname: string) {
    forall a | a in t'.accelerators ::
      && a in t.accelerators
      && (|| t'.accelerators[a] == t.accelerators[a]
          || (&& Named(t'.accelerators[a], o, d)
              && (|| t'.accelerators[a].tags == t.accelerators[a].tags
                  || t'.accelerators[a].tags == Merge(t.accelerators[a].tags, UpdateTags(o, hostname, d.tags)))))
  }

  ghost predicate Written(t: Store, t': Store, d: Desired, lb: string) {
    ListenersWritten(t, t', d) && GroupsWritten(t, t', lb)
  }

  /** Listeners and endpoint groups may have gone, and the others are as they were. */
  ghost predicate Shrinks(t: Store, t': Store) {
    && (forall l | l in t'.listeners :: l in t.listeners && t'.listeners[l] == t.listeners[l])
    && (forall g | g in t'.groups :: g in t.groups && t'.groups[g] == t.groups[g])
  }

  lemma NothingWritten(t: Store, d: Desired, lb: string)
    ensures Written(t, t, d, lb)
  {
  }

  lemma NothingShrinks(t: Store)
    ensures Shrinks(t, t)
  {
  }

  lemma NewlyWritten(t: Store, t': Store, d: Desired, lb: string)
    requires forall l | l in t'.listeners :: t'.listeners[l].ports == d.ports && t'.listeners[l].protocol == d.protocol
    requires forall g | g in t'.groups :: t'.groups[g].endpoints == [lb]
    ensures Written(t, t', d, lb)
  {
  }

  lemma WrittenThenShrunk(t: Store, t': Store, t'': Store, d: Desired, lb: string)
    requires Written(t, t', d, lb) && Shrinks(t', t'')
    ensures Written(t, t'', d, lb)
  {
  }

  lemma WrittenTwice(t: Store, t': Store, t'': Store, d: Desired)
    requires ListenersWritten(t, t', d) && ListenersWritten(t', t'', d)
    ensures ListenersWritten(t, t'', d)
  {
  }

  /** No listener lists a port twice. */
  ghost predicate PortsDistinct(t: Store) {
    forall l | l in t.listeners :: NoDuplicates(t.listeners[l].ports)
  }

  /** The listing as it bears on the owner's tree, however the store changes afterwards. */
  ghost predicate Faithful(t: Store, all: seq<Found>) {
    && (forall f | f in all && f.arn in t.accelerators :: Describes(t, f))
    && (forall a | a in t.accelerators :: exists f :: f in all && f.arn == a)
    && (forall i, j | 0 <= i < j < |all| :: all[i].arn != all[j].arn)
  }

  lemma ListedFaithfully(s: Store, o: Owner, all: seq<Found>)
    requires forall f | f in all :: Describes(s, f)
    requires forall a | a in s.accelerators :: Found(a, s.accelerators[a].enabled, s.accelerators[a].name) in all
    requires forall i, j | 0 <= i < j < |all| :: all[i].arn != all[j].arn
    ensures Faithful(Owned(s, o), all)
  {
    hide Owned, Managed;
    OwnedIsThere(s, o);
  }

  /** Of the first i listed accelerators, those of the tree. */
  ghost predicate Picks(t: Store, all: seq<Found>, i: nat, found: seq<Found>) {
    && i <= |all|
    && (forall f | f in found :: f in all[..i] && f.arn in t.accelerators)
    && (forall f | f in all[..i] && f.arn in t.accelerators :: f in found)
    && (forall j, k | 0 <= j < k < |found| :: found[j].arn != found[k].arn)
  }

  lemma NothingPicked(t: Store, all: seq<Found>)
    ensures Picks(t, all, 0, [])
  {
  }

  lemma PicksNext(t: Store, all: seq<Found>, i: nat, found: seq<Found>)
    requires Picks(t, all, i, found) && i < |all|
    requires forall i, j | 0 <= i < j < |all| :: all[i].arn != all[j].arn
    ensures Picks(t, all, i + 1, if all[i].arn in t.accelerators then found + [all[i]] else found)
  {
    assert all[..i + 1] == all[..i] + [all[i]];
  }

  lemma AllPicked(t: Store, all: seq<Found>, found: seq<Found>)
    requires Faithful(t, all) && Picks(t, all, |all|, found)
    ensures Finds(t, found)
  {
    assert all[..|all|] == all;
  }

  lemma UnchangedFromItself(ports: seq<int>)
    ensures PortsUnchanged(ports, ports)
  {
    SamePortsAreUnchanged(ports, ports);
  }

  lemma ConvergedParts(t: Store, o: Owner, d: Desired, lb: LoadBalancer)
    ensures Converged(t, o, d, lb) ==> ListenersOk(t, d) && GroupsOk(t, lb.arn)
    ensures Converged(t, o, d, lb) ==>
              forall a | a in t.accelerators :: AcceleratorOk(t.accelerators[a], o, d, lb.dnsName)
  {
  }

  lemma ServedFrom(t: Store, o: Owner, d: Desired, lb: LoadBalancer, a: string, l: string)
    requires Shape(t) && NoOrphans(t)
    requires a in t.accelerators && Named(t.accelerators[a], o, d)
    requires l in t.listeners && ListenerOk(t.listeners[l], d)
    requires exists g :: g in t.groups && GroupOk(t.groups[g], lb.arn)
    ensures Served(t, o, d, lb)
    ensures AcceleratorOk(t.accelerators[a], o, d, lb.dnsName) ==> Converged(t, o, d, lb)
  {
    hide Named, ListenerOk, GroupOk, NoOrphans, Contains, TargetTags;
  }

  /** Without accelerators there is nothing. */
  lemma EmptyTree(t: Store)
    requires NoOrphans(t) && t.accelerators == map[]
    ensures t == EMPTY
  {
    assert t.listeners == map[];
    assert t.groups == map[];
  }

  /** A lookup's report about what there is. */
  ghost predicate Reports(r: Lookup, there: set<string>) {
    (r.Exists? ==> r.arn in there) && (r.NotFound? ==> there == {})
  }

  predicate Suitable(found: Option<LoadBalancer>, hostname: string) {
    found.Some? && found.value.dnsName == hostname && found.value.active
  }

  lemma FoundOnce(t: Store, found: seq<Found>)
    requires Shape(t) && Finds(t, found)
    ensures |found| <= 1 && (found == [] <==> t.accelerators == map[])
    ensures found != [] ==> Describes(t, found[0])
  {
    if |found| > 1 {
      assert found[0] in found && found[1] in found;
      assert found[0].arn == found[1].arn;
    }
    if found != [] {
      assert found[0] in found;
    } else {
      assert t.accelerators.Keys == {};
    }
  }

  lemma ConvergedHasOne(t: Store, o: Owner, d: Desired, lb: LoadBalancer)
    ensures Converged(t, o, d, lb) ==> t.accelerators != map[]
  {
  }

  /** ListAccelerators: each accelerator once, in some order. */
  method ListAccelerators(s: Store) returns (all: seq<Found>)
    ensures forall f | f in all :: Describes(s, f)
    ensures forall a | a in s.accelerators :: Found(a, s.accelerators[a].enabled, s.accelerators[a].name) in all
    ensures forall i, j | 0 <= i < j < |all| :: all[i].arn != all[j].arn
  {
    var left := s.accelerators.Keys;
    all := [];
    while left != {}
      invariant left <= s.accelerators.Keys
      invariant forall f | f in all :: Describes(s, f) && f.arn !in left
      invariant forall a | a in s.accelerators && a !in left ::
                  Found(a, s.accelerators[a].enabled, s.accelerators[a].name) in all
      invariant forall i, j | 0 <= i < j < |all| :: all[i].arn != all[j].arn
      decreases left
    {
      var a :| a in left;
      left := left - {a};
      all := all + [Found(a, s.accelerators[a].enabled, s.accelerators[a].name)];
    }
  }

  /** What ListGlobalAcceleratorByHostname looks for on behalf of the Route 53 controller. */
  function HostnameLookupTags(cluster: string, hostname: string): Tags {
    map[MANAGED_KEY := "true", HOSTNAME_KEY := hostname, CLUSTER_KEY := cluster]
  }

  function MatchingIn(accelerators: map<string, Accelerator>, cluster: string, hostname: string): set<string> {
    set a | a in accelerators && Contains(accelerators[a].tags, HostnameLookupTags(cluster, hostname))
  }

  /** The accelerators that a truthful lookup by hostname finds. */
  function Matches(s: Store, cluster: string, hostname: string): set<string> {
    MatchingIn(s.accelerators, cluster, hostname)
  }

  /** The accelerator matches in the state after the first n actions. */
  ghost predicate MatchedAt(start: Store, trace: seq<Action>, n: nat, cluster: string, hostname: string, x: string) {
    n <= |trace| && x in Matches(Exec(start, trace[..n]), cluster, hostname)
  }

  /** The accelerator matches in some state of the run since its first from actions. */
  ghost predicate WasMatched(
      start: Store, trace: seq<Action>, from: nat, cluster: string, hostname: string, x: string) {
    exists n: nat :: from <= n && MatchedAt(start, trace, n, cluster, hostname, x)
  }

  lemma WasMatchedLater(
      start: Store, trace: seq<Action>, trace': seq<Action>, from: nat, cluster: string, hostname: string, x: string)
    requires WasMatched(start, trace, from, cluster, hostname, x) && trace <= trace'
    ensures forall m: nat | m <= from :: WasMatched(start, trace', m, cluster, hostname, x)
  {
    hide Matches, Exec;
    var n: nat :| from <= n && MatchedAt(start, trace, n, cluster, hostname, x);
    assert trace'[..n] == trace[..n];
    assert MatchedAt(start, trace', n, cluster, hostname, x);
  }

  /** Of the first i listed accelerators, as far as they lie in scope, exactly the good ones are found. */
  ghost predicate Chosen(all: seq<Found>, i: nat, found: seq<string>, scope: set<string>, good: set<string>) {
    && i <= |all|
    && NoDuplicates(found)
    && (forall x | x in found :: exists j :: 0 <= j < i && all[j].arn == x)
    && (forall j | 0 <= j < i && all[j].arn in scope :: all[j].arn in found <==> all[j].arn in good)
  }

  lemma NothingChosen(all: seq<Found>, scope: set<string>, good: set<string>)
    ensures Chosen(all, 0, [], scope, good)
  {
  }

  lemma ChosenNext(all: seq<Found>, i: nat, found: seq<string>, scope: set<string>, good: set<string>, pick: bool)
    requires Chosen(all, i, found, scope, good) && i < |all|
    requires forall i, j | 0 <= i < j < |all| :: all[i].arn != all[j].arn
    requires all[i].arn in scope ==> (pick <==> all[i].arn in good)
    ensures Chosen(all, i + 1, if pick then found + [all[i].arn] else found, scope, good)
  {
    var found' := if pick then found + [all[i].arn] else found;
    assert all[i].arn !in found;
    forall x | x in found'
      ensures exists j :: 0 <= j < i + 1 && all[j].arn == x
    {
      if x in found {
        var j :| 0 <= j < i && all[j].arn == x;
      } else {
        assert all[i].arn == x;
      }
    }
  }

  lemma AllChosen(all: seq<Found>, found: seq<string>, scope: set<string>, good: set<string>)
    requires Chosen(all, |all|, found, scope, good)
    requires forall a | a in scope :: exists f :: f in all && f.arn == a
    ensures NoDuplicates(found)
    ensures forall a | a in scope :: a in found <==> a in good
  {
    forall a | a in scope
      ensures a in found <==> a in good
    {
      var f :| f in all && f.arn == a;
      var j :| 0 <= j < |all| && all[j] == f;
    }
  }

  lemma EverythingChosen(s: Store, all: seq<Found>, found: seq<string>, good: set<string>)
    requires Chosen(all, |all|, found, s.accelerators.Keys, good) && good <= s.accelerators.Keys
    requires forall f | f in all :: f.arn in s.accelerators
    requires forall a | a in s.accelerators :: exists f :: f in all && f.arn == a
    ensures Elements(found) == good
  {
    AllChosen(all, found, s.accelerators.Keys, good);
    forall x | x in found
      ensures x in s.accelerators
    {
      var j :| 0 <= j < |all| && all[j].arn == x;
      assert all[j] in all;
    }
  }

  /** Without a write the tree stays as it is. */
  ghost predicate Quietly(writes: nat, t: Store, writes': nat, t': Store) {
    writes <= writes' && (writes == writes' ==> t == t')
  }

  /** A count of mishaps never falls, and stays when nothing can go wrong. */
  ghost predicate Loses(quiet: bool, before: nat, after: nat) {
    before <= after && (quiet ==> before == after)
  }

  class AcceleratorClient {
    const o: Owner
    const quiet: bool               // nobody interferes and every call reaches the service
    ghost const start: Store
    ghost var trace: seq<Action>    // every action since start, whoever took it
    var store: Store
    var writes: nat                 // calls issued that would change something
    ghost var refusals: nat         // writes that the service refused
    ghost var lost: nat             // calls, of either kind, that failed on the way
    ghost var unread: nat           // lost lookups of a listener or an endpoint group
    ghost var unlisted: nat         // listings of the owner's accelerators that failed
    ghost var vanished: nat         // accelerators that were gone when their tags were to be read

    ghost predicate Valid()
      reads this`trace, this`store
    {
      Sound(start) && Legal(start, trace) && store == Exec(start, trace) && Sound(store)
    }

    ghost function Tree(): Store
      reads this`store
    {
      Owned(store, o)
    }

    constructor (o: Owner, store: Store, quiet: bool)
      requires Sound(store)
      ensures Valid() && this.o == o && this.quiet == quiet && this.store == store && start == store && writes == 0
    {
      this.o, this.quiet := o, quiet;
      this.store, start, trace := store, store, [];
      writes, refusals, lost, unread, unlisted, vanished := 0, 0, 0, 0, 0, 0;
    }

    lemma TreeFacts()
      requires Valid()
      ensures Shape(Tree()) && NoOrphans(Tree())
    {
      hide Owned, Legal, Exec;
      OwnedIsThere(store, o);
    }

    method Take(a: Action)
      requires Valid() && Enabled(store, a)
      modifies this`store, this`trace
      ensures Valid() && store == Apply(old(store), a) && old(trace) <= trace
    {
      hide Sound, Enabled, Apply;
      ExecAppend(start, trace, a);
      StepKeepsSound(store, a);
      store, trace := Apply(store, a), trace + [a];
    }

    /** Any number of actions of others. */
    method Interfere()
      requires Valid()
      modifies this`store, this`trace
      ensures Valid() && Tree() == old(Tree()) && old(trace) <= trace
      ensures quiet ==> store == old(store)
    {
      hide Enabled, Apply, Owned, By;
      var n: nat := *;
      while !quiet && 0 < n
        invariant Valid() && Tree() == old(Tree()) && old(trace) <= trace
        invariant quiet ==> store == old(store)
        decreases n
      {
        var a: Action := *;
        if Enabled(store, a) && !By(a, o) {
          StepIsolates(store, a, o);
          Take(a);
        }
        n := n - 1;
      }
    }

    /** A call reaches the service, or is lost on the way. */
    method Reach() returns (ok: bool)
      requires Valid()
      modifies this`store, this`trace, this`lost
      ensures Valid() && Tree() == old(Tree()) && old(trace) <= trace
      ensures lost == old(lost) + if ok then 0 else 1
      ensures quiet ==> ok && store == old(store)
    {
      Interfere();
      ok := true;
      if !quiet {
        ok := *;
      }
      lost := lost + if ok then 0 else 1;
    }

    /** A write that is proper for the tree takes effect, is refused, or gets lost. New ARNs come from the service. */
    method Write(asked: Call) returns (ok: bool, c: Call)
      requires Valid() && ProperIn(Tree(), o, asked)
      modifies this`store, this`trace, this`writes, this`refusals, this`lost
      ensures Valid() && writes == old(writes) + 1
      ensures c == if Creates(asked) then WithArn(asked, c.arn) else asked
      ensures refusals == old(refusals) + if Answer(old(Tree()), asked).None? then 1 else 0
      ensures ok ==> Answer(old(Tree()), c) == Some(Tree())
      ensures !ok ==> Tree() == old(Tree())
      ensures lost == old(lost) ==> (ok <==> Answer(old(Tree()), asked).Some?)
      ensures lost != old(lost) ==> !ok && lost == old(lost) + 1
      ensures quiet ==> lost == old(lost)
    {
      hide Sound, Owned, Answer, Fresh, ProperIn, Legal, Exec;
      ok := Reach();
      writes := writes + 1;
      refusals := refusals + if Answer(Tree(), asked).None? then 1 else 0;
      var arn := FreshArn(store);
      c := if Creates(asked) then WithArn(asked, arn) else asked;
      WithArnSame(Tree(), o, asked, arn);
      CallCommutes(store, o, c);
      if ok {
        ok := Answer(store, c).Some?;
        if ok {
          Take(Issue(o, c));
        }
      }
    }

    /** Reads the tags of a listed accelerator and compares them; an error when it is gone by now. */
    method CheckTags(f: Found, target: Tags) returns (ok: bool, all: bool)
      requires Valid()
      modifies this`store, this`trace, this`lost, this`vanished
      ensures Valid() && Tree() == old(Tree()) && old(trace) <= trace
      ensures ok ==> f.arn in store.accelerators && (all <==> Contains(store.accelerators[f.arn].tags, target))
      ensures ok <==> lost == old(lost) && vanished == old(vanished)
      ensures vanished != old(vanished) ==> f.arn !in store.accelerators
      ensures old(lost) <= lost && old(vanished) <= vanished
      ensures quiet ==> store == old(store) && (f.arn in store.accelerators ==> ok)
    {
      hide Sound, Owned, Legal, Exec, Contains;
      all := false;
      ok := Reach();
      if !ok { return; }
      if f.arn !in store.accelerators {
        vanished := vanished + 1;
        return false, all;
      }
      var tags := ListTags(store.accelerators[f.arn].tags);
      all := TagsContainsAllValues(tags, target);
    }

    /** ListGlobalAcceleratorByResource: accelerators are listed first, the tags of each one later. */
    method ListByResource() returns (ok: bool, found: seq<Found>)
      requires Valid()
      modifies this`store, this`trace, this`lost, this`unlisted, this`vanished
      ensures Valid() && Tree() == old(Tree())
      ensures ok ==> Finds(Tree(), found)
      ensures ok <==> lost == old(lost) && vanished == old(vanished)
      ensures old(lost) <= lost && old(vanished) <= vanished
      ensures unlisted == old(unlisted) + if ok then 0 else 1
      ensures quiet ==> ok
    {
      hide Valid, Owned, Finds, Contains, LookupTags, Picks, Faithful;
      found := [];
      ok := Reach();
      if !ok {
        unlisted := unlisted + 1;
        return;
      }
      var all := ListAccelerators(store);
      ListedFaithfully(store, o, all);
      NothingPicked(Tree(), all);
      ghost var listed := store;
      for i := 0 to |all|
        invariant ok && Valid() && Tree() == old(Tree()) && (quiet ==> store == listed)
        invariant lost == old(lost) && vanished == old(vanished) && unlisted == old(unlisted)
        invariant Picks(Tree(), all, i, found)
      {
        var mine;
        ok, mine := CheckTags(all[i], LookupTags(o));
        if !ok {
          assert all[i] in all;
          unlisted := unlisted + 1;
          return false, [];
        }
        OwnedIsThere(store, o);
        PicksNext(Tree(), all, i, found);
        if mine {
          found := found + [all[i]];
        }
      }
      AllPicked(Tree(), all, found);
    }

    lemma MatchedNow(from: nat, hostname: string, x: string)
      requires Valid() && from <= |trace|
      requires x in store.accelerators && Contains(store.accelerators[x].tags, HostnameLookupTags(o.cluster, hostname))
      ensures WasMatched(start, trace, from, o.cluster, hostname, x)
    {
      hide Legal, Exec, Contains, HostnameLookupTags, Sound;
      assert trace[..|trace|] == trace;
      assert MatchedAt(start, trace, |trace|, o.cluster, hostname, x);
    }

    /** ListGlobalAcceleratorByHostname, which the Route 53 controller calls. */
    method ListByHostname(hostname: string) returns (ok: bool, found: seq<string>)
      requires Valid()
      modifies this`store, this`trace, this`lost, this`vanished
      ensures Valid() && Tree() == old(Tree()) && old(trace) <= trace
      ensures ok ==> NoDuplicates(found)
      ensures ok ==> forall a | a in Tree().accelerators ::
                a in found <==> Contains(Tree().accelerators[a].tags, HostnameLookupTags(o.cluster, hostname))
      ensures ok ==> forall x | x in found :: WasMatched(start, trace, |old(trace)|, o.cluster, hostname, x)
      ensures ok <==> lost == old(lost) && vanished == old(vanished)
      ensures quiet ==> ok && store == old(store) && Elements(found) == Matches(store, o.cluster, hostname)
    {
      hide Valid, Owned, Contains, HostnameLookupTags, Chosen, WasMatched;
      found := [];
      ok := Reach();
      if !ok { return; }
      var all := ListAccelerators(store);
      ListedFaithfully(store, o, all);
      ghost var tree := MatchingIn(Tree().accelerators, o.cluster, hostname);
      ghost var keys := Tree().accelerators.Keys;
      ghost var listed := store;
      NothingChosen(all, keys, tree);
      NothingChosen(all, listed.accelerators.Keys, Matches(listed, o.cluster, hostname));
      for i := 0 to |all|
        invariant ok && Valid() && Tree() == old(Tree()) && (quiet ==> store == listed == old(store))
        invariant old(trace) <= trace
        invariant forall x | x in found :: WasMatched(start, trace, |old(trace)|, o.cluster, hostname, x)
        invariant lost == old(lost) && vanished == old(vanished)
        invariant Chosen(all, i, found, keys, tree)
        invariant quiet ==> Chosen(all, i, found, listed.accelerators.Keys, Matches(listed, o.cluster, hostname))
      {
        var mine;
        ghost var before := trace;
        assert all[i] in all;
        ok, mine := CheckTags(all[i], HostnameLookupTags(o.cluster, hostname));
        if !ok { return false, []; }
        OwnedIsThere(store, o);
        ChosenNext(all, i, found, keys, tree, mine);
        if quiet {
          ChosenNext(all, i, found, listed.accelerators.Keys, Matches(listed, o.cluster, hostname), mine);
        }
        forall x | x in found
          ensures WasMatched(start, trace, |old(trace)|, o.cluster, hostname, x)
        {
          WasMatchedLater(start, before, trace, |old(trace)|, o.cluster, hostname, x);
        }
        if mine {
          MatchedNow(|old(trace)|, hostname, all[i].arn);
          found := found + [all[i].arn];
        }
      }
      AllChosen(all, found, keys, tree);
      if quiet {
        EverythingChosen(listed, all, found, Matches(listed, o.cluster, hostname));
      }
    }

    /** acceleratorChanged; when the tags cannot be read the accelerator counts as unchanged. */
    method AcceleratorChanged(f: Found, d: Desired, hostname: string) returns (changed: bool)
      requires Valid() && Describes(Tree(), f)
      modifies this`store, this`trace, this`lost
      ensures Valid() && Tree() == old(Tree())
      ensures changed <==> if lost == old(lost) then !AcceleratorOk(Tree().accelerators[f.arn], o, d, hostname)
                           else !Named(Tree().accelerators[f.arn], o, d)
      ensures lost != old(lost) ==> !changed && lost == old(lost) + 1
      ensures quiet ==> lost == old(lost)
    {
      hide Sound, Owned, Legal, Exec, Contains;
      if !f.enabled {
        return true;
      }
      if f.name != AcceleratorName(o, d.nameAnnotation) {
        return true;
      }
      var ok := Reach();
      OwnedIsThere(store, o);
      if !ok {
        return false;
      }
      var tags := ListTags(store.accelerators[f.arn].tags);
      var all := TagsContainsAllValues(tags, TargetTags(o, hostname, d.tags));
      return !all;
    }

    /** The first part of updateGlobalAccelerator: name, enabled state and tags. */
    method SyncAccelerator(f: Found, d: Desired, hostname: string) returns (ok: bool)
      requires Valid() && Describes(Tree(), f) && KeepsMarks(o, d.tags)
      modifies this`store, this`trace, this`writes, this`refusals, this`lost
      ensures Valid() && f.arn in Tree().accelerators
      ensures Quietly(old(writes), old(Tree()), writes, Tree())
      ensures Tree().listeners == old(Tree()).listeners && Tree().groups == old(Tree()).groups
      ensures writes == old(writes) ==> ok
      ensures ok ==> Named(Tree().accelerators[f.arn], o, d)
      ensures AcceleratorsWritten(old(Tree()), Tree(), o, d, hostname)
      ensures ok && lost == old(lost) ==> AcceleratorOk(Tree().accelerators[f.arn], o, d, hostname)
      ensures ok && lost != old(lost) ==> Tree() == old(Tree()) && writes == old(writes) && lost == old(lost) + 1
      ensures AcceleratorOk(old(Tree()).accelerators[f.arn], o, d, hostname) ==>
                ok && writes == old(writes) && Tree() == old(Tree())
      ensures Loses(quiet, old(lost), lost) && (lost == old(lost) ==> ok)
    {
      hide Sound, Owned, Legal, Exec, Contains, Merge, Managed, UpdateTags, TargetTags;
      ok := true;
      var changed := AcceleratorChanged(f, d, hostname);
      if changed {
        var tags := UpdateTags(o, hostname, d.tags);
        var c;
        OwnedIsThere(store, o);
        ok, c := Write(UpdateAccelerator(f.arn, true, Some(AcceleratorName(o, d.nameAnnotation))));
        if !ok { return; }
        OwnedIsThere(store, o);
        ghost var before := Tree().accelerators[f.arn];
        RetaggedIsFound(before, o, hostname, d.tags);
        RetaggedMatches(before.tags, o, hostname, d.tags);
        ok, c := Write(TagAccelerator(f.arn, tags));
      }
    }

    /** GetListener */
    method GetListener(a: string) returns (r: Lookup)
      requires Valid() && a in Tree().accelerators
      modifies this`store, this`trace, this`lost, this`unread
      ensures Valid() && Tree() == old(Tree())
      ensures r.NotFound? ==> Tree().listeners == map[]
      ensures r.Exists? ==> r.arn in Tree().listeners
      ensures lost == old(lost) + if r.LookupError? then 1 else 0
      ensures unread == old(unread) + if r.LookupError? then 1 else 0
      ensures quiet ==> lost == old(lost)
    {
      hide Sound, Owned, Legal, Exec;
      var ok := Reach();
      TreeFacts();
      OwnedIsThere(store, o);
      if !ok {
        unread := unread + 1;
        return LookupError;
      }
      var listeners := set l | l in store.listeners && store.listeners[l].parent == a;
      assert forall l | l in Tree().listeners :: l in listeners;
      if listeners == {} {
        return NotFound;
      }
      var l :| l in listeners;
      r := if listeners == {l} then Exists(l) else LookupError;
    }

    /** GetEndpointGroup */
    method GetEndpointGroup(l: string) returns (r: Lookup)
      requires Valid() && l in Tree().listeners
      modifies this`store, this`trace, this`lost, this`unread
      ensures Valid() && Tree() == old(Tree())
      ensures r.NotFound? ==> Tree().groups == map[]
      ensures r.Exists? ==> r.arn in Tree().groups
      ensures lost == old(lost) + if r.LookupError? then 1 else 0
      ensures unread == old(unread) + if r.LookupError? then 1 else 0
      ensures quiet ==> lost == old(lost)
    {
      hide Sound, Owned, Legal, Exec;
      var ok := Reach();
      TreeFacts();
      OwnedIsThere(store, o);
      if !ok {
        unread := unread + 1;
        return LookupError;
      }
      var groups := set g | g in store.groups && store.groups[g].parent == l;
      assert forall g | g in Tree().groups :: g in groups;
      if groups == {} {
        return NotFound;
      }
      var g :| g in groups;
      r := if groups == {g} then Exists(g) else LookupError;
    }

    /** The listener part of updateGlobalAccelerator. */
    method SyncListener(a: string, d: Desired) returns (ok: bool, l: string)
      requires Valid() && a in Tree().accelerators
      modifies this`store, this`trace, this`writes, this`refusals, this`lost, this`unread
      ensures Valid() && Tree().accelerators == old(Tree()).accelerators && Tree().groups == old(Tree()).groups
      ensures Quietly(old(writes), old(Tree()), writes, Tree())
      ensures ok ==> l in Tree().listeners && ListenerOk(Tree().listeners[l], d)
      ensures ListenersWritten(old(Tree()), Tree(), d)
      ensures ListenersOk(old(Tree()), d) ==> writes == old(writes) && Tree() == old(Tree())
      ensures Loses(quiet, old(lost), lost) && (ok <==> lost == old(lost))
    {
      hide Sound, Owned, Legal, Exec, PortsUnchanged, Managed;
      var r := GetListener(a);
      l := "";
      if r.LookupError? {
        return false, l;
      }
      var c;
      if r.NotFound? {
        ok, c := Write(CreateListener("", a, d.ports, d.protocol));
        if !ok { return; }
        l := c.arn;
      } else {
        l := r.arn;
      }
      OwnedIsThere(store, o);
      var listener := store.listeners[l];
      var portsChanged := ListenerPortChanged(listener.ports, d.ports);
      UnchangedFromItself(d.ports);
      ok := true;
      if listener.protocol != d.protocol || portsChanged {
        ok, c := Write(UpdateListener(l, d.ports, d.protocol));
      }
    }

    /** The endpoint group part of updateGlobalAccelerator. */
    method SyncGroup(l: string, lb: string) returns (ok: bool)
      requires Valid() && l in Tree().listeners
      modifies this`store, this`trace, this`writes, this`refusals, this`lost, this`unread
      ensures Valid() && Tree().accelerators == old(Tree()).accelerators && Tree().listeners == old(Tree()).listeners
      ensures Quietly(old(writes), old(Tree()), writes, Tree())
      ensures ok ==> exists g :: g in Tree().groups && GroupOk(Tree().groups[g], lb)
      ensures GroupsWritten(old(Tree()), Tree(), lb)
      ensures GroupsOk(old(Tree()), lb) ==> writes == old(writes) && Tree() == old(Tree())
      ensures Loses(quiet, old(lost), lost) && (ok <==> lost == old(lost))
    {
      hide Sound, Owned, Legal, Exec, Managed;
      var r := GetEndpointGroup(l);
      if r.LookupError? {
        return false;
      }
      var c, g;
      if r.NotFound? {
        ok, c := Write(CreateGroup("", l, [lb]));
        if !ok { return; }
        g := c.arn;
      } else {
        g := r.arn;
      }
      OwnedIsThere(store, o);
      ok := true;
      assert g in Tree().groups;
      if lb !in store.groups[g].endpoints {
        var merges: bool := *;    // whether the service replaces the list or adds to it
        var endpoints := if merges then store.groups[g].endpoints + [lb] else [lb];
        ok, c := Write(UpdateGroup(g, endpoints));
        assert ok ==> g in Tree().groups && lb in Tree().groups[g].endpoints;
      }
    }

    /**
     * updateGlobalAcceleratorForService and updateGlobalAcceleratorForIngress. The only lost call that they
     * survive is the reading of the tags, which then stay as they are.
     */
    method Update(f: Found, d: Desired, lb: LoadBalancer) returns (ok: bool)
      requires Valid() && Describes(Tree(), f) && KeepsMarks(o, d.tags)
      modifies this`store, this`trace, this`writes, this`refusals, this`lost, this`unread
      ensures Valid()
      ensures Quietly(old(writes), old(Tree()), writes, Tree())
      ensures f.arn in Tree().accelerators
      ensures ok ==> Served(Tree(), o, d, lb)
      ensures ok && lost == old(lost) ==> Converged(Tree(), o, d, lb)
      ensures ok && lost != old(lost) ==>
                Tree().accelerators == old(Tree()).accelerators && lost == old(lost) + 1
      ensures Converged(old(Tree()), o, d, lb) ==> writes == old(writes) && Tree() == old(Tree())
      ensures AcceleratorsWritten(old(Tree()), Tree(), o, d, lb.dnsName) && Written(old(Tree()), Tree(), d, lb.arn)
      ensures Loses(quiet, old(lost), lost) && (lost == old(lost) ==> ok)
    {
      hide Valid, Owned, Shape, NoOrphans, KeepsMarks;
      hide Converged, Served, AcceleratorOk, Named, ListenerOk, GroupOk, ListenersOk, GroupsOk;
      ConvergedParts(Tree(), o, d, lb);
      ok := SyncAccelerator(f, d, lb.dnsName);
      if !ok { return; }
      var l;
      ok, l := SyncListener(f.arn, d);
      if !ok { return; }
      ok := SyncGroup(l, lb.arn);
      TreeFacts();
      if ok {
        ServedFrom(Tree(), o, d, lb, f.arn, l);
      }
    }

    /**
     * createGlobalAcceleratorForService and createGlobalAcceleratorForIngress. The latter reports success when
     * the call that creates the listener is lost.
     */
    method Create(d: Desired, lb: LoadBalancer) returns (createdArn: Option<string>, ok: bool)
      requires Valid() && Tree().accelerators == map[] && KeepsMarks(o, d.tags)
      modifies this`store, this`trace, this`writes, this`refusals, this`lost
      ensures Valid()
      ensures Quietly(old(writes), old(Tree()), writes, Tree())
      ensures createdArn.Some? ==> createdArn.value in Tree().accelerators
      ensures ok ==> createdArn.Some? && AcceleratorOk(Tree().accelerators[createdArn.value], o, d, lb.dnsName)
      ensures ok ==> if lost == old(lost) then Converged(Tree(), o, d, lb) else LeftBare(Tree(), o)
      ensures forall a | a in Tree().accelerators :: Tree().accelerators[a] == NewAccelerator(o, d, lb.dnsName)
      ensures forall l | l in Tree().listeners ::
                Tree().listeners[l].ports == d.ports && Tree().listeners[l].protocol == d.protocol
      ensures forall g | g in Tree().groups :: Tree().groups[g].endpoints == [lb.arn]
      ensures createdArn.None? ==> writes == old(writes) + 1
      ensures createdArn.Some? ==> writes == old(writes) + if Tree().listeners == map[] then 2 else 3
      ensures o.resource == "ingress" && createdArn.Some? && Tree().listeners == map[] ==> ok && lost == old(lost) + 1
      ensures o.resource != "ingress" && Tree().listeners == map[] ==> !ok
      ensures Loses(quiet, old(lost), lost) && (lost == old(lost) ==> ok)
    {
      hide Sound, Owned, Legal, Exec, Shape, NoOrphans, Converged, Served;
      hide Contains, Managed, Merge, CreationTags, TargetTags, KeepsMarks;
      createdArn, ok := None, false;
      TreeFacts();
      EmptyTree(Tree());
      var name := AcceleratorName(o, d.nameAnnotation);
      var c;
      var tags := CreationTags(o, lb.dnsName, d.tags);
      CreatedIsFoundExactly(o, name, lb.dnsName, d.tags);
      CreatedMatches(o, lb.dnsName, d.tags);
      ok, c := Write(CreateAccelerator("", name, tags));
      if !ok { return; }
      createdArn := Some(c.arn);
      assert AcceleratorOk(Tree().accelerators[c.arn], o, d, lb.dnsName);
      ok, c := Write(CreateListener("", createdArn.value, d.ports, d.protocol));
      if !ok {
        ok := o.resource == "ingress";
        return;
      }
      var l := c.arn;
      UnchangedFromItself(d.ports);
      ok, c := Write(CreateGroup("", l, [lb.arn]));
      if ok {
        assert c.arn in Tree().groups && GroupOk(Tree().groups[c.arn], lb.arn);
        TreeFacts();
        ServedFrom(Tree(), o, d, lb, createdArn.value, l);
      }
    }

    /** The deletions of CleanupGlobalAccelerator below the accelerator: the endpoint group first. */
    method DeleteChildren(listener: Lookup, group: Lookup) returns (ok: bool)
      requires Valid()
      requires Reports(listener, Tree().listeners.Keys) && Reports(group, Tree().groups.Keys)
      modifies this`store, this`trace, this`writes, this`refusals, this`lost
      ensures Valid() && Tree().accelerators == old(Tree()).accelerators && Shrinks(old(Tree()), Tree())
      ensures Quietly(old(writes), old(Tree()), writes, Tree())
      ensures !listener.LookupError? && !group.LookupError? ==>
                && refusals == old(refusals) && (ok ==> Tree().listeners == map[]) && (lost == old(lost) ==> ok)
      ensures !ok ==> writes > old(writes)
      ensures Loses(quiet, old(lost), lost)
    {
      hide Sound, Owned, Legal, Exec, NoOrphans;
      ok := true;
      var c;
      TreeFacts();
      if group.Exists? {
        ok, c := Write(DeleteGroup(group.arn));
        if !ok { return; }
      }
      assert !group.LookupError? ==> Tree().groups == map[];
      if listener.Exists? {
        ok, c := Write(DeleteListener(listener.arn));
      }
    }

    /** deleteAccelerator: disable, wait until deployed, delete. */
    method DeleteDisabled(arn: string) returns (ok: bool)
      requires Valid() && arn in Tree().accelerators
      modifies this`store, this`trace, this`writes, this`refusals, this`lost
      ensures Valid() && writes > old(writes) && Shrinks(old(Tree()), Tree())
      ensures ok ==> Tree() == EMPTY
      ensures old(Tree()).listeners == map[] ==> refusals == old(refusals) && (lost == old(lost) ==> ok)
      ensures Loses(quiet, old(lost), lost)
    {
      hide Sound, Owned, Legal, Exec, NoOrphans;
      var c;
      ok, c := Write(UpdateAccelerator(arn, false, None));
      if !ok { return; }
      ok := Reach();
      if !ok { return; }
      TreeFacts();
      ok, c := Write(DeleteAccelerator(arn));
      if ok {
        TreeFacts();
        EmptyTree(Tree());
      }
    }

    /**
     * CleanupGlobalAccelerator with listRelatedGlobalAccelerator, which takes every lookup error for absence.
     * When the first lookup is lost it reports success without a write.
     */
    method Cleanup(arn: string) returns (ok: bool)
      requires Valid() && arn in Tree().accelerators
      modifies this`store, this`trace, this`writes, this`refusals, this`lost, this`unread
      ensures Valid() && Shrinks(old(Tree()), Tree())
      ensures Quietly(old(writes), old(Tree()), writes, Tree())
      ensures ok ==> if writes == old(writes) then Tree() == old(Tree()) && lost == old(lost) + 1 else Tree() == EMPTY
      ensures writes == old(writes) ==> ok && Tree() == old(Tree()) && lost == old(lost) + 1
      ensures lost == old(lost) ==> ok
      ensures unread == old(unread) ==> refusals == old(refusals)
      ensures unread - old(unread) <= lost - old(lost)
      ensures Loses(quiet, old(lost), lost)
    {
      hide Sound, Owned, Legal, Exec, Managed, Shape;
      ok := Reach();
      OwnedIsThere(store, o);
      if !ok || arn !in store.accelerators {
        return true;
      }
      var listener := GetListener(arn);
      var group := LookupError;
      if listener.NotFound? {
        TreeFacts();
        group := NotFound;
      } else if listener.Exists? {
        group := GetEndpointGroup(listener.arn);
      }
      ok := DeleteChildren(listener, group);
      if !ok { return; }
      ok := DeleteDisabled(arn);
    }

    /** EnsureGlobalAcceleratorForService and EnsureGlobalAcceleratorForIngress; found is what GetLoadBalancer finds. */
    method Ensure(found: Option<LoadBalancer>, hostname: string, d: Desired) returns (r: EnsureResult)
      requires Valid() && KeepsMarks(o, d.tags)
      modifies this`store, this`trace, this`writes, this`refusals, this`lost, this`unread, this`unlisted, this`vanished
      ensures Valid()
      ensures Quietly(old(writes), old(Tree()), writes, Tree())
      ensures r.Done? ==> Suitable(found, hostname) && r.arn in Tree().accelerators
      ensures r.Done? ==> (r.created <==> old(Tree()).accelerators == map[])
      ensures r.Retry? ==> found.Some? && found.value.dnsName == hostname && !found.value.active
      ensures r.Done? && lost == old(lost) ==> Converged(Tree(), o, d, found.value)
      ensures r.Done? && lost != old(lost) ==>
                if r.created then LeftBare(Tree(), o)
                else Served(Tree(), o, d, found.value) && Tree().accelerators == old(Tree()).accelerators
      ensures o.resource == "ingress" && old(Tree()).accelerators == map[] && writes == old(writes) + 2 ==>
                r.Done? && r.created && LeftBare(Tree(), o) && lost == old(lost) + 1
      ensures found.Some? && Converged(old(Tree()), o, d, found.value) ==>
                writes == old(writes) && Tree() == old(Tree())
      ensures ListenersWritten(old(Tree()), Tree(), d)
      ensures found.Some? ==> GroupsWritten(old(Tree()), Tree(), found.value.arn)
      ensures r.Done? && r.created ==>
                forall a | a in Tree().accelerators :: Tree().accelerators[a] == NewAccelerator(o, d, hostname)
      ensures r.Done? && !r.created ==> AcceleratorsWritten(old(Tree()), Tree(), o, d, hostname)
      ensures !Suitable(found, hostname) ==> writes == old(writes) && Tree() == old(Tree()) && !r.Done?
      ensures lost == old(lost) && vanished == old(vanished) && found.Some? && found.value.dnsName == hostname ==>
                if found.value.active then r.Done? else r.Retry?
      ensures Loses(quiet, old(lost), lost) && Loses(quiet, old(vanished), vanished)
    {
      hide Valid, Owned, Converged, Served, AcceleratorOk, LeftBare, KeepsMarks, Describes;
      hide ListenersWritten, GroupsWritten, AcceleratorsWritten, Shrinks, NewAccelerator;
      TreeFacts();
      NothingWritten(Tree(), d, if found.Some? then found.value.arn else "");
      var ok := Reach();
      if !ok || found.None? || found.value.dnsName != hostname {
        return Failed;
      }
      var lb := found.value;
      if !lb.active {
        return Retry;
      }
      var accelerators;
      ok, accelerators := ListByResource();
      if !ok {
        return Failed;
      }
      TreeFacts();
      FoundOnce(Tree(), accelerators);
      if accelerators == [] {
        ConvergedHasOne(Tree(), o, d, lb);
        var createdArn;
        ghost var before := Tree();
        createdArn, ok := Create(d, lb);
        NewlyWritten(before, Tree(), d, lb.arn);
        ghost var created := Tree();
        NothingShrinks(created);
        if !ok {
          if createdArn.Some? {
            ok := Cleanup(createdArn.value);   // its own error is dropped
          }
          WrittenThenShrunk(before, created, Tree(), d, lb.arn);
          return Failed;
        }
        return Done(createdArn.value, true);
      }
      for i := 0 to |accelerators|
        invariant Valid() && i <= 1 && Loses(quiet, old(lost), lost) && vanished == old(vanished)
        invariant i == 0 ==> Tree() == old(Tree()) && writes == old(writes) && lost == old(lost)
        invariant Written(old(Tree()), Tree(), d, lb.arn)
        invariant i == 1 ==> AcceleratorsWritten(old(Tree()), Tree(), o, d, hostname)
        invariant i == 1 ==> Served(Tree(), o, d, lb)
        invariant i == 1 && lost == old(lost) ==> Converged(Tree(), o, d, lb)
        invariant lost != old(lost) ==> Tree().accelerators == old(Tree()).accelerators
        invariant Converged(old(Tree()), o, d, lb) ==> writes == old(writes) && Tree() == old(Tree())
        invariant Quietly(old(writes), old(Tree()), writes, Tree())
        invariant accelerators[0].arn in Tree().accelerators
      {
        ok := Update(accelerators[i], d, lb);
        if !ok {
          return Failed;
        }
      }
      return Done(accelerators[0].arn, false);
    }

    /**
     * processServiceDelete and processIngressDelete, and what processServiceCreateOrUpdate and
     * processIngressCreateOrUpdate do when the annotation is gone.
     */
    method ProcessDelete() returns (ok: bool)
      requires Valid()
      modifies this`store, this`trace, this`writes, this`refusals, this`lost, this`unread, this`unlisted, this`vanished
      ensures Valid() && Shrinks(old(Tree()), Tree())
      ensures Quietly(old(writes), old(Tree()), writes, Tree())
      ensures ok && Tree() != EMPTY ==> Tree() == old(Tree()) && writes == old(writes) && lost == old(lost) + 1
      ensures writes == old(writes) && unlisted == old(unlisted) ==>
                ok && (old(Tree()) != EMPTY ==> lost == old(lost) + 1)
      ensures lost == old(lost) && vanished == old(vanished) ==> ok && Tree() == EMPTY
      ensures unread == old(unread) ==> refusals == old(refusals)
      ensures unread - old(unread) <= lost - old(lost)
      ensures Loses(quiet, old(lost), lost) && Loses(quiet, old(vanished), vanished)
    {
      hide Valid, Owned, Describes, Finds, Shrinks;
      NothingShrinks(Tree());
      var accelerators;
      ok, accelerators := ListByResource();
      if !ok { return; }
      TreeFacts();
      FoundOnce(Tree(), accelerators);
      for i := 0 to |accelerators|
        invariant Valid() && ok && i <= 1 && Loses(quiet, old(lost), lost) && vanished == old(vanished)
        invariant i == 0 ==> Tree() == old(Tree()) && writes == old(writes) && lost == old(lost)
        invariant i == 1 && writes == old(writes) ==> lost == old(lost) + 1
        invariant i == 1 && Tree() != EMPTY ==>
                    Tree() == old(Tree()) && writes == old(writes) && lost == old(lost) + 1
        invariant unlisted == old(unlisted) && Shrinks(old(Tree()), Tree())
        invariant i == 0 ==> refusals == old(refusals) && unread == old(unread)
        invariant unread == old(unread) ==> refusals == old(refusals)
        invariant unread - old(unread) <= lost - old(lost)
        invariant Quietly(old(writes), old(Tree()), writes, Tree())
      {
        DescribesSomething(Tree(), accelerators[i]);
        ok := Cleanup(accelerators[i].arn);
        if !ok { return; }
      }
      if accelerators == [] {
        EmptyTree(Tree());
      }
    }

    /** One round of the loop over load balancers. */
    method ServeOne(i: LbIngress, d: Desired) returns (r: ProcessResult)
      requires Valid() && KeepsMarks(o, d.tags)
      modifies this`store, this`trace, this`writes, this`refusals, this`lost, this`unread, this`unlisted, this`vanished
      ensures Valid() && ListenersWritten(old(Tree()), Tree(), d)
      ensures Quietly(old(writes), old(Tree()), writes, Tree())
      ensures r == Crash <==> '.' !in i.hostname
      ensures r == RetryIn30 ==> Pending(i)
      ensures lost == old(lost) && vanished == old(vanished) && Pending(i) ==> r == RetryIn30
      ensures lost == old(lost) && vanished == old(vanished) && Serviceable(i) ==> r == Synced
      ensures DetectCloudProvider(i.hostname) != Aws ==> lost == old(lost) && writes == old(writes)
      ensures DetectCloudProvider(i.hostname) == Aws && r == Synced ==>
                && i.found.Some?
                && if lost == old(lost) then Converged(Tree(), o, d, i.found.value)
                   else Served(Tree(), o, d, i.found.value) || LeftBare(Tree(), o)
      ensures AllConverged(old(Tree()), o, d, [i]) ==> writes == old(writes)
      ensures Loses(quiet, old(lost), lost) && Loses(quiet, old(vanished), vanished)
    {
      hide Valid, Owned, Converged, Served, LeftBare, KeepsMarks, DetectCloudProvider, LbNameAndRegion;
      hide ListenersWritten, GroupsWritten, AcceleratorsWritten, NewAccelerator;
      NothingWritten(Tree(), d, "");
      DetectsExactly(i.hostname);
      assert i in [i];
      match DetectCloudProvider(i.hostname) {
        case OutOfRange => return Crash;
        case Unknown => return Synced;
        case Aws =>
      }
      if LbNameAndRegion(i.hostname).None? {
        return Error;
      }
      ConvergedIsServed(Tree(), o, d, i.found);
      var e := Ensure(i.found, i.hostname, d);
      r := match e
        case Failed => Error
        case Retry => RetryIn30
        case Done(_, _) => Synced;
    }

    /** processServiceCreateOrUpdate and processIngressCreateOrUpdate of the Global Accelerator controller. */
    method ProcessCreateOrUpdate(annotated: bool, ingresses: seq<LbIngress>, d: Desired) returns (r: ProcessResult)
      requires Valid() && KeepsMarks(o, d.tags)
      modifies this`store, this`trace, this`writes, this`refusals, this`lost, this`unread, this`unlisted, this`vanished
      ensures Valid()
      ensures Quietly(old(writes), old(Tree()), writes, Tree())
      ensures ListenersWritten(old(Tree()), Tree(), d) && (!annotated ==> Shrinks(old(Tree()), Tree()))
      ensures !annotated ==> r == Synced || r == Error
      ensures annotated && r != Synced ==>
                exists k :: StopsAt(ingresses, k, r) &&
                  (lost == old(lost) && vanished == old(vanished) ==> StopsInTime(ingresses, k, r))
      ensures ingresses == [] ==> r == Synced && writes == old(writes) && Tree() == old(Tree())
      ensures annotated && r == Synced && LastLb(ingresses).Some? ==>
                if lost == old(lost) then Converged(Tree(), o, d, LastLb(ingresses).value)
                else Served(Tree(), o, d, LastLb(ingresses).value) || LeftBare(Tree(), o)
      ensures annotated && AllConverged(old(Tree()), o, d, ingresses) ==>
                writes == old(writes) && Tree() == old(Tree())
      ensures lost == old(lost) && vanished == old(vanished) && !annotated && ingresses != [] ==>
                r == Synced && Tree() == EMPTY
      ensures !annotated && ingresses != [] && writes == old(writes) && unlisted == old(unlisted) ==> r == Synced
      ensures !annotated && ingresses != [] && r == Synced && Tree() != EMPTY ==>
                Tree() == old(Tree()) && writes == old(writes) && lost == old(lost) + 1
      ensures lost == old(lost) && vanished == old(vanished) && annotated
              && (forall i | i in ingresses :: Serviceable(i)) ==>
                r == Synced && (writes == old(writes) <==> AllConverged(old(Tree()), o, d, ingresses))
      ensures Loses(quiet, old(lost), lost) && Loses(quiet, old(vanished), vanished)
    {
      hide Valid, Owned, Converged, Served, LeftBare, KeepsMarks, Serviceable, DetectCloudProvider, LbNameAndRegion;
      hide ListenersWritten, GroupsWritten, AcceleratorsWritten, Shrinks, NewAccelerator, Pending;
      r := Synced;
      NothingWritten(Tree(), d, "");
      NothingShrinks(Tree());
      if ingresses == [] {
        return;
      }
      if !annotated {
        ghost var before := Tree();
        var ok := ProcessDelete();
        WrittenThenShrunk(before, before, Tree(), d, "");
        r := if ok then Synced else Error;
        return;
      }
      for i := 0 to |ingresses|
        invariant Valid() && r == Synced && ListenersWritten(old(Tree()), Tree(), d)
        invariant forall k | 0 <= k < i :: '.' in ingresses[k].hostname
        invariant lost == old(lost) && vanished == old(vanished) ==>
                    forall k | 0 <= k < i :: !Pending(ingresses[k])
        invariant Loses(quiet, old(lost), lost) && Loses(quiet, old(vanished), vanished)
        invariant LastLb(ingresses[..i]).Some? ==>
                    if lost == old(lost) then Converged(Tree(), o, d, LastLb(ingresses[..i]).value)
                    else Served(Tree(), o, d, LastLb(ingresses[..i]).value) || LeftBare(Tree(), o)
        invariant AllConverged(old(Tree()), o, d, ingresses) ==> writes == old(writes) && Tree() == old(Tree())
        invariant Quietly(old(writes), old(Tree()), writes, Tree())
        invariant lost == old(lost) && writes == old(writes) ==> AllConverged(old(Tree()), o, d, ingresses[..i])
      {
        assert ingresses[..i + 1][..i] == ingresses[..i];
        assert ingresses[..i + 1] == ingresses[..i] + [ingresses[i]];
        assert ingresses[i] in ingresses;
        ghost var before := Tree();
        r := ServeOne(ingresses[i], d);
        WrittenTwice(old(Tree()), before, Tree(), d);
        if r != Synced {
          assert StopsAt(ingresses, i, r);
          return;
        }
        ConvergedIsServed(Tree(), o, d, ingresses[i].found);
      }
      assert ingresses[..|ingresses|] == ingresses;
    }
  }

  lemma ConvergedIsServed(t: Store, o: Owner, d: Desired, found: Option<LoadBalancer>)
    ensures found.Some? && Converged(t, o, d, found.value) ==> Served(t, o, d, found.value)
  {
  }

  /** A load balancer of the status, and what GetLoadBalancer finds under the name in its hostname. */
  datatype LbIngress = LbIngress(hostname: string, found: Option<LoadBalancer>)

  datatype ProcessResult = Synced | RetryIn30 | Error | Crash

  /** A load balancer that has been found but is not active yet. */
  predicate Pending(i: LbIngress) {
    && DetectCloudProvider(i.hostname) == Aws && LbNameAndRegion(i.hostname).Some?
    && i.found.Some? && i.found.value.dnsName == i.hostname && !i.found.value.active
  }

  /** Load balancer k has ended the pass with r: Crash exactly when its hostname has no dot. */
  ghost predicate StopsAt(ingresses: seq<LbIngress>, k: nat, r: ProcessResult) {
    && k < |ingresses| && r != Synced
    && (r == Crash <==> '.' !in ingresses[k].hostname)
    && (r == RetryIn30 ==> Pending(ingresses[k]))
    && forall j | 0 <= j < k :: '.' in ingresses[j].hostname
  }

  /** Unless a call is lost, the first load balancer that is not active yet asks for the retry. */
  ghost predicate StopsInTime(ingresses: seq<LbIngress>, k: nat, r: ProcessResult)
    requires k < |ingresses|
  {
    (r == RetryIn30 <==> Pending(ingresses[k])) && forall j | 0 <= j < k :: !Pending(ingresses[j])
  }

  predicate Serviceable(i: LbIngress) {
    match DetectCloudProvider(i.hostname)
    case OutOfRange => false
    case Unknown => true
    case Aws => LbNameAndRegion(i.hostname).Some? && Suitable(i.found, i.hostname)
  }

  /** The load balancer behind the last AWS hostname. */
  function LastLb(ingresses: seq<LbIngress>): Option<LoadBalancer> {
    if ingresses == [] then None
    else if DetectCloudProvider(ingresses[|ingresses| - 1].hostname) == Aws then ingresses[|ingresses| - 1].found
    else LastLb(ingresses[..|ingresses| - 1])
  }

  ghost predicate AllConverged(t: Store, o: Owner, d: Desired, ingresses: seq<LbIngress>) {
    forall i | i in ingresses && DetectCloudProvider(i.hostname) == Aws ::
      i.found.Some? && Converged(t, o, d, i.found.value)
  }

  lemma DescribesSomething(t: Store, f: Found)
    requires Describes(t, f)
    ensures f.arn in t.accelerators && t != EMPTY
  {
  }

  /** A tree is as it should be for one hostname only, so with two the controller never stops changing it. */
  lemma ConvergedForOneHostname(t: Store, o: Owner, d: Desired, lb: LoadBalancer, lb': LoadBalancer)
    requires Converged(t, o, d, lb) && Converged(t, o, d, lb')
    requires Last(d.tags, HOSTNAME_KEY).None?
    ensures lb.dnsName == lb'.dnsName
  {
    hide Merge, Last, OwnTags;
    var a :| a in t.accelerators;
    HostnameInTarget(o, lb.dnsName, d.tags);
    HostnameInTarget(o, lb'.dnsName, d.tags);
    assert AcceleratorOk(t.accelerators[a], o, d, lb.dnsName) && AcceleratorOk(t.accelerators[a], o, d, lb'.dnsName);
  }

  /** The Route 53 controller finds a converged accelerator by the load balancer's hostname and by no other. */
  lemma FoundByHostnameExactly(s: Store, o: Owner, d: Desired, lb: LoadBalancer, a: string, hostname: string)
    requires Converged(Owned(s, o), o, d, lb) && a in Owned(s, o).accelerators
    requires Last(d.tags, HOSTNAME_KEY).None?
    ensures a in s.accelerators
    ensures Contains(s.accelerators[a].tags, HostnameLookupTags(o.cluster, hostname)) <==> hostname == lb.dnsName
  {
    hide Merge, Last, OwnTags, TargetTags, AcceleratorOwnerTagValue;
    KeysDiffer();
    HostnameInTarget(o, lb.dnsName, d.tags);
    assert AcceleratorOk(Owned(s, o).accelerators[a], o, d, lb.dnsName);
    assert Managed(s.accelerators[a], o);
    assert MANAGED_KEY in LookupTags(o) && CLUSTER_KEY in LookupTags(o);
    assert HOSTNAME_KEY in HostnameLookupTags(o.cluster, hostname);
  }

  datatype Wish = Wish(d: Desired, lb: LoadBalancer)

  /** Every owner has what it wants, and every managed accelerator belongs to one of the owners. */
  ghost predicate AllOwnersConverged(s: Store, wishes: map<Owner, Wish>) {
    && (forall o | o in wishes ::
          Converged(Owned(s, o), o, wishes[o].d, wishes[o].lb) && Last(wishes[o].d.tags, HOSTNAME_KEY).None?)
    && (forall a | a in ManagedPart(s).accelerators :: exists o :: o in wishes && a in Owned(s, o).accelerators)
  }

  /** The owners of a cluster whose load balancer has this hostname. */
  function Claimants(wishes: map<Owner, Wish>, cluster: string, hostname: string): set<Owner> {
    set o | o in wishes && o.cluster == cluster && wishes[o].lb.dnsName == hostname
  }

  ghost function AcceleratorOf(s: Store, o: Owner): (a: string)
    requires Owned(s, o).accelerators != map[]
    ensures a in Owned(s, o).accelerators
  {
    var a :| a in Owned(s, o).accelerators; a
  }

  lemma ClaimedIsMatched(s: Store, wishes: map<Owner, Wish>, o: Owner, cluster: string, hostname: string)
    requires AllOwnersConverged(s, wishes) && o in Claimants(wishes, cluster, hostname)
    ensures Owned(s, o).accelerators != map[] && AcceleratorOf(s, o) in Matches(s, cluster, hostname)
  {
    hide Owned, Contains, HostnameLookupTags, Last;
    FoundByHostnameExactly(s, o, wishes[o].d, wishes[o].lb, AcceleratorOf(s, o), hostname);
  }

  lemma MatchedIsClaimed(s: Store, wishes: map<Owner, Wish>, a: string, cluster: string, hostname: string)
    returns (o: Owner)
    requires AllOwnersConverged(s, wishes) && a in Matches(s, cluster, hostname)
    ensures o in Claimants(wishes, cluster, hostname)
    ensures Owned(s, o).accelerators != map[] && AcceleratorOf(s, o) == a
  {
    hide Owned, HostnameLookupTags, LookupTags, Last, NoOrphans, ListenersOk, GroupsOk, TagsOk;
    MatchedIsManaged(s, a, cluster, hostname);
    o :| o in wishes && a in Owned(s, o).accelerators;
    OwnedIsThere(s, o);
    SameCluster(s.accelerators[a], o, cluster, hostname);
    FoundByHostnameExactly(s, o, wishes[o].d, wishes[o].lb, a, hostname);
  }

  lemma MatchedIsManaged(s: Store, a: string, cluster: string, hostname: string)
    requires a in Matches(s, cluster, hostname)
    ensures a in ManagedPart(s).accelerators
  {
    KeysDiffer();
    assert MANAGED_KEY in HostnameLookupTags(cluster, hostname);
  }

  lemma SameCluster(a: Accelerator, o: Owner, cluster: string, hostname: string)
    requires Managed(a, o) && Contains(a.tags, HostnameLookupTags(cluster, hostname))
    ensures o.cluster == cluster
  {
    KeysDiffer();
    assert CLUSTER_KEY in LookupTags(o) && CLUSTER_KEY in HostnameLookupTags(cluster, hostname);
  }

  /**
   * When all owners have converged, a lookup by hostname finds as many accelerators as the cluster has owners
   * behind that hostname: exactly one if and only if there is exactly one such owner.
   */
  lemma MatchesCountClaimants(s: Store, wishes: map<Owner, Wish>, cluster: string, hostname: string)
    requires AllOwnersConverged(s, wishes)
    ensures |Matches(s, cluster, hostname)| == |Claimants(wishes, cluster, hostname)|
  {
    hide AllOwnersConverged, Owned, Matches, Claimants;
    var claimants := Claimants(wishes, cluster, hostname);
    forall o | o in claimants
      ensures Owned(s, o).accelerators != map[] && AcceleratorOf(s, o) in Matches(s, cluster, hostname)
    {
      ClaimedIsMatched(s, wishes, o, cluster, hostname);
    }
    var m := map o | o in claimants :: AcceleratorOf(s, o);
    forall o, p | o in m && p in m && m[o] == m[p]
      ensures o == p
    {
      if o != p { TreesAreDisjoint(s, o, p); }
    }
    InjectiveCount(m);
    assert m.Keys == claimants;
    forall a
      ensures a in m.Values <==> a in Matches(s, cluster, hostname)
    {
      if a in Matches(s, cluster, hostname) {
        var o := MatchedIsClaimed(s, wishes, a, cluster, hostname);
        assert m[o] == a;
      }
    }
    assert m.Values == Matches(s, cluster, hostname);
  }

  lemma PortsStayDistinct(t: Store, t': Store, d: Desired)
    requires PortsDistinct(t) && ListenersWritten(t, t', d) && NoDuplicates(d.ports)
    ensures PortsDistinct(t')
  {
    hide NoDuplicates;
  }

  /**
   * As long as no port is asked for twice, no listener of the owner ever lists one twice, and a converged
   * listener has exactly the desired ports.
   */
  lemma ConvergedPorts(t: Store, t': Store, o: Owner, d: Desired, lb: LoadBalancer, l: string)
    requires PortsDistinct(t) && ListenersWritten(t, t', d) && NoDuplicates(d.ports)
    ensures PortsDistinct(t')
    ensures Converged(t', o, d, lb) && l in t'.listeners ==>
              SamePorts(t'.listeners[l].ports, d.ports) && t'.listeners[l].protocol == d.protocol
  {
    hide PortsUnchanged, SamePorts, NoDuplicates, ListenersWritten;
    PortsStayDistinct(t, t', d);
    if Converged(t', o, d, lb) && l in t'.listeners {
      UnchangedWithoutDuplicates(t'.listeners[l].ports, d.ports);
      assert ListenerOk(t'.listeners[l], d);
    }
  }

  lemma HostnameInTarget(o: Owner, hostname: string, specified: seq<Tag>)
    requires Last(specified, HOSTNAME_KEY).None?
    ensures HOSTNAME_KEY in TargetTags(o, hostname, specified)
    ensures TargetTags(o, hostname, specified)[HOSTNAME_KEY] == hostname
  {
    hide Merge, Last, OwnTags;
    MergeAt(map[], UpdateTags(o, hostname, specified), HOSTNAME_KEY);
    LastAppend(OwnTags(o, hostname), specified, HOSTNAME_KEY);
    OwnTagsAt(o, hostname, HOSTNAME_KEY);
  }

  function WithArn(c: Call, arn: string): Call {
    match c
    case CreateAccelerator(_, name, tags) => CreateAccelerator(arn, name, tags)
    case CreateListener(_, parent, ports, protocol) => CreateListener(arn, parent, ports, protocol)
    case CreateGroup(_, parent, endpoints) => CreateGroup(arn, parent, endpoints)
    case _ => c
  }

  lemma WithArnSame(t: Store, o: Owner, c: Call, arn: string)
    ensures ProperIn(t, o, c) <==> ProperIn(t, o, WithArn(c, arn))
    ensures Answer(t, c).Some? <==> Answer(t, WithArn(c, arn)).Some?
    ensures Creates(c) ==> WithArn(c, arn).arn == arn
  {
  }

  /** Some ARN that is not in use. */
  method FreshArn(s: Store) returns (arn: string)
    ensures Fresh(s, arn)
  {
    var parents := (set l | l in s.listeners :: s.listeners[l].parent) + (set g | g in s.groups :: s.groups[g].parent);
    var used := s.accelerators.Keys + s.listeners.Keys + s.groups.Keys + parents;
    var left := used;
    var n: nat := 0;
    while left != {}
      invariant left <= used && forall u | u in used && u !in left :: |u| <= n
      decreases left
    {
      var u :| u in left;
      left := left - {u};
      n := if |u| > n then |u| else n;
    }
    arn := seq(n + 1, _ => 'a');
    assert forall l | l in s.listeners :: s.listeners[l].parent in parents;
    assert forall g | g in s.groups :: s.groups[g].parent in parents;
  }
}
