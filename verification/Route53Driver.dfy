/** The per-key drivers of the Route 53 controller: pkg/controller/route53/service.go and ingress.go. */
module Route53Driver {
  import opened Strings
  import opened OwnerValues
  import opened RecordNames
  import opened HostedZones
  import opened Route53Store
  import opened Route53Protocol
  import opened Route53Sequential
  import opened Route53Controller
  import opened CloudProviders
  import opened LoadBalancerNames
  import opened Sequences
  import Accelerators
  import GA = AcceleratorController

  /** A load balancer of the status, with the DNS names that a lookup of its accelerators would give. */
  datatype LbIngress = LbIngress(hostname: string, accelerators: Option<seq<string>>)

  datatype ProcessResult = Success | RetryInMinute | Error | Crash

  predicate HasAccelerator(i: LbIngress) {
    i.accelerators.Some? && |i.accelerators.value| == 1
  }

  /** The accelerator of the last AWS load balancer: the one that the records end up pointing to. */
  function LastDns(ingresses: seq<LbIngress>): Option<string> {
    if ingresses == [] then None
    else
      var i := ingresses[|ingresses| - 1];
      if DetectCloudProvider(i.hostname) == Aws then (if HasAccelerator(i) then Some(i.accelerators.value[0]) else None)
      else LastDns(ingresses[..|ingresses| - 1])
  }

  /** Each AWS load balancer has one accelerator, and each hostname points to it. */
  predicate SyncedForAll(
      zones: seq<HostedZone>, sets: Sets, o: Owner, hostnames: seq<string>, ingresses: seq<LbIngress>) {
    forall i | i in ingresses && DetectCloudProvider(i.hostname) == Aws ::
      HasAccelerator(i) && AllSynced(zones, sets, o, hostnames, i.accelerators.value[0])
  }

  /** Records point to one accelerator, so two load balancers with different accelerators are never both served. */
  lemma SyncedForOneAccelerator(
      zones: seq<HostedZone>, sets: Sets, o: Owner, annotation: string, dns: string, dns': string)
    requires AllSynced(zones, sets, o, Split(annotation, ','), dns)
    requires AllSynced(zones, sets, o, Split(annotation, ','), dns')
    ensures dns == dns'
  {
    hide Split, ZoneOf, Stored, Holds;
    var h := Split(annotation, ',')[0];
    assert h in Split(annotation, ',');
    assert SyncedHost(zones, sets, o, h, dns) && SyncedHost(zones, sets, o, h, dns');
    AppendDot(dns, dns');
  }

  /** Everything is as the annotation asks, and every hostname can be recognised again. */
  predicate Unchanging(w: World, o: Owner, annotation: string, ingresses: seq<LbIngress>) {
    && SyncedForAll(w.zones, w.sets, o, Split(annotation, ','), ingresses)
    && forall h | h in Split(annotation, ',') :: OneWildcard(h)
  }

  lemma UnchangingHere(w: World, o: Owner, annotation: string, ingresses: seq<LbIngress>, i: LbIngress)
    requires Unchanging(w, o, annotation, ingresses) && i in ingresses && DetectCloudProvider(i.hostname) == Aws
    ensures HasAccelerator(i) && AllSynced(w.zones, w.sets, o, Split(annotation, ','), i.accelerators.value[0])
    ensures forall h | h in Split(annotation, ',') :: OneWildcard(h)
  {
  }

  /** Serving one load balancer again keeps everything as the annotation asks. */
  lemma StaysUnchanging(w: World, w': World, o: Owner, annotation: string, ingresses: seq<LbIngress>, i: LbIngress)
    requires Unchanging(w, o, annotation, ingresses) && i in ingresses && DetectCloudProvider(i.hostname) == Aws
    requires HasAccelerator(i) && w'.zones == w.zones
    requires AllSynced(w'.zones, w'.sets, o, Split(annotation, ','), i.accelerators.value[0])
    ensures Unchanging(w', o, annotation, ingresses)
  {
    hide AllSynced, DetectCloudProvider, OneWildcard, Split;
    forall k | k in ingresses && DetectCloudProvider(k.hostname) == Aws
      ensures HasAccelerator(k) && AllSynced(w'.zones, w'.sets, o, Split(annotation, ','), k.accelerators.value[0])
    {
      SyncedForOneAccelerator(w.zones, w.sets, o, annotation, i.accelerators.value[0], k.accelerators.value[0]);
    }
  }

  /*** When an undisturbed pass succeeds ***/

  predicate Answerable(i: LbIngress) {
    match DetectCloudProvider(i.hostname)
    case OutOfRange => false
    case Unknown => true
    case Aws => LbNameAndRegion(i.hostname).Some? && HasAccelerator(i)
  }

  function AwsCount(ingresses: seq<LbIngress>): nat {
    if ingresses == [] then 0
    else
      AwsCount(ingresses[..|ingresses| - 1])
      + if DetectCloudProvider(ingresses[|ingresses| - 1].hostname) == Aws then 1 else 0
  }

  predicate AllRecognisable(annotation: string) {
    forall h | h in Split(annotation, ',') :: OneWildcard(h)
  }

  /**
   * Every AWS load balancer has a name and one accelerator; if there is one, each hostname is ready; if there are
   * several, each hostname is recognised again when its turn comes a second time.
   */
  predicate Satisfiable(w: World, o: Owner, annotation: string, ingresses: seq<LbIngress>) {
    && (forall i | i in ingresses :: Answerable(i))
    && (AwsCount(ingresses) >= 1 ==> AllReady(w.zones, w.sets, o, Split(annotation, ',')))
    && (AwsCount(ingresses) >= 2 ==> AllRecognisable(annotation))
  }

  /** Where an undisturbed pass from w stands at v, after some of the load balancers. */
  ghost predicate Progress(w: World, v: World, o: Owner, annotation: string, done: seq<LbIngress>) {
    && v.zones == w.zones
    && Satisfiable(w, o, annotation, done)
    && (AwsCount(done) == 0 ==> v.sets == w.sets)
    && (AwsCount(done) >= 1 ==> exists dns :: AllSynced(v.zones, v.sets, o, Split(annotation, ','), dns))
  }

  /** The load balancer can be served where the pass stands. */
  predicate Served(v: World, o: Owner, annotation: string, i: LbIngress) {
    && Answerable(i)
    && (DetectCloudProvider(i.hostname) == Aws ==> AllReady(v.zones, v.sets, o, Split(annotation, ',')))
  }

  /** What is synced is ready again exactly when it can be recognised. */
  lemma SyncedIsReady(zones: seq<HostedZone>, sets: Sets, o: Owner, hostnames: seq<string>, dns: string)
    requires AllSynced(zones, sets, o, hostnames, dns)
    ensures AllReady(zones, sets, o, hostnames) <==> forall h | h in hostnames :: OneWildcard(h)
  {
    hide ZoneOf, Stored, Route53OwnerValue, OneWildcard, Findable;
    forall i | 0 <= i < |hostnames|
      ensures Ready(zones, sets, o, hostnames, i) <==> OneWildcard(hostnames[i])
    {
      assert SyncedHost(zones, sets, o, hostnames[i], dns);
      FindableExactly(hostnames[i]);
    }
    if AllReady(zones, sets, o, hostnames) {
      forall h | h in hostnames
        ensures OneWildcard(h)
      {
        var i :| 0 <= i < |hostnames| && hostnames[i] == h;
        assert Ready(zones, sets, o, hostnames, i);
      }
    }
  }

  /** The next load balancer can be served exactly when the condition still holds with it. */
  lemma NextIsReady(w: World, v: World, o: Owner, annotation: string, ingresses: seq<LbIngress>, i: nat)
    requires i < |ingresses| && Progress(w, v, o, annotation, ingresses[..i])
    ensures Served(v, o, annotation, ingresses[i]) <==> Satisfiable(w, o, annotation, ingresses[..i + 1])
    ensures Satisfiable(w, o, annotation, ingresses) ==> Satisfiable(w, o, annotation, ingresses[..i + 1])
  {
    hide AllReady, AllSynced, DetectCloudProvider, Answerable, OneWildcard, Split;
    var done := ingresses[..i];
    assert ingresses[..i + 1][..i] == done && ingresses[..i + 1] == done + [ingresses[i]];
    assert forall k | k in ingresses[..i + 1] :: k in done || k == ingresses[i];
    OnlyAwsNeedsMore(ingresses[i]);
    if AwsCount(done) >= 1 {
      var dns :| AllSynced(v.zones, v.sets, o, Split(annotation, ','), dns);
      SyncedIsReady(v.zones, v.sets, o, Split(annotation, ','), dns);
    }
    if Satisfiable(w, o, annotation, ingresses) {
      SatisfiableForFewer(w, o, annotation, ingresses, i + 1);
    }
  }

  lemma OnlyAwsNeedsMore(i: LbIngress)
    ensures DetectCloudProvider(i.hostname) == Aws ==>
              (Answerable(i) <==> LbNameAndRegion(i.hostname).Some? && HasAccelerator(i))
    ensures DetectCloudProvider(i.hostname) == Unknown ==> Answerable(i)
  {
  }

  lemma NextIsServed(w: World, v: World, v': World, o: Owner, annotation: string, ingresses: seq<LbIngress>, i: nat)
    requires i < |ingresses| && Progress(w, v, o, annotation, ingresses[..i])
    requires Satisfiable(w, o, annotation, ingresses[..i + 1]) && v'.zones == v.zones
    requires if DetectCloudProvider(ingresses[i].hostname) == Aws then
               && HasAccelerator(ingresses[i])
               && AllSynced(v'.zones, v'.sets, o, Split(annotation, ','), ingresses[i].accelerators.value[0])
             else v' == v
    ensures Progress(w, v', o, annotation, ingresses[..i + 1])
  {
    hide Satisfiable, AllSynced, DetectCloudProvider, Split;
    assert ingresses[..i + 1][..i] == ingresses[..i];
  }

  lemma ProgressIsSatisfiable(w: World, v: World, o: Owner, annotation: string, done: seq<LbIngress>)
    requires Progress(w, v, o, annotation, done)
    ensures Satisfiable(w, o, annotation, done)
  {
    hide Satisfiable;
  }

  /** A condition that fails for some of the load balancers fails for all. */
  lemma {:induction false} SatisfiableForFewer(
      w: World, o: Owner, annotation: string, ingresses: seq<LbIngress>, i: nat)
    requires i <= |ingresses| && Satisfiable(w, o, annotation, ingresses)
    ensures Satisfiable(w, o, annotation, ingresses[..i])
    decreases |ingresses|
  {
    hide AllReady, DetectCloudProvider, AllRecognisable, Split, Answerable;
    if i == |ingresses| {
      assert ingresses[..i] == ingresses;
    } else {
      var fewer := ingresses[..|ingresses| - 1];
      SatisfiableForFewer(w, o, annotation, fewer, i);
      assert fewer[..i] == ingresses[..i];
    }
  }

  /** processServiceDelete and processIngressDelete */
  method ProcessDelete(c: Route53Client, o: Owner) returns (r: ProcessResult)
    requires c.Valid() && Resting(PcOf(c.world, o))
    modifies c
    ensures c.Valid() && Resting(PcOf(c.world, o))
    ensures r == Success ==> PcOf(c.world, o) == Cleaned
    ensures r == Success ==> forall k | k in c.world.sets :: !Carries(c.world.sets[k], Route53OwnerValue(o))
    ensures r == Success ==> forall k | k in c.world.authors :: c.world.authors[k] != o
    ensures c.quiet ==> r == Success && c.world.sets == WithoutOwner(old(c.world.sets), o)
    ensures r == Success || r == Error
  {
    hide Carries, Route53OwnerValue;
    var ok := c.CleanupRecordSet(o);
    r := if ok then Success else Error;
  }

  /*** The lookup of the accelerator ***/

  function DnsNames(arns: seq<string>, dnsName: string -> string): (r: seq<string>)
    ensures |r| == |arns| && forall i | 0 <= i < |arns| :: r[i] == dnsName(arns[i])
  {
    seq(|arns|, i requires 0 <= i < |arns| => dnsName(arns[i]))
  }

  /** What a truthful lookup in this store finds, as far as it matters: the accelerator if there is exactly one. */
  ghost function Expected(
      s: Accelerators.Store, cluster: string, dnsName: string -> string, hostname: string): (i: LbIngress)
    ensures i.hostname == hostname && (HasAccelerator(i) <==> |GA.Matches(s, cluster, hostname)| == 1)
    ensures forall a | GA.Matches(s, cluster, hostname) == {a} :: i.accelerators == Some([dnsName(a)])
  {
    if |GA.Matches(s, cluster, hostname)| == 1 then
      var a :| a in GA.Matches(s, cluster, hostname);
      assert forall x | GA.Matches(s, cluster, hostname) == {x} :: a == x;
      LbIngress(hostname, Some([dnsName(a)]))
    else
      assert forall x | GA.Matches(s, cluster, hostname) == {x} :: |GA.Matches(s, cluster, hostname)| == |{x}|;
      LbIngress(hostname, Some([]))
  }

  ghost function ExpectedAll(
      s: Accelerators.Store, cluster: string, dnsName: string -> string, lbs: seq<string>): (r: seq<LbIngress>)
    ensures |r| == |lbs| && forall i | 0 <= i < |lbs| :: r[i] == Expected(s, cluster, dnsName, lbs[i])
  {
    seq(|lbs|, i requires 0 <= i < |lbs| => Expected(s, cluster, dnsName, lbs[i]))
  }

  /** Every hostname points to an accelerator that matched the load balancer at some time since the first actions. */
  ghost predicate PointsToMatch(
      g: GA.AcceleratorClient, from: nat, hostname: string, w: World, hostnames: seq<string>, dnsName: string -> string)
    reads g`trace
  {
    exists a ::
      && GA.WasMatched(g.start, g.trace, from, g.o.cluster, hostname, a)
      && AllSynced(w.zones, w.sets, g.o, hostnames, dnsName(a))
  }

  /** EnsureRoute53ForService and EnsureRoute53ForIngress. dnsName gives the DNS name of an accelerator. */
  method EnsureForLoadBalancer(
      g: GA.AcceleratorClient, c: Route53Client, hostname: string, hostnames: seq<string>, dnsName: string -> string)
    returns (r: EnsureResult)
    requires g.Valid() && c.Valid() && Resting(PcOf(c.world, g.o))
    modifies g, c
    ensures g.Valid() && c.Valid() && Resting(PcOf(c.world, g.o)) && c.world.zones == old(c.world.zones)
    ensures g.Tree() == old(g.Tree()) && old(g.trace) <= g.trace && (g.quiet ==> g.store == old(g.store))
    ensures r.Done? ==> PointsToMatch(g, |old(g.trace)|, hostname, c.world, hostnames, dnsName)
    ensures r.Done? ==>
              forall a | a in g.Tree().accelerators && Accelerators.Contains(
                  g.Tree().accelerators[a].tags, GA.HostnameLookupTags(g.o.cluster, hostname)) ::
                AllSynced(c.world.zones, c.world.sets, g.o, hostnames, dnsName(a))
    ensures g.quiet ==> (r.RetryLater? <==> |GA.Matches(g.store, g.o.cluster, hostname)| != 1)
    ensures g.quiet && r.Done? ==>
              var i := Expected(g.store, g.o.cluster, dnsName, hostname);
              && HasAccelerator(i)
              && AllSynced(c.world.zones, c.world.sets, g.o, hostnames, i.accelerators.value[0])
    ensures g.quiet && c.quiet && |GA.Matches(g.store, g.o.cluster, hostname)| == 1 ==>
              (r.Done? <==> AllReady(old(c.world).zones, old(c.world).sets, g.o, hostnames))
    ensures g.quiet && (forall h | h in hostnames :: OneWildcard(h)) ==>
              var i := Expected(g.store, g.o.cluster, dnsName, hostname);
              HasAccelerator(i)
              && AllSynced(old(c.world).zones, old(c.world).sets, g.o, hostnames, i.accelerators.value[0]) ==>
                c.changes == old(c.changes)
  {
    hide AllSynced, AllReady, EnsureHosts, OneWildcard, PcOf;
    hide Accelerators.Contains, GA.HostnameLookupTags, GA.Matches, GA.WasMatched;
    var ok, found := g.ListByHostname(hostname);
    if ok {
      DistinctCount(found);
      if |found| == 1 {
        assert found[0] in found;
        OnlyElement(found);
        ReadySucceeds(c, g.o, hostnames, dnsName(found[0]));
      }
    }
    r := c.EnsureRoute53(g.o, if ok then Some(DnsNames(found, dnsName)) else None, hostnames);
  }

  lemma OnlyElement(s: seq<string>)
    requires |s| == 1
    ensures Elements(s) == {s[0]} && forall x :: x in s <==> x == s[0]
  {
  }

  /** When all owners have converged, both of two owners behind one hostname wait, and a single one does not. */
  method EnsureAmongConverged(
      g: GA.AcceleratorClient, c: Route53Client, hostname: string, hostnames: seq<string>, dnsName: string -> string,
      ghost wishes: map<Owner, GA.Wish>)
    returns (r: EnsureResult)
    requires g.Valid() && c.Valid() && Resting(PcOf(c.world, g.o))
    requires g.quiet && GA.AllOwnersConverged(g.store, wishes)
    modifies g, c
    ensures r.RetryLater? <==> |GA.Claimants(wishes, g.o.cluster, hostname)| != 1
  {
    hide GA.AllOwnersConverged, GA.Matches, GA.Claimants, Accelerators.Contains, GA.HostnameLookupTags;
    hide AllSynced, AllReady, OneWildcard, PcOf;
    GA.MatchesCountClaimants(g.store, wishes, g.o.cluster, hostname);
    r := EnsureForLoadBalancer(g, c, hostname, hostnames, dnsName);
  }

  /*** The drivers ***/

  /** The last AWS hostname of the status. */
  function LastAws(lbs: seq<string>): Option<string> {
    if lbs == [] then None
    else if DetectCloudProvider(lbs[|lbs| - 1]) == Aws then Some(lbs[|lbs| - 1])
    else LastAws(lbs[..|lbs| - 1])
  }

  /** An ensure has to wait for an accelerator of the hostname, or for one of several to go. */
  predicate Waits(s: Accelerators.Store, cluster: string, hostname: string) {
    && DetectCloudProvider(hostname) == Aws && LbNameAndRegion(hostname).Some?
    && |GA.Matches(s, cluster, hostname)| != 1
  }

  /**
   * Load balancer k has ended the pass with r: Crash exactly when its hostname has no dot, and with truthful
   * lookups RetryInMinute exactly when there is not one accelerator for it. Those before it did neither.
   */
  ghost predicate StopsAt(
      s: Accelerators.Store, cluster: string, truthful: bool, lbs: seq<string>, k: nat, r: ProcessResult)
  {
    && k < |lbs| && r != Success
    && (r == Crash <==> '.' !in lbs[k])
    && (r == RetryInMinute ==> DetectCloudProvider(lbs[k]) == Aws && LbNameAndRegion(lbs[k]).Some?)
    && (truthful ==> (r == RetryInMinute <==> Waits(s, cluster, lbs[k])))
    && forall j | 0 <= j < k :: '.' in lbs[j] && (truthful ==> !Waits(s, cluster, lbs[j]))
  }

  /** One round of the loop over load balancers. */
  method ServeOne(
      g: GA.AcceleratorClient, c: Route53Client, hostname: string, hostnames: seq<string>, dnsName: string -> string)
    returns (r: ProcessResult)
    requires g.Valid() && c.Valid() && Resting(PcOf(c.world, g.o))
    modifies g, c
    ensures g.Valid() && c.Valid() && Resting(PcOf(c.world, g.o)) && c.world.zones == old(c.world.zones)
    ensures old(g.trace) <= g.trace && (g.quiet ==> g.store == old(g.store))
    ensures r == Success ==>
              if DetectCloudProvider(hostname) == Aws then
                && LbNameAndRegion(hostname).Some?
                && PointsToMatch(g, |old(g.trace)|, hostname, c.world, hostnames, dnsName)
              else
                && DetectCloudProvider(hostname) == Unknown
                && c.world == old(c.world) && c.changes == old(c.changes) && g.trace == old(g.trace)
    ensures r == Crash <==> '.' !in hostname
    ensures r == RetryInMinute ==> DetectCloudProvider(hostname) == Aws && LbNameAndRegion(hostname).Some?
    ensures g.quiet ==> (r == RetryInMinute <==> Waits(g.store, g.o.cluster, hostname))
    ensures g.quiet && r == Success && DetectCloudProvider(hostname) == Aws ==>
              var i := Expected(g.store, g.o.cluster, dnsName, hostname);
              && HasAccelerator(i)
              && AllSynced(c.world.zones, c.world.sets, g.o, hostnames, i.accelerators.value[0])
    ensures g.quiet && c.quiet ==>
              (r == Success <==>
               && Answerable(Expected(g.store, g.o.cluster, dnsName, hostname))
               && (DetectCloudProvider(hostname) == Aws ==>
                     AllReady(old(c.world).zones, old(c.world).sets, g.o, hostnames)))
    ensures g.quiet && (DetectCloudProvider(hostname) == Aws ==>
               var i := Expected(g.store, g.o.cluster, dnsName, hostname);
               && HasAccelerator(i) && (forall h | h in hostnames :: OneWildcard(h))
               && AllSynced(old(c.world).zones, old(c.world).sets, g.o, hostnames, i.accelerators.value[0])) ==>
              c.changes == old(c.changes)
  {
    hide AllSynced, DetectCloudProvider, LbNameAndRegion, OneWildcard, PcOf, AllReady, PointsToMatch;
    hide Expected, HasAccelerator, GA.Matches, Accelerators.Contains, GA.HostnameLookupTags;
    DetectsExactly(hostname);
    match DetectCloudProvider(hostname) {
      case OutOfRange => return Crash;
      case Unknown => return Success;
      case Aws =>
    }
    if LbNameAndRegion(hostname).None? {
      return Error;
    }
    var e := EnsureForLoadBalancer(g, c, hostname, hostnames, dnsName);
    r := match e
      case Failed => Error
      case RetryLater => RetryInMinute
      case Done(_) => Success;
  }

  /**
   * processServiceCreateOrUpdate and processIngressCreateOrUpdate: without the annotation, clean up. lbs are the
   * hostnames of the load balancers in the status.
   */
  method ProcessCreateOrUpdate(
      g: GA.AcceleratorClient, c: Route53Client, annotation: Option<string>, lbs: seq<string>,
      dnsName: string -> string)
    returns (r: ProcessResult)
    requires g.Valid() && c.Valid() && Resting(PcOf(c.world, g.o))
    modifies g, c
    ensures g.Valid() && c.Valid() && Resting(PcOf(c.world, g.o))
    ensures annotation.None? && r == Success ==> PcOf(c.world, g.o) == Cleaned
    ensures annotation.None? && c.quiet ==> r == Success && c.world.sets == WithoutOwner(old(c.world.sets), g.o)
    ensures annotation.None? ==> r == Success || r == Error
    ensures annotation.Some? && r != Success ==>
              exists k :: StopsAt(old(g.store), g.o.cluster, g.quiet, lbs, k, r)
    ensures annotation.Some? && r == Success && LastAws(lbs).Some? ==>
              PointsToMatch(g, |old(g.trace)|, LastAws(lbs).value, c.world, Split(annotation.value, ','), dnsName)
    ensures annotation.Some? && r == Success ==>
              forall k | 0 <= k < |lbs| && DetectCloudProvider(lbs[k]) == Aws ::
                && LbNameAndRegion(lbs[k]).Some?
                && (g.quiet ==> HasAccelerator(Expected(old(g.store), g.o.cluster, dnsName, lbs[k])))
    ensures annotation.Some? && g.quiet ==>
              var ingresses := ExpectedAll(old(g.store), g.o.cluster, dnsName, lbs);
              && (Unchanging(old(c.world), g.o, annotation.value, ingresses) ==> c.changes == old(c.changes))
              && (c.quiet ==> (r == Success <==> Satisfiable(old(c.world), g.o, annotation.value, ingresses)))
              && (r == Success && LastDns(ingresses).Some? ==>
                    AllSynced(c.world.zones, c.world.sets, g.o, Split(annotation.value, ','), LastDns(ingresses).value))
  {
    hide AllSynced, DetectCloudProvider, LbNameAndRegion, OneWildcard, WithoutOwner, PcOf, Split, Unchanging;
    hide Satisfiable, AllReady, PointsToMatch, Expected, ExpectedAll, LastDns, StopsAt;
    if annotation.None? {
      r := ProcessDelete(c, g.o);
      CleanedRests(c.world, g.o);
      return;
    }
    r := ServeAll(g, c, annotation.value, lbs, dnsName);
  }

  /** Where a pass with truthful lookups stands: undisturbed in all, and from a state that needs no change. */
  ghost predicate Stand(
      w: World, v: World, o: Owner, annotation: string, ingresses: seq<LbIngress>, i: nat,
      quiet: bool, unchanging: bool)
  {
    && i <= |ingresses|
    && (LastDns(ingresses[..i]).Some? ==>
          AllSynced(v.zones, v.sets, o, Split(annotation, ','), LastDns(ingresses[..i]).value))
    && (quiet ==> Progress(w, v, o, annotation, ingresses[..i]))
    && (unchanging ==> Unchanging(v, o, annotation, ingresses))
  }

  lemma StandFirst(w: World, o: Owner, annotation: string, ingresses: seq<LbIngress>, quiet: bool, unchanging: bool)
    requires unchanging ==> Unchanging(w, o, annotation, ingresses)
    ensures Stand(w, w, o, annotation, ingresses, 0, quiet, unchanging)
  {
    hide Unchanging, Progress;
    NothingServedYet(w, o, annotation);
    assert ingresses[..0] == [];
  }

  /** What the next round needs to know. */
  lemma StandHere(
      w: World, v: World, o: Owner, annotation: string, ingresses: seq<LbIngress>, i: nat,
      quiet: bool, unchanging: bool)
    requires Stand(w, v, o, annotation, ingresses, i, quiet, unchanging) && i < |ingresses|
    ensures quiet ==>
              && (Served(v, o, annotation, ingresses[i]) <==> Satisfiable(w, o, annotation, ingresses[..i + 1]))
              && (Satisfiable(w, o, annotation, ingresses) ==> Satisfiable(w, o, annotation, ingresses[..i + 1]))
    ensures unchanging && DetectCloudProvider(ingresses[i].hostname) == Aws ==>
              && HasAccelerator(ingresses[i]) && (forall h | h in Split(annotation, ',') :: OneWildcard(h))
              && AllSynced(v.zones, v.sets, o, Split(annotation, ','), ingresses[i].accelerators.value[0])
  {
    hide Unchanging, Progress, AllSynced, DetectCloudProvider, Split, Satisfiable, Served, OneWildcard;
    if quiet {
      NextIsReady(w, v, o, annotation, ingresses, i);
    }
    if unchanging && DetectCloudProvider(ingresses[i].hostname) == Aws {
      UnchangingHere(v, o, annotation, ingresses, ingresses[i]);
    }
  }

  lemma StandNext(
      w: World, v: World, v': World, o: Owner, annotation: string, ingresses: seq<LbIngress>, i: nat, quiet: bool,
      unchanging: bool)
    requires Stand(w, v, o, annotation, ingresses, i, quiet, unchanging) && i < |ingresses| && v'.zones == v.zones
    requires quiet ==> Satisfiable(w, o, annotation, ingresses[..i + 1])
    requires if DetectCloudProvider(ingresses[i].hostname) == Aws then
               && HasAccelerator(ingresses[i])
               && AllSynced(v'.zones, v'.sets, o, Split(annotation, ','), ingresses[i].accelerators.value[0])
             else v' == v
    ensures Stand(w, v', o, annotation, ingresses, i + 1, quiet, unchanging)
  {
    hide Unchanging, Progress, AllSynced, DetectCloudProvider, Split, Satisfiable;
    assert ingresses[..i + 1][..i] == ingresses[..i];
    if quiet {
      NextIsServed(w, v, v', o, annotation, ingresses, i);
    }
    if unchanging && DetectCloudProvider(ingresses[i].hostname) == Aws {
      StaysUnchanging(v, v', o, annotation, ingresses, ingresses[i]);
    }
  }

  lemma StandLast(
      w: World, v: World, o: Owner, annotation: string, ingresses: seq<LbIngress>, quiet: bool, unchanging: bool)
    requires Stand(w, v, o, annotation, ingresses, |ingresses|, quiet, unchanging)
    ensures quiet ==> Satisfiable(w, o, annotation, ingresses)
    ensures LastDns(ingresses).Some? ==>
              AllSynced(v.zones, v.sets, o, Split(annotation, ','), LastDns(ingresses).value)
  {
    hide Unchanging, Progress, AllSynced, Split, Satisfiable;
    assert ingresses[..|ingresses|] == ingresses;
    if quiet {
      ProgressIsSatisfiable(w, v, o, annotation, ingresses);
    }
  }

  /** The loop over the load balancers of an annotated object. */
  method ServeAll(
      g: GA.AcceleratorClient, c: Route53Client, annotation: string, lbs: seq<string>, dnsName: string -> string)
    returns (r: ProcessResult)
    requires g.Valid() && c.Valid() && Resting(PcOf(c.world, g.o))
    modifies g, c
    ensures g.Valid() && c.Valid() && Resting(PcOf(c.world, g.o))
    ensures r == Success && LastAws(lbs).Some? ==>
              PointsToMatch(g, |old(g.trace)|, LastAws(lbs).value, c.world, Split(annotation, ','), dnsName)
    ensures r != Success ==> exists k :: StopsAt(old(g.store), g.o.cluster, g.quiet, lbs, k, r)
    ensures r == Success ==>
              forall k | 0 <= k < |lbs| && DetectCloudProvider(lbs[k]) == Aws ::
                && LbNameAndRegion(lbs[k]).Some?
                && (g.quiet ==> HasAccelerator(Expected(old(g.store), g.o.cluster, dnsName, lbs[k])))
    ensures g.quiet ==>
              var ingresses := ExpectedAll(old(g.store), g.o.cluster, dnsName, lbs);
              && (Unchanging(old(c.world), g.o, annotation, ingresses) ==> c.changes == old(c.changes))
              && (c.quiet ==> (r == Success <==> Satisfiable(old(c.world), g.o, annotation, ingresses)))
              && (r == Success && LastDns(ingresses).Some? ==>
                    AllSynced(c.world.zones, c.world.sets, g.o, Split(annotation, ','), LastDns(ingresses).value))
  {
    hide AllSynced, DetectCloudProvider, LbNameAndRegion, OneWildcard, PcOf, Split, Unchanging, LastDns;
    hide Satisfiable, Stand, AllReady, Answerable, PointsToMatch, Expected, ExpectedAll, HasAccelerator, Resting;
    hide Waits;
    hide GA.AcceleratorClient.Valid, Route53Client.Valid;
    var hostnames := Split(annotation, ',');
    ghost var o, w := g.o, c.world;
    ghost var ingresses := ExpectedAll(g.store, o.cluster, dnsName, lbs);
    ghost var unchanging := Unchanging(w, o, annotation, ingresses);
    StandFirst(w, o, annotation, ingresses, c.quiet, unchanging);
    for i := 0 to |lbs|
      invariant g.Valid() && c.Valid() && Resting(PcOf(c.world, o)) && c.world.zones == w.zones
      invariant old(g.trace) <= g.trace && (g.quiet ==> g.store == old(g.store))
      invariant LastAws(lbs[..i]).Some? ==>
                  PointsToMatch(g, |old(g.trace)|, LastAws(lbs[..i]).value, c.world, hostnames, dnsName)
      invariant forall k | 0 <= k < i && DetectCloudProvider(lbs[k]) == Aws ::
                  && LbNameAndRegion(lbs[k]).Some?
                  && (g.quiet ==> HasAccelerator(Expected(old(g.store), o.cluster, dnsName, lbs[k])))
      invariant forall k | 0 <= k < i :: '.' in lbs[k] && (g.quiet ==> !Waits(old(g.store), o.cluster, lbs[k]))
      invariant g.quiet ==> Stand(w, c.world, o, annotation, ingresses, i, c.quiet, unchanging)
      invariant g.quiet && unchanging ==> c.changes == old(c.changes)
    {
      assert lbs[..i + 1][..i] == lbs[..i];
      if g.quiet { StandHere(w, c.world, o, annotation, ingresses, i, c.quiet, unchanging); }
      ghost var before, seen := c.world, g.trace;
      r := ServeOne(g, c, lbs[i], hostnames, dnsName);
      if r != Success {
        assert StopsAt(old(g.store), o.cluster, g.quiet, lbs, i, r);
        return;
      }
      if DetectCloudProvider(lbs[i]) == Aws {
        PointsSinceEarlier(g, |seen|, |old(g.trace)|, lbs[i], c.world, hostnames, dnsName);
      }
      if g.quiet { StandNext(w, before, c.world, o, annotation, ingresses, i, c.quiet, unchanging); }
    }
    assert lbs[..|lbs|] == lbs;
    if g.quiet { StandLast(w, c.world, o, annotation, ingresses, c.quiet, unchanging); }
    r := Success;
  }

  lemma PointsSinceEarlier(
      g: GA.AcceleratorClient, from: nat, earlier: nat, hostname: string, w: World, hostnames: seq<string>,
      dnsName: string -> string)
    requires PointsToMatch(g, from, hostname, w, hostnames, dnsName) && earlier <= from
    ensures PointsToMatch(g, earlier, hostname, w, hostnames, dnsName)
  {
    hide AllSynced, GA.WasMatched;
    var a :| GA.WasMatched(g.start, g.trace, from, g.o.cluster, hostname, a)
             && AllSynced(w.zones, w.sets, g.o, hostnames, dnsName(a));
    GA.WasMatchedLater(g.start, g.trace, g.trace, from, g.o.cluster, hostname, a);
  }

  lemma NothingServedYet(w: World, o: Owner, annotation: string)
    ensures Progress(w, w, o, annotation, [])
  {
    hide AllReady, Split;
  }

  lemma ReadySucceeds(c: Route53Client, o: Owner, hostnames: seq<string>, dns: string)
    requires c.Valid()
    ensures EnsureHosts(c.world.zones, c.world.sets, o, hostnames, dns).Some? <==>
            AllReady(c.world.zones, c.world.sets, o, hostnames)
  {
    hide AllReady, EnsureHosts;
    c.ValidMeansInv();
    ZonesDistinct(c.world);
    EnsureSucceedsExactly(c.world.zones, c.world.sets, o, hostnames, dns);
  }

  lemma CleanedRests(w: World, o: Owner)
    ensures PcOf(w, o) == Cleaned ==> Resting(PcOf(w, o))
  {
  }
}
