/** What ensureRoute53 and CleanupRecordSet do to a store that nobody else touches while every call succeeds. */
module Route53Sequential {
  import opened Strings
  import opened OwnerValues
  import opened RecordNames
  import opened HostedZones
  import opened Route53Store

  /** One hostname: None when a CREATE is rejected or no zone is found. */
  function EnsureHost(zones: seq<HostedZone>, sets: Sets, o: Owner, hostname: string, dns: string): Option<Sets> {
    match ZoneOf(zones, hostname)
    case None => None
    case Some(z) =>
      var text, alias := Key(z.id, Stored(hostname), TXT), Key(z.id, Stored(hostname), A);
      if Recognised(sets, z.id, hostname, o) then Some(sets[alias := Alias(dns + ".")])
      else if text in sets || alias in sets then None
      else Some(sets[text := OwnerText(o)][alias := Alias(dns + ".")])
  }

  function EnsureHosts(zones: seq<HostedZone>, sets: Sets, o: Owner, hostnames: seq<string>, dns: string): Option<Sets>
    decreases |hostnames|
  {
    if hostnames == [] then Some(sets)
    else
      match EnsureHost(zones, sets, o, hostnames[0], dns)
      case None => None
      case Some(next) => EnsureHosts(zones, next, o, hostnames[1..], dns)
  }

  /** Both the owner's TXT record and an alias, or neither a TXT nor an A set. */
  predicate Paired(sets: Sets, zone: string, hostname: string, o: Owner) {
    var text, alias := Key(zone, Stored(hostname), TXT), Key(zone, Stored(hostname), A);
    || Recognised(sets, zone, hostname, o)
    || (text !in sets && alias !in sets)
  }

  predicate SameName(zones: seq<HostedZone>, g: string, h: string) {
    ZoneOf(zones, g) == ZoneOf(zones, h) && Stored(g) == Stored(h)
  }

  /** The condition on the store before the call under which hostname i will be synced. */
  predicate Ready(zones: seq<HostedZone>, sets: Sets, o: Owner, hostnames: seq<string>, i: nat)
    requires i < |hostnames|
  {
    var z := ZoneOf(zones, hostnames[i]);
    && z.Some? && Paired(sets, z.value.id, hostnames[i], o)
    && (OneWildcard(hostnames[i]) || NotBefore(zones, hostnames, i))
  }

  predicate AllReady(zones: seq<HostedZone>, sets: Sets, o: Owner, hostnames: seq<string>) {
    forall i | 0 <= i < |hostnames| :: Ready(zones, sets, o, hostnames, i)
  }

  /** No earlier hostname has the same stored name. */
  predicate NotBefore(zones: seq<HostedZone>, hostnames: seq<string>, i: nat)
    requires i < |hostnames|
  {
    forall j | 0 <= j < i :: !SameName(zones, hostnames[j], hostnames[i])
  }

  /** The hostname's zone holds the owner's TXT record and an alias of the accelerator at its name. */
  predicate SyncedHost(zones: seq<HostedZone>, sets: Sets, o: Owner, hostname: string, dns: string) {
    var z := ZoneOf(zones, hostname);
    && z.Some?
    && Holds(sets, z.value.id, Stored(hostname), o)
    && Key(z.value.id, Stored(hostname), A) in sets
    && sets[Key(z.value.id, Stored(hostname), A)] == Alias(dns + ".")
  }

  predicate AllSynced(zones: seq<HostedZone>, sets: Sets, o: Owner, hostnames: seq<string>, dns: string) {
    forall h | h in hostnames :: SyncedHost(zones, sets, o, h, dns)
  }

  lemma NotBeforeTail(zones: seq<HostedZone>, hs: seq<string>, i: nat)
    requires 0 < i < |hs|
    ensures NotBefore(zones, hs, i) <==> !SameName(zones, hs[0], hs[i]) && NotBefore(zones, hs[1..], i - 1)
  {
    var t := hs[1..];
    if !SameName(zones, hs[0], hs[i]) && NotBefore(zones, t, i - 1) {
      forall j | 0 <= j < i
        ensures !SameName(zones, hs[j], hs[i])
      {
        if 0 < j { assert hs[j] == t[j - 1]; }
      }
    }
  }

  /** Syncing one hostname leaves the readiness of hostnames with other names as it was. */
  lemma PairedElsewhere(zones: seq<HostedZone>, sets: Sets, next: Sets, o: Owner, g: string, h: string, dns: string)
    requires DistinctIds(zones) && EnsureHost(zones, sets, o, g, dns) == Some(next)
    requires ZoneOf(zones, h).Some? && !SameName(zones, g, h)
    ensures var z := ZoneOf(zones, h).value.id; Paired(sets, z, h, o) <==> Paired(next, z, h, o)
  {
    var y, z := ZoneOf(zones, g).value, ZoneOf(zones, h).value;
    assert y in zones && z in zones by {
      ZoneOfIsNearest(zones, g);
      ZoneOfIsNearest(zones, h);
    }
    SameIdSameZone(zones, y, z);
    var text, alias := Key(z.id, Stored(h), TXT), Key(z.id, Stored(h), A);
    assert Key(y.id, Stored(g), TXT) != text && Key(y.id, Stored(g), A) != alias;
    SameAt(sets, next, z.id, h, o);
  }

  lemma SameAt(sets: Sets, next: Sets, zone: string, h: string, o: Owner)
    requires var text := Key(zone, Stored(h), TXT);
             (text in sets <==> text in next) && (text in sets ==> sets[text] == next[text])
    requires var alias := Key(zone, Stored(h), A);
             (alias in sets <==> alias in next) && (alias in sets ==> sets[alias] == next[alias])
    ensures Paired(sets, zone, h, o) <==> Paired(next, zone, h, o)
  {
  }

  lemma PairedHere(zones: seq<HostedZone>, sets: Sets, next: Sets, o: Owner, g: string, h: string, dns: string)
    requires EnsureHost(zones, sets, o, g, dns) == Some(next)
    requires ZoneOf(zones, h).Some? && SameName(zones, g, h)
    ensures var z := ZoneOf(zones, h).value.id;
            && (Findable(h) ==> Paired(sets, z, h, o))
            && (Paired(next, z, h, o) <==> Findable(h))
  {
  }

  lemma ReadyAfterFirst(zones: seq<HostedZone>, sets: Sets, next: Sets, o: Owner, hs: seq<string>, dns: string, i: nat)
    requires 0 < i < |hs| && DistinctIds(zones)
    requires EnsureHost(zones, sets, o, hs[0], dns) == Some(next)
    ensures Ready(zones, sets, o, hs, i) <==> Ready(zones, next, o, hs[1..], i - 1)
  {
    assert hs[1..][i - 1] == hs[i];
    if ZoneOf(zones, hs[i]).Some? {
      NotBeforeTail(zones, hs, i);
      FindableExactly(hs[i]);
      if SameName(zones, hs[0], hs[i]) {
        PairedHere(zones, sets, next, o, hs[0], hs[i], dns);
      } else {
        PairedElsewhere(zones, sets, next, o, hs[0], hs[i], dns);
      }
    }
  }

  /**
   * An undisturbed run of ensureRoute53 succeeds exactly when each hostname has a zone, has both of its
   * records or neither, and, with more than one wildcard, is not asked for again.
   */
  lemma {:induction false} EnsureSucceedsExactly(
      zones: seq<HostedZone>, sets: Sets, o: Owner, hs: seq<string>, dns: string)
    requires DistinctIds(zones)
    ensures EnsureHosts(zones, sets, o, hs, dns).Some? <==> AllReady(zones, sets, o, hs)
    decreases |hs|
  {
    if hs != [] {
      var next := EnsureHost(zones, sets, o, hs[0], dns);
      assert next.Some? <==> Ready(zones, sets, o, hs, 0);
      if next.Some? {
        EnsureSucceedsExactly(zones, next.value, o, hs[1..], dns);
        AllReadyAfterFirst(zones, sets, next.value, o, hs, dns);
      }
    }
  }

  lemma AllReadyAfterFirst(zones: seq<HostedZone>, sets: Sets, next: Sets, o: Owner, hs: seq<string>, dns: string)
    requires hs != [] && DistinctIds(zones) && Ready(zones, sets, o, hs, 0)
    requires EnsureHost(zones, sets, o, hs[0], dns) == Some(next)
    ensures AllReady(zones, sets, o, hs) <==> AllReady(zones, next, o, hs[1..])
  {
    forall i | 0 < i < |hs|
      ensures Ready(zones, sets, o, hs, i) <==> Ready(zones, next, o, hs[1..], i - 1)
    {
      ReadyAfterFirst(zones, sets, next, o, hs, dns, i);
    }
    if AllReady(zones, sets, o, hs) {
      forall j | 0 <= j < |hs[1..]|
        ensures Ready(zones, next, o, hs[1..], j)
      {
        assert Ready(zones, sets, o, hs, j + 1);
      }
    }
  }

  /*** Cleanup ***/

  predicate Survives(sets: Sets, k: Key, o: Owner)
    requires k in sets
  {
    && !Carries(sets[k], Route53OwnerValue(o))
    && !(sets[k].Alias? && Holds(sets, k.zone, k.name, o))
  }

  /** The store without the owner's TXT records and the aliases at their names. */
  function WithoutOwner(sets: Sets, o: Owner): Sets {
    map k | k in sets && Survives(sets, k, o) :: sets[k]
  }

  /** The owner's TXT record lies at the name, but no A set. */
  predicate Orphaned(sets: Sets, zone: string, name: string, o: Owner) {
    Holds(sets, zone, name, o) && Key(zone, name, A) !in sets
  }

  /** The hostname's own name is orphaned. */
  predicate OrphanedHost(zones: seq<HostedZone>, sets: Sets, o: Owner, hostname: string) {
    var z := ZoneOf(zones, hostname);
    z.Some? && Orphaned(sets, z.value.id, Stored(hostname), o)
  }

  /** A TXT record without an alias makes an undisturbed round of its hostname fail. */
  lemma OrphanTextBlocks(zones: seq<HostedZone>, sets: Sets, o: Owner, hostname: string, dns: string)
    requires OrphanedHost(zones, sets, o, hostname)
    ensures EnsureHost(zones, sets, o, hostname, dns).None?
  {
  }

  /** After a cleanup the hostname can be synced exactly when nobody else has a TXT or A set there. */
  lemma CleanupUnblocks(zones: seq<HostedZone>, sets: Sets, o: Owner, hostname: string, dns: string)
    requires CleanStore(sets) && ZoneOf(zones, hostname).Some?
    requires Holds(sets, ZoneOf(zones, hostname).value.id, Stored(hostname), o)
    ensures var alias := Key(ZoneOf(zones, hostname).value.id, Stored(hostname), A);
            EnsureHost(zones, WithoutOwner(sets, o), o, hostname, dns).Some? <==>
            (alias in sets ==> sets[alias].Alias?)
  {
    var z := ZoneOf(zones, hostname).value.id;
    var text, alias := Key(z, Stored(hostname), TXT), Key(z, Stored(hostname), A);
    assert Carries(sets[text], Route53OwnerValue(o));
    assert text !in WithoutOwner(sets, o);
    if alias in sets && !sets[alias].Alias? {
      assert !Carries(sets[alias], Route53OwnerValue(o));
      assert alias in WithoutOwner(sets, o);
    }
  }
}
