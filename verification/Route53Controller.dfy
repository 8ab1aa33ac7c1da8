/**
 * ensureRoute53 and CleanupRecordSet of pkg/cloudprovider/aws/route53.go as written, running against a
 * store that other owners and outsiders change between any two calls, with any call free to fail.
 */
module Route53Controller {
  import opened Strings
  import opened OwnerValues
  import opened RecordNames
  import opened HostedZones
  import opened Route53Store
  import opened Route53Protocol
  import opened Route53Safety
  import opened Route53Sequential

  /** The one change of a ChangeResourceRecordSets call. */
  datatype Change = Create(key: Key, data: Data) | Upsert(key: Key, data: Data) | Remove(key: Key, data: Data)

  /** Route 53: CREATE needs the set to be absent, DELETE needs the exact set, UPSERT always writes. */
  function ApplyChange(sets: Sets, c: Change): Option<Sets> {
    match c
    case Create(k, d) => if k in sets then None else Some(sets[k := d])
    case Upsert(k, d) => Some(sets[k := d])
    case Remove(k, d) => if k in sets && sets[k] == d then Some(sets - {k}) else None
  }

  /** The change that the protocol allows the owner next. */
  function NextChange(w: World, o: Owner): Option<Change> {
    match PcOf(w, o)
    case WriteText(todo, _, z) => if todo == [] then None else Some(Create(Key(z, Stored(todo[0]), TXT), OwnerText(o)))
    case WriteAlias(todo, dns, z) =>
      if todo == [] then None else Some(Create(Key(z, Stored(todo[0]), A), Alias(dns + ".")))
    case UpdateAlias(todo, dns, z) =>
      if todo == [] then None else Some(Upsert(Key(z, Stored(todo[0]), A), Alias(dns + ".")))
    case DropAliases(_, list) => if list == [] then None else Some(Remove(list[0].key, list[0].data))
    case DropTexts(_, list) => if list == [] then None else Some(Remove(list[0].key, list[0].data))
    case _ => None
  }

  /** What ensureRoute53 hands back: an error, a retry in a minute, or success. */
  datatype EnsureResult = Failed | RetryLater | Done(created: bool)

  /** created tells whether there are record sets that were not there before. */
  ghost predicate Grown(sets: Sets, sets': Sets, created: bool) {
    sets.Keys <= sets'.Keys && (created <==> sets.Keys != sets'.Keys)
  }

  lemma NotGrown(sets: Sets)
    ensures Grown(sets, sets, false)
  {
  }

  lemma ExecAppend(w: World, trace: seq<Action>, a: Action)
    requires Legal(w, trace) && Enabled(Exec(w, trace), a)
    ensures Legal(w, trace + [a])
    ensures Exec(w, trace + [a]) == Apply(Exec(w, trace), a)
  {
    assert (trace + [a])[..|trace|] == trace;
  }

  /** Other owners can neither break nor forge what the owner has synced. */
  lemma SyncedSurvives(w: World, w': World, o: Owner, hostname: string, dns: string)
    requires Untouched(w, w', o) && SyncedHost(w.zones, w.sets, o, hostname, dns)
    ensures SyncedHost(w'.zones, w'.sets, o, hostname, dns)
  {
    var z := ZoneOf(w.zones, hostname).value.id;
    var text, alias := Key(z, Stored(hostname), TXT), Key(z, Stored(hostname), A);
    assert Holds(w.sets, text.zone, text.name, o) && Holds(w.sets, alias.zone, alias.name, o);
  }

  class Route53Client {
    const quiet: bool              // nobody interferes and every call reaches Route 53
    ghost const start: World
    ghost var trace: seq<Action>   // every action since start, whoever took it
    var world: World
    var changes: nat               // ChangeResourceRecordSets calls issued by this client

    ghost predicate Valid()
      reads this
    {
      Inv(start) && Legal(start, trace) && world == Exec(start, trace) && Inv(world)
    }

    constructor (w: World, quiet: bool)
      requires Inv(w)
      ensures Valid() && world == w && start == w && this.quiet == quiet && changes == 0
    {
      this.quiet := quiet;
      start, world, trace, changes := w, w, [], 0;
    }

    lemma ValidMeansInv()
      requires Valid()
      ensures Inv(world)
    {
    }

    method Take(a: Action)
      requires Valid() && Enabled(world, a)
      modifies this`world, this`trace
      ensures Valid() && world == Apply(old(world), a)
    {
      ExecAppend(start, trace, a);
      StepKeepsInv(world, a);
      world, trace := Apply(world, a), trace + [a];
    }

    /** Any number of actions of others. */
    method Interfere(o: Owner)
      requires Valid()
      modifies this`world, this`trace
      ensures Valid() && Untouched(old(world), world, o)
      ensures quiet ==> world == old(world)
    {
      var n: nat := *;
      while !quiet && 0 < n
        invariant Valid() && Untouched(old(world), world, o)
        invariant quiet ==> world == old(world)
        decreases n
      {
        var a: Action := *;
        if Enabled(world, a) && !By(a, o) {
          StepIsolates(world, a, o);
          UntouchedTransitive(old(world), world, Apply(world, a), o);
          Take(a);
        }
        n := n - 1;
      }
    }

    /** The owner's call starts now, or fails without effect. The world it meets is met. */
    method Attempt(o: Owner) returns (ok: bool, ghost met: World)
      requires Valid()
      modifies this`world, this`trace
      ensures Valid() && world.zones == old(world.zones) && Untouched(old(world), met, o) && Inv(met)
      ensures ok ==> world == met
      ensures !ok ==> PcOf(world, o) == Idle && !quiet
      ensures quiet ==> met == old(world)
    {
      Interfere(o);
      met := world;
      ok := true;
      if !quiet {
        ok := *;
        if !ok {
          Take(Abort(o));
        }
      }
    }

    /** listRecordSets: every set of the zone once, in some order. */
    method ListRecordSets(o: Owner, zone: string) returns (ok: bool, l: seq<Entry>, ghost met: World)
      requires Valid() && ListedZone(world, o) == Some(zone)
      requires PcOf(world, o).DropAliases? ==> PcOf(world, o).rest != []
      modifies this`world, this`trace
      ensures Valid() && world.zones == old(world.zones) && Untouched(old(world), met, o) && Inv(met)
      ensures ok ==> IsListing(met.sets, zone, l) && world == Perform(met, o, l)
      ensures !ok ==> PcOf(world, o) == Idle && !quiet
      ensures quiet ==> met == old(world)
    {
      hide Route53OwnerValue, Inv, Exec, Legal;
      ok, met := Attempt(o);
      l := [];
      if ok {
        l := ListZone(world.sets, zone);
        Take(Call(o, l));
      }
    }

    /** ChangeResourceRecordSets with a single change. */
    method ChangeRecordSets(o: Owner, c: Change) returns (ok: bool, ghost met: World)
      requires Valid() && NextChange(world, o) == Some(c)
      modifies this`world, this`trace, this`changes
      ensures Valid() && world.zones == old(world.zones) && Untouched(old(world), met, o) && Inv(met)
      ensures changes == old(changes) + 1
      ensures ok ==> ApplyChange(met.sets, c) == Some(world.sets) && world == Perform(met, o, [])
      ensures !ok ==> PcOf(world, o) == Idle
      ensures quiet ==> met == old(world) && (ok <==> ApplyChange(met.sets, c).Some?)
      ensures quiet && !ok ==> world.sets == met.sets
    {
      hide Route53OwnerValue, Inv, Exec, Legal;
      changes := changes + 1;
      ok, met := Attempt(o);
      if ok {
        ok := ApplyChange(world.sets, c).Some?;
        Take(Call(o, []));
      }
    }

    /** FindOwneredARecordSets, after its listing */
    method FindOwneredARecordSets(recordSets: seq<Entry>, ownerValue: string) returns (resultSets: seq<Entry>)
      ensures resultSets == OwnedAliases(recordSets, ownerValue)
    {
      var hostnames: seq<string> := [];
      for i := 0 to |recordSets|
        invariant forall n :: n in hostnames <==> n in OwnerNames(recordSets[..i], ownerValue)
      {
        var recordSet := recordSets[i];
        assert recordSets[..i + 1] == recordSets[..i] + [recordSet];
        if recordSet.data.Values? {
          for j := 0 to |recordSet.data.values|
            invariant forall n :: n in hostnames <==>
              || n in OwnerNames(recordSets[..i], ownerValue)
              || (n == recordSet.key.name && ownerValue in recordSet.data.values[..j])
          {
            if recordSet.data.values[j] == ownerValue {
              hostnames := hostnames + [recordSet.key.name];
            }
          }
          assert recordSet.data.values[..|recordSet.data.values|] == recordSet.data.values;
        }
        OwnerNamesAppend(recordSets[..i], recordSet, ownerValue);
      }
      assert recordSets[..|recordSets|] == recordSets;
      resultSets := [];
      for i := 0 to |recordSets|
        invariant resultSets == AliasesAt(recordSets[..i], OwnerNames(recordSets, ownerValue))
      {
        assert recordSets[..i + 1] == recordSets[..i] + [recordSets[i]];
        AliasesAtAppend(recordSets[..i], recordSets[i], OwnerNames(recordSets, ownerValue));
        if recordSets[i].key.name in hostnames && recordSets[i].data.Alias? {
          resultSets := resultSets + [recordSets[i]];
        }
      }
    }

    /** findOwneredMetadataRecordSets, after its listing */
    method FindOwneredMetadataRecordSets(recordSets: seq<Entry>, ownerValue: string) returns (result: seq<Entry>)
      ensures result == OwnedTexts(recordSets, ownerValue)
    {
      hide OwnedTexts;
      result := [];
      OwnedTextsEmpty(ownerValue);
      for i := 0 to |recordSets|
        invariant result == OwnedTexts(recordSets[..i], ownerValue)
      {
        var recordSet := recordSets[i];
        assert recordSets[..i + 1] == recordSets[..i] + [recordSet];
        OwnedTextsAppend(recordSets[..i], recordSet, ownerValue);
        if recordSet.data.Values? {
          var values := recordSet.data.values;
          for j := 0 to |values|
            invariant result == OwnedTexts(recordSets[..i], ownerValue)
                                + Repeat(recordSet, Occurrences(values[..j], ownerValue))
          {
            OccurrencesAppend(values[..j], values[j], ownerValue);
            assert values[..j + 1] == values[..j] + [values[j]];
            if values[j] == ownerValue {
              RepeatOneMore(recordSet, Occurrences(values[..j], ownerValue));
              result := result + [recordSet];
            }
          }
          assert values[..|values|] == values;
        }
      }
      assert recordSets[..|recordSets|] == recordSets;
    }

    /** The first call of a round: which record of the hostname, if any, is the owner's. */
    method LookUp(o: Owner, zone: string, hostname: string, dns: string, ghost todo: seq<string>)
      returns (ok: bool, record: Option<Entry>, ghost met: World)
      requires Valid() && PcOf(world, o) == Hosts(todo, dns) && todo != [] && todo[0] == hostname
      requires ZoneOf(world.zones, hostname).Some? && ZoneOf(world.zones, hostname).value.id == zone
      modifies this`world, this`trace
      ensures Valid() && world.zones == old(world.zones) && Untouched(old(world), met, o)
      ensures ok ==> record.Some? == Recognised(met.sets, zone, hostname, o)
      ensures ok && record.Some? ==> Key(zone, Stored(hostname), A) in met.sets
                                     && met.sets[Key(zone, Stored(hostname), A)] == record.value.data
      ensures ok ==> world == At(met, o,
                       if record.None? then WriteText(todo, dns, zone)
                       else if NeedRecordsUpdate(record.value.data, dns) then UpdateAlias(todo, dns, zone)
                       else Hosts(todo[1..], dns))
      ensures !ok ==> PcOf(world, o) == Idle && !quiet
      ensures quiet ==> met == old(world)
    {
      hide Inv, Exec, Legal, Route53OwnerValue;
      var l;
      record := None;
      ok, l, met := ListRecordSets(o, zone);
      if ok {
        LookupMeets(met, zone, l, hostname, o);
        var records := FindOwneredARecordSets(l, Route53OwnerValue(o));
        record := FindARecord(records, hostname);
      }
    }

    /** createMetadataRecordSet, then createRecordSet */
    method CreatePair(o: Owner, zone: string, hostname: string, dns: string, ghost todo: seq<string>) returns (ok: bool)
      requires Valid() && PcOf(world, o) == WriteText(todo, dns, zone) && todo != [] && todo[0] == hostname
      requires ZoneOf(world.zones, hostname).Some? && ZoneOf(world.zones, hostname).value.id == zone
      modifies this`world, this`trace, this`changes
      ensures Valid() && world.zones == old(world.zones)
      ensures PcOf(world, o) == if ok then Hosts(todo[1..], dns) else Idle
      ensures ok ==> SyncedHost(world.zones, world.sets, o, hostname, dns) && Keeps(old(world), world, o, dns)
      ensures ok ==> OrphansStay(old(world).sets, world.sets, o)
      ensures quiet ==>
                var text, alias := Key(zone, Stored(hostname), TXT), Key(zone, Stored(hostname), A);
                && (ok <==> text !in old(world.sets) && alias !in old(world.sets))
                && (ok ==> world.sets == old(world.sets)[text := OwnerText(o)][alias := Alias(dns + ".")])
                && (ok ==> Grown(old(world.sets), world.sets, true))
    {
      hide Inv, Exec, Legal, Route53OwnerValue, OrphansStay;
      ghost var met;
      ok, met := ChangeRecordSets(o, Create(Key(zone, Stored(hostname), TXT), OwnerText(o)));
      if ok {
        WroteText(old(world), met, world, o);
        ghost var between, met0 := world, met;
        ok, met := ChangeRecordSets(o, Create(Key(zone, Stored(hostname), A), Alias(dns + ".")));
        if ok {
          WroteAlias(between, met, world, o);
          PairKeepsOrphans(old(world), met0, between, met, world, zone, Stored(hostname), o);
        }
      }
    }

    /** updateRecordSet */
    method PointAlias(o: Owner, zone: string, hostname: string, dns: string, ghost todo: seq<string>) returns (ok: bool)
      requires Valid() && PcOf(world, o) == UpdateAlias(todo, dns, zone) && todo != [] && todo[0] == hostname
      requires ZoneOf(world.zones, hostname).Some? && ZoneOf(world.zones, hostname).value.id == zone
      requires Holds(world.sets, zone, Stored(hostname), o)
      modifies this`world, this`trace, this`changes
      ensures Valid() && world.zones == old(world.zones)
      ensures PcOf(world, o) == if ok then Hosts(todo[1..], dns) else Idle
      ensures ok ==> SyncedHost(world.zones, world.sets, o, hostname, dns) && Keeps(old(world), world, o, dns)
      ensures ok && Key(zone, Stored(hostname), A) in old(world.sets) ==> OrphansStay(old(world).sets, world.sets, o)
      ensures quiet ==> ok && world.sets == old(world.sets)[Key(zone, Stored(hostname), A) := Alias(dns + ".")]
      ensures quiet && Key(zone, Stored(hostname), A) in old(world.sets) ==> Grown(old(world.sets), world.sets, false)
    {
      hide Inv, Exec, Legal, Route53OwnerValue, OrphansStay;
      ghost var met;
      ok, met := ChangeRecordSets(o, Upsert(Key(zone, Stored(hostname), A), Alias(dns + ".")));
      if ok {
        WroteAlias(old(world), met, world, o);
        if Key(zone, Stored(hostname), A) in old(world.sets) {
          UpsertKeepsOrphans(old(world), met, world, zone, Stored(hostname), o);
        }
      }
    }

    /** One round of the loop over hostnames in ensureRoute53. */
    method SyncHostname(o: Owner, hostname: string, dns: string, ghost todo: seq<string>)
      returns (ok: bool, created: bool)
      requires Valid() && PcOf(world, o) == Hosts(todo, dns) && todo != [] && todo[0] == hostname
      modifies this`world, this`trace, this`changes
      ensures Valid() && world.zones == old(world.zones)
      ensures PcOf(world, o) == if ok then Hosts(todo[1..], dns) else Idle
      ensures ok ==> SyncedHost(world.zones, world.sets, o, hostname, dns) && Keeps(old(world), world, o, dns)
      ensures ok ==> OrphansStay(old(world).sets, world.sets, o)
      ensures quiet ==>
                var next := EnsureHost(old(world.zones), old(world.sets), o, hostname, dns);
                && (ok <==> next.Some?)
                && (ok ==> world.sets == next.value && Grown(old(world.sets), world.sets, created))
      ensures SyncedHost(old(world.zones), old(world.sets), o, hostname, dns) && OneWildcard(hostname) ==>
                changes == old(changes) && !created
    {
      hide Valid, Inv, Exec, Legal, Route53OwnerValue, Grown, Untouched, OrphansStay;
      created := false;
      NotGrown(world.sets);
      var hostedZone;
      ok, hostedZone := GetHostedZone(world.zones, hostname, quiet);
      if !ok {
        Take(Abort(o));
        return;
      }
      if hostedZone.None? {
        Take(Call(o, []));
        return false, false;
      }
      var zone := hostedZone.value.id;
      var record;
      ghost var met;
      ok, record, met := LookUp(o, zone, hostname, dns, todo);
      if !ok { return; }
      KeepsUntouched(old(world), met, o, dns);
      OrphansUntouched(old(world), met, o);
      OrphansStayAtFirst(met.sets, o);
      FindableExactly(hostname);
      ghost var between := world;
      if record.None? {
        ok := CreatePair(o, zone, hostname, dns, todo);
        created := ok;
      } else if NeedRecordsUpdate(record.value.data, dns) {
        ok := PointAlias(o, zone, hostname, dns, todo);
      }
      assert ok ==> Keeps(between, world, o, dns);
      if ok {
        OrphansStayOn(old(world).sets, met.sets, world.sets, o);
      }
    }

    /**
     * ensureRoute53. accelerators holds the DNS names of the accelerators found for the load balancer,
     * or None when the lookup failed.
     */
    method EnsureRoute53(o: Owner, accelerators: Option<seq<string>>, hostnames: seq<string>)
      returns (r: EnsureResult)
      requires Valid() && Resting(PcOf(world, o))
      modifies this`world, this`trace, this`changes
      ensures Valid() && world.zones == old(world.zones) && Resting(PcOf(world, o))
      ensures r.RetryLater? <==> accelerators.Some? && |accelerators.value| != 1
      ensures r.Done? ==> accelerators.Some? && |accelerators.value| == 1
      ensures r.Done? ==> AllSynced(world.zones, world.sets, o, hostnames, accelerators.value[0])
      ensures r.Done? ==> forall h | h in hostnames :: !OrphanedHost(old(world.zones), old(world.sets), o, h)
      ensures quiet && accelerators.Some? && |accelerators.value| == 1 ==>
                var next := EnsureHosts(old(world.zones), old(world.sets), o, hostnames, accelerators.value[0]);
                && (r.Done? <==> next.Some?)
                && (r.Done? ==> world.sets == next.value && Grown(old(world.sets), world.sets, r.created))
      ensures accelerators.Some? && |accelerators.value| == 1
              && AllSynced(old(world.zones), old(world.sets), o, hostnames, accelerators.value[0])
              && (forall h | h in hostnames :: OneWildcard(h)) ==>
                changes == old(changes) && (r.Done? ==> !r.created)
    {
      hide Valid, Inv, Route53OwnerValue, EnsureHost, SyncedHost, OrphanedHost, OrphansStay;
      OrphansStayAtFirst(world.sets, o);
      if accelerators.None? {
        return Failed;
      }
      if |accelerators.value| != 1 {
        return RetryLater;
      }
      var dns := accelerators.value[0];
      Take(BeginEnsure(o, hostnames, dns));
      var created := false;
      assert hostnames[0..] == hostnames;
      for i := 0 to |hostnames|
        invariant Valid() && world.zones == old(world.zones)
        invariant PcOf(world, o) == Hosts(hostnames[i..], dns)
        invariant forall j | 0 <= j < i :: SyncedHost(world.zones, world.sets, o, hostnames[j], dns)
        invariant Keeps(old(world), world, o, dns)
        invariant OrphansStay(old(world).sets, world.sets, o)
        invariant quiet ==>
                    EnsureHosts(old(world.zones), world.sets, o, hostnames[i..], dns)
                    == EnsureHosts(old(world.zones), old(world.sets), o, hostnames, dns)
        invariant quiet ==> Grown(old(world.sets), world.sets, created)
        invariant AllSynced(old(world.zones), old(world.sets), o, hostnames, dns)
                  && (forall h | h in hostnames :: OneWildcard(h)) ==>
                    changes == old(changes) && !created
      {
        ghost var before := world.sets;
        var ok, createdHere := SyncHostname(o, hostnames[i], dns, hostnames[i..]);
        if !ok {
          return Failed;
        }
        OrphansStayOn(old(world).sets, before, world.sets, o);
        created := created || createdHere;
        assert hostnames[i..][1..] == hostnames[i + 1..];
      }
      forall h | h in hostnames
        ensures !OrphanedHost(old(world.zones), old(world.sets), o, h)
      {
        SyncedWasNoOrphan(world.zones, old(world).sets, world.sets, o, h, dns);
      }
      Take(Call(o, []));
      return Done(created);
    }

    /** deleteRecord, for the first of the records still to delete */
    method DeleteRecord(o: Owner, e: Entry, ghost rest: seq<HostedZone>, ghost list: seq<Entry>) returns (ok: bool)
      requires Valid() && list != [] && list[0] == e
      requires PcOf(world, o) == DropTexts(rest, list) || PcOf(world, o) == DropAliases(rest, list)
      modifies this`world, this`trace, this`changes
      ensures Valid() && world.zones == old(world.zones)
      ensures PcOf(world, o) == if !ok then Idle
                                else if PcOf(old(world), o).DropTexts? then DropTexts(rest, list[1..])
                                else DropAliases(rest, list[1..])
      ensures quiet && CanDelete(old(world), e) ==> ok && world.sets == old(world.sets) - {e.key}
    {
      hide Inv, Exec, Legal, Route53OwnerValue, Holds, OwnedTexts, OwnedAliases;
      ghost var met;
      ok, met := ChangeRecordSets(o, Remove(e.key, e.data));
    }

    /** The deletions of one loop of CleanupRecordSet; the list is what the protocol still has to delete. */
    method DeleteAll(o: Owner, records: seq<Entry>, texts: bool, ghost rest: seq<HostedZone>) returns (ok: bool)
      requires Valid() && PcOf(world, o) == if texts then DropTexts(rest, records) else DropAliases(rest, records)
      requires quiet ==> DistinctKeys(records) && (forall e | e in records :: CanDelete(world, e))
      modifies this`world, this`trace, this`changes
      ensures Valid() && world.zones == old(world.zones)
      ensures PcOf(world, o) == if !ok then Idle else if texts then DropTexts(rest, []) else DropAliases(rest, [])
      ensures quiet ==> ok && world.sets == old(world.sets) - Keys(records)
    {
      hide Valid;
      for i := 0 to |records|
        invariant Valid() && world.zones == old(world.zones)
        invariant PcOf(world, o) == if texts then DropTexts(rest, records[i..]) else DropAliases(rest, records[i..])
        invariant quiet ==> world.sets == old(world.sets) - Keys(records[..i])
      {
        assert records[i..][1..] == records[i + 1..];
        KeysAppend(records, i);
        assert quiet ==> CanDelete(world, records[i]);
        ok := DeleteRecord(o, records[i], rest, records[i..]);
        if !ok { return; }
      }
      assert records[..|records|] == records;
      return true;
    }

    /** First half of a round: the aliases at the owner's names. */
    method DropOwnedAliases(o: Owner, zone: string, ghost rest: seq<HostedZone>) returns (ok: bool, ghost l: seq<Entry>)
      requires Valid() && PcOf(world, o) == Zones(rest) && rest != [] && rest[0].id == zone
      modifies this`world, this`trace, this`changes
      ensures Valid() && world.zones == old(world.zones)
      ensures PcOf(world, o) == if ok then DropAliases(rest, []) else Idle
      ensures quiet ==> ok && IsListing(old(world.sets), zone, l)
                        && world.sets == old(world.sets) - Keys(OwnedAliases(l, Route53OwnerValue(o)))
    {
      hide Inv, Exec, Legal, Route53OwnerValue;
      ghost var met;
      var recordSets;
      ok, recordSets, met := ListRecordSets(o, zone);
      l := recordSets;
      if !ok { return; }
      var records := FindOwneredARecordSets(recordSets, Route53OwnerValue(o));
      ListedOnce(met, zone, recordSets, o);
      ok := DeleteAll(o, records, false, rest);
    }

    /** Second half of a round: the owner's TXT records. */
    method DropOwnedTexts(o: Owner, zone: string, ghost rest: seq<HostedZone>) returns (ok: bool, ghost l: seq<Entry>)
      requires Valid() && PcOf(world, o) == DropAliases(rest, []) && rest != [] && rest[0].id == zone
      modifies this`world, this`trace, this`changes
      ensures Valid() && world.zones == old(world.zones)
      ensures PcOf(world, o) == if ok then DropTexts(rest, []) else Idle
      ensures quiet ==> ok && IsListing(old(world.sets), zone, l)
                        && world.sets == old(world.sets) - Keys(OwnedTexts(l, Route53OwnerValue(o)))
    {
      hide Inv, Exec, Legal, Route53OwnerValue;
      ghost var met;
      var recordSets;
      ok, recordSets, met := ListRecordSets(o, zone);
      l := recordSets;
      if !ok { return; }
      var records := FindOwneredMetadataRecordSets(recordSets, Route53OwnerValue(o));
      ListedOnce(met, zone, recordSets, o);
      ok := DeleteAll(o, records, true, rest);
    }

    /** One round of the loop over zones in CleanupRecordSet. */
    method CleanZone(o: Owner, zone: string, ghost rest: seq<HostedZone>) returns (ok: bool)
      requires Valid() && PcOf(world, o) == Zones(rest) && rest != [] && rest[0].id == zone
      modifies this`world, this`trace, this`changes
      ensures Valid() && world.zones == old(world.zones)
      ensures PcOf(world, o) == if ok then Zones(rest[1..]) else Idle
      ensures quiet ==> ok && CleanedZone(old(world.sets), world.sets, zone, o)
                        && SameElsewhere(old(world.sets), world.sets, zone)
    {
      hide Inv, Exec, Legal, Route53OwnerValue;
      ghost var l0, l1;
      ok, l0 := DropOwnedAliases(o, zone, rest);
      if !ok { return; }
      ghost var between := world;
      ok, l1 := DropOwnedTexts(o, zone, rest);
      if !ok { return; }
      if quiet {
        TwoPhasesClean(old(world), l0, between, l1, world.sets, zone, o);
      }
      Take(Call(o, []));
    }

    /** CleanupRecordSet */
    method CleanupRecordSet(o: Owner) returns (ok: bool)
      requires Valid() && Resting(PcOf(world, o))
      modifies this`world, this`trace, this`changes
      ensures Valid() && world.zones == old(world.zones)
      ensures PcOf(world, o) == if ok then Cleaned else Idle
      ensures ok ==> (forall k | k in world.sets :: !Carries(world.sets[k], Route53OwnerValue(o)))
      ensures ok ==> (forall k | k in world.authors :: world.authors[k] != o)
      ensures quiet ==> ok && world.sets == WithoutOwner(old(world.sets), o)
    {
      hide Valid, Inv, Route53OwnerValue, CleanedZone, SameElsewhere, CleanedUpTo;
      ghost var met;
      ValidMeansInv();
      ok, met := Attempt(o);
      if !ok { return; }
      Take(BeginCleanup(o));
      var zones := world.zones;
      NothingCleanedYet(world.sets, zones, o);
      assert zones[0..] == zones;
      for i := 0 to |zones|
        invariant Valid() && world.zones == old(world.zones) == zones
        invariant PcOf(world, o) == Zones(zones[i..])
        invariant quiet ==> CleanedUpTo(old(world.sets), world.sets, zones, i, o)
      {
        assert zones[i..][0] == zones[i] && zones[i..][1..] == zones[i + 1..];
        ghost var before := world.sets;
        ok := CleanZone(o, zones[i].id, zones[i..]);
        if !ok { return; }
        if quiet {
          ValidMeansInv();
          ZonesDistinct(world);
          CleanedInTurn(old(world.sets), before, world.sets, zones, i, o);
        }
      }
      Take(Call(o, []));
      ValidMeansInv();
      NothingLeft(world, o);
      if quiet {
        AllZonesCleaned(old(world), world.sets, o);
      }
      return true;
    }
  }

  method ListZone(sets: Sets, zone: string) returns (l: seq<Entry>)
    ensures IsListing(sets, zone, l)
  {
    var left := set k | k in sets && k.zone == zone;
    l := [];
    while left != {}
      invariant forall k | k in left :: k in sets && k.zone == zone
      invariant forall e | e in l :: e.key in sets && e.key.zone == zone && sets[e.key] == e.data && e.key !in left
      invariant forall k | k in sets && k.zone == zone :: k in left || Entry(k, sets[k]) in l
      invariant forall i, j | 0 <= i < j < |l| :: l[i].key != l[j].key
      decreases left
    {
      var k :| k in left;
      left := left - {k};
      l := l + [Entry(k, sets[k])];
    }
  }

  /*** Searching a listing item by item ***/

  lemma OwnerNamesAppend(l: seq<Entry>, e: Entry, value: string)
    ensures OwnerNames(l + [e], value) ==
            OwnerNames(l, value) + if Carries(e.data, value) then {e.key.name} else {}
  {
    assert forall x :: x in l + [e] <==> x in l || x == e;
  }

  lemma {:induction false} AliasesAtAppend(l: seq<Entry>, e: Entry, names: set<string>)
    ensures AliasesAt(l + [e], names) == AliasesAt(l, names) + AliasItem(e, names)
  {
    hide AliasItem;
    if l == [] {
      assert [e][1..] == [];
    } else {
      AliasesAtAppend(l[1..], e, names);
      assert (l + [e])[1..] == l[1..] + [e];
      assert AliasesAt(l + [e], names) == AliasItem(l[0], names) + (AliasesAt(l[1..], names) + AliasItem(e, names));
    }
  }

  lemma {:induction false} OwnedTextsAppend(l: seq<Entry>, e: Entry, value: string)
    ensures OwnedTexts(l + [e], value) == OwnedTexts(l, value) + TextItem(e, value)
  {
    hide TextItem;
    if l == [] {
      assert l + [e] == [e];
    } else {
      OwnedTextsAppend(l[1..], e, value);
      assert (l + [e])[1..] == l[1..] + [e];
      assert OwnedTexts(l + [e], value) == TextItem(l[0], value) + (OwnedTexts(l[1..], value) + TextItem(e, value));
    }
  }

  lemma OwnedTextsEmpty(value: string)
    ensures OwnedTexts([], value) == []
  {
  }

  lemma RepeatOneMore(e: Entry, n: nat)
    ensures Repeat(e, n + 1) == Repeat(e, n) + [e]
  {
  }

  lemma {:induction false} OccurrencesAppend(values: seq<string>, v: string, value: string)
    ensures Occurrences(values + [v], value) == Occurrences(values, value) + if v == value then 1 else 0
  {
    if values == [] {
      assert [v][1..] == [];
    } else {
      OccurrencesAppend(values[1..], v, value);
      assert (values + [v])[1..] == values[1..] + [v];
    }
  }

  /*** What the owner's own and other people's steps leave synced ***/

  /** Whatever hostname was synced still is. */
  ghost predicate Keeps(w: World, w': World, o: Owner, dns: string) {
    && w'.zones == w.zones
    && forall h | SyncedHost(w.zones, w.sets, o, h, dns) :: SyncedHost(w.zones, w'.sets, o, h, dns)
  }

  lemma KeepsUntouched(w: World, w': World, o: Owner, dns: string)
    requires Untouched(w, w', o)
    ensures Keeps(w, w', o, dns)
  {
    forall h | SyncedHost(w.zones, w.sets, o, h, dns)
      ensures SyncedHost(w.zones, w'.sets, o, h, dns)
    {
      SyncedSurvives(w, w', o, h, dns);
    }
  }

  lemma PutKeepsSynced(zones: seq<HostedZone>, sets: Sets, k: Key, d: Data, o: Owner, h: string, dns: string)
    requires k !in sets || (k.rtype == A && d == Alias(dns + "."))
    requires SyncedHost(zones, sets, o, h, dns)
    ensures SyncedHost(zones, sets[k := d], o, h, dns)
  {
  }

  lemma LookupMeets(met: World, zone: string, l: seq<Entry>, hostname: string, o: Owner)
    requires Inv(met) && IsListing(met.sets, zone, l)
    ensures var r := FindARecord(OwnedAliases(l, Route53OwnerValue(o)), hostname);
            && (r.Some? <==> Recognised(met.sets, zone, hostname, o))
            && (r.Some? ==> r.value.key == Key(zone, Stored(hostname), A)
                            && r.value.key in met.sets && met.sets[r.value.key] == r.value.data)
  {
    RecognisedExactly(met.sets, zone, l, hostname, o);
  }

  /** After an accepted CREATE of the TXT record the name is the owner's. */
  lemma WroteText(w: World, met: World, w': World, o: Owner)
    requires PcOf(w, o).WriteText? && PcOf(w, o).todo != []
    requires Untouched(w, met, o) && w' == Perform(met, o, []) && w'.sets != met.sets
    ensures var WriteText(todo, dns, zone) := PcOf(w, o);
            && PcOf(w', o) == WriteAlias(todo, dns, zone) && Keeps(w, w', o, dns)
            && Holds(w'.sets, zone, Stored(todo[0]), o)
  {
    hide Route53OwnerValue;
    var WriteText(todo, dns, zone) := PcOf(w, o);
    KeepsUntouched(w, met, o, dns);
    forall h | SyncedHost(w.zones, met.sets, o, h, dns)
      ensures SyncedHost(w.zones, w'.sets, o, h, dns)
    {
      PutKeepsSynced(w.zones, met.sets, Key(zone, Stored(todo[0]), TXT), OwnerText(o), o, h, dns);
    }
  }

  /** After the alias is written at a held name the hostname is synced. */
  lemma WroteAlias(w: World, met: World, w': World, o: Owner)
    requires (PcOf(w, o).WriteAlias? || PcOf(w, o).UpdateAlias?) && PcOf(w, o).todo != []
    requires Holds(w.sets, PcOf(w, o).zone, Stored(PcOf(w, o).todo[0]), o)
    requires Untouched(w, met, o) && w' == Perform(met, o, []) && PcOf(w', o) != Idle
    ensures var pc := PcOf(w, o);
            && PcOf(w', o) == Hosts(pc.todo[1..], pc.dns) && Keeps(w, w', o, pc.dns)
            && Holds(w'.sets, pc.zone, Stored(pc.todo[0]), o)
            && Key(pc.zone, Stored(pc.todo[0]), A) in w'.sets
            && w'.sets[Key(pc.zone, Stored(pc.todo[0]), A)] == Alias(pc.dns + ".")
  {
    hide Route53OwnerValue;
    var zone, todo, dns := PcOf(w, o).zone, PcOf(w, o).todo, PcOf(w, o).dns;
    KeepsUntouched(w, met, o, dns);
    HeldSurvives(w, met, zone, Stored(todo[0]), o);
    forall h | SyncedHost(w.zones, met.sets, o, h, dns)
      ensures SyncedHost(w.zones, w'.sets, o, h, dns)
    {
      PutKeepsSynced(w.zones, met.sets, Key(zone, Stored(todo[0]), A), Alias(dns + "."), o, h, dns);
    }
  }

  lemma HeldSurvives(w: World, w': World, zone: string, name: string, o: Owner)
    requires Untouched(w, w', o) && Holds(w.sets, zone, name, o)
    ensures Holds(w'.sets, zone, name, o)
  {
    var text := Key(zone, name, TXT);
    assert Holds(w.sets, text.zone, text.name, o);
  }

  /*** Names with a text but no alias stay so during an ensure ***/

  ghost predicate OrphansStay(sets: Sets, sets': Sets, o: Owner) {
    forall zone, name | Orphaned(sets, zone, name, o) :: Orphaned(sets', zone, name, o)
  }

  lemma OrphansStayAtFirst(sets: Sets, o: Owner)
    ensures OrphansStay(sets, sets, o)
  {
  }

  lemma OrphansStayOn(a: Sets, b: Sets, c: Sets, o: Owner)
    requires OrphansStay(a, b, o) && OrphansStay(b, c, o)
    ensures OrphansStay(a, c, o)
  {
    hide Orphaned;
  }

  lemma OrphansUntouched(w: World, w': World, o: Owner)
    requires Untouched(w, w', o)
    ensures OrphansStay(w.sets, w'.sets, o)
  {
    hide Route53OwnerValue;
    forall zone, name | Orphaned(w.sets, zone, name, o)
      ensures Orphaned(w'.sets, zone, name, o)
    {
      HeldSurvives(w, w', zone, name, o);
      var alias := Key(zone, name, A);
      assert Holds(w.sets, alias.zone, alias.name, o);
    }
  }

  /** Two accepted CREATEs at a name: it was not orphaned, and no other name is affected. */
  lemma PairKeepsOrphans(
      w: World, met0: World, between: World, met: World, w': World, zone: string, name: string, o: Owner)
    requires Untouched(w, met0, o) && Untouched(between, met, o)
    requires ApplyChange(met0.sets, Create(Key(zone, name, TXT), OwnerText(o))) == Some(between.sets)
    requires exists d :: ApplyChange(met.sets, Create(Key(zone, name, A), d)) == Some(w'.sets)
    ensures OrphansStay(w.sets, w'.sets, o)
  {
    hide Route53OwnerValue, Untouched;
    OrphansUntouched(w, met0, o);
    OrphansUntouched(between, met, o);
    forall z, n | Orphaned(w.sets, z, n, o)
      ensures Orphaned(w'.sets, z, n, o)
    {
      assert Orphaned(met0.sets, z, n, o);
      assert z != zone || n != name;
      assert Orphaned(between.sets, z, n, o);
    }
  }

  /** An UPSERT at a name that has an alias. */
  lemma UpsertKeepsOrphans(w: World, met: World, w': World, zone: string, name: string, o: Owner)
    requires Untouched(w, met, o) && Key(zone, name, A) in w.sets
    requires exists d :: ApplyChange(met.sets, Upsert(Key(zone, name, A), d)) == Some(w'.sets)
    ensures OrphansStay(w.sets, w'.sets, o)
  {
    hide Route53OwnerValue, Untouched;
    OrphansUntouched(w, met, o);
    forall z, n | Orphaned(w.sets, z, n, o)
      ensures Orphaned(w'.sets, z, n, o)
    {
      assert Orphaned(met.sets, z, n, o);
      assert z != zone || n != name;
    }
  }

  lemma SyncedWasNoOrphan(zones: seq<HostedZone>, sets: Sets, sets': Sets, o: Owner, hostname: string, dns: string)
    requires OrphansStay(sets, sets', o) && SyncedHost(zones, sets', o, hostname, dns)
    ensures !OrphanedHost(zones, sets, o, hostname)
  {
    hide Holds, Stored;
  }

  /*** Cleanup, zone by zone ***/

  ghost predicate SameInZone(sets: Sets, sets': Sets, zone: string) {
    forall k: Key | k.zone == zone :: (k in sets <==> k in sets') && (k in sets ==> sets[k] == sets'[k])
  }

  ghost predicate SameElsewhere(sets: Sets, sets': Sets, zone: string) {
    forall k: Key | k.zone != zone :: (k in sets <==> k in sets') && (k in sets ==> sets[k] == sets'[k])
  }

  /** In this zone exactly the sets that survive are left. */
  ghost predicate CleanedZone(sets: Sets, sets': Sets, zone: string, o: Owner) {
    forall k: Key | k.zone == zone ::
      (k in sets' <==> k in sets && Survives(sets, k, o)) && (k in sets' ==> sets[k] == sets'[k])
  }

  /** The first i zones are cleaned and the others are as they were. */
  ghost predicate CleanedUpTo(sets: Sets, sets': Sets, zones: seq<HostedZone>, i: nat, o: Owner)
    requires i <= |zones|
  {
    && (forall z | z in zones[i..] :: SameInZone(sets, sets', z.id))
    && (forall z | z in zones[..i] :: CleanedZone(sets, sets', z.id, o))
    && (forall k | k in sets' :: k in sets)
  }

  lemma NothingCleanedYet(sets: Sets, zones: seq<HostedZone>, o: Owner)
    ensures CleanedUpTo(sets, sets, zones, 0, o)
  {
  }

  function Keys(l: seq<Entry>): set<Key> {
    set e | e in l :: e.key
  }

  lemma KeysAppend(l: seq<Entry>, i: nat)
    requires i < |l|
    ensures Keys(l[..i + 1]) == Keys(l[..i]) + {l[i].key}
    ensures l[i] in l && (DistinctKeys(l) ==> l[i].key !in Keys(l[..i]))
  {
    assert l[..i + 1] == l[..i] + [l[i]];
  }

  ghost predicate DistinctKeys(l: seq<Entry>) {
    forall i, j | 0 <= i < j < |l| :: l[i].key != l[j].key
  }

  lemma {:induction false} AliasesAtDistinct(l: seq<Entry>, names: set<string>)
    requires DistinctKeys(l)
    ensures DistinctKeys(AliasesAt(l, names))
  {
    if l != [] {
      AliasesAtDistinct(l[1..], names);
      forall e | e in l[1..] ensures e.key != l[0].key { }
    }
  }

  lemma {:induction false} OwnedTextsDistinct(l: seq<Entry>, value: string)
    requires DistinctKeys(l)
    requires forall e | e in l && Carries(e.data, value) :: e.data.values == [value]
    ensures DistinctKeys(OwnedTexts(l, value))
  {
    if l != [] {
      OwnedTextsDistinct(l[1..], value);
      forall e | e in l[1..] ensures e.key != l[0].key { }
      if l[0].data.Values? {
        OccursExactly(l[0].data.values, value);
        if value in l[0].data.values {
          assert Carries(l[0].data, value);
          assert Occurrences([value], value) == 1;
        }
      }
    }
  }

  /** Each set to be deleted is listed once and as it is stored, so no deletion is rejected. */
  lemma ListedOnce(w: World, zone: string, l: seq<Entry>, o: Owner)
    requires Inv(w) && IsListing(w.sets, zone, l)
    ensures CleanStore(w.sets)
    ensures var r := OwnedAliases(l, Route53OwnerValue(o));
            DistinctKeys(r) && forall e | e in r :: CanDelete(w, e)
    ensures var r := OwnedTexts(l, Route53OwnerValue(o));
            DistinctKeys(r) && forall e | e in r :: CanDelete(w, e)
  {
    AliasesAtDistinct(l, OwnerNames(l, Route53OwnerValue(o)));
    OwnedTextsDistinct(l, Route53OwnerValue(o));
  }

  lemma AliasKeys(w: World, l: seq<Entry>, zone: string, o: Owner, k: Key)
    requires Inv(w) && IsListing(w.sets, zone, l) && k in w.sets
    ensures k in Keys(OwnedAliases(l, Route53OwnerValue(o))) <==>
            k.zone == zone && w.sets[k].Alias? && Holds(w.sets, zone, k.name, o)
  {
    hide Route53OwnerValue, OwnedAliases, Holds;
    var e := Entry(k, w.sets[k]);
    OwnedAliasesExactly(w.sets, zone, l, o, e);
    assert e.key == k;
    if k in Keys(OwnedAliases(l, Route53OwnerValue(o))) {
      var x :| x in OwnedAliases(l, Route53OwnerValue(o)) && x.key == k;
      OwnedAliasesExactly(w.sets, zone, l, o, x);
    }
  }

  lemma TextKeys(w: World, l: seq<Entry>, zone: string, o: Owner, k: Key)
    requires Inv(w) && IsListing(w.sets, zone, l) && k in w.sets
    ensures k in Keys(OwnedTexts(l, Route53OwnerValue(o))) <==>
            k.zone == zone && Carries(w.sets[k], Route53OwnerValue(o))
  {
    hide Route53OwnerValue, OwnedTexts;
    var e := Entry(k, w.sets[k]);
    assert e.key == k;
    assert k.zone == zone ==> e in l;
  }

  /** Deleting the owned aliases, then the owned texts, leaves exactly the survivors. */
  lemma TwoPhasesClean(w: World, l0: seq<Entry>, w': World, l1: seq<Entry>, s2: Sets, zone: string, o: Owner)
    requires Inv(w) && IsListing(w.sets, zone, l0)
    requires w'.sets == w.sets - Keys(OwnedAliases(l0, Route53OwnerValue(o)))
    requires Inv(w') && IsListing(w'.sets, zone, l1)
    requires s2 == w'.sets - Keys(OwnedTexts(l1, Route53OwnerValue(o)))
    ensures CleanedZone(w.sets, s2, zone, o) && SameElsewhere(w.sets, s2, zone)
  {
    hide Inv, Route53OwnerValue, OwnedAliases, OwnedTexts, IsListing, Holds, Keys;
    forall k: Key | k in w.sets
      ensures k in w'.sets <==> !(k.zone == zone && w.sets[k].Alias? && Holds(w.sets, zone, k.name, o))
    {
      AliasKeys(w, l0, zone, o, k);
    }
    forall k: Key | k in w'.sets
      ensures k in s2 <==> !(k.zone == zone && Carries(w.sets[k], Route53OwnerValue(o)))
    {
      TextKeys(w', l1, zone, o, k);
    }
  }

  lemma ZonesDistinct(w: World)
    requires Inv(w)
    ensures DistinctIds(w.zones)
  {
  }

  lemma CleanedInTurn(first: Sets, before: Sets, after: Sets, zones: seq<HostedZone>, i: nat, o: Owner)
    requires DistinctIds(zones) && i < |zones|
    requires CleanedUpTo(first, before, zones, i, o)
    requires CleanedZone(before, after, zones[i].id, o) && SameElsewhere(before, after, zones[i].id)
    ensures CleanedUpTo(first, after, zones, i + 1, o)
  {
    hide Route53OwnerValue;
    assert zones[i] in zones[i..];
    forall k: Key | k.zone == zones[i].id && k in first
      ensures Survives(first, k, o) <==> Survives(before, k, o)
    {
      var text := Key(k.zone, k.name, TXT);
      assert text.zone == zones[i].id;
    }
    assert zones[..i + 1] == zones[..i] + [zones[i]];
    forall z | z in zones[i + 1..]
      ensures SameInZone(first, after, z.id)
    {
      assert z in zones[i..];
      var j :| i < j < |zones| && zones[j] == z;
    }
  }

  lemma AllZonesCleaned(w: World, after: Sets, o: Owner)
    requires Inv(w)
    requires CleanedUpTo(w.sets, after, w.zones, |w.zones|, o)
    ensures after == WithoutOwner(w.sets, o)
  {
    hide Route53OwnerValue;
    forall k: Key | k in w.sets
      ensures k in after <==> Survives(w.sets, k, o)
      ensures k in after ==> after[k] == w.sets[k]
    {
      var z :| z in w.zones && z.id == k.zone;
      assert z in w.zones[..|w.zones|];
    }
  }
}
