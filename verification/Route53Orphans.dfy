/**
 * What a failure between the two CREATEs of ensureRoute53 leaves behind: a TXT record without an alias. It is
 * there to stay until the owner's next cleanup, and no ensure of the hostname succeeds meanwhile.
 */
module Route53Orphans {
  import opened Strings
  import opened OwnerValues
  import opened RecordNames
  import opened HostedZones
  import opened Route53Store
  import opened Route53Protocol
  import opened Route53Safety
  import opened Route53Sequential

  /** The owner's next call does not write at this name, nor is it about to clean up. */
  predicate LeavesAlone(pc: Pc, zone: string, name: string) {
    match pc
    case WriteAlias(todo, _, z) => todo != [] && (z != zone || Stored(todo[0]) != name)
    case UpdateAlias(todo, _, z) => todo != [] && (z != zone || Stored(todo[0]) != name)
    case Zones(_) => false
    case DropAliases(_, _) => false
    case DropTexts(_, _) => false
    case _ => true
  }

  predicate Orphan(w: World, o: Owner, zone: string, name: string) {
    Orphaned(w.sets, zone, name, o) && LeavesAlone(PcOf(w, o), zone, name)
  }

  /** A lookup never leads to an update of a name without an alias. */
  lemma LookupLeavesAlone(w: World, o: Owner, l: seq<Entry>, todo: seq<string>, dns: string, zone: string, name: string)
    requires Inv(w) && todo != [] && Orphaned(w.sets, zone, name, o)
    requires forall z | ZoneOf(w.zones, todo[0]) == Some(z) :: IsListing(w.sets, z.id, l)
    ensures LeavesAlone(AfterLookup(w, o, l, todo, dns), zone, name)
  {
    hide Holds, Stored, IsListing, OwnedAliases, FindARecord, Route53OwnerValue, Findable;
    if ZoneOf(w.zones, todo[0]).Some? {
      RecognisedExactly(w.sets, ZoneOf(w.zones, todo[0]).value.id, l, todo[0], o);
    }
  }

  /** The owner's own calls: the CREATE of the TXT record is refused, and everything else goes elsewhere. */
  lemma OwnCallKeepsOrphan(w: World, o: Owner, l: seq<Entry>, zone: string, name: string)
    requires Inv(w) && Enabled(w, Call(o, l)) && Orphan(w, o, zone, name)
    ensures Orphan(Perform(w, o, l), o, zone, name)
  {
    hide Inv, AfterLookup, OwnedAliases, OwnedTexts, IsListing, Stored, Route53OwnerValue;
    var text := Key(zone, name, TXT);
    assert text in w.sets;
    match PcOf(w, o) {
      case Hosts(todo, dns) =>
        if todo != [] { LookupLeavesAlone(w, o, l, todo, dns, zone, name); }
      case _ =>
    }
  }

  /** What others do leaves the name as it is. */
  lemma OthersKeepOrphan(w: World, a: Action, o: Owner, zone: string, name: string)
    requires Inv(w) && Enabled(w, a) && !By(a, o) && Orphan(w, o, zone, name)
    ensures Orphan(Apply(w, a), o, zone, name)
  {
    StepIsolates(w, a, o);
    hide Inv, Enabled, Apply, Route53OwnerValue, LeavesAlone;
    var text, alias := Key(zone, name, TXT), Key(zone, name, A);
    assert Holds(w.sets, text.zone, text.name, o) && Holds(w.sets, alias.zone, alias.name, o);
  }

  lemma StepKeepsOrphan(w: World, a: Action, o: Owner, zone: string, name: string)
    requires Inv(w) && Enabled(w, a) && a != BeginCleanup(o) && Orphan(w, o, zone, name)
    ensures Orphan(Apply(w, a), o, zone, name)
  {
    hide Inv, Enabled, Perform, Orphaned;
    if By(a, o) {
      match a
      case Call(_, l) => OwnCallKeepsOrphan(w, o, l, zone, name);
      case BeginEnsure(_, _, _) =>
      case Abort(_) =>
    } else {
      OthersKeepOrphan(w, a, o, zone, name);
    }
  }

  /** Along every run without a cleanup of its owner, whatever else happens, the orphan stays. */
  lemma {:induction false} OrphanStays(w: World, trace: seq<Action>, o: Owner, zone: string, name: string)
    requires Inv(w) && Legal(w, trace) && BeginCleanup(o) !in trace && Orphan(w, o, zone, name)
    ensures Orphan(Exec(w, trace), o, zone, name)
  {
    hide Inv, Enabled, Apply, Orphan;
    if trace != [] {
      var prefix := trace[..|trace| - 1];
      OrphanStays(w, prefix, o, zone, name);
      RunsKeepInv(w, prefix);
      StepKeepsOrphan(Exec(w, prefix), trace[|trace| - 1], o, zone, name);
    }
  }

  lemma StepKeepsZones(w: World, a: Action)
    ensures Apply(w, a).zones == w.zones
  {
    hide AfterLookup, OwnedAliases, OwnedTexts, Stored, CanDelete, OwnerText;
  }

  lemma {:induction false} ZonesStay(w: World, trace: seq<Action>)
    ensures Exec(w, trace).zones == w.zones
  {
    hide Apply;
    if trace != [] {
      ZonesStay(w, trace[..|trace| - 1]);
      StepKeepsZones(Exec(w, trace[..|trace| - 1]), trace[|trace| - 1]);
    }
  }

  /**
   * A hostname with a TXT record but no alias is never synced again, for any accelerator, until its owner cleans
   * up; by the contract of EnsureRoute53 no ensure that names it succeeds meanwhile.
   */
  lemma {:induction false} OrphanBlocksUntilCleanup(
      w: World, trace: seq<Action>, o: Owner, hostname: string, dns: string)
    requires Inv(w) && Legal(w, trace) && BeginCleanup(o) !in trace
    requires Resting(PcOf(w, o)) && OrphanedHost(w.zones, w.sets, o, hostname)
    ensures var v := Exec(w, trace);
            OrphanedHost(v.zones, v.sets, o, hostname) && !SyncedHost(v.zones, v.sets, o, hostname, dns)
  {
    hide Inv, Legal, Exec, Holds, Stored, ZoneOf;
    OrphanStays(w, trace, o, ZoneOf(w.zones, hostname).value.id, Stored(hostname));
    ZonesStay(w, trace);
  }

  /** From the CREATE of the TXT record and a failure before the next call. */
  function OrphaningRun(o: Owner, hostname: string, dns: string, l: seq<Entry>): seq<Action> {
    [BeginEnsure(o, [hostname], dns), Call(o, l), Call(o, []), Abort(o)]
  }

  /** One lost call is enough: in every reachable state, for every hostname with a zone and a free name. */
  lemma OrphanIsReachable(w: World, o: Owner, hostname: string, dns: string, l: seq<Entry>)
    requires Inv(w) && Resting(PcOf(w, o)) && ZoneOf(w.zones, hostname).Some?
    requires var z := ZoneOf(w.zones, hostname).value.id;
             && IsListing(w.sets, z, l)
             && Key(z, Stored(hostname), TXT) !in w.sets && Key(z, Stored(hostname), A) !in w.sets
    ensures var run := OrphaningRun(o, hostname, dns, l);
            && Legal(w, run)
            && OrphanedHost(Exec(w, run).zones, Exec(w, run).sets, o, hostname)
            && Resting(PcOf(Exec(w, run), o))
  {
    hide PcInv, CleanStore, Stored, IsListing, OwnedAliases, FindARecord, Route53OwnerValue, ZoneOf, Legal, Exec;
    var z := ZoneOf(w.zones, hostname).value.id;
    var run := OrphaningRun(o, hostname, dns, l);
    var w1 := At(w, o, Hosts([hostname], dns));
    var w2 := At(w1, o, WriteText([hostname], dns, z));
    LookupFindsNothing(w1, z, l, hostname, dns, o);
    var w3 := Apply(w2, run[2]);
    TakeRun(w, run, w1, w2, w3, Apply(w3, run[3]));
  }

  lemma LookupFindsNothing(w: World, zone: string, l: seq<Entry>, hostname: string, dns: string, o: Owner)
    requires CleanStore(w.sets) && IsListing(w.sets, zone, l) && Key(zone, Stored(hostname), A) !in w.sets
    requires ZoneOf(w.zones, hostname).Some? && ZoneOf(w.zones, hostname).value.id == zone
    requires PcOf(w, o) == Hosts([hostname], dns)
    ensures Enabled(w, Call(o, l)) && Apply(w, Call(o, l)) == At(w, o, WriteText([hostname], dns, zone))
  {
    hide Stored, IsListing, OwnedAliases, FindARecord, Route53OwnerValue, ZoneOf, CleanStore;
    NotRecognised(w.sets, zone, l, hostname, o);
  }

  lemma NotRecognised(sets: Sets, zone: string, l: seq<Entry>, hostname: string, o: Owner)
    requires CleanStore(sets) && IsListing(sets, zone, l) && Key(zone, Stored(hostname), A) !in sets
    ensures FindARecord(OwnedAliases(l, Route53OwnerValue(o)), hostname).None?
  {
    RecognisedExactly(sets, zone, l, hostname, o);
  }

  /** Four enabled actions make a legal run. */
  lemma TakeRun(w: World, run: seq<Action>, w1: World, w2: World, w3: World, w4: World)
    requires |run| == 4
    requires Enabled(w, run[0]) && w1 == Apply(w, run[0]) && Enabled(w1, run[1]) && w2 == Apply(w1, run[1])
    requires Enabled(w2, run[2]) && w3 == Apply(w2, run[2]) && Enabled(w3, run[3]) && w4 == Apply(w3, run[3])
    ensures Legal(w, run) && Exec(w, run) == w4
  {
    hide Enabled, Apply;
    assert run[..4] == run && run[..3][..2] == run[..2] && run[..2][..1] == run[..1] && run[..1][..0] == [];
    assert Exec(w, []) == w && Legal(w, []);
    assert Exec(w, run[..1]) == w1 && Legal(w, run[..1]);
    assert Exec(w, run[..2]) == w2 && Legal(w, run[..2]);
    assert Exec(w, run[..3]) == w3 && Legal(w, run[..3]);
  }
}
