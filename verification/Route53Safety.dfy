/** Safety of the ownership protocol over every run: exclusive names, isolation, and cleanup that leaves nothing. */
module Route53Safety {
  import opened Strings
  import opened OwnerValues
  import opened RecordNames
  import opened HostedZones
  import opened Route53Store
  import opened Route53Protocol

  /*** One step leaves other owners untouched ***/

  lemma PutIsolates(w: World, k: Key, d: Data, o: Owner, p: Owner)
    requires StoreInv(w) && o != p
    requires || (k.rtype == TXT && k !in w.sets && d == OwnerText(o))
             || (k.rtype == A && d.Alias? && Holds(w.sets, k.zone, k.name, o))
    ensures var authors := if k.rtype == A then w.authors[k := o] else w.authors;
            Untouched(w, w.(sets := w.sets[k := d], authors := authors), p)
  {
    hide Route53OwnerValue, CleanStore, DistinctIds;
    var sets := w.sets[k := d];
    if Holds(w.sets, k.zone, k.name, p) && Holds(w.sets, k.zone, k.name, o) {
      HoldersAgree(w.sets, k.zone, k.name, o, p);
    }
    forall zone, name | Holds(sets, zone, name, p)
      ensures Holds(w.sets, zone, name, p)
    {
      if Key(zone, name, TXT) == k {
        assert Holds(sets, zone, name, o);
        HoldersAgree(sets, zone, name, o, p);
      }
    }
    assert k in w.authors ==> Holds(w.sets, k.zone, k.name, w.authors[k]);
  }

  lemma DeleteIsolates(w: World, e: Entry, o: Owner, p: Owner)
    requires StoreInv(w) && o != p && CanDelete(w, e)
    requires Holds(w.sets, e.key.zone, e.key.name, o) || Carries(e.data, Route53OwnerValue(o))
    ensures Untouched(w, Delete(w, e), p)
  {
    hide Route53OwnerValue;
    assert Holds(w.sets, e.key.zone, e.key.name, o) by {
      if Carries(e.data, Route53OwnerValue(o)) {
        assert e.key == Key(e.key.zone, e.key.name, TXT);
      }
    }
    if Holds(w.sets, e.key.zone, e.key.name, p) {
      HoldersAgree(w.sets, e.key.zone, e.key.name, o, p);
    }
  }

  lemma OwnerTextIsOwnerLike(o: Owner)
    ensures HasPrefix(Route53OwnerValue(o), HERITAGE)
  {
  }

  lemma HeldNamesAreOwnerLike(sets: Sets, zone: string, name: string, p: Owner)
    requires Holds(sets, zone, name, p)
    ensures Key(zone, name, TXT) in sets && OwnerLike(sets[Key(zone, name, TXT)])
  {
    OwnerTextIsOwnerLike(p);
    assert sets[Key(zone, name, TXT)].values[0] == Route53OwnerValue(p);
  }

  lemma ForeignIsolates(w: World, k: Key, d: Option<Data>, p: Owner)
    requires StoreInv(w) && Enabled(w, Foreign(k, d))
    ensures Untouched(w, Apply(w, Foreign(k, d)), p)
  {
    hide Route53OwnerValue, CleanStore, DistinctIds, OwnerLike;
    var w' := Apply(w, Foreign(k, d));
    if Holds(w.sets, k.zone, k.name, p) {
      HeldNamesAreOwnerLike(w.sets, k.zone, k.name, p);
    }
    forall zone, name | Holds(w'.sets, zone, name, p)
      ensures Holds(w.sets, zone, name, p)
    {
      HeldNamesAreOwnerLike(w'.sets, zone, name, p);
    }
  }

  /** No action of anyone else changes a record set at a name p holds, or makes or takes a holding of p. */
  lemma StepIsolates(w: World, a: Action, p: Owner)
    requires Inv(w) && Enabled(w, a) && !By(a, p)
    ensures Untouched(w, Apply(w, a), p)
  {
    hide Route53OwnerValue;
    match a
    case Foreign(k, d) => ForeignIsolates(w, k, d, p);
    case BeginEnsure(_, _, _) =>
    case BeginCleanup(_) =>
    case Abort(_) =>
    case Call(o, l) => CallIsolates(w, o, l, p);
  }

  lemma WriteTextIsolates(w: World, o: Owner, l: seq<Entry>, p: Owner)
    requires StoreInv(w) && PcInv(w, o) && o != p && PcOf(w, o).WriteText?
    ensures Untouched(w, Perform(w, o, l), p)
  {
    hide StoreInv, Stored;
    var WriteText(todo, _, z) := PcOf(w, o);
    var k := Key(z, Stored(todo[0]), TXT);
    if k !in w.sets { PutIsolates(w, k, OwnerText(o), o, p); }
  }

  lemma WriteAliasIsolates(w: World, o: Owner, l: seq<Entry>, p: Owner)
    requires StoreInv(w) && PcInv(w, o) && o != p && (PcOf(w, o).WriteAlias? || PcOf(w, o).UpdateAlias?)
    ensures Untouched(w, Perform(w, o, l), p)
  {
    hide StoreInv, Stored;
    PutIsolates(w, Key(PcOf(w, o).zone, Stored(PcOf(w, o).todo[0]), A), Alias(PcOf(w, o).dns + "."), o, p);
  }

  lemma DropIsolates(w: World, o: Owner, l: seq<Entry>, p: Owner)
    requires StoreInv(w) && PcInv(w, o) && o != p && (PcOf(w, o).DropAliases? || PcOf(w, o).DropTexts?)
    ensures Untouched(w, Perform(w, o, l), p)
  {
    hide StoreInv, Route53OwnerValue, OwnedAliases, OwnedTexts;
    var list := PcOf(w, o).list;
    if list != [] && CanDelete(w, list[0]) {
      assert list[0] in list;
      DeleteIsolates(w, list[0], o, p);
    }
  }

  lemma CallIsolates(w: World, o: Owner, l: seq<Entry>, p: Owner)
    requires Inv(w) && o != p
    ensures Untouched(w, Perform(w, o, l), p)
  {
    assert PcInv(w, o);
    match PcOf(w, o) {
      case WriteText(_, _, _) => hide *; WriteTextIsolates(w, o, l, p);
      case WriteAlias(_, _, _) => hide *; WriteAliasIsolates(w, o, l, p);
      case UpdateAlias(_, _, _) => hide *; WriteAliasIsolates(w, o, l, p);
      case DropAliases(_, _) => hide *; DropIsolates(w, o, l, p);
      case DropTexts(_, _) => hide *; DropIsolates(w, o, l, p);
      case _ => hide *; ReadIsolates(w, o, l, p);
    }
  }

  lemma ReadIsolates(w: World, o: Owner, l: seq<Entry>, p: Owner)
    requires o != p && (Resting(PcOf(w, o)) || PcOf(w, o).Hosts? || PcOf(w, o).Zones?)
    ensures Untouched(w, Perform(w, o, l), p)
  {
    hide AfterLookup, OwnedAliases, Holds;
  }

  /*** One step keeps the invariant ***/

  lemma PutKeepsStore(w: World, k: Key, d: Data, o: Owner)
    requires StoreInv(w) && k.zone in Ids(w.zones) && '*' !in k.name
    requires || (k.rtype == TXT && k !in w.sets && d == OwnerText(o))
             || (k.rtype == A && d.Alias? && Holds(w.sets, k.zone, k.name, o))
    ensures var authors := if k.rtype == A then w.authors[k := o] else w.authors;
            StoreInv(w.(sets := w.sets[k := d], authors := authors))
  {
    hide Route53OwnerValue;
    var sets := w.sets[k := d];
    forall x, p: Owner | x in sets && Carries(sets[x], Route53OwnerValue(p))
      ensures x.rtype == TXT && sets[x].values == [Route53OwnerValue(p)]
    {
    }
    forall x: Key, p: Owner | Holds(w.sets, x.zone, x.name, p)
      ensures Holds(sets, x.zone, x.name, p)
    {
    }
  }

  /** Deleting an alias set takes no TXT record away. */
  lemma DeleteAliasKeepsHolders(w: World, e: Entry)
    requires CanDelete(w, e) && e.data.Alias?
    ensures forall zone, name, p: Owner ::
              Holds(Delete(w, e).sets, zone, name, p) <==> Holds(w.sets, zone, name, p)
  {
    hide Route53OwnerValue;
  }

  lemma DeleteKeepsClean(w: World, e: Entry)
    requires CleanStore(w.sets) && DistinctIds(w.zones) && (forall k | k in w.sets :: k.zone in Ids(w.zones))
    ensures var v := Delete(w, e);
            CleanStore(v.sets) && DistinctIds(v.zones) && (forall k | k in v.sets :: k.zone in Ids(v.zones))
  {
    hide Route53OwnerValue, DistinctIds;
  }

  lemma CoversTail(list: seq<Entry>, k: Key)
    requires list != [] && Covers(list, k) && k != list[0].key
    ensures Covers(list[1..], k)
  {
    var x :| x in list && x.key == k;
    assert x in list[1..];
  }

  lemma DeleteAliasKeeps(w: World, o: Owner, rest: seq<HostedZone>, list: seq<Entry>)
    requires StoreInv(w) && PcOf(w, o) == DropAliases(rest, list) && PcInv(w, o)
    requires list != [] && CanDelete(w, list[0])
    ensures StoreInv(Delete(w, list[0]))
    ensures PcInv(At(Delete(w, list[0]), o, DropAliases(rest, list[1..])), o)
  {
    hide Holds, CleanStore, DistinctIds, Covers;
    var e := list[0];
    assert e in list;
    DeleteAliasKeepsHolders(w, e);
    DeleteKeepsClean(w, e);
    forall k | k in w.authors && w.authors[k] == o && k.zone == rest[0].id && k != e.key
      ensures Covers(list[1..], k)
    {
      CoversTail(list, k);
    }
  }

  /** Deleting the owner's TXT record at a name takes away just this holding. */
  lemma DeleteTextHolders(w: World, e: Entry, o: Owner)
    requires CleanStore(w.sets) && CanDelete(w, e) && Carries(e.data, Route53OwnerValue(o))
    ensures e.key == Key(e.key.zone, e.key.name, TXT) && Holds(w.sets, e.key.zone, e.key.name, o)
    ensures forall zone, name, p: Owner ::
              Holds(Delete(w, e).sets, zone, name, p) <==>
              Holds(w.sets, zone, name, p) && Key(zone, name, TXT) != e.key
  {
    hide Route53OwnerValue;
  }

  lemma DeleteTextKeeps(w: World, o: Owner, rest: seq<HostedZone>, list: seq<Entry>)
    requires StoreInv(w) && PcOf(w, o) == DropTexts(rest, list) && PcInv(w, o)
    requires list != [] && CanDelete(w, list[0])
    ensures StoreInv(Delete(w, list[0]))
    ensures PcInv(At(Delete(w, list[0]), o, DropTexts(rest, list[1..])), o)
  {
    hide Holds, CleanStore, DistinctIds, Covers, Route53OwnerValue;
    var e := list[0];
    assert e in list;
    DeleteTextHolders(w, e, o);
    DeleteKeepsClean(w, e);
    forall k | k in w.authors && Key(k.zone, k.name, TXT) == e.key
      ensures w.authors[k] == o
    {
      HoldersAgree(w.sets, k.zone, k.name, o, w.authors[k]);
    }
    forall name | Holds(w.sets, rest[0].id, name, o) && Key(rest[0].id, name, TXT) != e.key
      ensures Covers(list[1..], Key(rest[0].id, name, TXT))
    {
      CoversTail(list, Key(rest[0].id, name, TXT));
    }
  }

  lemma ListingAliasesCovers(w: World, o: Owner, rest: seq<HostedZone>, l: seq<Entry>)
    requires StoreInv(w) && rest != [] && NothingOutside(w, o, rest) && IsListing(w.sets, rest[0].id, l)
    ensures PcInv(At(w, o, DropAliases(rest, OwnedAliases(l, Route53OwnerValue(o)))), o)
  {
    hide Route53OwnerValue;
    var z, list := rest[0].id, OwnedAliases(l, Route53OwnerValue(o));
    forall e | e in list
      ensures e.key.zone == z && e.data.Alias? && Holds(w.sets, e.key.zone, e.key.name, o)
    {
      OwnedAliasesExactly(w.sets, z, l, o, e);
    }
    forall k | k in w.authors && w.authors[k] == o && k.zone == z
      ensures Covers(list, k)
    {
      OwnedAliasesExactly(w.sets, z, l, o, Entry(k, w.sets[k]));
      assert Entry(k, w.sets[k]).key == k;
    }
  }

  lemma ListingTextsCovers(w: World, o: Owner, rest: seq<HostedZone>, l: seq<Entry>)
    requires StoreInv(w) && rest != [] && NothingOutside(w, o, rest) && IsListing(w.sets, rest[0].id, l)
    requires forall k | k in w.authors && w.authors[k] == o :: k.zone != rest[0].id
    ensures PcInv(At(w, o, DropTexts(rest, OwnedTexts(l, Route53OwnerValue(o)))), o)
  {
    hide Route53OwnerValue;
    var z, list := rest[0].id, OwnedTexts(l, Route53OwnerValue(o));
    forall name | Holds(w.sets, z, name, o)
      ensures Covers(list, Key(z, name, TXT))
    {
      var k := Key(z, name, TXT);
      OwnedTextsExactly(w.sets, z, l, o, Entry(k, w.sets[k]));
      assert Entry(k, w.sets[k]).key == k;
    }
  }

  lemma LookupKeeps(w: World, o: Owner, l: seq<Entry>, todo: seq<string>, dns: string)
    requires StoreInv(w) && PcOf(w, o) == Hosts(todo, dns) && todo != []
    requires Enabled(w, Call(o, l))
    ensures PcInv(At(w, o, AfterLookup(w, o, l, todo, dns)), o)
  {
    hide Route53OwnerValue;
    var z := ZoneOf(w.zones, todo[0]);
    if z.Some? {
      ZoneOfIsNearest(w.zones, todo[0]);
      RecognisedExactly(w.sets, z.value.id, l, todo[0], o);
    }
  }

  lemma WriteTextKeeps(w: World, o: Owner, l: seq<Entry>)
    requires StoreInv(w) && PcInv(w, o) && PcOf(w, o).WriteText?
    ensures StoreInv(Perform(w, o, l)) && PcInv(Perform(w, o, l), o)
  {
    hide Stored, StoreInv;
    var WriteText(todo, _, z) := PcOf(w, o);
    var k := Key(z, Stored(todo[0]), TXT);
    if k !in w.sets {
      PutKeepsStore(w, k, OwnerText(o), o);
      SamePcs(w.(sets := w.sets[k := OwnerText(o)]), Perform(w, o, l));
    } else {
      SamePcs(w, Perform(w, o, l));
    }
  }

  lemma WriteAliasKeeps(w: World, o: Owner, l: seq<Entry>)
    requires StoreInv(w) && PcInv(w, o) && (PcOf(w, o).WriteAlias? || PcOf(w, o).UpdateAlias?)
    ensures StoreInv(Perform(w, o, l)) && PcInv(Perform(w, o, l), o)
  {
    hide Stored, StoreInv, Holds;
    var k, d := Key(PcOf(w, o).zone, Stored(PcOf(w, o).todo[0]), A), Alias(PcOf(w, o).dns + ".");
    PutKeepsStore(w, k, d, o);
    if PcOf(w, o).UpdateAlias? || k !in w.sets {
      SamePcs(w.(sets := w.sets[k := d], authors := w.authors[k := o]), Perform(w, o, l));
    } else {
      SamePcs(w, Perform(w, o, l));
    }
  }

  lemma DropAliasesKeeps(w: World, o: Owner, l: seq<Entry>)
    requires StoreInv(w) && PcInv(w, o) && PcOf(w, o).DropAliases? && Enabled(w, Call(o, l))
    ensures StoreInv(Perform(w, o, l)) && PcInv(Perform(w, o, l), o)
  {
    hide StoreInv, OwnedAliases, OwnedTexts, IsListing, Holds;
    var DropAliases(rest, list) := PcOf(w, o);
    if list == [] {
      SamePcs(w, At(w, o, DropTexts(rest, OwnedTexts(l, Route53OwnerValue(o)))));
      ListingTextsCovers(w, o, rest, l);
    } else if CanDelete(w, list[0]) {
      DeleteAliasKeeps(w, o, rest, list);
      SamePcs(Delete(w, list[0]), Perform(w, o, l));
    } else {
      SamePcs(w, Perform(w, o, l));
    }
  }

  lemma DropTextsKeeps(w: World, o: Owner, l: seq<Entry>)
    requires StoreInv(w) && PcInv(w, o) && PcOf(w, o).DropTexts?
    ensures StoreInv(Perform(w, o, l)) && PcInv(Perform(w, o, l), o)
  {
    hide StoreInv, OwnedAliases, OwnedTexts, Holds;
    var DropTexts(rest, list) := PcOf(w, o);
    if list == [] {
      ZoneDone(w, o, rest);
      SamePcs(w, Perform(w, o, l));
    } else if CanDelete(w, list[0]) {
      DeleteTextKeeps(w, o, rest, list);
      SamePcs(Delete(w, list[0]), Perform(w, o, l));
    } else {
      SamePcs(w, Perform(w, o, l));
    }
  }

  /** The store invariant does not depend on where owners are. */
  lemma SamePcs(w: World, w': World)
    requires StoreInv(w) && w' == w.(pcs := w'.pcs)
    ensures StoreInv(w')
  {
  }

  lemma ReadKeeps(w: World, o: Owner, l: seq<Entry>)
    requires StoreInv(w) && PcInv(w, o) && Enabled(w, Call(o, l)) && (PcOf(w, o).Hosts? || PcOf(w, o).Zones?)
    ensures StoreInv(Perform(w, o, l)) && PcInv(Perform(w, o, l), o)
  {
    hide StoreInv, OwnedAliases, IsListing, AfterLookup;
    SamePcs(w, Perform(w, o, l));
    match PcOf(w, o) {
      case Hosts(todo, dns) => if todo != [] { LookupKeeps(w, o, l, todo, dns); }
      case Zones(rest) => if rest != [] { ListingAliasesCovers(w, o, rest, l); }
    }
  }

  lemma CallKeepsOwn(w: World, o: Owner, l: seq<Entry>)
    requires Inv(w) && Enabled(w, Call(o, l))
    ensures StoreInv(Perform(w, o, l)) && PcInv(Perform(w, o, l), o)
  {
    assert PcInv(w, o);
    assert !Resting(PcOf(w, o));
    match PcOf(w, o) {
      case WriteText(_, _, _) => hide *; WriteTextKeeps(w, o, l);
      case WriteAlias(_, _, _) => hide *; WriteAliasKeeps(w, o, l);
      case UpdateAlias(_, _, _) => hide *; WriteAliasKeeps(w, o, l);
      case DropAliases(_, _) => hide *; DropAliasesKeeps(w, o, l);
      case DropTexts(_, _) => hide *; DropTextsKeeps(w, o, l);
      case Hosts(_, _) => hide *; ReadKeeps(w, o, l);
      case Zones(_) => hide *; ReadKeeps(w, o, l);
      case _ => assert false;
    }
  }

  lemma ZoneDone(w: World, o: Owner, rest: seq<HostedZone>)
    requires rest != [] && NothingOutside(w, o, rest)
    requires forall name :: !Holds(w.sets, rest[0].id, name, o)
    ensures NothingOutside(w, o, rest[1..])
  {
    forall zone, name | zone !in Ids(rest[1..])
      ensures !Holds(w.sets, zone, name, o)
    {
      assert zone in Ids(rest) ==> zone == rest[0].id;
    }
  }

  /** Every action, successful, failed, or followed by a crash, keeps the invariant. */
  lemma StepKeepsInv(w: World, a: Action)
    requires Inv(w) && Enabled(w, a)
    ensures Inv(Apply(w, a))
  {
    var w' := Apply(w, a);
    match a {
      case Call(o, l) => CallKeepsOwn(w, o, l);
      case Foreign(k, d) => ForeignKeepsStore(w, k, d);
      case BeginCleanup(o) => EverythingInZones(w, o);
      case _ =>
    }
    forall p: Owner
      ensures PcInv(w', p)
    {
      if !By(a, p) {
        assert PcInv(w, p);
        StepIsolates(w, a, p);
        PcInvStable(w, w', p);
      }
    }
  }

  lemma EverythingInZones(w: World, o: Owner)
    requires StoreInv(w)
    ensures NothingOutside(w, o, w.zones)
  {
    forall zone, name | Holds(w.sets, zone, name, o)
      ensures zone in Ids(w.zones)
    {
      assert Key(zone, name, TXT) in w.sets;
    }
  }

  lemma CarriersAreOwnerLike(d: Data, p: Owner)
    requires Carries(d, Route53OwnerValue(p))
    ensures OwnerLike(d)
  {
    OwnerTextIsOwnerLike(p);
  }

  lemma ForeignKeepsStore(w: World, k: Key, d: Option<Data>)
    requires StoreInv(w) && Enabled(w, Foreign(k, d))
    ensures StoreInv(Apply(w, Foreign(k, d)))
  {
    hide Route53OwnerValue, HasPrefix, Holds, OwnerLike, DistinctIds;
    var w' := Apply(w, Foreign(k, d));
    if d.Some? {
      forall p: Owner
        ensures !Carries(d.value, Route53OwnerValue(p))
      {
        if Carries(d.value, Route53OwnerValue(p)) { CarriersAreOwnerLike(d.value, p); }
      }
    }
    forall x | x in w'.authors
      ensures Holds(w'.sets, x.zone, x.name, w'.authors[x])
    {
      HeldNamesAreOwnerLike(w.sets, x.zone, x.name, w.authors[x]);
      HoldsElsewhere(w.sets, w'.sets, x.zone, x.name, w.authors[x]);
    }
  }

  lemma HoldsElsewhere(sets: Sets, sets': Sets, zone: string, name: string, o: Owner)
    requires var k := Key(zone, name, TXT); k in sets && k in sets' && sets[k] == sets'[k]
    ensures Holds(sets, zone, name, o) <==> Holds(sets', zone, name, o)
  {
  }

  /*** Every run ***/

  lemma {:induction false} RunsKeepInv(w: World, trace: seq<Action>)
    requires Inv(w) && Legal(w, trace)
    ensures Inv(Exec(w, trace))
  {
    if trace != [] {
      RunsKeepInv(w, trace[..|trace| - 1]);
      StepKeepsInv(Exec(w, trace[..|trace| - 1]), trace[|trace| - 1]);
    }
  }

  /**
   * In every state of every interleaving, each alias last written by an owner lies at a name
   * that carries this owner's TXT record, and no name is held by two owners.
   */
  lemma {:induction false} NamesAreExclusive(w: World, trace: seq<Action>)
    requires Init(w) && Legal(w, trace)
    ensures var v := Exec(w, trace);
            && (forall k | k in v.authors ::
                  k in v.sets && v.sets[k].Alias? && Holds(v.sets, k.zone, k.name, v.authors[k]))
            && (forall zone, name, o: Owner, p: Owner |
                  Holds(v.sets, zone, name, o) && Holds(v.sets, zone, name, p) :: o == p)
  {
    RunsKeepInv(w, trace);
    var v := Exec(w, trace);
    forall zone, name, o: Owner, p: Owner | Holds(v.sets, zone, name, o) && Holds(v.sets, zone, name, p)
      ensures o == p
    {
      HoldersAgree(v.sets, zone, name, o, p);
    }
  }

  lemma NothingLeft(w: World, o: Owner)
    requires Inv(w) && PcOf(w, o) == Cleaned
    ensures forall k | k in w.sets :: !Carries(w.sets[k], Route53OwnerValue(o))
    ensures forall k | k in w.authors :: w.authors[k] != o
  {
    hide Route53OwnerValue;
    assert PcInv(w, o);
    forall k | k in w.sets
      ensures !Carries(w.sets[k], Route53OwnerValue(o))
    {
      assert !Holds(w.sets, k.zone, k.name, o);
      assert k.rtype == TXT ==> k == Key(k.zone, k.name, TXT);
    }
  }

  /**
   * Once CleanupRecordSet has returned nil, and until the owner starts again, no record set of any
   * zone carries its value and no alias it wrote last is left, whatever hostnames it ever used.
   */
  lemma {:induction false} CleanupLeavesNothing(w: World, trace: seq<Action>, o: Owner)
    requires Init(w) && Legal(w, trace)
    requires PcOf(Exec(w, trace), o) == Cleaned
    ensures var v := Exec(w, trace);
            && (forall k | k in v.sets :: !Carries(v.sets[k], Route53OwnerValue(o)))
            && (forall k | k in v.authors :: v.authors[k] != o)
  {
    RunsKeepInv(w, trace);
    hide *;
    NothingLeft(Exec(w, trace), o);
  }

  /** Over a whole run in which p does nothing, everything of p's stays as it was. */
  lemma {:induction false} RunsIsolate(w: World, trace: seq<Action>, p: Owner)
    requires Inv(w) && Legal(w, trace)
    requires forall a | a in trace :: !By(a, p)
    ensures Untouched(w, Exec(w, trace), p)
  {
    if trace != [] {
      var prefix := trace[..|trace| - 1];
      RunsIsolate(w, prefix, p);
      RunsKeepInv(w, prefix);
      StepIsolates(Exec(w, prefix), trace[|trace| - 1], p);
      UntouchedTransitive(w, Exec(w, prefix), Exec(w, trace), p);
    }
  }
}
