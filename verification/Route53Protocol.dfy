/**
 * The ownership protocol of pkg/cloudprovider/aws/route53.go as a step machine:
 * any number of owners, each at its own point of ensureRoute53 or CleanupRecordSet,
 * share one record store. One action is one API call; a failed call or a crash is Abort.
 */
module Route53Protocol {
  import opened Strings
  import opened OwnerValues
  import opened RecordNames
  import opened HostedZones
  import opened Route53Store

  /** Where an owner's work stands, with the variables the rest of the call still needs. */
  datatype Pc =
    | Idle                                              // no call under way, or the last one ended in an error
    | Hosts(todo: seq<string>, dns: string)             // at the top of the loop over hostnames
    | WriteText(todo: seq<string>, dns: string, zone: string)
    | WriteAlias(todo: seq<string>, dns: string, zone: string)
    | UpdateAlias(todo: seq<string>, dns: string, zone: string)
    | Synced                                            // ensureRoute53 returned without error
    | Zones(rest: seq<HostedZone>)                      // at the top of the loop over zones
    | DropAliases(rest: seq<HostedZone>, list: seq<Entry>)
    | DropTexts(rest: seq<HostedZone>, list: seq<Entry>)
    | Cleaned                                           // CleanupRecordSet returned nil

  /** authors remembers, for each alias written by the controller, who wrote it last. */
  datatype World = World(zones: seq<HostedZone>, sets: Sets, authors: map<Key, Owner>, pcs: map<Owner, Pc>)

  datatype Action =
    | BeginEnsure(o: Owner, hostnames: seq<string>, dns: string)
    | BeginCleanup(o: Owner)
    | Call(o: Owner, listing: seq<Entry>)
    | Abort(o: Owner)
    | Foreign(key: Key, data: Option<Data>)             // somebody else writes or deletes a record set

  function PcOf(w: World, o: Owner): Pc {
    if o in w.pcs then w.pcs[o] else Idle
  }

  function At(w: World, o: Owner, pc: Pc): World {
    w.(pcs := w.pcs[o := pc])
  }

  function Ids(zones: seq<HostedZone>): set<string> {
    set z | z in zones :: z.id
  }

  predicate Resting(pc: Pc) {
    pc.Idle? || pc.Synced? || pc.Cleaned?
  }

  /** The zone that the owner's next call lists, if it lists one. */
  function ListedZone(w: World, o: Owner): Option<string> {
    match PcOf(w, o)
    case Hosts(todo, _) =>
      if todo == [] then None
      else (match ZoneOf(w.zones, todo[0]) case Some(z) => Some(z.id) case None => None)
    case Zones(rest) => if rest == [] then None else Some(rest[0].id)
    case DropAliases(rest, list) => if list == [] && rest != [] then Some(rest[0].id) else None
    case _ => None
  }

  /** Texts that look like an owner's; outsiders neither write them nor touch names that carry one. */
  predicate OwnerLike(d: Data) {
    d.Values? && exists v | v in d.values :: HasPrefix(v, HERITAGE)
  }

  predicate Enabled(w: World, a: Action) {
    match a
    case BeginEnsure(o, _, _) => Resting(PcOf(w, o))
    case BeginCleanup(o) => Resting(PcOf(w, o))
    case Call(o, l) =>
      !Resting(PcOf(w, o)) && (ListedZone(w, o).Some? ==> IsListing(w.sets, ListedZone(w, o).value, l))
    case Abort(_) => true
    case Foreign(k, d) =>
      && k.zone in Ids(w.zones) && '*' !in k.name
      && (forall x | x in w.sets && x.zone == k.zone && x.name == k.name :: !OwnerLike(w.sets[x]))
      && (d.Some? ==> !OwnerLike(d.value))
  }

  function AfterLookup(w: World, o: Owner, l: seq<Entry>, todo: seq<string>, dns: string): Pc
    requires todo != []
  {
    match ZoneOf(w.zones, todo[0])
    case None => Idle
    case Some(z) =>
      match FindARecord(OwnedAliases(l, Route53OwnerValue(o)), todo[0])
      case None => WriteText(todo, dns, z.id)
      case Some(record) =>
        if NeedRecordsUpdate(record.data, dns) then UpdateAlias(todo, dns, z.id) else Hosts(todo[1..], dns)
  }

  /** ChangeResourceRecordSets with DELETE needs the exact record set. */
  predicate CanDelete(w: World, e: Entry) {
    e.key in w.sets && w.sets[e.key] == e.data
  }

  function Delete(w: World, e: Entry): World {
    w.(sets := w.sets - {e.key}, authors := w.authors - {e.key})
  }

  /** The owner's next call takes effect, or is rejected by Route 53. */
  function Perform(w: World, o: Owner, l: seq<Entry>): World {
    match PcOf(w, o)
    case Hosts(todo, dns) =>
      At(w, o, if todo == [] then Synced else AfterLookup(w, o, l, todo, dns))
    case WriteText(todo, dns, z) =>
      if todo == [] then w else
      var k := Key(z, Stored(todo[0]), TXT);
      if k in w.sets then At(w, o, Idle)
      else At(w.(sets := w.sets[k := OwnerText(o)]), o, WriteAlias(todo, dns, z))
    case WriteAlias(todo, dns, z) =>
      if todo == [] then w else
      var k := Key(z, Stored(todo[0]), A);
      if k in w.sets then At(w, o, Idle)
      else At(w.(sets := w.sets[k := Alias(dns + ".")], authors := w.authors[k := o]), o, Hosts(todo[1..], dns))
    case UpdateAlias(todo, dns, z) =>
      if todo == [] then w else
      var k := Key(z, Stored(todo[0]), A);
      At(w.(sets := w.sets[k := Alias(dns + ".")], authors := w.authors[k := o]), o, Hosts(todo[1..], dns))
    case Zones(rest) =>
      At(w, o, if rest == [] then Cleaned else DropAliases(rest, OwnedAliases(l, Route53OwnerValue(o))))
    case DropAliases(rest, list) =>
      if list == [] then At(w, o, DropTexts(rest, OwnedTexts(l, Route53OwnerValue(o))))
      else if CanDelete(w, list[0]) then At(Delete(w, list[0]), o, DropAliases(rest, list[1..]))
      else At(w, o, Idle)
    case DropTexts(rest, list) =>
      if list == [] then At(w, o, Zones(if rest == [] then [] else rest[1..]))
      else if CanDelete(w, list[0]) then At(Delete(w, list[0]), o, DropTexts(rest, list[1..]))
      else At(w, o, Idle)
    case _ => w
  }

  function Apply(w: World, a: Action): World {
    match a
    case BeginEnsure(o, hostnames, dns) => At(w, o, Hosts(hostnames, dns))
    case BeginCleanup(o) => At(w, o, Zones(w.zones))
    case Call(o, l) => Perform(w, o, l)
    case Abort(o) => At(w, o, Idle)
    case Foreign(k, d) =>
      w.(sets := if d.Some? then w.sets[k := d.value] else w.sets - {k}, authors := w.authors - {k})
  }

  predicate By(a: Action, o: Owner) {
    !a.Foreign? && a.o == o
  }

  /*** Runs ***/

  function Exec(w: World, trace: seq<Action>): World {
    if trace == [] then w else Apply(Exec(w, trace[..|trace| - 1]), trace[|trace| - 1])
  }

  predicate Legal(w: World, trace: seq<Action>) {
    trace != [] ==>
      && Legal(w, trace[..|trace| - 1])
      && Enabled(Exec(w, trace[..|trace| - 1]), trace[|trace| - 1])
  }

  /** Before the controller starts: a clean store, nothing written yet, nobody at work. */
  ghost predicate Init(w: World) {
    && CleanStore(w.sets) && DistinctIds(w.zones) && (forall k | k in w.sets :: k.zone in Ids(w.zones))
    && w.authors == map[] && w.pcs == map[]
  }

  /*** The invariant ***/

  ghost predicate StoreInv(w: World) {
    && CleanStore(w.sets) && DistinctIds(w.zones)
    && (forall k | k in w.sets :: k.zone in Ids(w.zones))
    && (forall k | k in w.authors ::
          k.rtype == A && k in w.sets && w.sets[k].Alias? && Holds(w.sets, k.zone, k.name, w.authors[k]))
  }

  ghost predicate NothingOutside(w: World, o: Owner, rest: seq<HostedZone>) {
    forall zone, name :: zone !in Ids(rest) ==> !Holds(w.sets, zone, name, o)
  }

  predicate Covers(l: seq<Entry>, k: Key) {
    exists e | e in l :: e.key == k
  }

  ghost predicate PcInv(w: World, o: Owner) {
    match PcOf(w, o)
    case WriteText(todo, _, z) => todo != [] && z in Ids(w.zones)
    case WriteAlias(todo, _, z) => todo != [] && z in Ids(w.zones) && Holds(w.sets, z, Stored(todo[0]), o)
    case UpdateAlias(todo, _, z) => todo != [] && z in Ids(w.zones) && Holds(w.sets, z, Stored(todo[0]), o)
    case Zones(rest) => NothingOutside(w, o, rest)
    case DropAliases(rest, list) =>
      && rest != [] && NothingOutside(w, o, rest)
      && (forall e | e in list ::
            e.key.zone == rest[0].id && e.data.Alias? && Holds(w.sets, e.key.zone, e.key.name, o))
      && (forall k | k in w.authors && w.authors[k] == o && k.zone == rest[0].id :: Covers(list, k))
    case DropTexts(rest, list) =>
      && rest != [] && NothingOutside(w, o, rest)
      && (forall e | e in list :: e.key.zone == rest[0].id && Carries(e.data, Route53OwnerValue(o)))
      && (forall name | Holds(w.sets, rest[0].id, name, o) :: Covers(list, Key(rest[0].id, name, TXT)))
      && (forall k | k in w.authors && w.authors[k] == o :: k.zone != rest[0].id)
    case Cleaned => NothingOutside(w, o, [])
    case _ => true
  }

  ghost predicate Inv(w: World) {
    StoreInv(w) && forall o: Owner :: PcInv(w, o)
  }

  /*** Isolation ***/

  /** Everything that concerns p stays as it was: its names, what lies there, and how far it got. */
  ghost predicate Untouched(w: World, w': World, p: Owner) {
    && w'.zones == w.zones
    && PcOf(w', p) == PcOf(w, p)
    && (forall k: Key | Holds(w.sets, k.zone, k.name, p) ::
          (k in w.sets <==> k in w'.sets) && (k in w.sets ==> w.sets[k] == w'.sets[k]))
    && (forall zone, name | Holds(w'.sets, zone, name, p) :: Holds(w.sets, zone, name, p))
    && (forall k: Key :: k in w.authors && w.authors[k] == p <==> k in w'.authors && w'.authors[k] == p)
  }

  lemma UntouchedTransitive(u: World, v: World, w: World, p: Owner)
    requires Untouched(u, v, p) && Untouched(v, w, p)
    ensures Untouched(u, w, p)
  {
    forall k: Key | Holds(u.sets, k.zone, k.name, p)
      ensures (k in u.sets <==> k in w.sets) && (k in u.sets ==> u.sets[k] == w.sets[k])
    {
      var t := Key(k.zone, k.name, TXT);
      assert Holds(u.sets, t.zone, t.name, p);
      assert Holds(v.sets, k.zone, k.name, p);
    }
  }

  /** What an owner relies on survives whatever leaves it untouched. */
  lemma PcInvStable(w: World, w': World, p: Owner)
    requires PcInv(w, p) && Untouched(w, w', p)
    ensures PcInv(w', p)
  {
    forall zone, name | Holds(w.sets, zone, name, p)
      ensures Holds(w'.sets, zone, name, p)
    {
      var t := Key(zone, name, TXT);
      assert Holds(w.sets, t.zone, t.name, p);
    }
  }
}
