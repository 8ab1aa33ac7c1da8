/** Record sets of Route 53 and the read-only searches of pkg/cloudprovider/aws/route53.go over a listing. */
module Route53Store {
  import opened Strings
  import opened OwnerValues
  import opened RecordNames

  datatype RRType = A | TXT | OtherType(name: string)

  /** A record set either aliases a DNS name or holds resource records. */
  datatype Data = Alias(dnsName: string) | Values(ttl: nat, values: seq<string>)

  datatype Key = Key(zone: string, name: string, rtype: RRType)

  datatype Entry = Entry(key: Key, data: Data)

  type Sets = map<Key, Data>

  const METADATA_TTL: nat := 300

  predicate Carries(d: Data, value: string) {
    d.Values? && value in d.values
  }

  function OwnerText(o: Owner): Data {
    Values(METADATA_TTL, [Route53OwnerValue(o)])
  }

  /** The name carries the owner's TXT record. */
  predicate Holds(sets: Sets, zone: string, name: string, o: Owner) {
    var k := Key(zone, name, TXT);
    k in sets && sets[k].Values? && sets[k].values == [Route53OwnerValue(o)]
  }

  /** A listing of a zone shows each of its record sets once. */
  predicate IsListing(sets: Sets, zone: string, l: seq<Entry>) {
    && (forall e | e in l :: e.key in sets && e.key.zone == zone && sets[e.key] == e.data)
    && (forall k | k in sets && k.zone == zone :: Entry(k, sets[k]) in l)
    && (forall i, j | 0 <= i < j < |l| :: l[i].key != l[j].key)
  }

  function OwnerNames(l: seq<Entry>, value: string): set<string> {
    set e | e in l && Carries(e.data, value) :: e.key.name
  }

  function AliasItem(e: Entry, names: set<string>): seq<Entry> {
    if e.key.name in names && e.data.Alias? then [e] else []
  }

  function AliasesAt(l: seq<Entry>, names: set<string>): (r: seq<Entry>)
    ensures forall e :: e in r <==> e in l && e.key.name in names && e.data.Alias?
  {
    if l == [] then [] else AliasItem(l[0], names) + AliasesAt(l[1..], names)
  }

  /** FindOwneredARecordSets on a listing */
  function OwnedAliases(l: seq<Entry>, value: string): seq<Entry> {
    AliasesAt(l, OwnerNames(l, value))
  }

  /** How often the value occurs among the records of a set. */
  function Occurrences(values: seq<string>, value: string): nat {
    if values == [] then 0
    else (if values[0] == value then 1 else 0) + Occurrences(values[1..], value)
  }

  function Repeat(e: Entry, n: nat): (r: seq<Entry>)
    ensures |r| == n && forall i | 0 <= i < n :: r[i] == e
  {
    seq(n, _ => e)
  }

  lemma OccursExactly(values: seq<string>, value: string)
    ensures Occurrences(values, value) > 0 <==> value in values
  {
  }

  function TextItem(e: Entry, value: string): (r: seq<Entry>)
    ensures forall x :: x in r <==> x == e && Carries(e.data, value)
  {
    if e.data.Values? then
      OccursExactly(e.data.values, value);
      var r := Repeat(e, Occurrences(e.data.values, value));
      assert r != [] ==> r[0] in r;
      r
    else []
  }

  /** findOwneredMetadataRecordSets on a listing: one result for each matching record. */
  function OwnedTexts(l: seq<Entry>, value: string): (r: seq<Entry>)
    ensures forall e :: e in r <==> e in l && Carries(e.data, value)
  {
    if l == [] then [] else TextItem(l[0], value) + OwnedTexts(l[1..], value)
  }

  /** findARecord */
  function FindARecord(records: seq<Entry>, hostname: string): (r: Option<Entry>)
    ensures r.Some? ==>
              r.value in records && r.value.key.rtype == A && ReplaceWildcards(r.value.key.name) == hostname + "."
    ensures r.None? ==>
              forall e | e in records :: e.key.rtype == A ==> ReplaceWildcards(e.key.name) != hostname + "."
  {
    if records == [] then None
    else if records[0].key.rtype == A && ReplaceWildcards(records[0].key.name) == hostname + "." then Some(records[0])
    else FindARecord(records[1..], hostname)
  }

  /** needRecordsUpdate */
  predicate NeedRecordsUpdate(d: Data, dns: string) {
    !d.Alias? || d.dnsName != dns + "."
  }

  /** Owner values sit alone in TXT sets, and names are stored escaped. */
  ghost predicate CleanStore(sets: Sets) {
    && (forall k | k in sets :: '*' !in k.name)
    && (forall k, o: Owner | k in sets && Carries(sets[k], Route53OwnerValue(o)) ::
          k.rtype == TXT && sets[k].values == [Route53OwnerValue(o)])
  }

  lemma HoldersAgree(sets: Sets, zone: string, name: string, o: Owner, p: Owner)
    requires Holds(sets, zone, name, o) && Holds(sets, zone, name, p)
    ensures o == p
  {
    assert sets[Key(zone, name, TXT)].values[0] == Route53OwnerValue(o) == Route53OwnerValue(p);
    Route53OwnerValueInjective(o, p);
  }

  /** In a clean store a listing finds exactly the alias sets at the names the owner holds. */
  lemma OwnedAliasesExactly(sets: Sets, zone: string, l: seq<Entry>, o: Owner, e: Entry)
    requires CleanStore(sets) && IsListing(sets, zone, l)
    ensures e in OwnedAliases(l, Route53OwnerValue(o)) <==>
            e.key in sets && sets[e.key] == e.data && e.key.zone == zone && e.data.Alias?
            && Holds(sets, zone, e.key.name, o)
  {
    var v := Route53OwnerValue(o);
    if e.key.name in OwnerNames(l, v) {
      var f :| f in l && Carries(f.data, v) && f.key.name == e.key.name;
      assert f.key == Key(zone, e.key.name, TXT);
    }
    if Holds(sets, zone, e.key.name, o) {
      var k := Key(zone, e.key.name, TXT);
      assert Entry(k, sets[k]) in l && Carries(sets[k], v);
      assert Entry(k, sets[k]).key.name in OwnerNames(l, v);
    }
  }

  lemma OwnedTextsExactly(sets: Sets, zone: string, l: seq<Entry>, o: Owner, e: Entry)
    requires CleanStore(sets) && IsListing(sets, zone, l)
    ensures e in OwnedTexts(l, Route53OwnerValue(o)) <==>
            e.key in sets && sets[e.key] == e.data && e.key.zone == zone && e.key.rtype == TXT
            && Holds(sets, zone, e.key.name, o)
  {
    if e.key in sets && e.key.rtype == TXT && Holds(sets, zone, e.key.name, o) && e.key.zone == zone {
      assert e.key == Key(zone, e.key.name, TXT);
    }
  }

  /** The hostname is recognised as the owner's exactly when its own name carries the TXT record and an alias. */
  predicate Recognised(sets: Sets, zone: string, hostname: string, o: Owner) {
    var k := Key(zone, Stored(hostname), A);
    Findable(hostname) && Holds(sets, zone, Stored(hostname), o) && k in sets && sets[k].Alias?
  }

  lemma RecognisedExactly(sets: Sets, zone: string, l: seq<Entry>, hostname: string, o: Owner)
    requires CleanStore(sets) && IsListing(sets, zone, l)
    ensures var r := FindARecord(OwnedAliases(l, Route53OwnerValue(o)), hostname);
            && (r.Some? <==> Recognised(sets, zone, hostname, o))
            && (r.Some? ==> r.value.key == Key(zone, Stored(hostname), A) && sets[r.value.key] == r.value.data)
  {
    var found := OwnedAliases(l, Route53OwnerValue(o));
    var r := FindARecord(found, hostname);
    if r.Some? {
      OwnedAliasesExactly(sets, zone, l, o, r.value);
      MatchIsStored(r.value.key.name, hostname);
    }
    if Recognised(sets, zone, hostname, o) {
      var k := Key(zone, Stored(hostname), A);
      OwnedAliasesExactly(sets, zone, l, o, Entry(k, sets[k]));
      assert Entry(k, sets[k]) in found;
    }
  }
}
