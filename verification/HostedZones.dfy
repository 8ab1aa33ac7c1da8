/** Hosted zone search: GetHostedZone and parentDomain of pkg/cloudprovider/aws/route53.go. */
module HostedZones {
  import opened Strings

  datatype HostedZone = HostedZone(id: string, name: string)

  predicate DistinctIds(zones: seq<HostedZone>) {
    forall i, j | 0 <= i < j < |zones| :: zones[i].id != zones[j].id
  }

  lemma SameIdSameZone(zones: seq<HostedZone>, y: HostedZone, z: HostedZone)
    requires DistinctIds(zones) && y in zones && z in zones
    ensures y.id == z.id ==> y == z
  {
  }

  /** parentDomain: the name without its first label. */
  function ParentDomain(hostname: string): string {
    Join(Split(hostname, '.')[1..], '.')
  }

  /** ParentDomain strictly shortens a non-empty name: it is what follows the first dot. */
  lemma ParentDomainDropsFirstLabel(hostname: string)
    ensures var i := IndexOf(hostname, '.');
            ParentDomain(hostname) == if i == |hostname| then "" else hostname[i + 1..]
    ensures hostname != "" ==> |ParentDomain(hostname)| < |hostname|
  {
    hide IndexOf, Split, Join;
    var i := IndexOf(hostname, '.');
    SplitFirst(hostname, '.');
    if i < |hostname| {
      JoinInvertsSplit(hostname[i + 1..], '.');
    } else {
      assert [hostname][1..] == [];
      JoinNothing('.');
    }
  }

  lemma JoinNothing(sep: char)
    ensures Join([], sep) == ""
  {
  }

  /** The first listed zone of that name. Names of zones end in a dot. */
  function ZoneNamed(zones: seq<HostedZone>, name: string): (z: Option<HostedZone>)
    ensures z.Some? ==> z.value in zones && z.value.name == name
    ensures z.None? ==> forall i | 0 <= i < |zones| :: zones[i].name != name
  {
    if zones == [] then None
    else if zones[0].name == name then Some(zones[0])
    else ZoneNamed(zones[1..], name)
  }

  /** A label boundary of the hostname: its start, or the position after a dot. */
  predicate Boundary(hostname: string, i: nat) {
    i < |hostname| && (i == 0 || hostname[i - 1] == '.')
  }

  /** z is the zone of the longest label-boundary suffix of the hostname that names a zone at all. */
  ghost predicate IsNearestZone(zones: seq<HostedZone>, hostname: string, z: HostedZone) {
    exists i: nat ::
      && Boundary(hostname, i)
      && ZoneNamed(zones, hostname[i..] + ".") == Some(z)
      && forall j: nat | j < i && Boundary(hostname, j) :: ZoneNamed(zones, hostname[j..] + ".").None?
  }

  ghost predicate HasNoZone(zones: seq<HostedZone>, hostname: string) {
    forall j: nat | Boundary(hostname, j) :: ZoneNamed(zones, hostname[j..] + ".").None?
  }

  /** What GetHostedZone computes, as a recursion over parents. */
  function ZoneOf(zones: seq<HostedZone>, hostname: string): Option<HostedZone>
    decreases |hostname|
  {
    if hostname == "" then None
    else
      var z := ZoneNamed(zones, hostname + ".");
      if z.Some? then z
      else
        ParentDomainDropsFirstLabel(hostname);
        ZoneOf(zones, ParentDomain(hostname))
  }

  lemma BoundaryShift(hostname: string, d: nat, i: nat)
    requires 0 < d <= i < |hostname| && hostname[d - 1] == '.'
    ensures hostname[d..][i - d..] == hostname[i..]
    ensures Boundary(hostname, i) <==> Boundary(hostname[d..], i - d)
  {
  }

  /** The boundaries of a name past its first label are those of its parent. */
  lemma ParentBoundaries(hostname: string, i: nat)
    requires 0 < i < |hostname|
    ensures var d := IndexOf(hostname, '.') + 1;
            && (Boundary(hostname, i) <==> d <= i && Boundary(ParentDomain(hostname), i - d))
            && (d <= i ==> ParentDomain(hostname) == hostname[d..] && ParentDomain(hostname)[i - d..] == hostname[i..])
  {
    hide Split, Join;
    var d := IndexOf(hostname, '.') + 1;
    ParentDomainDropsFirstLabel(hostname);
    if d <= i {
      BoundaryShift(hostname, d, i);
    } else {
      assert hostname[i - 1] == hostname[..d - 1][i - 1];
    }
  }

  /** A zone is returned exactly when some label-boundary suffix names one, and then it is the nearest. */
  lemma {:induction false} ZoneOfIsNearest(zones: seq<HostedZone>, hostname: string)
    ensures ZoneOf(zones, hostname).Some? ==> IsNearestZone(zones, hostname, ZoneOf(zones, hostname).value)
    ensures ZoneOf(zones, hostname).None? ==> HasNoZone(zones, hostname)
    decreases |hostname|
  {
    if hostname != "" {
      assert hostname[0..] == hostname;
      if ZoneNamed(zones, hostname + ".").None? {
        var parent := ParentDomain(hostname);
        var d := IndexOf(hostname, '.') + 1;
        ParentDomainDropsFirstLabel(hostname);
        ZoneOfIsNearest(zones, parent);
        if ZoneOf(zones, parent).Some? {
          NearestOfParent(zones, hostname, ZoneOf(zones, parent).value);
        } else {
          forall j: nat | Boundary(hostname, j)
            ensures ZoneNamed(zones, hostname[j..] + ".").None?
          {
            if 0 < j { ParentBoundaries(hostname, j); }
          }
        }
      } else {
        assert Boundary(hostname, 0);
      }
    }
  }

  lemma NearestOfParent(zones: seq<HostedZone>, hostname: string, z: HostedZone)
    requires hostname != "" && ZoneNamed(zones, hostname + ".").None?
    requires IsNearestZone(zones, ParentDomain(hostname), z)
    ensures IsNearestZone(zones, hostname, z)
  {
    var parent := ParentDomain(hostname);
    var d := IndexOf(hostname, '.') + 1;
    ParentDomainDropsFirstLabel(hostname);
    assert hostname[0..] == hostname;
    var k: nat :| Boundary(parent, k) && ZoneNamed(zones, parent[k..] + ".") == Some(z)
      && forall j: nat | j < k && Boundary(parent, j) :: ZoneNamed(zones, parent[j..] + ".").None?;
    ParentBoundaries(hostname, k + d);
    forall j: nat | j < k + d && Boundary(hostname, j)
      ensures ZoneNamed(zones, hostname[j..] + ".").None?
    {
      if 0 < j { ParentBoundaries(hostname, j); }
    }
  }

  /** The two outcomes exclude each other, so GetHostedZone fails exactly when no suffix names a zone. */
  lemma NearestExcludesNone(zones: seq<HostedZone>, hostname: string)
    ensures ZoneOf(zones, hostname).None? <==> HasNoZone(zones, hostname)
    ensures forall z :: ZoneOf(zones, hostname) == Some(z) <==> IsNearestZone(zones, hostname, z)
  {
    ZoneOfIsNearest(zones, hostname);
    forall z | IsNearestZone(zones, hostname, z)
      ensures ZoneOf(zones, hostname) == Some(z)
    {
      if ZoneOf(zones, hostname).Some? {
        NearestUnique(zones, hostname, z, ZoneOf(zones, hostname).value);
      }
    }
  }

  lemma NearestUnique(zones: seq<HostedZone>, hostname: string, y: HostedZone, z: HostedZone)
    requires IsNearestZone(zones, hostname, y) && IsNearestZone(zones, hostname, z)
    ensures y == z
  {
    var i: nat :| Boundary(hostname, i) && ZoneNamed(zones, hostname[i..] + ".") == Some(y)
      && forall j: nat | j < i && Boundary(hostname, j) :: ZoneNamed(zones, hostname[j..] + ".").None?;
    var k: nat :| Boundary(hostname, k) && ZoneNamed(zones, hostname[k..] + ".") == Some(z)
      && forall j: nat | j < k && Boundary(hostname, j) :: ZoneNamed(zones, hostname[j..] + ".").None?;
    assert i == k;
  }

  /**
   * ListHostedZonesByName with MaxItems 1: the zone of that name when there is one,
   * otherwise at most one zone whose name comes later in the ordering.
   */
  method ListHostedZonesByName(zones: seq<HostedZone>, name: string) returns (page: seq<HostedZone>)
    ensures |page| <= 1
    ensures ZoneNamed(zones, name).Some? ==> page == [ZoneNamed(zones, name).value]
    ensures ZoneNamed(zones, name).None? ==> forall z | z in page :: z in zones && z.name != name
  {
    var exact := ZoneNamed(zones, name);
    if exact.Some? {
      return [exact.value];
    }
    page := [];
    if * {
      if |zones| > 0 {
        page := [zones[0]];
      }
    }
  }

  /** GetHostedZone: the loop over parents ends and finds the nearest zone, unless a lookup is lost. */
  method GetHostedZone(zones: seq<HostedZone>, originalHostname: string, quiet: bool)
    returns (ok: bool, zone: Option<HostedZone>)
    ensures ok ==> zone == ZoneOf(zones, originalHostname)
    ensures ok && zone.Some? ==> IsNearestZone(zones, originalHostname, zone.value)
    ensures ok && zone.None? ==> HasNoZone(zones, originalHostname)
    ensures quiet ==> ok
  {
    ZoneOfIsNearest(zones, originalHostname);
    var targetHostname := originalHostname;
    while true
      invariant ZoneOf(zones, targetHostname) == ZoneOf(zones, originalHostname)
      decreases |targetHostname|
    {
      if targetHostname == "" {
        return true, None;
      }
      var lost: bool := *;
      if lost && !quiet {
        return false, None;
      }
      var page := ListHostedZonesByName(zones, targetHostname + ".");
      for i := 0 to |page|
        invariant forall j | 0 <= j < i :: page[j].name != targetHostname + "."
      {
        if page[i].name == targetHostname + "." {
          return true, Some(page[i]);
        }
      }
      ParentDomainDropsFirstLabel(targetHostname);
      assert |page| > 0 ==> page[0].name != targetHostname + ".";
      assert ZoneOf(zones, targetHostname) == ZoneOf(zones, ParentDomain(targetHostname));
      targetHostname := ParentDomain(targetHostname);
    }
  }
}
