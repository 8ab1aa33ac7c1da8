/** Global Accelerator as a store of accelerators, listeners and endpoint groups, and the tags that mark ownership. */
module Accelerators {
  import opened Strings
  import opened OwnerValues
  import opened ListenerPorts

  const MANAGED_KEY := "aws-global-accelerator-controller-managed"
  const OWNER_KEY := "aws-global-accelerator-owner"
  const HOSTNAME_KEY := "aws-global-accelerator-target-hostname"
  const CLUSTER_KEY := "aws-global-accelerator-cluster"

  type Tags = map<string, string>

  datatype Accelerator = Accelerator(enabled: bool, name: string, tags: Tags)

  /** parent is the ARN of the accelerator or listener that the resource belongs to. */
  datatype Listener = Listener(parent: string, ports: seq<int>, protocol: Protocol)

  datatype Group = Group(parent: string, endpoints: seq<string>)

  datatype Store = Store(
    accelerators: map<string, Accelerator>, listeners: map<string, Listener>, groups: map<string, Group>)

  const EMPTY := Store(map[], map[], map[])

  /*** Tags ***/

  /** The value of the last tag with this key. */
  function Last(tags: seq<Tag>, key: string): Option<string> {
    if tags == [] then None
    else if tags[|tags| - 1].key == key then Some(tags[|tags| - 1].value)
    else Last(tags[..|tags| - 1], key)
  }

  /** TagResource, and every loop that fills a map from a list of tags: later tags win. */
  function Merge(m: Tags, tags: seq<Tag>): Tags {
    if tags == [] then m else Merge(m, tags[..|tags| - 1])[tags[|tags| - 1].key := tags[|tags| - 1].value]
  }

  /** tagsContainsAllValues: a missing key reads as the empty string. */
  predicate Contains(actual: Tags, target: Tags) {
    forall k | k in target :: (if k in actual then actual[k] else "") == target[k]
  }

  /** ListTagsForResource */
  method ListTags(m: Tags) returns (tags: seq<Tag>)
    ensures Merge(map[], tags) == m
  {
    var left := m.Keys;
    tags := [];
    while left != {}
      invariant left <= m.Keys
      invariant Merge(map[], tags) == m - left
      decreases left
    {
      var k :| k in left;
      ghost var before := tags;
      tags := tags + [Tag(k, m[k])];
      assert tags[..|tags| - 1] == before;
      assert (m - left)[k := m[k]] == m - (left - {k});
      left := left - {k};
    }
  }

  method TagsContainsAllValues(tags: seq<Tag>, targetTags: Tags) returns (all: bool)
    ensures all <==> Contains(Merge(map[], tags), targetTags)
    ensures var m := Merge(map[], tags);
            all <==> forall k | k in targetTags :: if k in m then m[k] == targetTags[k] else targetTags[k] == ""
  {
    var actual: Tags := map[];
    for i := 0 to |tags|
      invariant actual == Merge(map[], tags[..i])
    {
      assert tags[..i + 1][..i] == tags[..i];
      actual := actual[tags[i].key := tags[i].value];
    }
    assert tags[..|tags|] == tags;
    var left := targetTags.Keys;
    while left != {}
      invariant left <= targetTags.Keys
      invariant forall k | k in targetTags && k !in left :: (if k in actual then actual[k] else "") == targetTags[k]
      decreases left
    {
      var k :| k in left;
      if (if k in actual then actual[k] else "") != targetTags[k] {
        return false;
      }
      left := left - {k};
    }
    return true;
  }

  lemma {:induction false} MergeAt(m: Tags, tags: seq<Tag>, k: string)
    ensures k in Merge(m, tags) <==> k in m || Last(tags, k).Some?
    ensures k in Merge(m, tags) ==>
              Merge(m, tags)[k] == if Last(tags, k).Some? then Last(tags, k).value else m[k]
  {
    if tags != [] {
      MergeAt(m, tags[..|tags| - 1], k);
    }
  }

  lemma {:induction false} LastAppend(a: seq<Tag>, b: seq<Tag>, k: string)
    ensures Last(a + b, k) == if Last(b, k).Some? then Last(b, k) else Last(a, k)
  {
    if b == [] {
      assert a + b == a;
    } else {
      LastAppend(a, b[..|b| - 1], k);
      assert (a + b)[..|a + b| - 1] == a + b[..|b| - 1];
    }
  }

  /** The tags of UpdateAccelerator; createAccelerator adds the cluster. */
  function OwnTags(o: OwnerId, hostname: string): seq<Tag> {
    [
      Tag(MANAGED_KEY, "true"),
      Tag(OWNER_KEY, AcceleratorOwnerTagValue(o.resource, o.ns, o.name)),
      Tag(HOSTNAME_KEY, hostname)
    ]
  }

  function CreationTags(o: OwnerId, hostname: string, specified: seq<Tag>): seq<Tag> {
    OwnTags(o, hostname) + [Tag(CLUSTER_KEY, o.cluster)] + specified
  }

  function UpdateTags(o: OwnerId, hostname: string, specified: seq<Tag>): seq<Tag> {
    OwnTags(o, hostname) + specified
  }

  /** What acceleratorChanged compares with. */
  function TargetTags(o: OwnerId, hostname: string, specified: seq<Tag>): Tags {
    Merge(map[], UpdateTags(o, hostname, specified))
  }

  /** What ListGlobalAcceleratorByResource looks for. */
  function LookupTags(o: OwnerId): Tags {
    map[
      MANAGED_KEY := "true",
      OWNER_KEY := AcceleratorOwnerTagValue(o.resource, o.ns, o.name),
      CLUSTER_KEY := o.cluster]
  }

  predicate Managed(a: Accelerator, o: OwnerId) {
    Contains(a.tags, LookupTags(o))
  }

  /** The annotation may set the reserved keys only to the values they have anyway. */
  predicate KeepsMarks(o: OwnerId, specified: seq<Tag>) {
    forall k | k in LookupTags(o) :: Last(specified, k).Some? ==> Last(specified, k).value == LookupTags(o)[k]
  }

  lemma KeysDiffer()
    ensures MANAGED_KEY != OWNER_KEY && MANAGED_KEY != HOSTNAME_KEY && MANAGED_KEY != CLUSTER_KEY
    ensures OWNER_KEY != HOSTNAME_KEY && OWNER_KEY != CLUSTER_KEY && HOSTNAME_KEY != CLUSTER_KEY
  {
    assert |MANAGED_KEY| > |HOSTNAME_KEY| > |CLUSTER_KEY| > |OWNER_KEY|;
  }

  lemma OwnTagsAt(o: OwnerId, hostname: string, k: string)
    ensures Last(OwnTags(o, hostname), k) ==
            if k == HOSTNAME_KEY then Some(hostname)
            else if k == OWNER_KEY then Some(AcceleratorOwnerTagValue(o.resource, o.ns, o.name))
            else if k == MANAGED_KEY then Some("true")
            else None
  {
    hide AcceleratorOwnerTagValue;
    var t := OwnTags(o, hostname);
    assert t[..2] == [t[0], t[1]] && t[..2][..1] == [t[0]] && t[..2][..1][..0] == [];
    assert Last(t, k) == if t[2].key == k then Some(t[2].value) else Last(t[..2], k);
    assert Last(t[..2], k) == if t[1].key == k then Some(t[1].value) else Last(t[..2][..1], k);
    assert Last(t[..2][..1], k) == if t[0].key == k then Some(t[0].value) else None;
  }

  lemma CreationTagsAt(o: OwnerId, hostname: string, specified: seq<Tag>, k: string)
    ensures Last(CreationTags(o, hostname, specified), k) ==
            if Last(specified, k).Some? then Last(specified, k)
            else if k == CLUSTER_KEY then Some(o.cluster)
            else Last(OwnTags(o, hostname), k)
  {
    hide OwnTags;
    var c := Tag(CLUSTER_KEY, o.cluster);
    LastAppend(OwnTags(o, hostname) + [c], specified, k);
    LastAppend(OwnTags(o, hostname), [c], k);
    assert [c][..0] == [];
  }

  /** Among tags with one key the last one counts. */
  lemma {:induction false} LastExactly(tags: seq<Tag>, k: string, i: nat)
    ensures i < |tags| && tags[i].key == k && (forall j | i < j < |tags| :: tags[j].key != k) ==>
              Last(tags, k) == Some(tags[i].value)
    ensures (forall j | 0 <= j < |tags| :: tags[j].key != k) ==> Last(tags, k) == None
  {
    if tags != [] {
      LastExactly(tags[..|tags| - 1], k, i);
    }
  }

  /** The tags of a new accelerator: those of the annotation, and for other keys the four marks and nothing else. */
  lemma CreatedTagsExactly(o: OwnerId, hostname: string, specified: seq<Tag>, k: string, i: nat)
    ensures var m := Merge(map[], CreationTags(o, hostname, specified));
            && (i < |specified| && specified[i].key == k
                && (forall j | i < j < |specified| :: specified[j].key != k) ==>
                  k in m && m[k] == specified[i].value)
            && ((forall j | 0 <= j < |specified| :: specified[j].key != k) ==>
                  (if k in m then Some(m[k]) else None) ==
                  if k == "aws-global-accelerator-controller-managed" then Some("true")
                  else if k == "aws-global-accelerator-owner" then Some(o.resource + "/" + o.ns + "/" + o.name)
                  else if k == "aws-global-accelerator-target-hostname" then Some(hostname)
                  else if k == "aws-global-accelerator-cluster" then Some(o.cluster)
                  else None)
  {
    hide OwnTags, CreationTags, Last, Merge;
    LastExactly(specified, k, i);
    MergeAt(map[], CreationTags(o, hostname, specified), k);
    CreationTagsAt(o, hostname, specified, k);
    OwnTagsAt(o, hostname, k);
    KeysDiffer();
  }

  /** The tags after an update: those of the annotation, for other keys the three own marks, and the rest stays. */
  lemma RetaggedExactly(m: Tags, o: OwnerId, hostname: string, specified: seq<Tag>, k: string, i: nat)
    ensures var m' := Merge(m, UpdateTags(o, hostname, specified));
            && (i < |specified| && specified[i].key == k
                && (forall j | i < j < |specified| :: specified[j].key != k) ==>
                  k in m' && m'[k] == specified[i].value)
            && ((forall j | 0 <= j < |specified| :: specified[j].key != k) ==>
                  (if k in m' then Some(m'[k]) else None) ==
                  if k == "aws-global-accelerator-controller-managed" then Some("true")
                  else if k == "aws-global-accelerator-owner" then Some(o.resource + "/" + o.ns + "/" + o.name)
                  else if k == "aws-global-accelerator-target-hostname" then Some(hostname)
                  else if k in m then Some(m[k]) else None)
  {
    hide OwnTags, Last, Merge;
    LastExactly(specified, k, i);
    MergeAt(m, UpdateTags(o, hostname, specified), k);
    LastAppend(OwnTags(o, hostname), specified, k);
    OwnTagsAt(o, hostname, k);
    KeysDiffer();
  }

  /** A created accelerator is found again by its owner exactly when the annotation leaves the ownership marks alone. */
  lemma CreatedIsFoundExactly(o: OwnerId, name: string, hostname: string, specified: seq<Tag>)
    ensures Managed(Accelerator(true, name, Merge(map[], CreationTags(o, hostname, specified))), o) <==>
            KeepsMarks(o, specified)
  {
    hide OwnTags, CreationTags, AcceleratorOwnerTagValue, Last;
    var tags := CreationTags(o, hostname, specified);
    KeysDiffer();
    forall k | k in LookupTags(o)
      ensures k in Merge(map[], tags)
      ensures Merge(map[], tags)[k] == if Last(specified, k).Some? then Last(specified, k).value else LookupTags(o)[k]
    {
      MergeAt(map[], tags, k);
      CreationTagsAt(o, hostname, specified, k);
      OwnTagsAt(o, hostname, k);
    }
  }

  lemma RetaggedIsFound(a: Accelerator, o: OwnerId, hostname: string, specified: seq<Tag>)
    requires Managed(a, o) && KeepsMarks(o, specified)
    ensures Managed(a.(tags := Merge(a.tags, UpdateTags(o, hostname, specified))), o)
  {
    hide OwnTags, AcceleratorOwnerTagValue, Last;
    var tags := UpdateTags(o, hostname, specified);
    KeysDiffer();
    forall k | k in LookupTags(o)
      ensures var m := Merge(a.tags, tags); (if k in m then m[k] else "") == LookupTags(o)[k]
    {
      MergeAt(a.tags, tags, k);
      LastAppend(OwnTags(o, hostname), specified, k);
      OwnTagsAt(o, hostname, k);
    }
  }

  /** Tagging makes the tags agree with the target, whatever tags were there before. */
  lemma RetaggedMatches(m: Tags, o: OwnerId, hostname: string, specified: seq<Tag>)
    ensures Contains(Merge(m, UpdateTags(o, hostname, specified)), TargetTags(o, hostname, specified))
  {
    hide OwnTags, UpdateTags, Last;
    var tags := UpdateTags(o, hostname, specified);
    forall k | k in Merge(map[], tags)
      ensures k in Merge(m, tags) && Merge(m, tags)[k] == Merge(map[], tags)[k]
    {
      MergeAt(m, tags, k);
      MergeAt(map[], tags, k);
    }
  }

  lemma CreatedMatches(o: OwnerId, hostname: string, specified: seq<Tag>)
    ensures Contains(Merge(map[], CreationTags(o, hostname, specified)), TargetTags(o, hostname, specified))
  {
    hide OwnTags, CreationTags, Last, AcceleratorOwnerTagValue;
    KeysDiffer();
    var created := CreationTags(o, hostname, specified);
    forall k | k in TargetTags(o, hostname, specified)
      ensures k in Merge(map[], created) && Merge(map[], created)[k] == TargetTags(o, hostname, specified)[k]
    {
      MergeAt(map[], created, k);
      MergeAt(map[], UpdateTags(o, hostname, specified), k);
      LastAppend(OwnTags(o, hostname), specified, k);
      CreationTagsAt(o, hostname, specified, k);
      OwnTagsAt(o, hostname, k);
    }
  }

  /** No accelerator is found by two owners. */
  lemma ManagersAgree(a: Accelerator, o: Owner, p: Owner)
    requires Managed(a, o) && Managed(a, p)
    ensures o == p
  {
    hide AcceleratorOwnerTagValue;
    KeysDiffer();
    assert OWNER_KEY in LookupTags(o) && CLUSTER_KEY in LookupTags(o);
    assert OWNER_KEY in LookupTags(p) && CLUSTER_KEY in LookupTags(p);
    AcceleratorOwnerTagValueInjective(o, p);
  }

  /*** The part of the store that belongs to an owner ***/

  function Below(s: Store, accelerators: map<string, Accelerator>): (r: Store)
    ensures r.accelerators == accelerators
  {
    var listeners := map l | l in s.listeners && s.listeners[l].parent in accelerators :: s.listeners[l];
    Store(accelerators, listeners, map g | g in s.groups && s.groups[g].parent in listeners :: s.groups[g])
  }

  /** The accelerators that the owner's tags find, with everything below them. */
  function Owned(s: Store, o: OwnerId): Store {
    Below(s, map a | a in s.accelerators && Managed(s.accelerators[a], o) :: s.accelerators[a])
  }

  /** The accelerators of all owners, with everything below them. */
  function ManagedPart(s: Store): Store {
    var mark := map[MANAGED_KEY := "true"];
    Below(s, map a | a in s.accelerators && Contains(s.accelerators[a].tags, mark) :: s.accelerators[a])
  }

  lemma BelowNests(s: Store, y: map<string, Accelerator>, x: map<string, Accelerator>)
    requires x.Keys <= y.Keys
    ensures Below(Below(s, y), x) == Below(s, x)
  {
    var m := Below(s, y);
    assert Below(m, x).listeners == Below(s, x).listeners;
    assert Below(m, x).groups == Below(s, x).groups;
  }

  /** What an owner owns depends only on the managed part. */
  lemma OwnedIsManaged(s: Store, o: OwnerId)
    ensures Owned(ManagedPart(s), o) == Owned(s, o)
  {
    hide AcceleratorOwnerTagValue;
    forall a: Accelerator | Managed(a, o)
      ensures Contains(a.tags, map[MANAGED_KEY := "true"])
    {
      KeysDiffer();
      assert MANAGED_KEY in LookupTags(o);
    }
    hide Managed, Contains, Below;
    var y := ManagedPart(s).accelerators;
    BelowNests(s, y, Owned(s, o).accelerators);
    assert Owned(ManagedPart(s), o).accelerators == Owned(s, o).accelerators;
  }

  /*** The calls that change the store ***/

  datatype Call =
    | CreateAccelerator(arn: string, name: string, tags: seq<Tag>)
    | UpdateAccelerator(arn: string, enabled: bool, newName: Option<string>)
    | TagAccelerator(arn: string, tags: seq<Tag>)
    | DeleteAccelerator(arn: string)
    | CreateListener(arn: string, parent: string, ports: seq<int>, protocol: Protocol)
    | UpdateListener(arn: string, ports: seq<int>, protocol: Protocol)
    | DeleteListener(arn: string)
    | CreateGroup(arn: string, parent: string, endpoints: seq<string>)
    | UpdateGroup(arn: string, endpoints: seq<string>)
    | DeleteGroup(arn: string)

  predicate HasListener(s: Store, arn: string) {
    exists l | l in s.listeners :: s.listeners[l].parent == arn
  }

  predicate HasGroup(s: Store, arn: string) {
    exists g | g in s.groups :: s.groups[g].parent == arn
  }

  /** The service's answer, None for a refusal: deletions need children gone and the accelerator disabled. */
  function Answer(s: Store, c: Call): Option<Store> {
    match c
    case CreateAccelerator(a, name, tags) =>
      Some(s.(accelerators := s.accelerators[a := Accelerator(true, name, Merge(map[], tags))]))
    case UpdateAccelerator(a, enabled, name) =>
      if a !in s.accelerators then None
      else
        var before := s.accelerators[a];
        Some(s.(accelerators :=
          s.accelerators[a := Accelerator(enabled, if name.Some? then name.value else before.name, before.tags)]))
    case TagAccelerator(a, tags) =>
      if a !in s.accelerators then None
      else
        var before := s.accelerators[a];
        Some(s.(accelerators := s.accelerators[a := before.(tags := Merge(before.tags, tags))]))
    case DeleteAccelerator(a) =>
      if a !in s.accelerators || s.accelerators[a].enabled || HasListener(s, a) then None
      else Some(s.(accelerators := s.accelerators - {a}))
    case CreateListener(l, parent, ports, protocol) =>
      if parent !in s.accelerators then None
      else Some(s.(listeners := s.listeners[l := Listener(parent, ports, protocol)]))
    case UpdateListener(l, ports, protocol) =>
      if l !in s.listeners then None
      else Some(s.(listeners := s.listeners[l := Listener(s.listeners[l].parent, ports, protocol)]))
    case DeleteListener(l) =>
      if l !in s.listeners || HasGroup(s, l) then None else Some(s.(listeners := s.listeners - {l}))
    case CreateGroup(g, parent, endpoints) =>
      if parent !in s.listeners then None else Some(s.(groups := s.groups[g := Group(parent, endpoints)]))
    case UpdateGroup(g, endpoints) =>
      if g !in s.groups then None else Some(s.(groups := s.groups[g := s.groups[g].(endpoints := endpoints)]))
    case DeleteGroup(g) =>
      if g !in s.groups then None else Some(s.(groups := s.groups - {g}))
  }

  /** An ARN that the service can hand out: nothing has it, and nothing refers to it. */
  predicate Fresh(s: Store, arn: string) {
    arn !in s.accelerators && arn !in s.listeners && arn !in s.groups && !HasListener(s, arn) && !HasGroup(s, arn)
  }

  /** At most one accelerator, one listener below it and one endpoint group below that. */
  predicate Shape(t: Store) {
    && (forall a, b | a in t.accelerators && b in t.accelerators :: a == b)
    && (forall l, m | l in t.listeners && m in t.listeners :: l == m)
    && (forall g, h | g in t.groups && h in t.groups :: g == h)
  }

  predicate NoOrphans(s: Store) {
    && (forall l | l in s.listeners :: s.listeners[l].parent in s.accelerators)
    && (forall g | g in s.groups :: s.groups[g].parent in s.listeners)
  }
}
