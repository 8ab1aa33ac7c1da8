/**
 * The reconciler of EndpointGroupBinding objects (pkg/controller/endpointgroupbinding/reconcile.go).
 * Go slices are modelled as arrays with a length, so that writes through one slice show in the others.
 */
module EndpointGroupBindings {
  import opened Sequences
  import opened Strings
  import opened LoadBalancerNames

  const FINALIZER := "operator.h3poteto.dev/endpointgroupbindings"

  /** The calls that change an endpoint group. */
  datatype ApiCall =
    | AddEndpoint(group: string, id: string)
    | RemoveEndpoint(group: string, id: string)
    | UpdateWeight(group: string, id: string)

  /** The request sent to the Kubernetes API: Update of the metadata, or UpdateStatus. */
  datatype Write = NoWrite | SetFinalizers(finalizers: seq<string>) | SetStatus(ids: seq<string>, observed: int)

  /** What n cells of an array hold after a shorter or longer list has been written into them, the rest cleared. */
  function Overwritten(x: seq<string>, n: nat): (r: seq<string>)
    ensures |r| == n
    ensures forall i | 0 <= i < n :: r[i] == if i < |x| then x[i] else ""
  {
    if |x| >= n then x[..n] else x + seq(n - |x|, _ => "")
  }

  lemma NothingOverwritten(x: seq<string>)
    ensures Overwritten(x, |x|) == x
  {
  }

  lemma OverwriteNext(x: seq<string>, e: string, n: nat)
    ensures Overwritten(x + [e], n) == if |x| < n then Overwritten(x, n)[|x| := e] else Overwritten(x, n)
  {
  }

  datatype Outcome = Success(requeueAfter: nat) | Errored | Panicked

  datatype GroupLookup = GroupFound | GroupNotFound | LookupFailed

  /*** Lists of endpoint ids ***/

  function Without(s: seq<string>, e: string): seq<string> {
    if s == [] then []
    else Without(s[..|s| - 1], e) + if s[|s| - 1] == e then [] else [s[|s| - 1]]
  }

  function WithoutAll(s: seq<string>, es: seq<string>): seq<string> {
    if es == [] then s else Without(WithoutAll(s, es[..|es| - 1]), es[|es| - 1])
  }

  /** The elements that are, or are not, among the keys, in order. */
  function Filter(s: seq<string>, keys: set<string>, keep: bool): seq<string> {
    if s == [] then []
    else Filter(s[..|s| - 1], keys, keep) + if (s[|s| - 1] in keys) == keep then [s[|s| - 1]] else []
  }

  /** Every second element, from the first. */
  function Evens(s: seq<string>): (r: seq<string>)
    ensures |r| == (|s| + 1) / 2 && forall i | 0 <= i < |r| :: r[i] == s[2 * i]
  {
    seq((|s| + 1) / 2, i requires 0 <= i < (|s| + 1) / 2 => s[2 * i])
  }

  function Removals(group: string, ids: seq<string>): (r: seq<ApiCall>)
    ensures |r| == |ids| && forall i | 0 <= i < |ids| :: r[i] == RemoveEndpoint(group, ids[i])
  {
    seq(|ids|, i requires 0 <= i < |ids| => RemoveEndpoint(group, ids[i]))
  }

  function Additions(group: string, ids: seq<string>): (r: seq<ApiCall>)
    ensures |r| == |ids| && forall i | 0 <= i < |ids| :: r[i] == AddEndpoint(group, ids[i])
  {
    seq(|ids|, i requires 0 <= i < |ids| => AddEndpoint(group, ids[i]))
  }

  function Weights(group: string, ids: seq<string>): (r: seq<ApiCall>)
    ensures |r| == |ids| && forall i | 0 <= i < |ids| :: r[i] == UpdateWeight(group, ids[i])
  {
    seq(|ids|, i requires 0 <= i < |ids| => UpdateWeight(group, ids[i]))
  }

  lemma LastApart(s: seq<string>)
    requires s != []
    ensures s == s[..|s| - 1] + [s[|s| - 1]]
    ensures forall x :: x in s <==> x in s[..|s| - 1] || x == s[|s| - 1]
  {
    assert s == s[..|s| - 1] + [s[|s| - 1]];
  }

  lemma {:induction false} WithoutIn(s: seq<string>, e: string, x: string)
    ensures x in Without(s, e) <==> x in s && x != e
  {
    if s != [] {
      WithoutIn(s[..|s| - 1], e, x);
      LastApart(s);
    }
  }

  lemma {:induction false} FilterIn(s: seq<string>, keys: set<string>, keep: bool, x: string)
    ensures x in Filter(s, keys, keep) <==> x in s && (x in keys) == keep
  {
    if s != [] {
      FilterIn(s[..|s| - 1], keys, keep, x);
      LastApart(s);
    }
  }

  lemma {:induction false} FilterNoDuplicates(s: seq<string>, keys: set<string>, keep: bool)
    requires NoDuplicates(s)
    ensures NoDuplicates(Filter(s, keys, keep))
  {
    if s != [] {
      var t, x := s[..|s| - 1], s[|s| - 1];
      FilterNoDuplicates(t, keys, keep);
      FilterIn(t, keys, keep, x);
      assert x !in t;
      assert forall y | y in Filter(t, keys, keep) :: y != x;
    }
  }

  /** Filtering with one more unwanted key is filtering, then dropping that key. */
  lemma {:induction false} FilterWithout(s: seq<string>, keys: set<string>, e: string)
    requires e !in keys
    ensures Without(Filter(s, keys + {e}, true), e) == Filter(s, keys, true)
  {
    if s != [] {
      var t, x := s[..|s| - 1], s[|s| - 1];
      FilterWithout(t, keys, e);
      var f := Filter(t, keys + {e}, true);
      if x in keys + {e} {
        assert (f + [x])[..|f|] == f;
      } else {
        assert f + [] == f;
      }
    }
  }

  /** Dropping the unwanted ids one by one leaves the wanted ones, in order, even when ids repeat. */
  lemma {:induction false} WithoutAllIsFilter(s: seq<string>, es: seq<string>)
    ensures WithoutAll(s, es) == Filter(s, Elements(s) - Elements(es), true)
  {
    if es == [] {
      FilterAll(s, Elements(s) - Elements(es));
    } else {
      var fs, e := es[..|es| - 1], es[|es| - 1];
      WithoutAllIsFilter(s, fs);
      var before, after := Elements(s) - Elements(fs), Elements(s) - Elements(es);
      assert es == fs + [e];
      if e in before {
        assert before == after + {e};
        FilterWithout(s, after, e);
      } else {
        assert before == after;
        FilterIn(s, before, true, e);
        WithoutAbsent(Filter(s, before, true), e);
      }
    }
  }

  lemma {:induction false} FilterAll(s: seq<string>, keys: set<string>)
    requires forall x | x in s :: x in keys
    ensures Filter(s, keys, true) == s
  {
    if s != [] {
      LastApart(s);
      FilterAll(s[..|s| - 1], keys);
    }
  }

  lemma {:induction false} WithoutAbsent(s: seq<string>, e: string)
    requires e !in s
    ensures Without(s, e) == s
  {
    if s != [] {
      LastApart(s);
      WithoutAbsent(s[..|s| - 1], e);
    }
  }

  lemma {:induction false} FilterDepends(s: seq<string>, a: set<string>, b: set<string>)
    requires forall x | x in s :: x in a <==> x in b
    ensures Filter(s, a, true) == Filter(s, b, true)
  {
    if s != [] {
      FilterDepends(s[..|s| - 1], a, b);
      assert s[|s| - 1] in s;
    }
  }

  /** Removing the stale ids leaves the ids that are still wanted. */
  lemma RemovingStaleKeepsWanted(s: seq<string>, keys: set<string>)
    ensures WithoutAll(s, Filter(s, keys, false)) == Filter(s, keys, true)
  {
    var stale := Filter(s, keys, false);
    WithoutAllIsFilter(s, stale);
    forall x | x in s
      ensures x in Elements(s) - Elements(stale) <==> x in keys
    {
      FilterIn(s, keys, false, x);
    }
    FilterDepends(s, Elements(s) - Elements(stale), keys);
  }

  /*** Load balancers ***/

  type Registry = map<(string, string), LoadBalancer>   // by region and name

  /** The map from ARN to name that reconcileUpdate builds; None when a hostname or load balancer is unknown. */
  function ResolveArns(lbs: Registry, hostnames: seq<string>): Option<map<string, string>> {
    if hostnames == [] then Some(map[])
    else
      var before := ResolveArns(lbs, hostnames[..|hostnames| - 1]);
      var parsed := LbNameAndRegion(hostnames[|hostnames| - 1]);
      if before.None? || parsed.None? then None
      else
        var (name, region) := parsed.value;
        if (region, name) in lbs then Some(before.value[lbs[(region, name)].arn := name]) else None
  }

  /** The region of the last hostname: the one client that all later calls go through. */
  function LastRegion(hostnames: seq<string>): Option<string> {
    if hostnames == [] then None
    else
      match LbNameAndRegion(hostnames[|hostnames| - 1])
      case Some((_, region)) => Some(region)
      case None => None
  }

  /** AddLBToEndpointGroup looks the name up again, in the last region. */
  predicate Resolvable(lbs: Registry, region: string, arns: map<string, string>, id: string) {
    id in arns && (region, arns[id]) in lbs
  }

  function ResolvedArn(lbs: Registry, region: string, arns: map<string, string>, id: string): string {
    if Resolvable(lbs, region, arns, id) then lbs[(region, arns[id])].arn else ""
  }

  function Resolved(lbs: Registry, region: string, arns: map<string, string>, ids: seq<string>): (r: seq<string>)
    ensures |r| == |ids| && forall i | 0 <= i < |ids| :: r[i] == ResolvedArn(lbs, region, arns, ids[i])
  {
    seq(|ids|, i requires 0 <= i < |ids| => ResolvedArn(lbs, region, arns, ids[i]))
  }

  /** What the reconciler sees of a binding. */
  datatype BindingView = BindingView(
    arn: string, deleting: bool, finalizers: seq<string>, ids: seq<string>, generation: int, observed: int)

  predicate InSync(v: BindingView, arns: map<string, string>) {
    && (forall a | a in arns :: a in v.ids)
    && (forall x | x in v.ids :: x in arns)
    && v.observed == v.generation
  }

  /** The ids that one update removes, adds and weighs. */
  datatype Calls = Calls(removed: seq<string>, added: seq<string>, weighted: seq<string>)

  function Issued(group: string, c: Calls): seq<ApiCall> {
    Removals(group, c.removed) + Additions(group, c.added) + Weights(group, c.weighted)
  }

  function RegionOf(cloud: Option<string>): string {
    if cloud.Some? then cloud.value else ""
  }

  predicate Usable(lbs: Registry, region: string, arns: map<string, string>, id: string) {
    Resolvable(lbs, region, arns, id) && lbs[(region, arns[id])].active
  }

  /** Every load balancer is found, and found again and active through the client of the last region. */
  predicate AllUsable(lbs: Registry, hostnames: Option<seq<string>>) {
    && hostnames.Some? && hostnames.value != [] && ResolveArns(lbs, hostnames.value).Some?
    && var arns := ResolveArns(lbs, hostnames.value).value;
       forall x | x in arns :: Usable(lbs, RegionOf(LastRegion(hostnames.value)), arns, x)
  }

  /** Every new load balancer is found again, and some of them is not active yet. */
  ghost predicate Awaited(lbs: Registry, hostnames: Option<seq<string>>, v: BindingView) {
    && hostnames.Some? && ResolveArns(lbs, hostnames.value).Some?
    && var arns, region := ResolveArns(lbs, hostnames.value).value, RegionOf(LastRegion(hostnames.value));
       && (forall x | x in arns && x !in v.ids :: Resolvable(lbs, region, arns, x))
       && exists x :: x in arns && x !in v.ids && !Usable(lbs, region, arns, x)
  }

  /** The same of the list of new ids. */
  lemma AwaitedNews(lbs: Registry, hostnames: seq<string>, v: BindingView, news: seq<string>)
    requires ResolveArns(lbs, hostnames).Some?
    requires Elements(news) == ResolveArns(lbs, hostnames).value.Keys - Elements(v.ids)
    ensures var arns, region := ResolveArns(lbs, hostnames).value, RegionOf(LastRegion(hostnames));
            Awaited(lbs, Some(hostnames), v) <==>
            && (forall x | x in news :: Resolvable(lbs, region, arns, x))
            && exists x :: x in news && !Usable(lbs, region, arns, x)
  {
    hide ResolveArns, Resolvable, LastRegion, Usable;
    forall x
      ensures x in news <==> x in ResolveArns(lbs, hostnames).value && x !in v.ids
    {
      assert x in news <==> x in Elements(news);
    }
  }

  lemma AwaitedMeans(lbs: Registry, hostnames: Option<seq<string>>, v: BindingView)
    requires Awaited(lbs, hostnames, v)
    ensures hostnames.Some? && hostnames.value != [] && ResolveArns(lbs, hostnames.value).Some?
    ensures !InSync(v, ResolveArns(lbs, hostnames.value).value)
  {
    hide Resolvable, LastRegion, Usable;
  }

  predicate Unneeded(lbs: Registry, hostnames: Option<seq<string>>, v: BindingView) {
    && hostnames.Some? && ResolveArns(lbs, hostnames.value).Some?
    && InSync(v, ResolveArns(lbs, hostnames.value).value)
  }

  /** An update that got as far as the status: the calls are the set differences, whatever their order. */
  ghost predicate Updates(
      lbs: Registry, hostnames: Option<seq<string>>, v: BindingView, news: seq<string>, c: Calls, write: Write) {
    && hostnames.Some? && ResolveArns(lbs, hostnames.value).Some?
    && var arns := ResolveArns(lbs, hostnames.value).value;
       var region := RegionOf(LastRegion(hostnames.value));
       && !InSync(v, arns)
       && NoDuplicates(news) && Elements(news) == arns.Keys - Elements(v.ids)
       && (forall x | x in news :: Usable(lbs, region, arns, x))
       && c.removed == Filter(v.ids, arns.Keys, false)
       && c.added == Resolved(lbs, region, arns, news)
       && NoDuplicates(c.weighted) && Elements(c.weighted) == arns.Keys
       && write == SetStatus(Filter(v.ids, arns.Keys, true) + c.added, v.generation)
  }

  /** The calls and the request of an update that got as far as the status. */
  ghost predicate Completes(
      lbs: Registry, hostnames: Option<seq<string>>, v: BindingView, issued: seq<ApiCall>, write: Write) {
    exists news: seq<string>, k: Calls :: Updates(lbs, hostnames, v, news, k, write) && issued == Issued(v.arn, k)
  }

  lemma UpdateCompletes(
      lbs: Registry, hostnames: Option<seq<string>>, v: BindingView, news: seq<string>, k: Calls, write: Write)
    requires Updates(lbs, hostnames, v, news, k, write)
    ensures Completes(lbs, hostnames, v, Issued(v.arn, k), write)
  {
    hide Updates, Issued;
  }

  /** The statuses from which the delete loop gets to its end. */
  predicate Releasable(ids: seq<string>) {
    ids == [] || (|ids| == 1 && HasRegion(ids[0]))
  }

  /** No id, or a single one with a region in it, as every ARN has. */
  lemma ReleasableExactly(ids: seq<string>)
    ensures Releasable(ids) <==> ids == [] || (|ids| == 1 && multiset(ids[0])[':'] >= 3)
  {
    hide HasRegion;
    if |ids| == 1 {
      HasRegionExactly(ids[0]);
    }
  }

  /** The status reports what the calls have left of the copy's ids and what they have added. */
  ghost predicate Reports(v: BindingView, k: Calls, write: Write)
    requires write.SetStatus?
  {
    && (forall x | x in k.removed :: x in v.ids)
    && (forall x :: x in write.ids <==> (x in v.ids && x !in k.removed) || x in k.added)
  }

  /** What an update can do at most: whole or in part, the removals come first, and a status reports all of it. */
  ghost predicate UpdateAllowed(v: BindingView, calls: seq<ApiCall>, write: Write) {
    exists k: Calls ::
      calls == Issued(v.arn, k) && (write.SetStatus? ==> Reports(v, k, write))
  }

  /** What one reconcile can do at most: the calls it issues and the request it sends. */
  ghost predicate Allowed(v: BindingView, calls: seq<ApiCall>, write: Write, groupMissing: bool) {
    && (forall c | c in calls :: c.group == v.arn)
    && if v.deleting then
         if v.ids == [] then calls == [] && write == SetFinalizers([])
         else
           && (forall c | c in calls :: c.RemoveEndpoint?)
           && (write.SetFinalizers? ==> write.finalizers == [] && groupMissing && calls == [])
           && (write.SetStatus? ==>
                 && |v.ids| == 1 && HasRegion(v.ids[0])
                 && write.ids == [] && calls == [RemoveEndpoint(v.arn, v.ids[0])])
       else if v.finalizers == [] then calls == [] && write == SetFinalizers([FINALIZER])
       else !write.SetFinalizers? && UpdateAllowed(v, calls, write)
  }

  /** A binding in the lister's cache. Its status slice is ids[..n]; reconciling writes into that array. */
  class CachedBinding {
    const arn: string
    const deleting: bool
    const finalizers: seq<string>
    const generation: int
    const observed: int
    const ids: array<string>
    const n: nat

    ghost predicate Valid() {
      n <= ids.Length
    }

    ghost function Snapshot(): BindingView
      requires Valid()
      reads ids
    {
      BindingView(arn, deleting, finalizers, ids[..n], generation, observed)
    }

    constructor (v: BindingView, spare: nat)
      ensures Valid() && fresh(ids) && Snapshot() == v && ids.Length == n + spare
    {
      arn, deleting, finalizers, generation, observed := v.arn, v.deleting, v.finalizers, v.generation, v.observed;
      n := |v.ids|;
      var a := new string[|v.ids| + spare](i => if 0 <= i < |v.ids| then v.ids[i] else "");
      ids := a;
      new;
      assert ids[..n] == v.ids;
    }
  }

  /** slices.DeleteFunc(s[..len], equal to e): compacts in place and clears the tail. */
  method DeleteFunc(s: array<string>, len: nat, e: string) returns (k: nat)
    requires len <= s.Length
    modifies s
    ensures k <= len && s[..k] == Without(old(s[..len]), e)
    ensures forall i | k <= i < len :: s[i] == ""
    ensures forall i | len <= i < s.Length :: s[i] == old(s[i])
  {
    k := 0;
    for j := 0 to len
      invariant k <= j
      invariant s[..k] == Without(old(s[..j]), e)
      invariant forall i | j <= i < s.Length :: s[i] == old(s[i])
    {
      assert old(s[..j + 1])[..j] == old(s[..j]);
      if s[j] != e {
        s[k] := s[j];
        k := k + 1;
        assert s[..k][..k - 1] == Without(old(s[..j]), e);
      }
    }
    for i := k to len
      invariant s[..k] == Without(old(s[..len]), e)
      invariant forall m | k <= m < i :: s[m] == ""
      invariant forall m | len <= m < s.Length :: s[m] == old(s[m])
    {
      s[i] := "";
    }
  }

  /** append(s[..len], x): in place while there is room, otherwise into a new array. */
  method Append(s: array<string>, len: nat, x: string) returns (r: array<string>)
    requires len <= s.Length
    modifies s
    ensures r == s || fresh(r)
    ensures len < r.Length && r[..len + 1] == old(s[..len]) + [x]
    ensures if r == s then len < s.Length && s[..] == old(s[..])[len := x] else len == s.Length && s[..] == old(s[..])
  {
    ghost var before := s[..len];
    if len < s.Length {
      s[len] := x;
      r := s;
    } else {
      r := new string[2 * s.Length + 1](_ => "");
      for i := 0 to len
        invariant fresh(r) && r.Length == 2 * s.Length + 1
        invariant s[..] == old(s[..]) && s[..len] == before
        invariant forall j | 0 <= j < i :: r[j] == before[j]
      {
        r[i] := s[i];
      }
      r[len] := x;
    }
    assert forall j | 0 <= j < len :: r[j] == before[j];
    assert r[..len] == before;
    assert r[..len + 1] == r[..len] + [x];
  }

  class Reconciler {
    const lbs: Registry
    const quiet: bool        // every call to AWS and Kubernetes succeeds
    var log: seq<ApiCall>    // the endpoint-changing calls that took effect

    constructor (lbs: Registry, quiet: bool)
      ensures this.lbs == lbs && this.quiet == quiet && log == []
    {
      this.lbs, this.quiet, log := lbs, quiet, [];
    }

    method Fails() returns (failed: bool)
      ensures quiet ==> !failed
    {
      failed := false;
      if !quiet {
        failed := *;
      }
    }

    /** Sends the request. It is rejected unless the copy it was made from is the current version. */
    method Send(current: bool) returns (r: Outcome)
      ensures r == Success(0) || r == Errored
      ensures r == Success(0) ==> current
      ensures quiet && current ==> r == Success(0)
    {
      var failed := Fails();
      r := if failed || !current then Errored else Success(0);
    }

    /**
     * The loop of reconcileDelete. It shrinks the slice it takes the ids from, so with two or more ids it
     * skips every second one, repeats the last and then runs past the end of the slice.
     */
    method RemoveAll(obj: CachedBinding) returns (r: Outcome, ghost removed: seq<string>)
      requires obj.Valid() && obj.n > 0
      modifies obj.ids, this`log
      ensures log == old(log) + Removals(obj.arn, removed)
      ensures obj.n > 1 ==> !r.Success?
      ensures obj.n == 1 && r.Success? ==> removed == old(obj.ids[..1]) && HasRegion(removed[0])
      ensures obj.n == 1 ==> obj.ids[..1] == old(obj.ids[..1])
      ensures !HasRegion(old(obj.ids[0])) ==> r == Panicked && removed == []
      ensures r == Panicked ==> obj.n > 1 || !HasRegion(old(obj.ids[0]))
      ensures quiet && obj.n > 1 ==> r == Panicked
      ensures removed <= Evens(old(obj.ids[..obj.n])) + [old(obj.ids[obj.n - 1])]
      ensures quiet && (forall i | 0 <= i < obj.n :: HasRegion(old(obj.ids[i]))) ==>
                if obj.n == 1 then r == Success(0)
                else r == Panicked && removed == Evens(old(obj.ids[..obj.n])) + [old(obj.ids[obj.n - 1])]
    {
      hide Shrunk, Evens, HasRegion, Removals;
      var s, n := obj.ids, obj.n;
      ghost var x := s[..n];
      ShrunkStart(x);
      RemovalsNone(obj.arn);
      var len := n;
      removed := [];
      for i := 0 to n
        invariant Shrunk(x, s[..n], i) && len == n - i && 2 * i <= n + 1
        invariant removed == Evens(x)[..i] && log == old(log) + Removals(obj.arn, removed)
        invariant i > 0 ==> HasRegion(x[0])
        invariant i == 0 || n == 1 ==> s[..n] == x
      {
        var id := s[i];
        ShrunkHead(x, s[..n], i);
        if !HasRegion(id) {
          return Panicked, removed;
        }
        var failed := Fails();
        if failed {
          return Errored, removed;
        }
        log := log + [RemoveEndpoint(obj.arn, id)];
        RemovalsAppend(obj.arn, removed, id);
        removed := removed + [id];
        if i + 1 > len {
          return Panicked, removed;   // endpointIds[i+1:] is out of range
        }
        ShiftOut(x, s, i, len);
        len := len - 1;
      }
      r := Success(0);
    }

    /** reconcileDelete. current tells whether obj is the newest version. */
    method ReconcileDelete(obj: CachedBinding, group: GroupLookup, current: bool) returns (r: Outcome, write: Write)
      requires obj.Valid() && obj.deleting
      modifies obj.ids, this`log
      ensures old(log) <= log
      ensures Allowed(old(obj.Snapshot()), log[|old(log)|..], write, group == GroupNotFound)
      ensures obj.n > 0 && group == LookupFailed ==> r == Errored && write == NoWrite && log == old(log)
      ensures obj.n == 0 || group == GroupNotFound ==> write == SetFinalizers([]) && (r == Success(0) || r == Errored)
      ensures obj.n > 0 && group == GroupFound && r.Success? ==>
                r == Success(1) && write == SetStatus([], obj.generation) && obj.n == 1
      ensures obj.n > 1 && group == GroupFound ==> write == NoWrite && !r.Success?
      ensures obj.n > 0 && group == GroupFound && !HasRegion(old(obj.ids[0])) ==>
                r == Panicked && write == NoWrite && log == old(log)
      ensures r == Panicked ==> obj.n > 0 && group == GroupFound && !Releasable(old(obj.ids[..obj.n]))
      ensures quiet && group == GroupFound && !Releasable(old(obj.ids[..obj.n])) ==> r == Panicked
      ensures quiet && current && obj.n == 0 ==> r == Success(0)
      ensures quiet && current && group == GroupNotFound ==> r == Success(0)
      ensures quiet && current && group == GroupFound && obj.n == 1 && HasRegion(old(obj.ids[0])) ==>
                && r == Success(1) && write == SetStatus([], obj.generation)
                && log == old(log) + Removals(obj.arn, [old(obj.ids[0])])
      ensures quiet && group == GroupFound && obj.n > 1 && (forall i | 0 <= i < obj.n :: HasRegion(old(obj.ids[i]))) ==>
                log == old(log) + Removals(obj.arn, Evens(old(obj.ids[..obj.n])) + [old(obj.ids[obj.n - 1])])
      ensures r.Success? && !write.NoWrite? ==> current
      ensures obj.n <= 1 ==> obj.ids[..obj.n] == old(obj.ids[..obj.n])
    {
      if obj.n == 0 {
        r := Send(current);
        return r, SetFinalizers([]);
      }
      if group == LookupFailed {
        return Errored, NoWrite;
      }
      if group == GroupNotFound {
        r := Send(current);
        return r, SetFinalizers([]);
      }
      write := NoWrite;
      ghost var removed;
      r, removed := RemoveAll(obj);
      assert log[|old(log)|..] == Removals(obj.arn, removed);
      if r.Success? {
        r := Send(current);
        write := SetStatus([], obj.generation);
        if r.Success? {
          r := Success(1);
        }
      }
    }

    /** The first loop of reconcileUpdate: the ARNs of the load balancers and the client of the last region. */
    method CollectArns(hostnames: seq<string>) returns (ok: bool, arns: map<string, string>, cloud: Option<string>)
      ensures ok ==> ResolveArns(lbs, hostnames) == Some(arns) && cloud == LastRegion(hostnames)
      ensures ok ==> (cloud.None? <==> hostnames == [])
      ensures ok && hostnames != [] ==>
                && LbNameAndRegion(hostnames[|hostnames| - 1]).Some?
                && cloud == Some(LbNameAndRegion(hostnames[|hostnames| - 1]).value.1)
      ensures quiet ==> ok == ResolveArns(lbs, hostnames).Some?
    {
      hide LbNameAndRegion;
      arns, cloud, ok := map[], None, true;
      for i := 0 to |hostnames|
        invariant ResolveArns(lbs, hostnames[..i]) == Some(arns) && cloud == LastRegion(hostnames[..i])
        invariant cloud.None? <==> i == 0
        invariant ok
      {
        assert hostnames[..i + 1][..i] == hostnames[..i];
        ResolveTakes(lbs, hostnames, i + 1);
        var parsed := LbNameAndRegion(hostnames[i]);
        if parsed.None? { return false, arns, cloud; }
        var (name, region) := parsed.value;
        cloud := Some(region);
        var failed := Fails();
        if failed || (region, name) !in lbs { return false, arns, cloud; }
        arns := arns[lbs[(region, name)].arn := name];
      }
      assert hostnames[..|hostnames|] == hostnames;
    }

    /** The keys of the map in some order, without those to leave out. */
    method KeysInSomeOrder(arns: map<string, string>, except: seq<string>) returns (keys: seq<string>)
      ensures NoDuplicates(keys) && Elements(keys) == arns.Keys - Elements(except)
    {
      var left := arns.Keys;
      keys := [];
      while left != {}
        invariant left <= arns.Keys
        invariant forall k | k in keys :: k !in left
        invariant forall k :: k in keys <==> k in arns && k !in left && k !in except
        invariant NoDuplicates(keys)
        decreases left
      {
        var k :| k in left;
        left := left - {k};
        if k !in except {
          keys := keys + [k];
        }
      }
    }

    /** The ids of the status that are no longer wanted. */
    method StaleIds(obj: CachedBinding, arns: map<string, string>) returns (stale: seq<string>)
      requires obj.Valid()
      ensures stale == Filter(obj.ids[..obj.n], arns.Keys, false)
    {
      stale := [];
      for i := 0 to obj.n
        invariant stale == Filter(obj.ids[..i], arns.Keys, false)
      {
        assert obj.ids[..i + 1][..i] == obj.ids[..i];
        if obj.ids[i] !in arns {
          stale := stale + [obj.ids[i]];
        }
      }
    }

    /** DeleteFunc on the results, which still lie in the cached status. */
    method DropFromCache(obj: CachedBinding, len: nat, e: string) returns (k: nat)
      requires obj.Valid() && len <= obj.n && obj.ids[..obj.n] == Overwritten(obj.ids[..len], obj.n)
      modifies obj.ids
      ensures k <= len && obj.ids[..k] == Without(old(obj.ids[..len]), e)
      ensures obj.ids[..obj.n] == Overwritten(obj.ids[..k], obj.n)
    {
      ghost var before := obj.ids[..obj.n];
      k := DeleteFunc(obj.ids, len, e);
      forall i | k <= i < obj.n
        ensures obj.ids[i] == ""
      {
        if len <= i { assert before[i] == ""; }
      }
    }

    /** append on the results, in the cached status as long as there is room. */
    method AppendToCache(obj: CachedBinding, results: array<string>, len: nat, x: string) returns (r: array<string>)
      requires obj.Valid() && len <= results.Length && (results == obj.ids || obj.n < len)
      requires obj.ids[..obj.n] == Overwritten(results[..len], obj.n)
      modifies results
      ensures r == results || fresh(r)
      ensures r == obj.ids || obj.n < len + 1
      ensures len < r.Length && r[..len + 1] == old(results[..len]) + [x]
      ensures obj.ids[..obj.n] == Overwritten(r[..len + 1], obj.n)
    {
      ghost var cells := obj.ids[..obj.n];
      OverwriteNext(results[..len], x, obj.n);
      r := Append(results, len, x);
      assert results == obj.ids ==> obj.ids[..obj.n] == if len < obj.n then cells[len := x] else cells;
    }

    /**
     * The removal loop of reconcileUpdate. It compacts the cached status in place, so the cache has
     * forgotten each removed id even when a later call fails.
     */
    method RemoveStale(obj: CachedBinding, cloud: Option<string>, stale: seq<string>)
      returns (r: Outcome, len: nat, ghost done: nat)
      requires obj.Valid()
      modifies obj.ids, this`log
      ensures done <= |stale| && log == old(log) + Removals(obj.arn, stale[..done])
      ensures len <= obj.n && obj.ids[..len] == WithoutAll(old(obj.ids[..obj.n]), stale[..done])
      ensures obj.ids[..obj.n] == Overwritten(obj.ids[..len], obj.n)
      ensures r == Success(0) ==> done == |stale|
      ensures r == Panicked <==> cloud.None? && stale != []
      ensures r == Panicked ==> done == 0
      ensures quiet && cloud.Some? ==> r == Success(0)
      ensures r != Success(0) ==> r == Errored || r == Panicked
    {
      hide Overwritten, Removals, Without;
      NothingOverwritten(obj.ids[..obj.n]);
      NothingIssued(obj.arn);
      RemovalsNone(obj.arn);
      len, done := obj.n, 0;
      for i := 0 to |stale|
        invariant done == i && log == old(log) + Removals(obj.arn, stale[..i])
        invariant len <= obj.n && obj.ids[..len] == WithoutAll(old(obj.ids[..obj.n]), stale[..i])
        invariant obj.ids[..obj.n] == Overwritten(obj.ids[..len], obj.n)
        invariant i > 0 ==> cloud.Some?
      {
        if cloud.None? {
          return Panicked, len, done;   // the client was never assigned
        }
        var failed := Fails();
        if failed {
          return Errored, len, done;
        }
        log := log + [RemoveEndpoint(obj.arn, stale[i])];
        TakeOneMore(stale, i);
        RemovalsAppend(obj.arn, stale[..i], stale[i]);
        assert stale[..i + 1][..i] == stale[..i];
        len := DropFromCache(obj, len, stale[i]);
        done := done + 1;
      }
      r := Success(0);
    }

    /** AddLBToEndpointGroup, and the append of the id it returns. */
    method AddOne(
        obj: CachedBinding, region: string, arns: map<string, string>, id: string, results: array<string>, len: nat)
      returns (r: Outcome, results': array<string>)
      requires obj.Valid() && len <= results.Length && (results == obj.ids || obj.n < len)
      requires obj.ids[..obj.n] == Overwritten(results[..len], obj.n)
      requires id in arns
      modifies results, this`log
      ensures r == Success(0) || r == Errored || r == Success(30)
      ensures results' == results || fresh(results')
      ensures r == Success(0) ==>
                && (region, arns[id]) in lbs && lbs[(region, arns[id])].active && Usable(lbs, region, arns, id)
                && log == old(log) + [AddEndpoint(obj.arn, ResolvedArn(lbs, region, arns, id))]
                && len < results'.Length && (results' == obj.ids || obj.n < len + 1)
                && results'[..len + 1] == old(results[..len]) + [ResolvedArn(lbs, region, arns, id)]
                && obj.ids[..obj.n] == Overwritten(results'[..len + 1], obj.n)
      ensures r != Success(0) ==> log == old(log)
      ensures r == Success(30) ==>
                && (region, arns[id]) in lbs && !lbs[(region, arns[id])].active
                && Resolvable(lbs, region, arns, id) && !Usable(lbs, region, arns, id)
      ensures quiet ==>
                r == if Usable(lbs, region, arns, id) then Success(0)
                     else if Resolvable(lbs, region, arns, id) then Success(30) else Errored
    {
      hide Overwritten;
      results' := results;
      var failed := Fails();
      if failed || (region, arns[id]) !in lbs {
        return Errored, results';
      }
      var lb := lbs[(region, arns[id])];
      if !lb.active {
        return Success(30), results';
      }
      failed := Fails();
      if failed {
        return Errored, results';
      }
      log := log + [AddEndpoint(obj.arn, lb.arn)];
      results' := AppendToCache(obj, results', len, lb.arn);
      r := Success(0);
    }

    /** The loop that adds the new load balancers and appends what was added to the result slice. */
    method AddNew(
        obj: CachedBinding, region: string, arns: map<string, string>, news: seq<string>,
        results: array<string>, len: nat)
      returns (r: Outcome, results': array<string>, len': nat, ghost done: nat)
      requires obj.Valid() && len <= obj.n && results == obj.ids
      requires obj.ids[..obj.n] == Overwritten(obj.ids[..len], obj.n)
      requires forall x | x in news :: x in arns
      modifies results, this`log
      ensures done <= |news| && log == old(log) + Additions(obj.arn, Resolved(lbs, region, arns, news[..done]))
      ensures r == Success(0) ==>
                && done == |news| && news[..done] == news && len' <= results'.Length
                && results'[..len'] == old(results[..len]) + Resolved(lbs, region, arns, news)
                && (forall x | x in news :: Usable(lbs, region, arns, x))
                && obj.ids[..obj.n] == Overwritten(results'[..len'], obj.n)
      ensures r != Success(0) ==> r == Errored || r == Success(30)
      ensures r == Success(30) ==>
                && done < |news| && Resolvable(lbs, region, arns, news[done])
                && !Usable(lbs, region, arns, news[done])
      ensures quiet && (forall x | x in news :: Usable(lbs, region, arns, x)) ==> r == Success(0)
      ensures quiet && (forall x | x in news :: Resolvable(lbs, region, arns, x))
              && (exists x :: x in news && !Usable(lbs, region, arns, x)) ==>
                r == Success(30)
      ensures forall j | 0 <= j < done :: Usable(lbs, region, arns, news[j])
    {
      hide Resolved, ResolvedArn, Resolvable, Usable, Additions, Overwritten;
      ghost var before := results[..len];
      results', len', done := results, len, 0;
      ResolvedEmpty(lbs, region, arns);
      NothingIssued(obj.arn);
      for i := 0 to |news|
        invariant done == i && len' <= results'.Length
        invariant results' == results || (fresh(results') && obj.n < len')
        invariant obj.ids[..obj.n] == Overwritten(results'[..len'], obj.n)
        invariant log == old(log) + Additions(obj.arn, Resolved(lbs, region, arns, news[..i]))
        invariant results'[..len'] == before + Resolved(lbs, region, arns, news[..i])
        invariant forall j | 0 <= j < i :: Usable(lbs, region, arns, news[j])
      {
        assert news[i] in news;
        r, results' := AddOne(obj, region, arns, news[i], results', len');
        if r != Success(0) {
          return;
        }
        ghost var added, arn := Resolved(lbs, region, arns, news[..i]), ResolvedArn(lbs, region, arns, news[i]);
        ResolvedPlusOne(lbs, region, arns, news, i);
        AdditionsAppend(obj.arn, added, arn);
        Associative(old(log), Additions(obj.arn, added), [AddEndpoint(obj.arn, arn)]);
        Associative(before, added, [arn]);
        len' := len' + 1;
        done := done + 1;
      }
      assert news[..|news|] == news;
      r := Success(0);
    }

    method UpdateWeights(obj: CachedBinding, cloud: Option<string>, arns: map<string, string>)
      returns (r: Outcome, ghost weighted: seq<string>)
      requires cloud.None? ==> arns == map[]
      modifies this`log
      ensures log == old(log) + Weights(obj.arn, weighted)
      ensures r == Success(0) ==> NoDuplicates(weighted) && Elements(weighted) == arns.Keys
      ensures r == Success(0) || r == Errored
      ensures quiet ==> r == Success(0)
    {
      weighted := [];
      var order := KeysInSomeOrder(arns, []);
      for i := 0 to |order|
        invariant weighted == order[..i] && log == old(log) + Weights(obj.arn, weighted)
      {
        var failed := Fails();
        if failed {
          return Errored, weighted;
        }
        log := log + [UpdateWeight(obj.arn, order[i])];
        TakeOneMore(order, i);
        WeightsAppend(obj.arn, weighted, order[i]);
        weighted := weighted + [order[i]];
      }
      assert order[..|order|] == order;
      r := Success(0);
    }

    /** The second half of reconcileUpdate: remove, add, set the weights, then report the status. */
    method ChangeEndpoints(
        obj: CachedBinding, cloud: Option<string>, arns: map<string, string>, news: seq<string>, stale: seq<string>,
        current: bool)
      returns (r: Outcome, write: Write, ghost calls: Calls)
      requires obj.Valid() && (cloud.None? ==> arns == map[]) && forall x | x in news :: x in arns
      modifies obj.ids, this`log
      ensures log == old(log) + Issued(obj.arn, calls)
      ensures write.NoWrite? || write.SetStatus?
      ensures write.SetStatus? ==>
                && calls.removed == stale
                && calls.added == Resolved(lbs, RegionOf(cloud), arns, news)
                && (forall x | x in news :: Usable(lbs, RegionOf(cloud), arns, x))
                && NoDuplicates(calls.weighted) && Elements(calls.weighted) == arns.Keys
                && write == SetStatus(WithoutAll(old(obj.ids[..obj.n]), stale) + calls.added, obj.generation)
                && obj.ids[..obj.n] == Overwritten(write.ids, obj.n)
      ensures r == Success(0) ==> write.SetStatus?
      ensures r.Success? && r != Success(0) ==> r == Success(30) && write.NoWrite?
      ensures r == Panicked <==> cloud.None? && stale != []
      ensures r == Panicked ==> log == old(log) && write.NoWrite?
      ensures r.Success? && !write.NoWrite? ==> current
      ensures quiet && cloud.Some? && (forall x | x in news :: Usable(lbs, RegionOf(cloud), arns, x)) ==>
                write.SetStatus? && (current ==> r == Success(0))
      ensures quiet && cloud.Some? && (forall x | x in news :: Resolvable(lbs, RegionOf(cloud), arns, x))
              && (exists x :: x in news && !Usable(lbs, RegionOf(cloud), arns, x)) ==>
                r == Success(30) && write.NoWrite?
    {
      hide Issued, Resolved, Removals, Additions, Weights, WithoutAll, Usable, Resolvable, NoDuplicates, Elements;
      hide Overwritten;
      write := NoWrite;
      ghost var removals, additions, weighted;
      var len;
      r, len, removals := RemoveStale(obj, cloud, stale);
      calls := Calls(stale[..removals], [], []);
      IssuedAfter(old(log), obj.arn, calls);
      if r != Success(0) {
        return;
      }
      assert stale[..|stale|] == stale;
      var results;
      r, results, len, additions := AddNew(obj, RegionOf(cloud), arns, news, obj.ids, len);
      calls := calls.(added := Resolved(lbs, RegionOf(cloud), arns, news[..additions]));
      IssuedAfter(old(log), obj.arn, calls);
      if r != Success(0) {
        return;
      }
      r, weighted := UpdateWeights(obj, cloud, arns);
      calls := calls.(weighted := weighted);
      IssuedAfter(old(log), obj.arn, calls);
      if r != Success(0) {
        return;
      }
      write := SetStatus(results[..len], obj.generation);
      r := Send(current);
    }

    /** reconcileUpdate, with the outcome of getLoadBalancerHostName. */
    method ReconcileUpdate(obj: CachedBinding, hostnames: Option<seq<string>>, group: GroupLookup, current: bool)
      returns (r: Outcome, write: Write, ghost news: seq<string>, ghost calls: Calls)
      requires obj.Valid() && !obj.deleting && obj.finalizers != []
      modifies obj.ids, this`log
      ensures log == old(log) + Issued(obj.arn, calls)
      ensures write.NoWrite? || write.SetStatus?
      ensures write.SetStatus? ==> Updates(lbs, hostnames, old(obj.Snapshot()), news, calls, write)
      ensures write.SetStatus? ==> obj.ids[..obj.n] == Overwritten(write.ids, obj.n)
      ensures Unneeded(lbs, hostnames, old(obj.Snapshot())) ==>
                && log == old(log) && obj.Snapshot() == old(obj.Snapshot()) && write.NoWrite?
                && (quiet ==> r == Success(0))
      ensures hostnames.None? || ResolveArns(lbs, hostnames.value).None?
              || (group != GroupFound && !Unneeded(lbs, hostnames, old(obj.Snapshot()))) ==>
                r == Errored && write.NoWrite? && log == old(log)
      ensures r == Success(0) ==> write.SetStatus? || Unneeded(lbs, hostnames, old(obj.Snapshot()))
      ensures r.Success? && r != Success(0) ==> r == Success(30) && write.NoWrite?
      ensures hostnames == Some([]) && obj.n > 0 ==> log == old(log) && write.NoWrite? && !r.Success?
      ensures r == Panicked ==> hostnames == Some([]) && obj.n > 0 && group == GroupFound
      ensures quiet && group == GroupFound && hostnames == Some([]) && obj.n > 0 ==> r == Panicked
      ensures quiet && group == GroupFound && AllUsable(lbs, hostnames)
              && !Unneeded(lbs, hostnames, old(obj.Snapshot())) ==>
                write.SetStatus?
      ensures quiet && current && group == GroupFound && AllUsable(lbs, hostnames) ==> r == Success(0)
      ensures quiet && group == GroupFound && Awaited(lbs, hostnames, old(obj.Snapshot())) ==>
                r == Success(30) && write.NoWrite?
      ensures r.Success? && !write.NoWrite? ==> current
    {
      hide InSync, Issued, Resolved, Filter, NoDuplicates, Usable, Resolvable, Overwritten, Awaited;
      write, news, calls := NoWrite, [], Calls([], [], []);
      if Awaited(lbs, hostnames, obj.Snapshot()) {
        AwaitedMeans(lbs, hostnames, obj.Snapshot());
      }
      NothingIssued(obj.arn);
      if hostnames.None? {
        return Errored, write, news, calls;
      }
      var ok, arns, cloud := CollectArns(hostnames.value);
      if !ok {
        return Errored, write, news, calls;
      }
      ghost var s := obj.ids[..obj.n];
      var newIds := KeysInSomeOrder(arns, obj.ids[..obj.n]);
      var stale := StaleIds(obj, arns);
      news := newIds;
      InSyncExactly(obj.Snapshot(), arns, news);
      AwaitedNews(lbs, hostnames.value, obj.Snapshot(), news);
      if obj.n > 0 {
        FilterIn(s, arns.Keys, false, s[0]);
      }
      RemovingStaleKeepsWanted(s, arns.Keys);
      NothingStale(s, arns.Keys);
      if newIds == [] && stale == [] && obj.observed == obj.generation {
        return Success(0), write, news, calls;
      }
      if group != GroupFound {
        return Errored, write, news, calls;
      }
      assert forall x | x in newIds :: x in Elements(newIds);
      r, write, calls := ChangeEndpoints(obj, cloud, arns, newIds, stale, current);
    }

    /** reconcile */
    method Reconcile(obj: CachedBinding, hostnames: Option<seq<string>>, group: GroupLookup, current: bool)
      returns (r: Outcome, write: Write)
      requires obj.Valid()
      modifies obj.ids, this`log
      ensures old(log) <= log
      ensures Allowed(old(obj.Snapshot()), log[|old(log)|..], write, group == GroupNotFound)
      ensures r.Success? && !write.NoWrite? ==> current
      ensures obj.deleting && obj.n <= 1 ==> obj.ids[..obj.n] == old(obj.ids[..obj.n])
      ensures obj.deleting && r.Success? ==> !write.NoWrite?
      ensures !obj.deleting && obj.finalizers != [] && write.SetStatus? ==>
                Completes(lbs, hostnames, old(obj.Snapshot()), log[|old(log)|..], write)
      ensures !obj.deleting && obj.finalizers != [] && quiet && group == GroupFound
              && AllUsable(lbs, hostnames) && !Unneeded(lbs, hostnames, old(obj.Snapshot())) ==>
                write.SetStatus?
      ensures !obj.deleting && obj.finalizers != [] && quiet && group == GroupFound
              && Awaited(lbs, hostnames, old(obj.Snapshot())) ==>
                r == Success(30) && write.NoWrite?
      ensures !obj.deleting && obj.finalizers == [] && quiet && current ==> r == Success(0)
      ensures quiet && current && obj.deleting && group == GroupFound ==>
                (r.Success? <==> Releasable(old(obj.ids[..obj.n])))
    {
      hide Issued, Updates, UpdateAllowed, Completes, Unneeded, AllUsable, Awaited;
      if obj.deleting {
        r, write := ReconcileDelete(obj, group, current);
      } else if obj.finalizers == [] {
        r := Send(current);
        write := SetFinalizers([FINALIZER]);
      } else {
        ghost var news, calls;
        r, write, news, calls := ReconcileUpdate(obj, hostnames, group, current);
        IssuedInGroup(obj.arn, calls);
        assert log[|old(log)|..] == Issued(obj.arn, calls);
        if write.SetStatus? {
          UpdateCompletes(lbs, hostnames, old(obj.Snapshot()), news, calls, write);
          UpdatesReport(lbs, hostnames, old(obj.Snapshot()), news, calls, write);
        }
        UpdateIsAllowed(old(obj.Snapshot()), calls, write);
      }
    }
  }

  /** append(s[:i], s[i+1:len]...): the elements after i move down by one. */
  method ShiftLeft(s: array<string>, i: nat, len: nat)
    requires i < len <= s.Length
    modifies s
    ensures forall k | 0 <= k < i || len - 1 <= k < s.Length :: s[k] == old(s[k])
    ensures forall k | i <= k < len - 1 :: s[k] == old(s[k + 1])
  {
    for j := i to len - 1
      invariant forall k | 0 <= k < i || j <= k < s.Length :: s[k] == old(s[k])
      invariant forall k | i <= k < j :: s[k] == old(s[k + 1])
    {
      s[j] := s[j + 1];
    }
  }

  /** The array after i rounds of the delete loop over x: the odd ids first, then the rest, then copies of the last. */
  ghost predicate Shrunk(x: seq<string>, s: seq<string>, i: nat) {
    var n := |x|;
    && |s| == n && 2 * i <= n + 1
    && (forall k | 0 <= k < i && k < n - i :: s[k] == x[2 * k + 1])
    && (forall k | i <= k < n - i :: s[k] == x[k + i])
    && (forall k | n - i <= k < n :: s[k] == x[n - 1])
  }

  /** The append of one round of the delete loop. */
  method ShiftOut(ghost x: seq<string>, s: array<string>, i: nat, len: nat)
    requires i < len <= |x| <= s.Length && len == |x| - i
    requires Shrunk(x, s[..|x|], i)
    modifies s
    ensures Shrunk(x, s[..|x|], i + 1)
    ensures len == 1 ==> s[..|x|] == old(s[..|x|])
  {
    hide Shrunk;
    ghost var before := s[..|x|];
    ShiftLeft(s, i, len);
    ShrunkStep(x, before, s[..|x|], i);
  }

  lemma RemovalsNone(group: string)
    ensures Removals(group, []) == []
  {
  }

  lemma RemovalsAppend(group: string, ids: seq<string>, id: string)
    ensures Removals(group, ids + [id]) == Removals(group, ids) + [RemoveEndpoint(group, id)]
  {
  }

  /** In round i the loop sees the i-th id at an even place, or, once the slice has become too short, the last id. */
  lemma ShrunkHead(x: seq<string>, s: seq<string>, i: nat)
    requires Shrunk(x, s, i) && i < |x|
    ensures 2 * i < |x| ==> s[i] == x[2 * i] && Evens(x)[..i + 1] == Evens(x)[..i] + [s[i]]
    ensures 2 * i >= |x| ==> s[i] == x[|x| - 1] && Evens(x)[..i] == Evens(x)
    ensures s[i] in x
  {
    hide Evens;
    if 2 * i < |x| {
      TakeOneMore(Evens(x), i);
    }
  }

  lemma ShrunkStart(x: seq<string>)
    ensures Shrunk(x, x, 0)
  {
  }

  lemma ShrunkStep(x: seq<string>, s: seq<string>, s': seq<string>, i: nat)
    requires Shrunk(x, s, i) && |s'| == |s| && 2 * i + 1 <= |x|
    requires forall k | 0 <= k < i || |x| - i - 1 <= k < |x| :: s'[k] == s[k]
    requires forall k | i <= k < |x| - i - 1 :: s'[k] == s[k + 1]
    ensures Shrunk(x, s', i + 1)
  {
  }

  /*** Steps of the loops of reconcileUpdate ***/

  lemma ResolveTakes(lbs: Registry, hostnames: seq<string>, i: nat)
    requires i <= |hostnames|
    ensures ResolveArns(lbs, hostnames).Some? ==> ResolveArns(lbs, hostnames[..i]).Some?
    decreases |hostnames|
  {
    if i < |hostnames| {
      ResolveTakes(lbs, hostnames[..|hostnames| - 1], i);
      assert hostnames[..|hostnames| - 1][..i] == hostnames[..i];
    } else {
      assert hostnames[..i] == hostnames;
    }
  }

  lemma NothingIssued(group: string)
    ensures Issued(group, Calls([], [], [])) == []
    ensures Additions(group, []) == [] && Weights(group, []) == []
  {
  }

  /** The log after some calls, however many of the three loops have run. */
  lemma IssuedAfter(before: seq<ApiCall>, group: string, c: Calls)
    ensures before + Removals(group, c.removed) + Additions(group, c.added) + Weights(group, c.weighted)
            == before + Issued(group, c)
    ensures c.weighted == [] ==>
              before + Removals(group, c.removed) + Additions(group, c.added) == before + Issued(group, c)
    ensures c.weighted == [] && c.added == [] ==> before + Removals(group, c.removed) == before + Issued(group, c)
    ensures c == Calls([], [], []) ==> before + Issued(group, c) == before
  {
  }

  lemma IssuedInGroup(group: string, c: Calls)
    ensures forall x | x in Issued(group, c) :: x.group == group
  {
  }

  /** The early return of reconcileUpdate is taken exactly when the status lists the wanted ARNs at this generation. */
  lemma InSyncExactly(v: BindingView, arns: map<string, string>, news: seq<string>)
    requires Elements(news) == arns.Keys - Elements(v.ids)
    ensures InSync(v, arns) <==>
            news == [] && Filter(v.ids, arns.Keys, false) == [] && v.observed == v.generation
  {
    var stale := Filter(v.ids, arns.Keys, false);
    forall x
      ensures x in stale <==> x in v.ids && x !in arns
      ensures x in news <==> x in arns && x !in v.ids
    {
      FilterIn(v.ids, arns.Keys, false, x);
      assert x in news <==> x in Elements(news);
    }
    if news != [] { assert news[0] in news; }
    if stale != [] { assert stale[0] in stale; }
  }

  lemma NothingStale(s: seq<string>, keys: set<string>)
    ensures s == [] ==> Filter(s, keys, false) == []
  {
  }

  lemma UpdatesReport(
      lbs: Registry, hostnames: Option<seq<string>>, v: BindingView, news: seq<string>, k: Calls, write: Write)
    requires Updates(lbs, hostnames, v, news, k, write)
    ensures Reports(v, k, write)
  {
    hide Filter, InSync, ResolveArns, LastRegion, Resolved, Resolvable;
    var keys := ResolveArns(lbs, hostnames.value).value.Keys;
    forall x
      ensures x in k.removed <==> x in v.ids && x !in keys
      ensures x in Filter(v.ids, keys, true) <==> x in v.ids && x in keys
    {
      FilterIn(v.ids, keys, false, x);
      FilterIn(v.ids, keys, true, x);
    }
  }

  lemma UpdateIsAllowed(v: BindingView, k: Calls, write: Write)
    requires write.SetStatus? ==> Reports(v, k, write)
    ensures UpdateAllowed(v, Issued(v.arn, k), write)
  {
    hide Issued;
  }

  lemma AdditionsAppend(group: string, ids: seq<string>, id: string)
    ensures Additions(group, ids + [id]) == Additions(group, ids) + [AddEndpoint(group, id)]
  {
  }

  lemma WeightsAppend(group: string, ids: seq<string>, id: string)
    ensures Weights(group, ids + [id]) == Weights(group, ids) + [UpdateWeight(group, id)]
  {
  }

  lemma ResolvedEmpty(lbs: Registry, region: string, arns: map<string, string>)
    ensures Resolved(lbs, region, arns, []) == []
  {
  }

  lemma ResolvedPlusOne(lbs: Registry, region: string, arns: map<string, string>, ids: seq<string>, i: nat)
    requires i < |ids|
    ensures Resolved(lbs, region, arns, ids[..i + 1]) ==
            Resolved(lbs, region, arns, ids[..i]) + [ResolvedArn(lbs, region, arns, ids[i])]
  {
  }

  /*** What a completed update has persisted ***/

  ghost predicate DistinctArns(lbs: Registry) {
    forall k, l | k in lbs && l in lbs && lbs[k].arn == lbs[l].arn :: k == l
  }

  /** Each wanted ARN was found under its name in the region of one of the hostnames. */
  lemma {:induction false} FoundSomewhere(lbs: Registry, hostnames: seq<string>, a: string)
    returns (i: nat, region: string)
    requires ResolveArns(lbs, hostnames).Some? && a in ResolveArns(lbs, hostnames).value
    ensures i < |hostnames| && LbNameAndRegion(hostnames[i]) == Some((ResolveArns(lbs, hostnames).value[a], region))
    ensures var k := (region, ResolveArns(lbs, hostnames).value[a]); k in lbs && lbs[k].arn == a
  {
    hide LbNameAndRegion;
    var m := |hostnames| - 1;
    var (n, r) := LbNameAndRegion(hostnames[m]).value;
    if lbs[(r, n)].arn == a {
      return m, r;
    }
    i, region := FoundSomewhere(lbs, hostnames[..m], a);
  }

  /** What a hostname stands for: the load balancer of its name in its region. */
  ghost predicate StandsFor(lbs: Registry, hostname: string, name: string, arn: string) {
    exists region ::
      LbNameAndRegion(hostname) == Some((name, region)) && (region, name) in lbs && lbs[(region, name)].arn == arn
  }

  /** At most one name and one ARN, and none exactly when the hostname or its load balancer is unknown. */
  lemma StandsForOne(lbs: Registry, hostname: string, name: string, arn: string)
    ensures StandsFor(lbs, hostname, name, arn) <==>
            && LbNameAndRegion(hostname).Some? && name == LbNameAndRegion(hostname).value.0
            && (LbNameAndRegion(hostname).value.1, name) in lbs
            && lbs[(LbNameAndRegion(hostname).value.1, name)].arn == arn
  {
    hide LbNameAndRegion;
  }

  /** The map exists exactly when each hostname stands for a load balancer. */
  lemma {:induction false} ResolvesAll(lbs: Registry, hostnames: seq<string>)
    ensures ResolveArns(lbs, hostnames).Some? <==>
            forall h | h in hostnames :: exists n: string, a: string :: StandsFor(lbs, h, n, a)
  {
    if hostnames != [] {
      hide StandsFor, LbNameAndRegion;
      var front, last := hostnames[..|hostnames| - 1], hostnames[|hostnames| - 1];
      assert hostnames == front + [last];
      ResolvesAll(lbs, front);
      forall n: string, a: string
        ensures StandsFor(lbs, last, n, a) <==>
                && LbNameAndRegion(last).Some? && n == LbNameAndRegion(last).value.0
                && (LbNameAndRegion(last).value.1, n) in lbs && lbs[(LbNameAndRegion(last).value.1, n)].arn == a
      {
        StandsForOne(lbs, last, n, a);
      }
      if ResolveArns(lbs, hostnames).Some? {
        var (name, region) := LbNameAndRegion(last).value;
        assert StandsFor(lbs, last, name, lbs[(region, name)].arn);
      }
      if forall h | h in hostnames :: exists n: string, a: string :: StandsFor(lbs, h, n, a) {
        assert last in hostnames;
        assert forall h | h in front :: h in hostnames;
      }
    }
  }

  /** It holds the ARN of each hostname and no other, with the name in the last hostname of that ARN. */
  lemma {:induction false} ResolvesExactly(lbs: Registry, hostnames: seq<string>, arn: string, i: nat, name: string)
    requires ResolveArns(lbs, hostnames).Some?
    ensures arn in ResolveArns(lbs, hostnames).value ==>
              exists h :: h in hostnames && StandsFor(lbs, h, ResolveArns(lbs, hostnames).value[arn], arn)
    ensures i < |hostnames| && StandsFor(lbs, hostnames[i], name, arn)
            && (forall j, n: string | i < j < |hostnames| :: !StandsFor(lbs, hostnames[j], n, arn)) ==>
              arn in ResolveArns(lbs, hostnames).value && ResolveArns(lbs, hostnames).value[arn] == name
  {
    if hostnames != [] {
      hide StandsFor, LbNameAndRegion;
      var m := |hostnames| - 1;
      var front, last := hostnames[..m], hostnames[m];
      assert hostnames == front + [last];
      ResolvesExactly(lbs, front, arn, i, name);
      var (n0, region) := LbNameAndRegion(last).value;
      StandsForOne(lbs, last, n0, lbs[(region, n0)].arn);
      StandsForOne(lbs, last, name, arn);
      assert last in hostnames;
      assert forall h | h in front :: h in hostnames;
    }
  }

  /** The ARN that AddLBToEndpointGroup reports is the wanted one. */
  ghost predicate FoundAgain(lbs: Registry, hostnames: seq<string>, news: seq<string>)
    requires ResolveArns(lbs, hostnames).Some?
  {
    var arns, region := ResolveArns(lbs, hostnames).value, RegionOf(LastRegion(hostnames));
    forall x | x in news :: ResolvedArn(lbs, region, arns, x) == x
  }

  ghost predicate PersistsWanted(write: Write, arns: map<string, string>) {
    write.SetStatus? && NoDuplicates(write.ids) && Elements(write.ids) == arns.Keys
  }

  /**
   * From a status without duplicates, a completed update persists exactly the wanted ARNs, each once, if and
   * only if each ARN it added is the one its name has in the region of the last hostname.
   */
  lemma PersistedExactly(
      lbs: Registry, hostnames: seq<string>, v: BindingView, news: seq<string>, c: Calls, write: Write)
    requires Updates(lbs, Some(hostnames), v, news, c, write)
    requires NoDuplicates(v.ids) && DistinctArns(lbs)
    ensures PersistsWanted(write, ResolveArns(lbs, hostnames).value) <==> FoundAgain(lbs, hostnames, news)
  {
    hide InSync, LbNameAndRegion, ResolveArns, LastRegion;
    var arns, region := ResolveArns(lbs, hostnames).value, RegionOf(LastRegion(hostnames));
    if FoundAgain(lbs, hostnames, news) {
      assert c.added == news;
      KeptAndNew(v.ids, arns.Keys, news);
    }
    if PersistsWanted(write, arns) {
      forall x | x in news
        ensures ResolvedArn(lbs, region, arns, x) == x
      {
        if ResolvedArn(lbs, region, arns, x) != x {
          FoundTwice(lbs, hostnames, v, news, c, write, x);
        }
      }
    }
  }

  lemma KeptAndNew(s: seq<string>, keys: set<string>, news: seq<string>)
    requires NoDuplicates(s) && NoDuplicates(news) && Elements(news) == keys - Elements(s)
    ensures NoDuplicates(Filter(s, keys, true) + news) && Elements(Filter(s, keys, true) + news) == keys
  {
    var kept := Filter(s, keys, true);
    FilterNoDuplicates(s, keys, true);
    forall x
      ensures x in kept <==> x in s && x in keys
      ensures x in news <==> x in keys && x !in s
    {
      FilterIn(s, keys, true, x);
      assert x in news <==> x in Elements(news);
    }
    forall i, j | 0 <= i < j < |kept + news|
      ensures (kept + news)[i] != (kept + news)[j]
    {
      if i < |kept| <= j {
        assert kept[i] in kept && news[j - |kept|] in news;
      }
    }
  }

  /** A name that resolves to another ARN in the last region puts an ARN into the status twice, or an unwanted one. */
  lemma FoundTwice(
      lbs: Registry, hostnames: seq<string>, v: BindingView, news: seq<string>, c: Calls, write: Write, x: string)
    requires Updates(lbs, Some(hostnames), v, news, c, write) && DistinctArns(lbs) && x in news
    requires ResolvedArn(lbs, RegionOf(LastRegion(hostnames)), ResolveArns(lbs, hostnames).value, x) != x
    ensures !PersistsWanted(write, ResolveArns(lbs, hostnames).value)
  {
    hide InSync, LbNameAndRegion, ResolveArns, LastRegion, Filter, NoDuplicates, Resolvable;
    var arns, region := ResolveArns(lbs, hostnames).value, RegionOf(LastRegion(hostnames));
    var kept := Filter(v.ids, arns.Keys, true);
    var y := ResolvedArn(lbs, region, arns, x);
    var i :| 0 <= i < |news| && news[i] == x;
    assert c.added[i] == y;
    assert y in write.ids;
    if y in arns {
      FilterIn(v.ids, arns.Keys, true, y);
      if y in v.ids {
        Repeated(kept, c.added, y, i);
      } else {
        assert y in Elements(news);
        var j :| 0 <= j < |news| && news[j] == y;
        ResolvesToItself(lbs, hostnames, x, y);
        assert c.added[j] == y;
        RepeatedAfter(kept, c.added, i, j);
      }
    } else {
      assert y in Elements(write.ids);
    }
  }

  lemma ResolvesToItself(lbs: Registry, hostnames: seq<string>, x: string, y: string)
    requires ResolveArns(lbs, hostnames).Some? && DistinctArns(lbs)
    requires var arns, region := ResolveArns(lbs, hostnames).value, RegionOf(LastRegion(hostnames));
             y in arns && Resolvable(lbs, region, arns, x) && ResolvedArn(lbs, region, arns, x) == y
    ensures ResolvedArn(lbs, RegionOf(LastRegion(hostnames)), ResolveArns(lbs, hostnames).value, y) == y
  {
    hide LbNameAndRegion, ResolveArns, LastRegion;
    var arns, region := ResolveArns(lbs, hostnames).value, RegionOf(LastRegion(hostnames));
    var _, r := FoundSomewhere(lbs, hostnames, y);
    assert (r, arns[y]) == (region, arns[x]);
  }

  lemma Repeated(a: seq<string>, b: seq<string>, y: string, i: nat)
    requires y in a && i < |b| && b[i] == y
    ensures !NoDuplicates(a + b)
  {
    var j :| 0 <= j < |a| && a[j] == y;
    assert (a + b)[j] == (a + b)[|a| + i];
  }

  lemma RepeatedAfter(a: seq<string>, b: seq<string>, i: nat, j: nat)
    requires i < |b| && j < |b| && i != j && b[i] == b[j]
    ensures !NoDuplicates(a + b)
  {
    assert (a + b)[|a| + i] == (a + b)[|a| + j];
  }

  /** Hostnames of one region are always found again. */
  lemma OneRegionSuffices(lbs: Registry, hostnames: seq<string>, news: seq<string>)
    requires ResolveArns(lbs, hostnames).Some? && forall x | x in news :: x in ResolveArns(lbs, hostnames).value
    requires forall h | h in hostnames :: LastRegion([h]) == LastRegion(hostnames)
    ensures FoundAgain(lbs, hostnames, news)
  {
    hide LbNameAndRegion, ResolveArns;
    forall x | x in news
      ensures ResolvedArn(lbs, RegionOf(LastRegion(hostnames)), ResolveArns(lbs, hostnames).value, x) == x
    {
      var i, r := FoundSomewhere(lbs, hostnames, x);
      assert LastRegion([hostnames[i]]) == Some(r);
    }
  }

  /** Two load balancers of one name in two regions: the first is looked up in the second's region. */
  lemma SecondRegionShadowsFirst()
    ensures var lbs := map[
              ("r1", "web") := LoadBalancer("a", "a.", true), ("r2", "web") := LoadBalancer("b", "b.", true)];
            var hostnames := [PublicAlb("web", "1", "r1"), PublicAlb("web", "1", "r2")];
            && DistinctArns(lbs) && ResolveArns(lbs, hostnames) == Some(map["a" := "web", "b" := "web"])
            && !FoundAgain(lbs, hostnames, ["a"]) && FoundAgain(lbs, hostnames, ["b"])
  {
    hide LbNameAndRegion, PublicAlb;
    var lbs := map[("r1", "web") := LoadBalancer("a", "a.", true), ("r2", "web") := LoadBalancer("b", "b.", true)];
    var h1, h2 := PublicAlb("web", "1", "r1"), PublicAlb("web", "1", "r2");
    PublicAlbRoundTrip("web", "1", "r1");
    PublicAlbRoundTrip("web", "1", "r2");
    assert [h1, h2][..1] == [h1] && [h1][..0] == [];
    assert ResolveArns(lbs, [h1]) == Some(map["a" := "web"]);
    assert "a" in ["a"] && ResolvedArn(lbs, "r2", map["a" := "web", "b" := "web"], "a") == "b";
  }

  /** Once the wanted ARNs are persisted, the next reconcile of the same generation changes nothing. */
  lemma RerunIsUnneeded(lbs: Registry, hostnames: seq<string>, v: BindingView, write: Write)
    requires ResolveArns(lbs, hostnames).Some? && PersistsWanted(write, ResolveArns(lbs, hostnames).value)
    requires write.observed == v.generation
    ensures Unneeded(lbs, Some(hostnames), v.(ids := write.ids, observed := write.observed))
  {
    hide ResolveArns;
    var arns := ResolveArns(lbs, hostnames).value;
    assert forall a | a in arns :: a in Elements(write.ids);
    assert forall x | x in write.ids :: x in Elements(write.ids);
  }

  /*** What a rejected update leaves in the cache ***/

  /** A pass that finds nothing to do is right about the stored status exactly when its copy has the same ids. */
  lemma SilenceIsRightExactly(v: BindingView, ids: seq<string>, arns: map<string, string>)
    requires InSync(v.(ids := ids), arns)
    ensures InSync(v, arns) <==> Elements(ids) == Elements(v.ids)
  {
    if InSync(v, arns) {
      forall x
        ensures x in ids <==> x in v.ids
      {
        assert x in arns ==> x in ids && x in v.ids;
      }
    }
    if Elements(ids) == Elements(v.ids) {
      forall x
        ensures x in ids <==> x in v.ids
      {
        assert x in Elements(ids) <==> x in Elements(v.ids);
      }
    }
  }

  /**
   * The status of an update has been written into the cells of the cached one. If the request was rejected, the
   * next pass over this copy finds nothing to do exactly when there are as many wanted ARNs as stored ids and
   * the generation had been observed before.
   */
  lemma ForgottenExactly(
      lbs: Registry, hostnames: seq<string>, v: BindingView, news: seq<string>, k: Calls, write: Write)
    requires Updates(lbs, Some(hostnames), v, news, k, write)
    requires PersistsWanted(write, ResolveArns(lbs, hostnames).value)
    requires "" !in ResolveArns(lbs, hostnames).value
    ensures Unneeded(lbs, Some(hostnames), v.(ids := Overwritten(write.ids, |v.ids|))) <==>
            |ResolveArns(lbs, hostnames).value.Keys| == |v.ids| && v.observed == v.generation
  {
    hide ResolveArns, Filter, Resolved, Resolvable, Overwritten;
    var arns, n := ResolveArns(lbs, hostnames).value, |v.ids|;
    CellsMatchExactly(write.ids, arns.Keys, n);
    InSyncMeans(v.(ids := Overwritten(write.ids, n)), arns);
  }

  lemma InSyncMeans(v: BindingView, arns: map<string, string>)
    ensures InSync(v, arns) <==> Elements(v.ids) == arns.Keys && v.observed == v.generation
  {
    if InSync(v, arns) {
      forall x
        ensures x in Elements(v.ids) <==> x in arns.Keys
      {
      }
    }
    if Elements(v.ids) == arns.Keys {
      forall x
        ensures x in v.ids <==> x in arns
      {
        assert x in v.ids <==> x in Elements(v.ids);
      }
    }
  }

  lemma CellsMatchExactly(ids: seq<string>, keys: set<string>, n: nat)
    requires NoDuplicates(ids) && Elements(ids) == keys && "" !in keys
    ensures Elements(Overwritten(ids, n)) == keys <==> |keys| == n
  {
    hide Overwritten;
    DistinctCount(ids);
    var cells := Overwritten(ids, n);
    if |ids| == n {
      NothingOverwritten(ids);
    } else if |ids| < n {
      assert cells[|ids|] == "" && cells[|ids|] in cells;
      assert "" in Elements(cells);
    } else {
      LastIsCut(ids, n);
      assert ids[n] in Elements(ids) && ids[n] !in Elements(cells);
    }
  }

  lemma LastIsCut(ids: seq<string>, n: nat)
    requires NoDuplicates(ids) && n < |ids|
    ensures ids[n] in ids && ids[n] !in Overwritten(ids, n)
  {
  }

  /**
   * Two passes over one cached copy, by the code: the first one's request is rejected, the second one's would be
   * accepted. It makes none, and reports success, exactly when the first pass has been forgotten; the stored
   * status then stays as it was.
   */
  method ForgottenUpdate(r: Reconciler, obj: CachedBinding, hostnames: seq<string>)
    returns (first: Outcome, firstWrite: Write, second: Outcome, secondWrite: Write)
    requires r.quiet && obj.Valid() && !obj.deleting && obj.finalizers != []
    requires AllUsable(r.lbs, Some(hostnames)) && !Unneeded(r.lbs, Some(hostnames), obj.Snapshot())
    requires NoDuplicates(obj.ids[..obj.n]) && DistinctArns(r.lbs)
    requires "" !in ResolveArns(r.lbs, hostnames).value
    requires forall h | h in hostnames :: LastRegion([h]) == LastRegion(hostnames)
    modifies obj.ids, r`log
    ensures first == Errored && PersistsWanted(firstWrite, ResolveArns(r.lbs, hostnames).value)
    ensures second == Success(0)
    ensures secondWrite.NoWrite? <==>
            |ResolveArns(r.lbs, hostnames).value.Keys| == obj.n && obj.observed == obj.generation
  {
    hide Updates, ResolveArns, FoundAgain, Overwritten, PersistsWanted, LastRegion, InSync, Usable;
    ghost var v := obj.Snapshot();
    ghost var news, k, news', k';
    first, firstWrite, news, k := r.ReconcileUpdate(obj, Some(hostnames), GroupFound, false);
    NewsAreWanted(r.lbs, hostnames, v, news, k, firstWrite);
    OneRegionSuffices(r.lbs, hostnames, news);
    PersistedExactly(r.lbs, hostnames, v, news, k, firstWrite);
    ForgottenExactly(r.lbs, hostnames, v, news, k, firstWrite);
    assert obj.Snapshot() == v.(ids := Overwritten(firstWrite.ids, |v.ids|));
    second, secondWrite, news', k' := r.ReconcileUpdate(obj, Some(hostnames), GroupFound, true);
  }

  lemma NewsAreWanted(
      lbs: Registry, hostnames: seq<string>, v: BindingView, news: seq<string>, k: Calls, write: Write)
    requires Updates(lbs, Some(hostnames), v, news, k, write)
    ensures forall x | x in news :: x in ResolveArns(lbs, hostnames).value
  {
    hide ResolveArns, Filter, Resolved, InSync;
    forall x | x in news
      ensures x in ResolveArns(lbs, hostnames).value
    {
      assert x in Elements(news);
    }
  }
}
