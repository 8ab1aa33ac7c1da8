/**
 * The life of one EndpointGroupBinding as a step machine: clients edit and delete it through the API server
 * and its webhook, and the controller reconciles whatever copy its lister happens to hold.
 */
module BindingLifecycle {
  import opened LoadBalancerNames
  import opened Sequences
  import opened Strings
  import opened EndpointGroupBindings
  import opened EndpointGroupBindingWebhook

  /** history holds every version of the object; a resource version is an index into it, the last one current. */
  datatype Cluster = Cluster(history: seq<BindingView>, alive: bool, calls: seq<ApiCall>)

  datatype Action =
    | Edit(arn: string)     // a client updates the spec
    | Delete                // a client deletes the object
    | Sync(version: nat, ids: seq<string>, issued: seq<ApiCall>, write: Write, accepted: bool, groupMissing: bool)
                            // one reconcile of a cached copy, the ids of which earlier runs may have overwritten

  function Current(c: Cluster): BindingView
    requires c.history != []
  {
    c.history[|c.history| - 1]
  }

  /**
   * The ids in a cached copy: as many as in the version, but earlier updates, and deletions of two or more, may
   * have overwritten them.
   */
  ghost predicate Cached(ids: seq<string>, v: BindingView) {
    |ids| == |v.ids| && (v.deleting && |v.ids| <= 1 ==> ids == v.ids)
  }

  ghost predicate Enabled(c: Cluster, a: Action) {
    match a
    case Edit(arn) => c.alive && c.history != [] && Validate(UpdateRequest(Current(c).arn, arn)).allowed
    case Delete => c.alive && c.history != []
    case Sync(i, ids, issued, write, _, missing) =>
      && i < |c.history| && Cached(ids, c.history[i])
      && Allowed(c.history[i].(ids := ids), issued, write, missing)
  }

  /** A new version; an object being deleted is gone once it has no finalizers. */
  function Store(c: Cluster, v: BindingView): Cluster {
    Cluster(c.history + [v], !(v.deleting && v.finalizers == []), c.calls)
  }

  /** Update leaves the status alone and UpdateStatus leaves the rest alone. */
  function Written(v: BindingView, w: Write): BindingView {
    match w
    case NoWrite => v
    case SetFinalizers(fs) => v.(finalizers := fs)
    case SetStatus(ids, observed) => v.(ids := ids, observed := observed)
  }

  function Apply(c: Cluster, a: Action): Cluster {
    if c.history == [] then c else
    match a
    case Edit(arn) => Store(c, Current(c).(arn := arn, generation := Current(c).generation + 1))
    case Delete =>
      if Current(c).finalizers == [] then c.(alive := false)
      else if Current(c).deleting then c
      else Store(c, Current(c).(deleting := true, generation := Current(c).generation + 1))
    case Sync(i, _, issued, write, accepted, _) =>
      var c' := c.(calls := c.calls + issued);
      if c.alive && i == |c.history| - 1 && accepted && !write.NoWrite? then Store(c', Written(Current(c), write))
      else c'
  }

  function Exec(c: Cluster, trace: seq<Action>): Cluster {
    if trace == [] then c else Apply(Exec(c, trace[..|trace| - 1]), trace[|trace| - 1])
  }

  ghost predicate Legal(c: Cluster, trace: seq<Action>) {
    trace != [] ==>
      && Legal(c, trace[..|trace| - 1])
      && Enabled(Exec(c, trace[..|trace| - 1]), trace[|trace| - 1])
  }

  /** A binding as it is created: the API server drops its status. */
  ghost predicate Created(c: Cluster) {
    |c.history| == 1 && c.alive && c.calls == [] && c.history[0].ids == [] && !c.history[0].deleting
  }

  ghost predicate Good(c: Cluster) {
    && c.history != []
    && (forall v | v in c.history :: v.arn == c.history[0].arn)
    && (forall x | x in c.calls :: x.group == c.history[0].arn)
    && (c.alive ==> (Current(c).ids != [] || Current(c).deleting ==> Current(c).finalizers != []))
  }

  lemma StoreKeepsGood(c: Cluster, v: BindingView)
    requires Good(c) && v.arn == c.history[0].arn
    requires v.ids != [] && !v.deleting ==> v.finalizers != []
    ensures Good(Store(c, v))
  {
  }

  lemma StepKeepsGood(c: Cluster, a: Action)
    requires Good(c) && Enabled(c, a)
    ensures Good(Apply(c, a))
  {
    hide Good, Store;
    CurrentIsGood(c);
    match a
    case Edit(arn) => StoreKeepsGood(c, Current(c).(arn := arn, generation := Current(c).generation + 1));
    case Delete => DeleteKeepsGood(c);
    case Sync(i, ids, issued, write, accepted, missing) => SyncKeepsGood(c, a);
  }

  lemma CurrentIsGood(c: Cluster)
    requires Good(c)
    ensures c.history != [] && (forall v | v in c.history :: v.arn == c.history[0].arn) && Current(c) in c.history
    ensures c.alive && (Current(c).ids != [] || Current(c).deleting) ==> Current(c).finalizers != []
  {
  }

  lemma DeleteKeepsGood(c: Cluster)
    requires Good(c) && Enabled(c, Delete)
    ensures Good(Apply(c, Delete))
  {
    hide Store;
    if Current(c).finalizers != [] && !Current(c).deleting {
      StoreKeepsGood(c, Current(c).(deleting := true, generation := Current(c).generation + 1));
    }
  }

  lemma SyncKeepsGood(c: Cluster, a: Action)
    requires Good(c) && Enabled(c, a) && a.Sync?
    ensures Good(Apply(c, a))
  {
    hide Store;
    var Sync(i, ids, issued, write, accepted, missing) := a;
    var c' := c.(calls := c.calls + issued);
    assert c.history[i] in c.history;
    assert Good(c');
    if c.alive && i == |c.history| - 1 && accepted && !write.NoWrite? {
      StoreKeepsGood(c', Written(Current(c), write));
    }
  }

  lemma {:induction false} RunsKeepGood(c: Cluster, trace: seq<Action>)
    requires Good(c) && Legal(c, trace)
    ensures Good(Exec(c, trace))
  {
    if trace != [] {
      RunsKeepGood(c, trace[..|trace| - 1]);
      StepKeepsGood(Exec(c, trace[..|trace| - 1]), trace[|trace| - 1]);
    }
  }

  /** In every state of every run, a binding whose status lists endpoints still carries a finalizer. */
  lemma {:induction false} EndpointsAreGuarded(c: Cluster, trace: seq<Action>)
    requires Created(c) && Legal(c, trace)
    ensures Exec(c, trace).history != []
    ensures var d := Exec(c, trace); d.alive && Current(d).ids != [] ==> Current(d).finalizers != []
  {
    assert Good(c);
    RunsKeepGood(c, trace);
  }

  /** Every call ever issued for the binding, on whatever copy, targets the group it was created with. */
  lemma {:induction false} OneGroupForever(c: Cluster, trace: seq<Action>)
    requires Created(c) && Legal(c, trace)
    ensures forall x | x in Exec(c, trace).calls :: x.group == c.history[0].arn
    ensures forall v | v in Exec(c, trace).history :: v.arn == c.history[0].arn
  {
    assert Good(c);
    RunsKeepGood(c, trace);
    FirstVersionStays(c, trace);
  }

  lemma {:induction false} FirstVersionStays(c: Cluster, trace: seq<Action>)
    requires c.history != []
    ensures Exec(c, trace).history != [] && Exec(c, trace).history[0] == c.history[0]
  {
    if trace != [] {
      FirstVersionStays(c, trace[..|trace| - 1]);
    }
  }

  /** One step makes the object disappear only with an empty status, or when the reconcile saw no endpoint group. */
  lemma DisappearsSafely(c: Cluster, a: Action)
    requires Good(c) && Enabled(c, a) && c.alive && !Apply(c, a).alive
    ensures Apply(c, a).history != [] && Current(Apply(c, a)).ids == Current(c).ids
    ensures Current(c).ids == [] || (a.Sync? && a.groupMissing)
  {
  }

  /** A gone object never changes again. */
  lemma GoneStaysGone(c: Cluster, a: Action)
    requires Enabled(c, a) && !c.alive && c.history != []
    ensures !Apply(c, a).alive && Apply(c, a).history == c.history
  {
  }

  /** When a binding is gone, its last status was empty or some reconcile had found the endpoint group missing. */
  lemma {:induction false} GoneMeansReleased(c: Cluster, trace: seq<Action>)
    requires Created(c) && Legal(c, trace) && !Exec(c, trace).alive
    ensures Exec(c, trace).history != []
    ensures Current(Exec(c, trace)).ids == [] || exists a | a in trace :: a.Sync? && a.groupMissing
  {
    hide Allowed, Store, Written;
    var prefix, a := trace[..|trace| - 1], trace[|trace| - 1];
    var d := Exec(c, prefix);
    assert Good(c);
    RunsKeepGood(c, prefix);
    assert trace == prefix + [a];
    if d.alive {
      DisappearsSafely(d, a);
    } else {
      GoneStaysGone(d, a);
      GoneMeansReleased(c, prefix);
    }
  }

  /*** The delete loop, over the life of the object ***/

  ghost predicate GroupPresent(trace: seq<Action>) {
    forall a | a in trace :: a.Sync? ==> !a.groupMissing
  }

  ghost predicate Stuck(c: Cluster, ids: seq<string>) {
    c.alive && Good(c) && Current(c).deleting && Current(c).ids == ids
  }

  lemma StuckStep(c: Cluster, ids: seq<string>, a: Action)
    requires Stuck(c, ids) && !Releasable(ids) && Enabled(c, a) && (a.Sync? ==> !a.groupMissing)
    ensures Stuck(Apply(c, a), ids)
  {
    hide Good;
    CurrentIsGood(c);
    StepKeepsGood(c, a);
  }

  /**
   * With two or more endpoints in its status, or one whose ARN names no region, a binding under deletion stays
   * as long as its group exists.
   */
  lemma {:induction false} DeletionStuck(c: Cluster, ids: seq<string>, trace: seq<Action>)
    requires Stuck(c, ids) && !Releasable(ids) && Legal(c, trace) && GroupPresent(trace)
    ensures Stuck(Exec(c, trace), ids)
  {
    hide Enabled, Stuck, Releasable;
    if trace != [] {
      var prefix, a := trace[..|trace| - 1], trace[|trace| - 1];
      assert trace == prefix + [a];
      DeletionStuck(c, ids, prefix);
      StuckStep(Exec(c, prefix), ids, a);
    }
  }

  /** The reconcile of the current copy by which the deletion moves on. */
  function NextSync(c: Cluster): Action
    requires c.history != []
  {
    var v, i := Current(c), |c.history| - 1;
    if v.ids == [] then Sync(i, v.ids, [], SetFinalizers([]), true, false)
    else Sync(i, v.ids, [RemoveEndpoint(v.arn, v.ids[0])], SetStatus([], v.generation), true, false)
  }

  lemma NextSyncProgress(c: Cluster)
    requires c.history != [] && c.alive && Current(c).deleting && Current(c).finalizers != []
    requires Releasable(Current(c).ids)
    ensures Enabled(c, NextSync(c))
    ensures var d := Apply(c, NextSync(c));
            if Current(c).ids == [] then !d.alive
            else
              && d.history != [] && d.alive
              && Current(d).deleting && Current(d).finalizers != [] && Current(d).ids == []
  {
  }

  lemma NothingIsReleasable()
    ensures Releasable([])
  {
  }

  lemma LegalAppend(c: Cluster, trace: seq<Action>, a: Action)
    requires Legal(c, trace) && Enabled(Exec(c, trace), a)
    ensures Legal(c, trace + [a]) && Exec(c, trace + [a]) == Apply(Exec(c, trace), a)
  {
    assert (trace + [a])[..|trace|] == trace;
  }

  /**
   * While the group exists, some run completes a deletion exactly when the status lists nothing or one text with
   * three colons.
   */
  lemma {:induction false} DeletionCompletesExactly(c: Cluster)
    requires Good(c) && c.alive && Current(c).deleting
    ensures (Current(c).ids == [] || (|Current(c).ids| == 1 && multiset(Current(c).ids[0])[':'] >= 3)) <==>
            exists trace :: Legal(c, trace) && GroupPresent(trace) && !Exec(c, trace).alive
  {
    hide Enabled, Apply, Good, NextSync, Releasable;
    CurrentIsGood(c);
    ReleasableExactly(Current(c).ids);
    if Releasable(Current(c).ids) {
      CompletingRun(c);
    } else {
      forall trace | Legal(c, trace) && GroupPresent(trace)
        ensures Exec(c, trace).alive
      {
        DeletionStuck(c, Current(c).ids, trace);
      }
    }
  }

  lemma CompletingRun(c: Cluster)
    requires c.history != [] && c.alive && Current(c).deleting && Current(c).finalizers != []
    requires Releasable(Current(c).ids)
    ensures exists trace :: Legal(c, trace) && GroupPresent(trace) && !Exec(c, trace).alive
  {
    hide Enabled, Apply, Releasable;
    NothingIsReleasable();
    var a := NextSync(c);
    NextSyncProgress(c);
    LegalAppend(c, [], a);
    if Current(c).ids == [] {
      assert GroupPresent([] + [a]);
    } else {
      var d := Apply(c, a);
      NextSyncProgress(d);
      LegalAppend(c, [] + [a], NextSync(d));
      assert GroupPresent([] + [a] + [NextSync(d)]);
    }
  }

  /*** The controller's code is such a step ***/

  /**
   * One pass of syncHandler over a cached copy: what the reconciler does is one enabled step of the machine. The
   * request is accepted only if the copy is the current version of a living object.
   */
  method SyncBinding(
      c: Cluster, version: nat, r: Reconciler, obj: CachedBinding, hostnames: Option<seq<string>>, group: GroupLookup)
    returns (out: Outcome, a: Action, c': Cluster)
    requires version < |c.history| && obj.Valid()
    requires obj.Snapshot() == c.history[version].(ids := obj.ids[..obj.n])
    requires Cached(obj.ids[..obj.n], c.history[version])
    modifies obj.ids, r`log
    ensures Enabled(c, a) && c' == Apply(c, a)
    ensures a.Sync? && a.version == version && a.ids == old(obj.ids[..obj.n])
    ensures a.accepted == out.Success? && a.groupMissing == (group == GroupNotFound)
    ensures r.log == old(r.log) + c'.calls[|c.calls|..]
    ensures obj.Snapshot() == c.history[version].(ids := obj.ids[..obj.n])
    ensures Cached(obj.ids[..obj.n], c.history[version])
    ensures out.Success? && !a.write.NoWrite? ==> c.alive && version == |c.history| - 1
    ensures c.history[version].deleting && out.Success? ==> !a.write.NoWrite?
    ensures a.write.SetStatus? && !obj.deleting && obj.finalizers != [] ==>
              Completes(r.lbs, hostnames, c.history[version].(ids := a.ids), a.issued, a.write)
    ensures r.quiet && !obj.deleting && obj.finalizers != [] && group == GroupFound && AllUsable(r.lbs, hostnames)
            && !Unneeded(r.lbs, hostnames, c.history[version].(ids := a.ids)) ==>
              a.write.SetStatus?
    ensures r.quiet && c.alive && version == |c.history| - 1 && !obj.deleting && obj.finalizers == [] ==> a.accepted
    ensures r.quiet && c.alive && version == |c.history| - 1 && c.history[version].deleting && group == GroupFound ==>
              (out.Success? <==> Releasable(a.ids))
  {
    hide Allowed, Completes, AllUsable, Unneeded;
    var ids := obj.ids[..obj.n];
    var before := r.log;
    var write;
    out, write := r.Reconcile(obj, hostnames, group, c.alive && version == |c.history| - 1);
    a := Sync(version, ids, r.log[|before|..], write, out.Success?, group == GroupNotFound);
    c' := Apply(c, a);
  }

  /**
   * Two undisturbed passes of the code, each over a fresh copy of the current version: they end the object, with
   * its endpoint removed, exactly when its status lists nothing or one text with three colons, such as an ARN.
   */
  method FinishDeletion(c: Cluster, r: Reconciler) returns (c': Cluster, ghost trace: seq<Action>)
    requires Good(c) && c.alive && Current(c).deleting && r.quiet
    modifies r`log
    ensures Legal(c, trace) && c' == Exec(c, trace) && GroupPresent(trace)
    ensures !c'.alive <==>
            Current(c).ids == [] || (|Current(c).ids| == 1 && multiset(Current(c).ids[0])[':'] >= 3)
    ensures !c'.alive ==> c'.calls == c.calls + Removals(Current(c).arn, Current(c).ids)
  {
    hide Enabled, Apply, Good, Releasable, Allowed, Removals;
    CurrentIsGood(c);
    ReleasableExactly(Current(c).ids);
    NothingIsReleasable();
    var a0, a1, out;
    var obj := new CachedBinding(Current(c), 0);
    out, a0, c' := SyncBinding(c, |c.history| - 1, r, obj, None, GroupFound);
    LegalAppend(c, [], a0);
    trace := [] + [a0];
    DeletionPass(c, a0);
    RemovalsOfOne(Current(c).arn, Current(c).ids);
    if !c'.alive {
      return;
    }
    CurrentIsGood(c');
    ghost var between := c';
    obj := new CachedBinding(Current(c'), 0);
    out, a1, c' := SyncBinding(c', |c'.history| - 1, r, obj, None, GroupFound);
    LegalAppend(c, [a0], a1);
    trace := [a0] + [a1];
    DeletionPass(between, a1);
  }

  lemma RemovalsOfOne(group: string, ids: seq<string>)
    ensures ids == [] ==> Removals(group, ids) == []
    ensures |ids| == 1 ==> Removals(group, ids) == [RemoveEndpoint(group, ids[0])]
  {
  }

  /** One pass over the current copy of an object under deletion. */
  lemma DeletionPass(c: Cluster, a: Action)
    requires Good(c) && c.alive && Current(c).deleting && Enabled(c, a)
    requires a.Sync? && a.version == |c.history| - 1 && a.ids == Current(c).ids && !a.groupMissing
    requires a.accepted == Releasable(a.ids) && (a.accepted ==> !a.write.NoWrite?)
    ensures var d := Apply(c, a);
            && Good(d)
            && (Current(c).ids == [] ==> !d.alive)
            && (Current(c).ids != [] ==>
                  && d.alive && Current(d).deleting
                  && Current(d).ids == if Releasable(Current(c).ids) then [] else Current(c).ids)
            && (Current(c).ids == [] ==> d.calls == c.calls + [])
            && (Current(c).ids != [] && Releasable(Current(c).ids) ==>
                  d.calls == c.calls + [RemoveEndpoint(Current(c).arn, Current(c).ids[0])])
  {
    hide Good;
    CurrentIsGood(c);
    StepKeepsGood(c, a);
    CurrentIsGood(Apply(c, a));
    NothingIsReleasable();
  }

  /*** Endpoints that nobody keeps track of ***/

  /**
   * The endpoints that the calls may have put into the group and not taken out again. A weight update is the
   * request that also puts an endpoint in, so however the service merges it, these are all there can be.
   */
  function Members(calls: seq<ApiCall>): set<string> {
    if calls == [] then {} else AfterCall(Members(calls[..|calls| - 1]), calls[|calls| - 1])
  }

  function AfterCall(members: set<string>, x: ApiCall): set<string> {
    match x
    case AddEndpoint(_, id) => members + {id}
    case RemoveEndpoint(_, id) => members - {id}
    case UpdateWeight(_, id) => members + {id}
  }

  /** The endpoints that some of the calls may put in. */
  function PutIn(calls: seq<ApiCall>): set<string> {
    set c | c in calls && !c.RemoveEndpoint? :: c.id
  }

  /** The status lists every endpoint that the binding has in its group. */
  ghost predicate Tracked(c: Cluster) {
    c.history != [] && Members(c.calls) <= Elements(Current(c).ids)
  }

  /** The reconcile's status is written. */
  predicate Reported(c: Cluster, a: Action) {
    a.Sync? && c.alive && a.version == |c.history| - 1 && a.accepted && a.write.SetStatus?
  }

  /**
   * What it takes not to lose track: a status that is written was made from a copy that knows the group's
   * endpoints and lists whatever the pass put in; one that is not written would have listed nothing new.
   */
  ghost predicate KeepsTrack(c: Cluster, a: Action)
    requires c.history != []
  {
    a.Sync? ==>
      if Reported(c, a) then
        && Members(c.calls) <= Elements(a.ids) + PutIn(a.issued)
        && PutIn(a.issued) <= Elements(a.write.ids)
      else PutIn(a.issued) <= Elements(Current(c).ids)
  }

  lemma {:induction false} MembersAfterRemovals(calls: seq<ApiCall>, group: string, ids: seq<string>)
    ensures Members(calls + Removals(group, ids)) == Members(calls) - Elements(ids)
  {
    hide Removals;
    if ids == [] {
      NothingIssued(group);
      RemovalsNone(group);
      assert calls + [] == calls;
    } else {
      var front, last := ids[..|ids| - 1], ids[|ids| - 1];
      MembersAfterRemovals(calls, group, front);
      assert ids == front + [last];
      RemovalsAppend(group, front, last);
      assert calls + Removals(group, ids) == calls + Removals(group, front) + [RemoveEndpoint(group, last)];
      LastCall(calls + Removals(group, front), RemoveEndpoint(group, last));
      assert Elements(ids) == Elements(front) + {last};
    }
  }

  lemma {:induction false} MembersAfterAdditions(calls: seq<ApiCall>, group: string, ids: seq<string>)
    ensures Members(calls + Additions(group, ids)) == Members(calls) + Elements(ids)
  {
    hide Additions;
    if ids == [] {
      NothingIssued(group);
      assert calls + [] == calls;
    } else {
      var front, last := ids[..|ids| - 1], ids[|ids| - 1];
      MembersAfterAdditions(calls, group, front);
      assert ids == front + [last];
      AdditionsAppend(group, front, last);
      assert calls + Additions(group, ids) == calls + Additions(group, front) + [AddEndpoint(group, last)];
      LastCall(calls + Additions(group, front), AddEndpoint(group, last));
      assert Elements(ids) == Elements(front) + {last};
    }
  }

  lemma {:induction false} MembersAfterWeights(calls: seq<ApiCall>, group: string, ids: seq<string>)
    ensures Members(calls + Weights(group, ids)) == Members(calls) + Elements(ids)
  {
    hide Weights;
    if ids == [] {
      NothingIssued(group);
      assert calls + [] == calls;
    } else {
      var front, last := ids[..|ids| - 1], ids[|ids| - 1];
      MembersAfterWeights(calls, group, front);
      assert ids == front + [last];
      WeightsAppend(group, front, last);
      assert calls + Weights(group, ids) == calls + Weights(group, front) + [UpdateWeight(group, last)];
      LastCall(calls + Weights(group, front), UpdateWeight(group, last));
      assert Elements(ids) == Elements(front) + {last};
    }
  }

  lemma LastCall(calls: seq<ApiCall>, x: ApiCall)
    ensures Members(calls + [x]) == AfterCall(Members(calls), x)
  {
    assert (calls + [x])[..|calls|] == calls;
  }

  lemma MembersAfterUpdate(calls: seq<ApiCall>, group: string, k: Calls)
    ensures Members(calls + Issued(group, k))
            == Members(calls) - Elements(k.removed) + Elements(k.added) + Elements(k.weighted)
    ensures PutIn(Issued(group, k)) == Elements(k.added) + Elements(k.weighted)
  {
    hide Removals, Additions, Weights, Members, PutIn, Elements;
    var r, a, w := Removals(group, k.removed), Additions(group, k.added), Weights(group, k.weighted);
    MembersAfterRemovals(calls, group, k.removed);
    MembersAfterAdditions(calls + r, group, k.added);
    MembersAfterWeights(calls + r + a, group, k.weighted);
    Associative(calls, r, a);
    Associative(calls, r + a, w);
    PutInByUpdate(group, k);
  }

  lemma PutInByUpdate(group: string, k: Calls)
    ensures PutIn(Issued(group, k)) == Elements(k.added) + Elements(k.weighted)
  {
    var calls := Issued(group, k);
    forall x | x in k.added
      ensures x in PutIn(calls)
    {
      var i :| 0 <= i < |k.added| && k.added[i] == x;
      assert calls[|k.removed| + i] == AddEndpoint(group, x);
      assert AddEndpoint(group, x) in calls;
    }
    forall x | x in k.weighted
      ensures x in PutIn(calls)
    {
      var i :| 0 <= i < |k.weighted| && k.weighted[i] == x;
      assert calls[|k.removed| + |k.added| + i] == UpdateWeight(group, x);
      assert UpdateWeight(group, x) in calls;
    }
    forall c | c in calls && !c.RemoveEndpoint?
      ensures c.id in k.added || c.id in k.weighted
    {
    }
  }

  lemma {:induction false} RemovalsOnlyShrink(calls: seq<ApiCall>, more: seq<ApiCall>)
    requires forall c | c in more :: c.RemoveEndpoint?
    ensures Members(calls + more) <= Members(calls) && PutIn(more) == {}
  {
    if more == [] {
      assert calls + more == calls;
    } else {
      var front, last := more[..|more| - 1], more[|more| - 1];
      assert more == front + [last] && last in more;
      RemovalsOnlyShrink(calls, front);
      assert calls + more == calls + front + [last];
      LastCall(calls + front, last);
    }
  }

  /** A step keeps track of all endpoints if and only if it meets the condition. */
  lemma TrackKeptExactly(c: Cluster, a: Action)
    requires Tracked(c) && Enabled(c, a)
    ensures Tracked(Apply(c, a)) <==> KeepsTrack(c, a)
  {
    hide Members, PutIn, Elements, Allowed;
    match a
    case Edit(_) =>
    case Delete =>
    case Sync(i, ids, issued, write, accepted, missing) =>
      var v := c.history[i].(ids := ids);
      if v.deleting || v.finalizers == [] {
        DeletingSyncTracks(c, a);
      } else {
        UpdatingSyncTracks(c, a);
      }
  }

  lemma DeletingSyncTracks(c: Cluster, a: Action)
    requires Tracked(c) && Enabled(c, a) && a.Sync?
    requires c.history[a.version].deleting || c.history[a.version].finalizers == []
    ensures Tracked(Apply(c, a)) <==> KeepsTrack(c, a)
  {
    hide Members, PutIn;
    RemovalsOnlyShrink(c.calls, a.issued);
    if Reported(c, a) {
      LastCall(c.calls, a.issued[0]);
    }
  }

  lemma UpdatingSyncTracks(c: Cluster, a: Action)
    requires Tracked(c) && Enabled(c, a) && a.Sync?
    requires !c.history[a.version].deleting && c.history[a.version].finalizers != []
    ensures Tracked(Apply(c, a)) <==> KeepsTrack(c, a)
  {
    hide Members, PutIn, Issued;
    var v := c.history[a.version].(ids := a.ids);
    var k: Calls :| a.issued == Issued(v.arn, k) && (a.write.SetStatus? ==> Reports(v, k, a.write));
    MembersAfterUpdate(c.calls, v.arn, k);
    ReportedStatus(c, a);
    if Reported(c, a) {
      ReportCovers(Members(c.calls), v, k, a.write);
    }
  }

  lemma ReportedStatus(c: Cluster, a: Action)
    requires c.history != [] && a.Sync?
    ensures Apply(c, a).history != [] && Apply(c, a).calls == c.calls + a.issued
    ensures Current(Apply(c, a)).ids == if Reported(c, a) then a.write.ids else Current(c).ids
  {
  }

  lemma ReportCovers(members: set<string>, v: BindingView, k: Calls, write: Write)
    requires write.SetStatus? && Reports(v, k, write)
    ensures var put := Elements(k.added) + Elements(k.weighted);
            members - Elements(k.removed) + Elements(k.added) + Elements(k.weighted) <= Elements(write.ids) <==>
            members <= Elements(v.ids) + put && put <= Elements(write.ids)
  {
    var put := Elements(k.added) + Elements(k.weighted);
    var after := members - Elements(k.removed) + Elements(k.added) + Elements(k.weighted);
    forall x
      ensures x in Elements(write.ids) <==> x in Elements(v.ids) - Elements(k.removed) + Elements(k.added)
    {
      assert x in write.ids <==> (x in v.ids && x !in k.removed) || x in k.added;
    }
    if members <= Elements(v.ids) + put && put <= Elements(write.ids) {
      forall x | x in after
        ensures x in Elements(write.ids)
      {
        if x !in put { assert x in Elements(v.ids) - Elements(k.removed); }
      }
    }
    if after <= Elements(write.ids) {
      forall x | x in put
        ensures x in Elements(write.ids)
      {
        assert x in after;
      }
      forall x | x in members
        ensures x in Elements(v.ids) + put
      {
        assert x in k.removed || x in after;
      }
    }
  }

  ghost predicate RunKeepsTrack(c: Cluster, trace: seq<Action>) {
    trace != [] ==>
      && RunKeepsTrack(c, trace[..|trace| - 1])
      && var d := Exec(c, trace[..|trace| - 1]);
         d.history != [] && KeepsTrack(d, trace[|trace| - 1])
  }

  lemma {:induction false} RunsKeepTrack(c: Cluster, trace: seq<Action>)
    requires Tracked(c) && Legal(c, trace) && RunKeepsTrack(c, trace)
    ensures Tracked(Exec(c, trace))
  {
    hide Tracked, KeepsTrack, Enabled, Apply;
    if trace != [] {
      RunsKeepTrack(c, trace[..|trace| - 1]);
      TrackKeptExactly(Exec(c, trace[..|trace| - 1]), trace[|trace| - 1]);
    }
  }

  /** If every step keeps track, a binding that is gone has left nothing in a group that was always there. */
  lemma NothingLeaks(c: Cluster, trace: seq<Action>)
    requires Created(c) && Legal(c, trace) && RunKeepsTrack(c, trace) && GroupPresent(trace)
    requires !Exec(c, trace).alive
    ensures Members(Exec(c, trace).calls) == {}
  {
    hide Legal, Exec, RunKeepsTrack, KeepsTrack;
    assert Tracked(c);
    RunsKeepTrack(c, trace);
    GoneMeansReleased(c, trace);
  }

  /** The code keeps track when its copy is fresh, its status is accepted and all hostnames are in one region. */
  lemma AcceptedUpdateKeepsTrack(c: Cluster, a: Action, lbs: Registry, hostnames: seq<string>)
    requires Tracked(c) && Enabled(c, a) && Reported(c, a) && a.ids == Current(c).ids
    requires Completes(lbs, Some(hostnames), Current(c), a.issued, a.write)
    requires forall h | h in hostnames :: LastRegion([h]) == LastRegion(hostnames)
    ensures KeepsTrack(c, a)
  {
    hide Members, PutIn, Issued, ResolveArns, LastRegion, InSync, Resolvable, Allowed, Filter;
    var v := Current(c);
    var news: seq<string>, k: Calls :|
      Updates(lbs, Some(hostnames), v, news, k, a.write) && a.issued == Issued(v.arn, k);
    var keys := ResolveArns(lbs, hostnames).value.Keys;
    PutInByUpdate(v.arn, k);
    NewsAreWanted(lbs, hostnames, v, news, k, a.write);
    OneRegionSuffices(lbs, hostnames, news);
    assert k.added == news;
    forall x | x in keys
      ensures x in a.write.ids
    {
      FilterIn(v.ids, keys, true, x);
      assert x in news <==> x in Elements(news);
    }
  }

  function NewBinding(arn: string): BindingView {
    BindingView(arn, false, [], [], 0, -1)
  }

  /**
   * The leak, by the code and without a fault: a new binding gets its finalizer, a client edits it, a pass over
   * the copy from before the edit adds endpoints and has its status rejected, a client deletes the binding, and
   * its empty status clears the finalizer. Endpoints were added, and none was ever removed.
   */
  method RejectedStatusLeaks(arn: string, r: Reconciler, hostnames: seq<string>)
    returns (c: Cluster, c': Cluster, ghost trace: seq<Action>)
    requires r.quiet && AllUsable(r.lbs, Some(hostnames))
    modifies r`log
    ensures c == Cluster([NewBinding(arn)], true, []) && Created(c)
    ensures Legal(c, trace) && c' == Exec(c, trace) && GroupPresent(trace) && !c'.alive
    ensures (exists id :: AddEndpoint(arn, id) in c'.calls) && forall x | x in c'.calls :: !x.RemoveEndpoint?
    ensures ResolveArns(r.lbs, hostnames).value.Keys <= Members(c'.calls)
  {
    hide Enabled, Apply, Exec, Legal, Completes, AllUsable, Unneeded, Members, ResolveArns, Good, Releasable;
    hide GroupPresent, NewBinding;
    var v := NewBinding(arn);
    NewBindingFacts(arn);
    var out, a;
    c := Cluster([v], true, []);
    var obj := new CachedBinding(v, 0);
    out, a, c' := SyncBinding(c, 0, r, obj, Some(hostnames), GroupFound);
    FinalizerIsSet(arn, a);
    trace := [] + [a];
    NothingMissing(a);
    LegalAppend(c, [], a);

    EditIsAdmitted(arn);
    LegalAppend(c, trace, Edit(arn));
    ContinuePresent(trace, Edit(arn));
    trace := trace + [Edit(arn)];
    c' := Apply(c', Edit(arn));

    obj := new CachedBinding(WithFinalizer(arn), 0);
    UnneededNeedsIds(r.lbs, hostnames, WithFinalizer(arn));
    out, a, c' := SyncBinding(c', 1, r, obj, Some(hostnames), GroupFound);
    StatusIsRejected(arn, a);
    AddsAndRemovesNothing(r.lbs, hostnames, WithFinalizer(arn), a.issued, a.write);
    LegalAppend(c, trace, a);
    ContinuePresent(trace, a);
    trace := trace + [a];

    BindingIsDeleted(arn, a.issued);
    LegalAppend(c, trace, Delete);
    ContinuePresent(trace, Delete);
    trace := trace + [Delete];
    c' := Apply(c', Delete);

    obj := new CachedBinding(c'.history[3], 0);
    NothingIsReleasable();
    ghost var deleting := c';
    out, a, c' := SyncBinding(c', 3, r, obj, Some(hostnames), GroupFound);
    FinalizerIsCleared(deleting, a);
    LegalAppend(c, trace, a);
    ContinuePresent(trace, a);
    trace := trace + [a];
  }

  function WithFinalizer(arn: string): BindingView {
    NewBinding(arn).(finalizers := [FINALIZER])
  }

  /** The state after the finalizer, after the edit, and after the rejected status. */
  function Guarded(arn: string): Cluster {
    Cluster([NewBinding(arn), WithFinalizer(arn)], true, [])
  }

  function Edited(arn: string, calls: seq<ApiCall>): Cluster {
    Cluster([NewBinding(arn), WithFinalizer(arn), WithFinalizer(arn).(generation := 1)], true, calls)
  }

  lemma NewBindingFacts(arn: string)
    ensures var v := NewBinding(arn); v.ids == [] && !v.deleting && v.finalizers == [] && v.arn == arn
    ensures Created(Cluster([NewBinding(arn)], true, []))
    ensures Legal(Cluster([NewBinding(arn)], true, []), [])
    ensures Exec(Cluster([NewBinding(arn)], true, []), []) == Cluster([NewBinding(arn)], true, [])
  {
  }

  lemma NothingMissing(a: Action)
    requires a.Sync? && !a.groupMissing
    ensures GroupPresent([] + [a])
  {
  }

  lemma ContinuePresent(trace: seq<Action>, a: Action)
    requires GroupPresent(trace) && (a.Sync? ==> !a.groupMissing)
    ensures GroupPresent(trace + [a])
  {
  }

  lemma FinalizerIsSet(arn: string, a: Action)
    requires a.Sync? && a.version == 0 && a.accepted && Enabled(Cluster([NewBinding(arn)], true, []), a)
    ensures Apply(Cluster([NewBinding(arn)], true, []), a) == Guarded(arn)
  {
    hide UpdateAllowed;
  }

  lemma EditIsAdmitted(arn: string)
    ensures Enabled(Guarded(arn), Edit(arn)) && Apply(Guarded(arn), Edit(arn)) == Edited(arn, [])
  {
  }

  lemma StatusIsRejected(arn: string, a: Action)
    requires a.Sync? && a.version == 1
    ensures Apply(Edited(arn, []), a) == Edited(arn, a.issued)
  {
    assert [] + a.issued == a.issued;
  }

  lemma BindingIsDeleted(arn: string, calls: seq<ApiCall>)
    ensures Enabled(Edited(arn, calls), Delete)
    ensures var d := Apply(Edited(arn, calls), Delete);
            && d.alive && |d.history| == 4 && d.calls == calls
            && d.history[3].deleting && d.history[3].ids == [] && d.history[3].finalizers != []
  {
  }

  lemma FinalizerIsCleared(c: Cluster, a: Action)
    requires c.alive && |c.history| == 4 && c.history[3].deleting && c.history[3].ids == []
    requires a.Sync? && a.version == 3 && a.accepted && Enabled(c, a)
    ensures !Apply(c, a).alive && Apply(c, a).calls == c.calls
  {
    hide UpdateAllowed;
    assert c.calls + [] == c.calls;
  }

  lemma {:induction false} SomethingIsWanted(lbs: Registry, hostnames: seq<string>)
    requires AllUsable(lbs, Some(hostnames))
    ensures exists x :: x in ResolveArns(lbs, hostnames).value
  {
    hide LbNameAndRegion;
    var last := hostnames[|hostnames| - 1];
    var (name, region) := LbNameAndRegion(last).value;
    assert lbs[(region, name)].arn in ResolveArns(lbs, hostnames).value;
  }

  lemma UnneededNeedsIds(lbs: Registry, hostnames: seq<string>, v: BindingView)
    requires AllUsable(lbs, Some(hostnames)) && v.ids == []
    ensures !Unneeded(lbs, Some(hostnames), v)
  {
    hide ResolveArns;
    SomethingIsWanted(lbs, hostnames);
  }

  /** The first update of a binding: every wanted load balancer is added, by the ARN found for it, and weighed. */
  lemma AddsAndRemovesNothing(
      lbs: Registry, hostnames: seq<string>, v: BindingView, issued: seq<ApiCall>, write: Write)
    requires AllUsable(lbs, Some(hostnames)) && v.ids == []
    requires Completes(lbs, Some(hostnames), v, issued, write)
    ensures exists id :: AddEndpoint(v.arn, id) in issued
    ensures forall x | x in issued :: !x.RemoveEndpoint?
    ensures ResolveArns(lbs, hostnames).value.Keys <= Members(issued)
  {
    hide ResolveArns, LastRegion, Resolvable, InSync, Members, Issued, AllUsable;
    var news: seq<string>, k: Calls :|
      Updates(lbs, Some(hostnames), v, news, k, write) && issued == Issued(v.arn, k);
    SomethingIsWanted(lbs, hostnames);
    var x :| x in ResolveArns(lbs, hostnames).value;
    assert x in Elements(news);
    hide Elements;
    AddsOnly(v.arn, k);
    MembersAfterUpdate([], v.arn, k);
    assert [] + issued == issued;
  }

  lemma AddsOnly(group: string, k: Calls)
    requires k.removed == [] && k.added != []
    ensures AddEndpoint(group, k.added[0]) in Issued(group, k)
    ensures forall x | x in Issued(group, k) :: !x.RemoveEndpoint?
  {
    assert Issued(group, k)[0] == AddEndpoint(group, k.added[0]);
  }
}
