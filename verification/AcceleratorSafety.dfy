/**
 * Any number of owners change the store, one call at a time. Each owner issues only proper calls;
 * then nobody disturbs anybody else's tree, and every tree keeps its shape.
 */
module AcceleratorSafety {
  import opened OwnerValues
  import opened Accelerators

  datatype Action =
    | Issue(o: Owner, call: Call)
    | Foreign(store: Store)        // somebody changes what no owner manages

  /** The calls that the controller's code issues for an owner, in terms of what it has looked up in its tree. */
  predicate ProperIn(t: Store, o: Owner, c: Call) {
    match c
    case CreateAccelerator(_, name, tags) =>
      t.accelerators == map[] && Managed(Accelerator(true, name, Merge(map[], tags)), o)
    case UpdateAccelerator(a, _, _) => a in t.accelerators
    case TagAccelerator(a, tags) =>
      a in t.accelerators && Managed(t.accelerators[a].(tags := Merge(t.accelerators[a].tags, tags)), o)
    case DeleteAccelerator(a) => a in t.accelerators
    case CreateListener(_, parent, _, _) => parent in t.accelerators && t.listeners == map[]
    case UpdateListener(l, _, _) => l in t.listeners
    case DeleteListener(l) => l in t.listeners
    case CreateGroup(_, parent, _) => parent in t.listeners && t.groups == map[]
    case UpdateGroup(g, _) => g in t.groups
    case DeleteGroup(g) => g in t.groups
  }

  predicate Creates(c: Call) {
    c.CreateAccelerator? || c.CreateListener? || c.CreateGroup?
  }

  predicate Proper(s: Store, o: Owner, c: Call) {
    ProperIn(Owned(s, o), o, c) && (Creates(c) ==> Fresh(s, c.arn))
  }

  predicate Enabled(s: Store, a: Action) {
    match a
    case Issue(o, c) => Proper(s, o, c) && Answer(s, c).Some?
    case Foreign(s') => ManagedPart(s') == ManagedPart(s) && NoOrphans(s')
  }

  function Apply(s: Store, a: Action): Store {
    match a
    case Issue(_, c) => if Answer(s, c).Some? then Answer(s, c).value else s
    case Foreign(s') => s'
  }

  predicate By(a: Action, o: Owner) {
    a.Issue? && a.o == o
  }

  /*** How one change of the store shows in an owner's tree ***/

  lemma PutAccelerator(s: Store, a: string, v: Accelerator, p: Owner)
    requires a in Owned(s, p).accelerators || !Managed(v, p) || !HasListener(s, a)
    requires a in Owned(s, p).accelerators ==> Managed(v, p)
    ensures var t, t' := Owned(s, p), Owned(s.(accelerators := s.accelerators[a := v]), p);
            t' == if Managed(v, p) then t.(accelerators := t.accelerators[a := v]) else t
  {
    hide Managed;
    var t, t' := Owned(s, p), Owned(s.(accelerators := s.accelerators[a := v]), p);
    assert t'.accelerators == if Managed(v, p) then t.accelerators[a := v] else t.accelerators;
    assert t'.listeners == t.listeners;
    assert t'.groups == t.groups;
  }

  lemma RemoveAccelerator(s: Store, a: string, p: Owner)
    requires !HasListener(s, a)
    ensures var t, t' := Owned(s, p), Owned(s.(accelerators := s.accelerators - {a}), p);
            t' == t.(accelerators := t.accelerators - {a})
  {
    hide Managed;
    var t, t' := Owned(s, p), Owned(s.(accelerators := s.accelerators - {a}), p);
    assert t'.accelerators == t.accelerators - {a};
    assert t'.listeners == t.listeners;
    assert t'.groups == t.groups;
  }

  lemma PutListener(s: Store, l: string, v: Listener, p: Owner)
    requires if l in s.listeners then v.parent == s.listeners[l].parent else !HasGroup(s, l)
    ensures var t, t' := Owned(s, p), Owned(s.(listeners := s.listeners[l := v]), p);
            t' == if v.parent in t.accelerators then t.(listeners := t.listeners[l := v]) else t
  {
    hide Managed;
    var t, t' := Owned(s, p), Owned(s.(listeners := s.listeners[l := v]), p);
    assert t'.accelerators == t.accelerators;
    assert t'.listeners == if v.parent in t.accelerators then t.listeners[l := v] else t.listeners;
    forall g | g in s.groups
      ensures g in t'.groups <==> g in t.groups
    {
    }
    assert t'.groups == t.groups;
  }

  lemma RemoveListener(s: Store, l: string, p: Owner)
    requires !HasGroup(s, l)
    ensures var t, t' := Owned(s, p), Owned(s.(listeners := s.listeners - {l}), p);
            t' == t.(listeners := t.listeners - {l})
  {
    hide Managed;
    var t, t' := Owned(s, p), Owned(s.(listeners := s.listeners - {l}), p);
    assert t'.accelerators == t.accelerators;
    assert t'.listeners == t.listeners - {l};
    assert t'.groups == t.groups;
  }

  lemma PutGroup(s: Store, g: string, v: Group, p: Owner)
    requires g in s.groups ==> v.parent == s.groups[g].parent
    ensures var t, t' := Owned(s, p), Owned(s.(groups := s.groups[g := v]), p);
            t' == if v.parent in t.listeners then t.(groups := t.groups[g := v]) else t
  {
    hide Managed;
    var t, t' := Owned(s, p), Owned(s.(groups := s.groups[g := v]), p);
    assert t'.accelerators == t.accelerators;
    assert t'.listeners == t.listeners;
    assert t'.groups == if v.parent in t.listeners then t.groups[g := v] else t.groups;
  }

  lemma RemoveGroup(s: Store, g: string, p: Owner)
    ensures var t, t' := Owned(s, p), Owned(s.(groups := s.groups - {g}), p);
            t' == t.(groups := t.groups - {g})
  {
    hide Managed;
    var t, t' := Owned(s, p), Owned(s.(groups := s.groups - {g}), p);
    assert t'.accelerators == t.accelerators;
    assert t'.listeners == t.listeners;
    assert t'.groups == t.groups - {g};
  }

  /** What an owner owns is there in the store, below something it owns. */
  lemma OwnedIsThere(s: Store, o: Owner)
    ensures var t := Owned(s, o);
            && (forall a :: a in t.accelerators <==> a in s.accelerators && Managed(s.accelerators[a], o))
            && (forall a | a in t.accelerators :: t.accelerators[a] == s.accelerators[a])
            && (forall l :: l in t.listeners <==> l in s.listeners && s.listeners[l].parent in t.accelerators)
            && (forall l | l in t.listeners :: t.listeners[l] == s.listeners[l])
            && (forall g :: g in t.groups <==> g in s.groups && s.groups[g].parent in t.listeners)
            && (forall g | g in t.groups :: t.groups[g] == s.groups[g])
  {
    hide Managed;
  }

  lemma TreesAreDisjoint(s: Store, o: Owner, p: Owner)
    requires o != p
    ensures Owned(s, o).accelerators.Keys !! Owned(s, p).accelerators.Keys
    ensures Owned(s, o).listeners.Keys !! Owned(s, p).listeners.Keys
    ensures Owned(s, o).groups.Keys !! Owned(s, p).groups.Keys
  {
    hide Owned, Managed;
    OwnedIsThere(s, o);
    OwnedIsThere(s, p);
    forall a | a in Owned(s, o).accelerators && a in Owned(s, p).accelerators
      ensures false
    {
      ManagersAgree(s.accelerators[a], o, p);
    }
  }

  /*** Isolation ***/

  /** A proper call of one owner does not show in another owner's tree. */
  lemma CallIsolates(s: Store, o: Owner, c: Call, p: Owner)
    requires Proper(s, o, c) && Answer(s, c).Some? && o != p
    ensures Owned(Answer(s, c).value, p) == Owned(s, p)
  {
    hide *;
    if OnAccelerator(c) {
      AcceleratorCallIsolates(s, o, c, p);
    } else if OnListener(c) {
      ListenerCallIsolates(s, o, c, p);
    } else {
      GroupCallIsolates(s, o, c, p);
    }
  }

  predicate OnAccelerator(c: Call) {
    c.CreateAccelerator? || c.UpdateAccelerator? || c.TagAccelerator? || c.DeleteAccelerator?
  }

  predicate OnListener(c: Call) {
    c.CreateListener? || c.UpdateListener? || c.DeleteListener?
  }

  lemma AcceleratorCallIsolates(s: Store, o: Owner, c: Call, p: Owner)
    requires Proper(s, o, c) && Answer(s, c).Some? && o != p && OnAccelerator(c)
    ensures Owned(Answer(s, c).value, p) == Owned(s, p)
  {
    hide Owned, Managed, Merge, HasListener, HasGroup;
    OwnedIsThere(s, o);
    OwnedIsThere(s, p);
    TreesAreDisjoint(s, o, p);
    forall v: Accelerator | Managed(v, o)
      ensures !Managed(v, p)
    {
      if Managed(v, p) { ManagersAgree(v, o, p); }
    }
    match c
    case CreateAccelerator(a, name, tags) =>
      PutAccelerator(s, a, Accelerator(true, name, Merge(map[], tags)), p);
    case UpdateAccelerator(a, _, _) =>
      SameTagsManaged(s.accelerators[a], Answer(s, c).value.accelerators[a], o);
      PutAccelerator(s, a, Answer(s, c).value.accelerators[a], p);
    case TagAccelerator(a, tags) => PutAccelerator(s, a, Answer(s, c).value.accelerators[a], p);
    case DeleteAccelerator(a) =>
      RemoveAccelerator(s, a, p);
      assert Owned(s, p).accelerators - {a} == Owned(s, p).accelerators;
  }

  lemma ListenerCallIsolates(s: Store, o: Owner, c: Call, p: Owner)
    requires Proper(s, o, c) && Answer(s, c).Some? && o != p && OnListener(c)
    ensures Owned(Answer(s, c).value, p) == Owned(s, p)
  {
    hide Owned, Managed, HasListener, HasGroup;
    OwnedIsThere(s, o);
    TreesAreDisjoint(s, o, p);
    match c
    case CreateListener(l, parent, ports, protocol) => PutListener(s, l, Answer(s, c).value.listeners[l], p);
    case UpdateListener(l, ports, protocol) => PutListener(s, l, Answer(s, c).value.listeners[l], p);
    case DeleteListener(l) =>
      RemoveListener(s, l, p);
      assert Owned(s, p).listeners - {l} == Owned(s, p).listeners;
  }

  lemma GroupCallIsolates(s: Store, o: Owner, c: Call, p: Owner)
    requires Proper(s, o, c) && Answer(s, c).Some? && o != p && !OnAccelerator(c) && !OnListener(c)
    ensures Owned(Answer(s, c).value, p) == Owned(s, p)
  {
    hide Owned, Managed, HasListener, HasGroup;
    OwnedIsThere(s, o);
    TreesAreDisjoint(s, o, p);
    match c
    case CreateGroup(g, parent, endpoints) => PutGroup(s, g, Answer(s, c).value.groups[g], p);
    case UpdateGroup(g, endpoints) => PutGroup(s, g, Answer(s, c).value.groups[g], p);
    case DeleteGroup(g) =>
      RemoveGroup(s, g, p);
      assert Owned(s, p).groups - {g} == Owned(s, p).groups;
  }

  lemma SameTagsManaged(a: Accelerator, b: Accelerator, o: Owner)
    requires a.tags == b.tags
    ensures Managed(a, o) <==> Managed(b, o)
  {
  }

  lemma ForeignIsolates(s: Store, s': Store, p: Owner)
    requires ManagedPart(s') == ManagedPart(s)
    ensures Owned(s', p) == Owned(s, p)
  {
    OwnedIsManaged(s, p);
    OwnedIsManaged(s', p);
  }

  /** No action of anyone else shows in an owner's tree. */
  lemma StepIsolates(s: Store, a: Action, p: Owner)
    requires Enabled(s, a) && !By(a, p)
    ensures Owned(Apply(s, a), p) == Owned(s, p)
  {
    hide Owned, ManagedPart, Proper, Answer;
    match a
    case Issue(o, c) => CallIsolates(s, o, c, p);
    case Foreign(s') => ForeignIsolates(s, s', p);
  }

  /*** The owner's own calls, seen in its tree ***/

  lemma SameListeners(s: Store, o: Owner, a: string)
    requires a in Owned(s, o).accelerators
    ensures HasListener(Owned(s, o), a) <==> HasListener(s, a)
  {
    hide Owned, Managed;
    OwnedIsThere(s, o);
    if HasListener(s, a) {
      var l :| l in s.listeners && s.listeners[l].parent == a;
      assert l in Owned(s, o).listeners;
    }
  }

  lemma SameGroups(s: Store, o: Owner, l: string)
    requires l in Owned(s, o).listeners
    ensures HasGroup(Owned(s, o), l) <==> HasGroup(s, l)
  {
    hide Owned, Managed;
    OwnedIsThere(s, o);
    if HasGroup(s, l) {
      var g :| g in s.groups && s.groups[g].parent == l;
      assert g in Owned(s, o).groups;
    }
  }

  /** A proper call does to the owner's tree what it does to the store, and is refused by both or by neither. */
  lemma CallCommutes(s: Store, o: Owner, c: Call)
    requires Proper(s, o, c)
    ensures Answer(Owned(s, o), c).Some? <==> Answer(s, c).Some?
    ensures Answer(s, c).Some? ==> Owned(Answer(s, c).value, o) == Answer(Owned(s, o), c).value
  {
    hide Owned, Managed, Merge, HasListener, HasGroup;
    OwnedIsThere(s, o);
    match c
    case CreateAccelerator(a, name, tags) => PutAccelerator(s, a, Accelerator(true, name, Merge(map[], tags)), o);
    case UpdateAccelerator(a, _, _) =>
      SameTagsManaged(s.accelerators[a], Answer(s, c).value.accelerators[a], o);
      PutAccelerator(s, a, Answer(s, c).value.accelerators[a], o);
    case TagAccelerator(a, tags) => PutAccelerator(s, a, Answer(s, c).value.accelerators[a], o);
    case DeleteAccelerator(a) =>
      SameListeners(s, o, a);
      if Answer(s, c).Some? { RemoveAccelerator(s, a, o); }
    case CreateListener(l, parent, ports, protocol) => PutListener(s, l, Answer(s, c).value.listeners[l], o);
    case UpdateListener(l, ports, protocol) => PutListener(s, l, Answer(s, c).value.listeners[l], o);
    case DeleteListener(l) =>
      SameGroups(s, o, l);
      if Answer(s, c).Some? { RemoveListener(s, l, o); }
    case CreateGroup(g, parent, endpoints) => PutGroup(s, g, Answer(s, c).value.groups[g], o);
    case UpdateGroup(g, endpoints) => PutGroup(s, g, Answer(s, c).value.groups[g], o);
    case DeleteGroup(g) => RemoveGroup(s, g, o);
  }

  lemma CallKeepsShape(s: Store, o: Owner, c: Call)
    requires Proper(s, o, c) && Answer(s, c).Some? && Shape(Owned(s, o))
    ensures Shape(Owned(Answer(s, c).value, o))
  {
    CallCommutes(s, o, c);
    TreeKeepsShape(Owned(s, o), o, c);
    hide *;
  }

  lemma TreeKeepsShape(t: Store, o: Owner, c: Call)
    requires ProperIn(t, o, c) && Answer(t, c).Some? && Shape(t)
    ensures Shape(Answer(t, c).value)
  {
    hide Managed, Merge, HasListener, HasGroup;
  }

  lemma CallLeavesNoOrphans(s: Store, o: Owner, c: Call)
    requires NoOrphans(s) && Proper(s, o, c) && Answer(s, c).Some?
    ensures NoOrphans(Answer(s, c).value)
  {
    hide Owned, Managed, Merge;
    OwnedIsThere(s, o);
  }

  /*** Runs ***/

  ghost predicate Sound(s: Store) {
    NoOrphans(s) && forall o: Owner :: Shape(Owned(s, o))
  }

  lemma StepKeepsSound(s: Store, a: Action)
    requires Sound(s) && Enabled(s, a)
    ensures Sound(Apply(s, a))
  {
    hide Owned, ManagedPart, Proper, Answer, Shape, NoOrphans;
    forall o: Owner
      ensures Shape(Owned(Apply(s, a), o))
    {
      if By(a, o) {
        CallKeepsShape(s, o, a.call);
      } else {
        StepIsolates(s, a, o);
      }
    }
    match a
    case Issue(o, c) => CallLeavesNoOrphans(s, o, c);
    case Foreign(_) =>
  }

  function Exec(s: Store, trace: seq<Action>): Store {
    if trace == [] then s else Apply(Exec(s, trace[..|trace| - 1]), trace[|trace| - 1])
  }

  predicate Legal(s: Store, trace: seq<Action>) {
    trace != [] ==>
      && Legal(s, trace[..|trace| - 1])
      && Enabled(Exec(s, trace[..|trace| - 1]), trace[|trace| - 1])
  }

  /**
   * In every interleaving of any number of owners, wherever each of them fails or stops, each owner has at most
   * one accelerator, with at most one listener and one endpoint group, and nothing lies below a deleted parent.
   */
  lemma {:induction false} RunsKeepSound(s: Store, trace: seq<Action>)
    requires Sound(s) && Legal(s, trace)
    ensures Sound(Exec(s, trace))
  {
    hide Sound, Enabled, Apply;
    if trace != [] {
      RunsKeepSound(s, trace[..|trace| - 1]);
      StepKeepsSound(Exec(s, trace[..|trace| - 1]), trace[|trace| - 1]);
    }
  }

  /** Over a run in which p does nothing, p's tree stays as it was. */
  lemma {:induction false} RunsIsolate(s: Store, trace: seq<Action>, p: Owner)
    requires Legal(s, trace) && forall a | a in trace :: !By(a, p)
    ensures Owned(Exec(s, trace), p) == Owned(s, p)
  {
    hide Enabled, Apply, Owned, By;
    if trace != [] {
      RunsIsolate(s, trace[..|trace| - 1], p);
      StepIsolates(Exec(s, trace[..|trace| - 1]), trace[|trace| - 1], p);
    }
  }

  lemma ExecAppend(s: Store, trace: seq<Action>, a: Action)
    requires Legal(s, trace) && Enabled(Exec(s, trace), a)
    ensures Legal(s, trace + [a])
    ensures Exec(s, trace + [a]) == Apply(Exec(s, trace), a)
  {
    assert (trace + [a])[..|trace|] == trace;
  }
}
