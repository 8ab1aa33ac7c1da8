/** Listener ports and protocol: the comparisons of pkg/cloudprovider/aws/global_accelerator.go. */
module ListenerPorts {
  import opened Sequences
  import opened Strings

  datatype Protocol = TCP | UDP

  /** A port of a Service, its protocol in lower case. */
  datatype ServicePort = ServicePort(port: int, protocol: string)

  /** The code's verdict: each port of either list occurs at least twice in both lists together. */
  ghost predicate PortsUnchanged(listener: seq<int>, desired: seq<int>) {
    forall p | p in listener || p in desired :: multiset(listener)[p] + multiset(desired)[p] >= 2
  }

  ghost predicate SamePorts(a: seq<int>, b: seq<int>) {
    forall p :: p in a <==> p in b
  }

  function Count(counts: map<int, nat>, p: int): nat {
    if p in counts then counts[p] else 0
  }

  /** One of the counting loops. The keys are kept in the order in which they came, as one of the map's orders. */
  method CountPorts(counts: map<int, nat>, keys: seq<int>, ports: seq<int>) returns (r: map<int, nat>, ks: seq<int>)
    requires (forall p | p in counts :: p in keys) && forall j | 0 <= j < |keys| :: keys[j] in counts
    ensures (forall p | p in r :: p in ks) && forall j | 0 <= j < |ks| :: ks[j] in r
    ensures forall p :: p in ks <==> p in keys || p in ports
    ensures forall p :: Count(r, p) == Count(counts, p) + multiset(ports)[p]
  {
    r, ks := counts, keys;
    for i := 0 to |ports|
      invariant (forall p | p in r :: p in ks) && forall j | 0 <= j < |ks| :: ks[j] in r
      invariant forall p :: p in ks <==> p in keys || p in ports[..i]
      invariant forall p :: Count(r, p) == Count(counts, p) + multiset(ports[..i])[p]
    {
      assert ports[..i + 1] == ports[..i] + [ports[i]];
      if ports[i] !in r {
        ks := ks + [ports[i]];
      }
      r := r[ports[i] := Count(r, ports[i]) + 1];
    }
    assert ports[..|ports|] == ports;
  }

  /** listenerPortChangedFromService and listenerPortChangedFromIngress */
  method ListenerPortChanged(listener: seq<int>, desired: seq<int>) returns (changed: bool)
    ensures changed <==> !PortsUnchanged(listener, desired)
  {
    var portCount, keys := CountPorts(map[], [], listener);
    portCount, keys := CountPorts(portCount, keys, desired);
    for i := 0 to |keys|
      invariant forall j | 0 <= j < i :: portCount[keys[j]] > 1
    {
      if portCount[keys[i]] <= 1 {
        assert keys[i] in keys && Count(portCount, keys[i]) <= 1;
        return true;
      }
    }
    forall p | p in listener || p in desired
      ensures multiset(listener)[p] + multiset(desired)[p] >= 2
    {
      assert p in keys && Count(portCount, p) == portCount[p];
    }
    return false;
  }

  lemma {:induction false} DuplicatesCount(s: seq<int>)
    ensures NoDuplicates(s) <==> forall p | p in s :: multiset(s)[p] == 1
  {
    if s != [] {
      var t := s[1..];
      DuplicatesCount(t);
      assert s == [s[0]] + t;
      assert multiset(s) == multiset{s[0]} + multiset(t);
      if NoDuplicates(s) {
        assert s[0] !in t;
        forall p | p in s ensures multiset(s)[p] == 1 {
          if p != s[0] { assert p in t; }
        }
      }
      if forall p | p in s :: multiset(s)[p] == 1 {
        assert s[0] in s && multiset(s)[s[0]] == 1;
        assert multiset(t)[s[0]] == 0;
        forall p | p in t ensures multiset(t)[p] == 1 { assert p in s; }
      }
    }
  }

  /** Equal port sets never trigger an update. */
  lemma SamePortsAreUnchanged(listener: seq<int>, desired: seq<int>)
    requires SamePorts(listener, desired)
    ensures PortsUnchanged(listener, desired)
  {
    forall p | p in listener || p in desired
      ensures multiset(listener)[p] + multiset(desired)[p] >= 2
    {
      assert p in multiset(listener) && p in multiset(desired);
    }
  }

  /** "Unchanged" means: a port that only one list names is named there at least twice. */
  lemma UnchangedExactly(listener: seq<int>, desired: seq<int>)
    ensures PortsUnchanged(listener, desired) <==>
            && (forall p | p in listener && p !in desired :: multiset(listener)[p] >= 2)
            && (forall p | p in desired && p !in listener :: multiset(desired)[p] >= 2)
  {
    forall p: int
      ensures p in listener <==> multiset(listener)[p] >= 1
      ensures p in desired <==> multiset(desired)[p] >= 1
    {
      assert p in listener <==> p in multiset(listener);
      assert p in desired <==> p in multiset(desired);
    }
  }

  /** With duplicate-free lists "unchanged" means the same set of ports. */
  lemma UnchangedWithoutDuplicates(listener: seq<int>, desired: seq<int>)
    requires NoDuplicates(listener) && NoDuplicates(desired)
    ensures PortsUnchanged(listener, desired) <==> SamePorts(listener, desired)
  {
    DuplicatesCount(listener);
    DuplicatesCount(desired);
    UnchangedExactly(listener, desired);
  }

  /** A port that is new and listed twice goes unnoticed. */
  lemma NewPortListedTwiceIsMissed()
    ensures PortsUnchanged([80], [80, 443, 443]) && !SamePorts([80], [80, 443, 443])
  {
    var l, d := [80], [80, 443, 443];
    assert multiset(l) == multiset{80} && multiset(d) == multiset{80, 443, 443};
    assert 443 in d && 443 !in l;
  }

  /*** Protocol: the last port with a known protocol decides ***/

  function LastProtocol(ports: seq<ServicePort>): Protocol {
    if ports == [] then TCP
    else
      var p := ports[|ports| - 1].protocol;
      if p == "udp" then UDP else if p == "tcp" then TCP else LastProtocol(ports[..|ports| - 1])
  }

  /** The i-th port is a "udp" port, and no "tcp" port comes after it. */
  ghost predicate UdpStands(ports: seq<ServicePort>, i: nat) {
    i < |ports| && ports[i].protocol == "udp" && forall j | i < j < |ports| :: ports[j].protocol != "tcp"
  }

  lemma UdpStandsOn(ports: seq<ServicePort>, last: ServicePort, i: nat)
    ensures UdpStands(ports + [last], i) <==>
            if i == |ports| then last.protocol == "udp" else last.protocol != "tcp" && UdpStands(ports, i)
  {
    if i < |ports| && UdpStands(ports + [last], i) {
      assert (ports + [last])[|ports|] == last;
      assert forall j | i < j < |ports| :: ports[j] == (ports + [last])[j];
    }
  }

  /** UDP exactly when some "udp" port has no "tcp" port after it; other protocols do not matter. */
  lemma {:induction false} UdpExactly(ports: seq<ServicePort>)
    ensures LastProtocol(ports) == UDP <==> exists i: nat :: UdpStands(ports, i)
  {
    if ports == [] {
      assert forall i: nat :: !UdpStands(ports, i);
    } else {
      hide UdpStands;
      var front, last := ports[..|ports| - 1], ports[|ports| - 1];
      assert ports == front + [last];
      UdpExactly(front);
      forall i: nat
        ensures UdpStands(ports, i) <==>
                if i == |front| then last.protocol == "udp" else last.protocol != "tcp" && UdpStands(front, i)
      {
        UdpStandsOn(front, last, i);
      }
      OnlyWithin(front, |front|);
    }
  }

  lemma OnlyWithin(ports: seq<ServicePort>, i: nat)
    ensures UdpStands(ports, i) ==> i < |ports|
  {
  }

  /** listenerForService */
  method ListenerForService(specPorts: seq<ServicePort>) returns (ports: seq<int>, protocol: Protocol)
    ensures |ports| == |specPorts| && forall k | 0 <= k < |specPorts| :: ports[k] == specPorts[k].port
    ensures protocol == LastProtocol(specPorts)
    ensures protocol == UDP <==> exists i: nat :: UdpStands(specPorts, i)
  {
    hide UdpStands;
    ports, protocol := [], TCP;
    for i := 0 to |specPorts|
      invariant |ports| == i && forall k | 0 <= k < i :: ports[k] == specPorts[k].port
      invariant protocol == LastProtocol(specPorts[..i])
    {
      assert specPorts[..i + 1][..i] == specPorts[..i];
      ports := ports + [specPorts[i].port];
      if specPorts[i].protocol == "udp" {
        protocol := UDP;
      } else if specPorts[i].protocol == "tcp" {
        protocol := TCP;
      }
    }
    assert specPorts[..|specPorts|] == specPorts;
    UdpExactly(specPorts);
  }

  /** listenerProtocolChangedFromService agrees with the protocol that listenerForService would set. */
  method ListenerProtocolChangedFromService(current: Protocol, specPorts: seq<ServicePort>) returns (changed: bool)
    ensures changed <==> current != LastProtocol(specPorts)
    ensures changed <==> (current == TCP <==> exists i: nat :: UdpStands(specPorts, i))
  {
    hide UdpStands;
    var protocol := TCP;
    for i := 0 to |specPorts|
      invariant protocol == LastProtocol(specPorts[..i])
    {
      assert specPorts[..i + 1][..i] == specPorts[..i];
      if specPorts[i].protocol == "udp" {
        protocol := UDP;
      } else if specPorts[i].protocol == "tcp" {
        protocol := TCP;
      }
    }
    assert specPorts[..|specPorts|] == specPorts;
    UdpExactly(specPorts);
    return current != protocol;
  }

  /*** Ports of an Ingress ***/

  /** One object of the listen-ports annotation; 0 stands for an absent field. */
  datatype IngressPort = IngressPort(http: int, https: int)

  /** Go's conversion of an int64 to int32. */
  function Int32(x: int): (r: int)
    ensures -0x8000_0000 <= r < 0x8000_0000 && (x - r) % 0x1_0000_0000 == 0
  {
    (x + 0x8000_0000) % 0x1_0000_0000 - 0x8000_0000
  }

  function AnnotationItem(p: IngressPort): seq<int> {
    (if p.http != 0 then [Int32(p.http)] else []) + if p.https != 0 then [Int32(p.https)] else []
  }

  function AnnotationPorts(ports: seq<IngressPort>): seq<int> {
    if ports == [] then [] else AnnotationPorts(ports[..|ports| - 1]) + AnnotationItem(ports[|ports| - 1])
  }

  /** The port of a backend that is a Service. */
  function BackendItem(port: Option<int>): seq<int> {
    if port.Some? then [port.value] else []
  }

  function PathPorts(paths: seq<Option<int>>): seq<int> {
    if paths == [] then [] else PathPorts(paths[..|paths| - 1]) + BackendItem(paths[|paths| - 1])
  }

  function RulePorts(rules: seq<Option<seq<Option<int>>>>): seq<int> {
    if rules == [] then []
    else
      RulePorts(rules[..|rules| - 1]) + if rules[|rules| - 1].Some? then PathPorts(rules[|rules| - 1].value) else []
  }

  /** The loop of listenerForIngress over the annotation. */
  method CollectAnnotationPorts(ingressPorts: seq<IngressPort>) returns (ports: seq<int>)
    ensures ports == AnnotationPorts(ingressPorts)
  {
    hide Int32;
    ports := [];
    for k := 0 to |ingressPorts|
      invariant ports == AnnotationPorts(ingressPorts[..k])
    {
      var i := ingressPorts[k];
      assert ingressPorts[..k + 1][..k] == ingressPorts[..k];
      ghost var before := ports;
      if i.http != 0 {
        ports := ports + [Int32(i.http)];
      }
      if i.https != 0 {
        ports := ports + [Int32(i.https)];
      }
      assert ports == before + AnnotationItem(i);
    }
    assert ingressPorts[..|ingressPorts|] == ingressPorts;
  }

  /** Its inner loop over the paths of one rule. */
  method AppendPathPorts(before: seq<int>, paths: seq<Option<int>>) returns (ports: seq<int>)
    ensures ports == before + PathPorts(paths)
  {
    ports := before;
    for j := 0 to |paths|
      invariant ports == before + PathPorts(paths[..j])
    {
      assert paths[..j + 1][..j] == paths[..j];
      if paths[j].Some? {
        ports := ports + [paths[j].value];
      }
    }
    assert paths[..|paths|] == paths;
  }

  /**
   * listenerForIngress. The annotation is absent, or not decodable, or a list of ports; rules without an HTTP
   * part and backends without a Service are None.
   */
  method ListenerForIngress(
      annotation: Option<Option<seq<IngressPort>>>, defaultBackend: Option<int>, rules: seq<Option<seq<Option<int>>>>)
    returns (ports: seq<int>, protocol: Protocol)
    ensures protocol == TCP
    ensures annotation == Some(None) ==> ports == []
    ensures annotation.Some? && annotation.value.Some? ==> ports == AnnotationPorts(annotation.value.value)
    ensures annotation.None? ==> ports == BackendItem(defaultBackend) + RulePorts(rules)
  {
    hide AnnotationPorts, PathPorts;
    ports, protocol := [], TCP;
    if annotation.Some? {
      if annotation.value.Some? {
        ports := CollectAnnotationPorts(annotation.value.value);
      }
      return;
    }
    if defaultBackend.Some? {
      ports := ports + [defaultBackend.value];
    }
    for k := 0 to |rules|
      invariant ports == BackendItem(defaultBackend) + RulePorts(rules[..k])
    {
      assert rules[..k + 1][..k] == rules[..k];
      if rules[k].Some? {
        ports := AppendPathPorts(ports, rules[k].value);
        Associative(BackendItem(defaultBackend), RulePorts(rules[..k]), PathPorts(rules[k].value));
      }
    }
    assert rules[..|rules|] == rules;
  }

  /** Objects of the annotation are read one after the other. */
  lemma {:induction false} AnnotationPortsConcatenate(a: seq<IngressPort>, b: seq<IngressPort>)
    ensures AnnotationPorts(a + b) == AnnotationPorts(a) + AnnotationPorts(b)
  {
    hide AnnotationItem;
    if b == [] {
      assert a + b == a;
    } else {
      var m := |b| - 1;
      AnnotationPortsConcatenate(a, b[..m]);
      assert (a + b)[..|a + b| - 1] == a + b[..m];
      Associative(AnnotationPorts(a), AnnotationPorts(b[..m]), AnnotationItem(b[m]));
    }
  }

  /** One object gives its port for HTTP and then that for HTTPS, each once, if it has them. */
  lemma AnnotationPortsOfOne(p: int, q: int)
    requires 0 < p < 0x8000_0000 && 0 < q < 0x8000_0000
    ensures AnnotationPorts([IngressPort(p, q)]) == [p, q]
    ensures AnnotationPorts([IngressPort(p, 0)]) == [p] && AnnotationPorts([IngressPort(0, q)]) == [q]
    ensures AnnotationPorts([IngressPort(0, 0)]) == []
  {
    forall i: IngressPort
      ensures AnnotationPorts([i]) == AnnotationItem(i)
    {
      assert [i][..0] == [];
    }
  }

  /** Paths are read one after the other, each Service port once, and backends of another kind are skipped. */
  lemma {:induction false} PathPortsConcatenate(a: seq<Option<int>>, b: seq<Option<int>>, p: int)
    ensures PathPorts(a + b) == PathPorts(a) + PathPorts(b)
    ensures PathPorts([Some(p)]) == [p] && PathPorts([None]) == []
  {
    if b == [] {
      assert a + b == a;
    } else {
      var m := |b| - 1;
      PathPortsConcatenate(a, b[..m], p);
      assert (a + b)[..|a + b| - 1] == a + b[..m];
      Associative(PathPorts(a), PathPorts(b[..m]), BackendItem(b[m]));
    }
    assert [Some(p)][..0] == [] && [Option<int>.None][..0] == [];
  }

  /** Rules are read one after the other, and those without an HTTP part are skipped. */
  lemma {:induction false} RulePortsConcatenate(
      a: seq<Option<seq<Option<int>>>>, b: seq<Option<seq<Option<int>>>>, paths: seq<Option<int>>)
    ensures RulePorts(a + b) == RulePorts(a) + RulePorts(b)
    ensures RulePorts([Some(paths)]) == PathPorts(paths) && RulePorts([None]) == []
  {
    hide PathPorts;
    if b == [] {
      assert a + b == a;
    } else {
      var m := |b| - 1;
      RulePortsConcatenate(a, b[..m], paths);
      assert (a + b)[..|a + b| - 1] == a + b[..m];
      Associative(RulePorts(a), RulePorts(b[..m]), if b[m].Some? then PathPorts(b[m].value) else []);
    }
    assert [Some(paths)][..0] == [] && [Option<seq<Option<int>>>.None][..0] == [];
  }

  lemma AnnotationItemExactly(i: IngressPort, p: int)
    requires 0 <= i.http < 0x1_0000 && 0 <= i.https < 0x1_0000
    ensures p in AnnotationItem(i) <==> p != 0 && (i.http == p || i.https == p)
  {
  }

  /** With legal port numbers the annotation asks for exactly the ports it names. */
  lemma {:induction false} AnnotationPortsExactly(ports: seq<IngressPort>, p: int)
    requires forall i | i in ports :: 0 <= i.http < 0x1_0000 && 0 <= i.https < 0x1_0000
    ensures p in AnnotationPorts(ports) <==> p != 0 && exists i :: i in ports && (i.http == p || i.https == p)
  {
    hide AnnotationItem;
    if ports != [] {
      var t, last := ports[..|ports| - 1], ports[|ports| - 1];
      assert ports == t + [last];
      AnnotationPortsExactly(t, p);
      AnnotationItemExactly(last, p);
    }
  }

  /** Without the annotation every Service port of a path is asked for, and no other. */
  lemma {:induction false} RulePortsExactly(rules: seq<Option<seq<Option<int>>>>, p: int)
    ensures p in RulePorts(rules) <==> exists r :: r in rules && r.Some? && Some(p) in r.value
  {
    if rules != [] {
      var t, last := rules[..|rules| - 1], rules[|rules| - 1];
      assert rules == t + [last];
      RulePortsExactly(t, p);
      if last.Some? {
        PathPortsExactly(last.value, p);
      }
    }
  }

  lemma {:induction false} PathPortsExactly(paths: seq<Option<int>>, p: int)
    ensures p in PathPorts(paths) <==> Some(p) in paths
  {
    if paths != [] {
      PathPortsExactly(paths[..|paths| - 1], p);
      assert paths == paths[..|paths| - 1] + [paths[|paths| - 1]];
    }
  }
}
