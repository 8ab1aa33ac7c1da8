/** Load balancer hostnames: pkg/cloudprovider/aws/load_balancer.go. */
module LoadBalancerNames {
  import opened Strings

  datatype LoadBalancer = LoadBalancer(arn: string, dnsName: string, active: bool)

  const ALB_SUFFIX := ".elb.amazonaws.com"
  const AWS_SUFFIX := ".amazonaws.com"
  const ELB_INFIX := ".elb."
  const INTERNAL_PREFIX := "internal-"

  /** A character of the class \w */
  predicate WordChar(c: char) {
    '0' <= c <= '9' || 'A' <= c <= 'Z' || 'a' <= c <= 'z' || c == '_'
  }

  predicate Word(s: string) {
    s != "" && forall c | c in s :: WordChar(c)
  }

  predicate Hyphenated(s: string) {
    s != "" && forall c | c in s :: WordChar(c) || c == '-'
  }

  /** Position after the last c, or 0 when there is none. */
  function AfterLast(s: string, c: char): (i: nat)
    ensures i <= |s| && c !in s[i..]
    ensures i > 0 ==> s[i - 1] == c
  {
    if s == "" then 0
    else if s[|s| - 1] == c then |s|
    else
      var i := AfterLast(s[..|s| - 1], c);
      assert s[i..] == s[..|s| - 1][i..] + [s[|s| - 1]];
      i
  }

  /** The one group of ^([\w\-]+)\-[\w]+$ : what precedes the last hyphen. */
  function NameGroup(s: string): Option<string> {
    var i := AfterLast(s, '-');
    if i >= 1 && Hyphenated(s[..i - 1]) && Word(s[i..]) then Some(s[..i - 1]) else None
  }

  /** What the pattern matches, with the group it captures. */
  ghost predicate NameAndId(s: string, name: string) {
    exists id: string :: Hyphenated(name) && Word(id) && s == name + "-" + id
  }

  /** The group is captured exactly when the text splits as the pattern says, which it can in one way only. */
  lemma NameGroupExactly(s: string, name: string)
    ensures NameGroup(s) == Some(name) <==> NameAndId(s, name)
  {
    var i := AfterLast(s, '-');
    if NameGroup(s) == Some(name) {
      var id := s[i..];
      assert Hyphenated(name) && Word(id) && s == name + "-" + id;
    }
    if NameAndId(s, name) {
      var id: string :| Hyphenated(name) && Word(id) && s == name + "-" + id;
      assert '-' !in id;
      assert s[|name|] == '-' && s[|name|] in s;
      assert s[0..] == s;
      assert s == s[..i - 1] + ['-'] + s[i..];
      LastSeparatorUnique(name, id, s[..i - 1], s[i..], '-');
    }
  }

  function PublicAlbName(subdomain: string): Option<string> {
    NameGroup(subdomain)
  }

  /** ^internal\-([\w\-]+)\-[\w]+$ */
  function InternalAlbName(subdomain: string): Option<string> {
    if HasPrefix(subdomain, INTERNAL_PREFIX) then NameGroup(subdomain[|INTERNAL_PREFIX|..]) else None
  }

  /** .elb. at i, then at least one character and no line break before the suffix */
  predicate InfixAt(h: string, i: nat)
    requires i + |ELB_INFIX| < |h| - |AWS_SUFFIX|
  {
    h[i..i + |ELB_INFIX|] == ELB_INFIX && '\n' !in h[i + |ELB_INFIX|..|h| - |AWS_SUFFIX|]
  }

  /** \.elb\..+\.amazonaws\.com$ */
  predicate NlbPattern(h: string) {
    HasSuffix(h, AWS_SUFFIX) && exists i: nat | i + |ELB_INFIX| < |h| - |AWS_SUFFIX| :: InfixAt(h, i)
  }

  /** The pattern in words: .elb. somewhere, then something on one line, then the suffix. */
  lemma NlbPatternExactly(h: string)
    ensures NlbPattern(h) <==>
            exists front: string, middle: string ::
              middle != "" && '\n' !in middle && h == front + ".elb." + middle + ".amazonaws.com"
  {
    if NlbPattern(h) {
      var i: nat :| i + |ELB_INFIX| < |h| - |AWS_SUFFIX| && InfixAt(h, i);
      var front, middle := h[..i], h[i + |ELB_INFIX|..|h| - |AWS_SUFFIX|];
      assert h == front + ".elb." + middle + ".amazonaws.com";
    }
    if front: string, middle: string :|
      middle != "" && '\n' !in middle && h == front + ".elb." + middle + ".amazonaws.com" {
      NlbMatches(front, middle);
    }
  }

  /** Indexing the parts of a matched hostname stays in bounds. */
  lemma EnoughParts(h: string)
    ensures HasSuffix(h, ALB_SUFFIX) ==> |Split(h, '.')| >= 4
    ensures NlbPattern(h) ==> |Split(h, '.')| >= 5
  {
    if HasSuffix(h, ALB_SUFFIX) {
      AlbSplits(h);
    }
    if NlbPattern(h) {
      var i: nat :| i + |ELB_INFIX| < |h| - |AWS_SUFFIX| && InfixAt(h, i);
      NlbSplits(h, i);
    }
  }

  lemma AlbSplits(h: string)
    requires HasSuffix(h, ALB_SUFFIX)
    ensures |Split(h, '.')| >= 4
  {
    hide Split;
    var front := h[..|h| - |ALB_SUFFIX|];
    assert ALB_SUFFIX == ['.'] + ("elb" + ['.'] + ("amazonaws" + ['.'] + "com"));
    assert h == front + ['.'] + ("elb" + ['.'] + ("amazonaws" + ['.'] + "com"));
    SplitAppend(front, "elb" + ['.'] + ("amazonaws" + ['.'] + "com"), '.');
    SplitAppend("elb", "amazonaws" + ['.'] + "com", '.');
    SplitAppend("amazonaws", "com", '.');
  }

  lemma Regroup(a: string, dot: string, b: string, c: string, d: string)
    ensures a + (dot + b + dot) + c + (dot + d) == a + dot + (b + dot + (c + dot + d))
  {
  }

  lemma NlbSplits(h: string, i: nat)
    requires HasSuffix(h, AWS_SUFFIX) && i + |ELB_INFIX| < |h| - |AWS_SUFFIX| && InfixAt(h, i)
    ensures |Split(h, '.')| >= 5
  {
    hide Split;
    var front, middle := h[..i], h[i + |ELB_INFIX|..|h| - |AWS_SUFFIX|];
    var domain := AWS_SUFFIX[1..];
    assert ELB_INFIX == ['.'] + "elb" + ['.'] && AWS_SUFFIX == ['.'] + domain;
    assert domain == "amazonaws" + ['.'] + "com";
    assert h == front + ELB_INFIX + middle + AWS_SUFFIX;
    Regroup(front, ['.'], "elb", middle, domain);
    SplitAppend(front, "elb" + ['.'] + (middle + ['.'] + domain), '.');
    SplitAppend("elb", middle + ['.'] + domain, '.');
    SplitAppend(middle, domain, '.');
    SplitAppend("amazonaws", "com", '.');
  }

  /** GetLBNameFromHostname: name and region, or None for its errors. */
  function LbNameAndRegion(h: string): Option<(string, string)> {
    EnoughParts(h);
    var parts := Split(h, '.');
    if HasSuffix(h, ALB_SUFFIX) then
      var name := if HasPrefix(parts[0], INTERNAL_PREFIX) then InternalAlbName(parts[0]) else PublicAlbName(parts[0]);
      if name.Some? then Some((name.value, parts[1])) else None
    else if NlbPattern(h) then
      var name := NameGroup(parts[0]);
      if name.Some? then Some((name.value, parts[2])) else None
    else None
  }

  /** The text begins with two labels. */
  ghost predicate Labels(h: string, first: string, second: string, rest: string) {
    '.' !in first && '.' !in second && h == first + ['.'] + (second + ['.'] + rest)
  }

  lemma LabelsAreParts(h: string, first: string, second: string, rest: string)
    requires Labels(h, first, second, rest)
    ensures |Split(h, '.')| > 2 && Split(h, '.')[0] == first && Split(h, '.')[1] == second
    ensures Split(h, '.')[2..] == Split(rest, '.')
  {
    hide Split;
    SplitHead(first, second + ['.'] + rest, '.');
    SplitHead(second, rest, '.');
  }

  lemma PartsAreLabels(h: string)
    requires |Split(h, '.')| > 2
    ensures Labels(h, Split(h, '.')[0], Split(h, '.')[1], Join(Split(h, '.')[2..], '.'))
  {
    hide Split, Join;
    var parts := Split(h, '.');
    JoinInvertsSplit(h, '.');
    assert parts == [parts[0]] + parts[1..] && parts[1..] == [parts[1]] + parts[2..];
    JoinFirst(parts[0], parts[1..], '.');
    JoinFirst(parts[1], parts[2..], '.');
    assert parts[0] in parts && parts[1] in parts;
  }

  /** A name and a region as an ALB's hostname gives them, and as an NLB's does. */
  ghost predicate ReadsAsAlb(h: string, name: string, region: string) {
    exists sub: string, rest: string ::
      && Labels(h, sub, region, rest)
      && if HasPrefix(sub, "internal-") then NameAndId(sub[|"internal-"|..], name) else NameAndId(sub, name)
  }

  ghost predicate ReadsAsNlb(h: string, name: string, region: string) {
    exists sub: string, infix: string, rest: string ::
      Labels(h, sub, infix, region + ['.'] + rest) && '.' !in region && NameAndId(sub, name)
  }

  lemma AlbReadsExactly(h: string, name: string, region: string)
    requires HasSuffix(h, ALB_SUFFIX)
    ensures LbNameAndRegion(h) == Some((name, region)) <==> ReadsAsAlb(h, name, region)
  {
    hide Split, NameGroup, HasSuffix, NlbPattern, NameAndId, Labels;
    EnoughParts(h);
    PartsAreLabels(h);
    var sub := Split(h, '.')[0];
    NameGroupExactly(sub, name);
    if HasPrefix(sub, INTERNAL_PREFIX) {
      NameGroupExactly(sub[|INTERNAL_PREFIX|..], name);
    }
    if ReadsAsAlb(h, name, region) {
      var s, rest :| Labels(h, s, region, rest)
        && if HasPrefix(s, "internal-") then NameAndId(s[|"internal-"|..], name) else NameAndId(s, name);
      LabelsAreParts(h, s, region, rest);
    }
  }

  lemma NlbReadsExactly(h: string, name: string, region: string)
    requires !HasSuffix(h, ALB_SUFFIX) && NlbPattern(h)
    ensures LbNameAndRegion(h) == Some((name, region)) <==> ReadsAsNlb(h, name, region)
  {
    hide Split, NameGroup, HasSuffix, NlbPattern, NameAndId, Labels, Join;
    EnoughParts(h);
    PartsAreLabels(h);
    var parts := Split(h, '.');
    NameGroupExactly(parts[0], name);
    assert parts[2] in parts && parts[2..] == [parts[2]] + parts[3..];
    JoinFirst(parts[2], parts[3..], '.');
    if ReadsAsNlb(h, name, region) {
      var sub, infix, rest :| Labels(h, sub, infix, region + ['.'] + rest) && '.' !in region && NameAndId(sub, name);
      LabelsAreParts(h, sub, infix, region + ['.'] + rest);
      SplitHead(region, rest, '.');
      assert parts[2] == parts[2..][0];
    }
  }

  /** Which name and region a hostname gives; all others are answered with an error. */
  lemma ParsesExactly(h: string, name: string, region: string)
    ensures LbNameAndRegion(h) == Some((name, region)) <==>
            if HasSuffix(h, ".elb.amazonaws.com") then ReadsAsAlb(h, name, region)
            else NlbPattern(h) && ReadsAsNlb(h, name, region)
  {
    hide LbNameAndRegion, HasSuffix, NlbPattern, ReadsAsAlb, ReadsAsNlb;
    if HasSuffix(h, ALB_SUFFIX) {
      AlbReadsExactly(h, name, region);
    } else if NlbPattern(h) {
      NlbReadsExactly(h, name, region);
    } else {
      NoLoadBalancer(h);
    }
  }

  lemma NoLoadBalancer(h: string)
    ensures !HasSuffix(h, ALB_SUFFIX) && !NlbPattern(h) ==> LbNameAndRegion(h) == None
  {
    hide Split, NameGroup;
  }

  function PublicAlb(name: string, id: string, region: string): string {
    name + "-" + id + "." + region + ALB_SUFFIX
  }

  function InternalAlb(name: string, id: string, region: string): string {
    INTERNAL_PREFIX + name + "-" + id + "." + region + ALB_SUFFIX
  }

  function Nlb(name: string, id: string, region: string): string {
    name + "-" + id + ".elb." + region + AWS_SUFFIX
  }

  predicate LegalNames(name: string, id: string, region: string) {
    Hyphenated(name) && Word(id) && Hyphenated(region)
  }

  /** The parts of a hostname with an ALB suffix, from its dot-free subdomain and region. */
  lemma AlbParts(sub: string, region: string)
    requires '.' !in sub && '.' !in region
    ensures var h := sub + "." + region + ALB_SUFFIX;
            HasSuffix(h, ALB_SUFFIX) && |Split(h, '.')| > 1 && Split(h, '.')[0] == sub && Split(h, '.')[1] == region
  {
    hide Split;
    var h := sub + "." + region + ALB_SUFFIX;
    var tail := ALB_SUFFIX[1..];
    assert ALB_SUFFIX == ['.'] + tail;
    assert h == sub + ['.'] + (region + ['.'] + tail);
    SplitHead(sub, region + ['.'] + tail, '.');
    SplitHead(region, tail, '.');
    assert h[|h| - |ALB_SUFFIX|..] == ALB_SUFFIX;
  }

  lemma DotFree(name: string, id: string, region: string)
    requires LegalNames(name, id, region)
    ensures '.' !in name && '.' !in id && '.' !in region && '.' !in name + "-" + id
    ensures '.' !in INTERNAL_PREFIX + (name + "-" + id)
  {
  }

  /** The subdomain of a public ALB looks internal exactly when the name plus hyphen does. */
  lemma InternalLooking(name: string, id: string)
    requires '-' !in id
    ensures HasPrefix(name + "-" + id, INTERNAL_PREFIX) <==> HasPrefix(name + "-", INTERNAL_PREFIX)
  {
    var s := name + "-" + id;
    var n := |INTERNAL_PREFIX|;
    assert s == (name + "-") + id;
    if HasPrefix(s, INTERNAL_PREFIX) {
      assert s[n - 1] == s[..n][n - 1] == '-';
      assert forall k | |name| < k < |s| :: s[k] == id[k - |name| - 1];
      assert n <= |name| + 1;
      assert s[..n] == (name + "-")[..n];
    }
    if HasPrefix(name + "-", INTERNAL_PREFIX) {
      assert s[..n] == (name + "-")[..n];
    }
  }

  /** A longer text with the same end has a longer name group. */
  lemma GroupLengths(prefix: string, rest: string, a: string, b: string)
    requires NameGroup(prefix + rest) == Some(a) && NameGroup(rest) == Some(b)
    ensures |a| == |prefix| + |b|
  {
    hide NameGroup, Hyphenated, Word;
    NameGroupExactly(prefix + rest, a);
    NameGroupExactly(rest, b);
    var i :| Hyphenated(a) && Word(i) && prefix + rest == a + "-" + i;
    var j :| Hyphenated(b) && Word(j) && rest == b + "-" + j;
    WordHasNoHyphen(i);
    WordHasNoHyphen(j);
    assert a + ['-'] + i == (prefix + b) + ['-'] + j;
    LastSeparatorUnique(a, i, prefix + b, j, '-');
  }

  lemma WordHasNoHyphen(id: string)
    requires Word(id)
    ensures '-' !in id
  {
  }

  /** Parsing gives the public ALB's name and region back exactly when its name does not look internal. */
  lemma PublicAlbRoundTrip(name: string, id: string, region: string)
    requires LegalNames(name, id, region)
    ensures LbNameAndRegion(PublicAlb(name, id, region)) == Some((name, region)) <==>
            !HasPrefix(name + "-", INTERNAL_PREFIX)
  {
    hide Split, NameGroup, HasSuffix, NlbPattern;
    var sub := name + "-" + id;
    DotFree(name, id, region);
    AlbParts(sub, region);
    assert PublicAlb(name, id, region) == sub + "." + region + ALB_SUFFIX;
    WordHasNoHyphen(id);
    InternalLooking(name, id);
    NameGroupExactly(sub, name);
    if HasPrefix(sub, INTERNAL_PREFIX) {
      var rest := sub[|INTERNAL_PREFIX|..];
      assert sub == INTERNAL_PREFIX + rest;
      if NameGroup(rest).Some? {
        GroupLengths(INTERNAL_PREFIX, rest, name, NameGroup(rest).value);
      }
    }
  }

  lemma InternalAlbRoundTrip(name: string, id: string, region: string)
    requires LegalNames(name, id, region)
    ensures LbNameAndRegion(InternalAlb(name, id, region)) == Some((name, region))
  {
    hide Split, NameGroup, HasSuffix, NlbPattern;
    var sub := INTERNAL_PREFIX + (name + "-" + id);
    DotFree(name, id, region);
    AlbParts(sub, region);
    assert InternalAlb(name, id, region) == sub + "." + region + ALB_SUFFIX;
    PrefixOf(INTERNAL_PREFIX, name + "-" + id);
    NameGroupExactly(name + "-" + id, name);
  }

  lemma PrefixOf(a: string, b: string)
    ensures HasPrefix(a + b, a) && (a + b)[|a|..] == b
  {
  }

  lemma NlbParts(sub: string, region: string)
    requires '.' !in sub && '.' !in region
    ensures var h := sub + ".elb." + region + AWS_SUFFIX;
            |Split(h, '.')| > 2 && Split(h, '.')[0] == sub && Split(h, '.')[2] == region
  {
    hide Split;
    var h := sub + ".elb." + region + AWS_SUFFIX;
    var tail := AWS_SUFFIX[1..];
    assert AWS_SUFFIX == ['.'] + tail;
    assert ".elb." == ['.'] + "elb" + ['.'];
    assert h == sub + ['.'] + ("elb" + ['.'] + (region + ['.'] + tail));
    SplitHead(sub, "elb" + ['.'] + (region + ['.'] + tail), '.');
    SplitHead("elb", region + ['.'] + tail, '.');
    SplitHead(region, tail, '.');
  }

  lemma NlbMatches(sub: string, region: string)
    requires region != "" && '\n' !in region
    ensures NlbPattern(sub + ".elb." + region + AWS_SUFFIX)
  {
    var h := sub + ".elb." + region + AWS_SUFFIX;
    assert h[|h| - |AWS_SUFFIX|..] == AWS_SUFFIX;
    assert h[|sub|..|sub| + |ELB_INFIX|] == ELB_INFIX;
    assert h[|sub| + |ELB_INFIX|..|h| - |AWS_SUFFIX|] == region;
    assert InfixAt(h, |sub|);
  }

  lemma SuffixOfConcat(front: string, a: string, b: string)
    ensures HasSuffix(front + b, a + b) <==> HasSuffix(front, a)
  {
    if HasSuffix(front + b, a + b) {
      var m := |front| - |a|;
      assert (front + b)[m..] == a + b;
      assert front[m..] == (front + b)[m..][..|a|] == a;
    }
    if HasSuffix(front, a) {
      assert (front + b)[|front| - |a|..] == a + b;
    }
  }

  lemma EndsInLabel(front: string, region: string, last: string)
    requires '.' !in region && '.' !in last
    ensures HasSuffix(front + ['.'] + region, ['.'] + last) <==> region == last
  {
    var s := front + ['.'] + region;
    if HasSuffix(s, ['.'] + last) {
      var m := |s| - |last| - 1;
      assert s == s[..m] + (['.'] + last);
      assert s == s[..m] + ['.'] + last;
      LastSeparatorUnique(s[..m], last, front, region, '.');
    }
    if region == last {
      assert s[|front|..] == ['.'] + last;
    }
  }

  /** Only the region "elb" makes an NLB hostname end like an ALB's. */
  lemma NlbEndsLikeAlb(sub: string, region: string)
    requires '.' !in region
    ensures HasSuffix(sub + ".elb." + region + AWS_SUFFIX, ALB_SUFFIX) <==> region == "elb"
  {
    hide HasSuffix;
    SuffixOfConcat(sub + ".elb." + region, ".elb", AWS_SUFFIX);
    EndsInLabel(sub + ".elb", region, "elb");
    assert ".elb" == ['.'] + "elb" && ".elb." == ".elb" + ['.'];
    assert sub + ".elb." + region == (sub + ".elb") + ['.'] + region;
    SuffixesNest();
  }

  lemma SuffixesNest()
    ensures ALB_SUFFIX == ".elb" + AWS_SUFFIX
  {
  }

  /** For a region named "elb" the NLB is read as an ALB, which matters only for an internal-looking name. */
  lemma NlbRoundTrip(name: string, id: string, region: string)
    requires LegalNames(name, id, region)
    ensures LbNameAndRegion(Nlb(name, id, region)) == Some((name, region)) <==>
            region != "elb" || !HasPrefix(name + "-", INTERNAL_PREFIX)
  {
    hide Split, NameGroup, HasSuffix, NlbPattern, HasPrefix;
    var sub := name + "-" + id;
    DotFree(name, id, region);
    NlbParts(sub, region);
    NlbMatches(sub, region);
    NlbEndsLikeAlb(sub, region);
    assert Nlb(name, id, region) == sub + ".elb." + region + AWS_SUFFIX;
    NameGroupExactly(sub, name);
    if region == "elb" {
      PublicAlbRoundTrip(name, id, region);
      SameHostname(sub);
      assert Nlb(name, id, region) == PublicAlb(name, id, region);
    }
  }

  lemma SameHostname(sub: string)
    ensures sub + ".elb." + "elb" + AWS_SUFFIX == sub + "." + "elb" + ALB_SUFFIX
  {
    assert ALB_SUFFIX == ".elb" + AWS_SUFFIX;
  }

  /*** Regions of ARNs ***/

  /** GetRegionFromARN, which indexes the fourth part without a check: None stands for its panic. */
  function RegionFromArn(arn: string): Option<string> {
    var parts := Split(arn, ':');
    if |parts| > 3 then Some(parts[3]) else None
  }

  predicate HasRegion(arn: string) {
    RegionFromArn(arn).Some?
  }

  /** There is a region exactly in the texts with three colons. */
  lemma HasRegionExactly(arn: string)
    ensures HasRegion(arn) <==> multiset(arn)[':'] >= 3
  {
    SplitCounts(arn, ':');
  }

  /** The region is what stands between the third colon and the fourth, or the end. */
  lemma RegionOfArn(partition: string, service: string, kind: string, region: string, rest: string)
    requires ':' !in partition && ':' !in service && ':' !in kind && ':' !in region
    ensures var front := partition + ":" + service + ":" + kind + ":" + region;
            RegionFromArn(front) == Some(region) && RegionFromArn(front + ":" + rest) == Some(region)
  {
    hide Split;
    var tail := region + [':'] + rest;
    SplitWhole(region, ':');
    SplitHead(region, rest, ':');
    forall t | t == region || t == tail
      ensures Split(partition + [':'] + (service + [':'] + (kind + [':'] + t)), ':') ==
              [partition] + ([service] + ([kind] + Split(t, ':')))
    {
      SplitHead(kind, t, ':');
      SplitHead(service, kind + [':'] + t, ':');
      SplitHead(partition, service + [':'] + (kind + [':'] + t), ':');
    }
    var front := partition + ":" + service + ":" + kind + ":" + region;
    assert front == partition + [':'] + (service + [':'] + (kind + [':'] + region));
    assert front + ":" + rest == partition + [':'] + (service + [':'] + (kind + [':'] + tail));
  }
}
