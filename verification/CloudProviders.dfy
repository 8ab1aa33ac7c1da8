/** DetectCloudProvider (pkg/cloudprovider/provider.go). */
module CloudProviders {
  import opened Strings
  import opened LoadBalancerNames

  /** OutOfRange: the code indexes the part before the last one without a check. */
  datatype Provider = Aws | Unknown | OutOfRange

  const AWS_DOMAIN := "amazonaws.com"

  function DetectCloudProvider(hostname: string): Provider {
    var parts := Split(hostname, '.');
    if |parts| < 2 then OutOfRange
    else if parts[|parts| - 2] + "." + parts[|parts| - 1] == AWS_DOMAIN then Aws
    else Unknown
  }

  lemma AwsDomainParts()
    ensures Split(AWS_DOMAIN, '.') == ["amazonaws", "com"]
  {
    hide Split;
    assert AWS_DOMAIN == "amazonaws" + ['.'] + "com";
    SplitHead("amazonaws", "com", '.');
    SplitWhole("com", '.');
  }

  lemma {:induction false} LastTwoParts(parts: seq<string>)
    requires |parts| >= 2
    ensures var last := parts[|parts| - 2] + ['.'] + parts[|parts| - 1];
            Join(parts, '.') == last || HasSuffix(Join(parts, '.'), ['.'] + last)
  {
    hide Join, HasSuffix;
    var tail := parts[1..];
    assert parts == [parts[0]] + tail;
    JoinFirst(parts[0], tail, '.');
    if |parts| == 2 {
      assert tail == [parts[1]] + [];
      JoinFirst(parts[1], [], '.');
    } else {
      LastTwoParts(tail);
      SuffixAfterDot(parts[0], Join(tail, '.'), parts[|parts| - 2] + ['.'] + parts[|parts| - 1]);
    }
  }

  lemma SuffixAfterDot(a: string, b: string, last: string)
    requires b == last || HasSuffix(b, ['.'] + last)
    ensures HasSuffix(a + ['.'] + b, ['.'] + last)
  {
    if b == last {
      assert a + ['.'] + b == a + (['.'] + last);
      EndsWith(a, ['.'] + last);
    } else {
      var k := |b| - |last| - 1;
      assert b == b[..k] + (['.'] + last);
      assert a + ['.'] + b == (a + ['.'] + b[..k]) + (['.'] + last);
      EndsWith(a + ['.'] + b[..k], ['.'] + last);
    }
  }

  lemma EndsWith(a: string, b: string)
    ensures HasSuffix(a + b, b)
  {
  }

  /** AWS is detected exactly for names in the domain amazonaws.com, and only a name without a dot is out of range. */
  lemma DetectsExactly(h: string)
    ensures DetectCloudProvider(h) == Aws <==> h == AWS_DOMAIN || HasSuffix(h, AWS_SUFFIX)
    ensures DetectCloudProvider(h) == OutOfRange <==> '.' !in h
  {
    hide Split, HasSuffix, Join;
    var parts := Split(h, '.');
    AwsDomainParts();
    JoinInvertsSplit(h, '.');
    assert AWS_SUFFIX == ['.'] + AWS_DOMAIN;
    if |parts| >= 2 {
      LastTwoParts(parts);
    }
    if HasSuffix(h, AWS_SUFFIX) {
      SuffixDetected(h);
    }
    DotFound(h);
  }

  lemma SuffixDetected(h: string)
    requires HasSuffix(h, AWS_SUFFIX)
    ensures DetectCloudProvider(h) == Aws
  {
    hide Split;
    var a := h[..|h| - |AWS_SUFFIX|];
    AwsDomainParts();
    assert AWS_SUFFIX == ['.'] + AWS_DOMAIN;
    assert h == a + ['.'] + AWS_DOMAIN;
    SplitAppend(a, AWS_DOMAIN, '.');
  }

  lemma DotFound(h: string)
    ensures |Split(h, '.')| >= 2 <==> '.' in h
  {
    SplitCounts(h, '.');
    assert '.' in h <==> '.' in multiset(h);
  }

  /** Every hostname with a load balancer name in it is detected, so the drivers skip none that they could serve. */
  lemma ParsedIsDetected(h: string)
    requires LbNameAndRegion(h).Some?
    ensures DetectCloudProvider(h) == Aws
  {
    hide Split, NameGroup, HasPrefix;
    SuffixesNest();
    if HasSuffix(h, ALB_SUFFIX) {
      var a := h[..|h| - |ALB_SUFFIX|];
      assert h == a + ".elb" + AWS_SUFFIX;
      EndsWith(a + ".elb", AWS_SUFFIX);
    }
    SuffixDetected(h);
  }
}
