/** How Route 53 stores record names, and the way back in findARecord (pkg/cloudprovider/aws/route53.go). */
module RecordNames {
  import opened Sequences
  import opened Strings

  const ESCAPED_STAR := "\\052"

  /** Route 53 stores a wildcard label as the octal escape. */
  function Escape(hostname: string): (s: string)
    ensures |hostname| <= |s|
    ensures '*' !in s
  {
    if hostname == "" then ""
    else if hostname[0] == '*' then ESCAPED_STAR + Escape(hostname[1..])
    else [hostname[0]] + Escape(hostname[1..])
  }

  /** The name under which a record created for the hostname is listed: escaped, with a trailing dot. */
  function Stored(hostname: string): (s: string)
    ensures '*' !in s
  {
    Escape(hostname) + "."
  }

  /** s begins with ESCAPED_STAR */
  predicate EscapeAtStart(s: string) {
    |s| >= 4 && s[0] == '\\' && s[1] == '0' && s[2] == '5' && s[3] == '2'
  }

  /** replaceWildcards: the first ESCAPED_STAR becomes a star again. */
  function ReplaceWildcards(s: string): string {
    if s == "" then ""
    else if EscapeAtStart(s) then "*" + s[4..]
    else [s[0]] + ReplaceWildcards(s[1..])
  }

  lemma {:induction false} EscapeIdentity(s: string)
    ensures Escape(s) == s <==> '*' !in s
    ensures '*' in s ==> |Escape(s)| > |s|
  {
    if s != "" {
      EscapeIdentity(s[1..]);
    }
  }

  function EscapeChar(c: char): string {
    if c == '*' then ESCAPED_STAR else [c]
  }

  lemma EscapeFirst(c: char, t: string)
    ensures Escape([c] + t) == EscapeChar(c) + Escape(t)
  {
    DropFirst(c, t);
  }

  lemma {:induction false} EscapeAppend(a: string, b: string)
    ensures Escape(a + b) == Escape(a) + Escape(b)
  {
    if a == "" {
      assert a + b == b;
    } else {
      hide Escape, EscapeChar;
      var c, t := a[0], a[1..];
      assert a == [c] + t;
      Associative([c], t, b);
      EscapeFirst(c, t + b);
      EscapeAppend(t, b);
      EscapeFirst(c, t);
      Associative(EscapeChar(c), Escape(t), Escape(b));
    }
  }

  /** A stored name is what Route 53 stores again for its unescaped form. */
  lemma {:induction false} EscapeInvertsReplace(s: string)
    requires '*' !in s
    ensures Escape(ReplaceWildcards(s)) == s
  {
    EscapeIdentity(s);
    if s != "" {
      if EscapeAtStart(s) {
        EscapeIdentity(s[4..]);
        assert ReplaceWildcards(s)[1..] == s[4..];
        assert s == ESCAPED_STAR + s[4..];
      } else {
        assert s[0] in s;
        EscapeInvertsReplace(s[1..]);
        assert ReplaceWildcards(s)[1..] == ReplaceWildcards(s[1..]);
      }
    }
  }

  /** The record findARecord accepts for a hostname sits at the very name a write for that hostname goes to. */
  lemma MatchIsStored(s: string, hostname: string)
    requires '*' !in s && ReplaceWildcards(s) == hostname + "."
    ensures s == Stored(hostname)
  {
    EscapeInvertsReplace(s);
    EscapeAppend(hostname, ".");
    assert Escape(".") == ".";
  }

  /** The hostname's own record is recognised when it is listed again. */
  predicate Findable(hostname: string) {
    ReplaceWildcards(Stored(hostname)) == hostname + "."
  }

  predicate HasEscape(s: string) {
    s != "" && (EscapeAtStart(s) || HasEscape(s[1..]))
  }

  /** At most one wildcard, and no literal escape before it. */
  predicate OneWildcard(hostname: string) {
    var i := IndexOf(hostname, '*');
    !HasEscape(hostname[..i]) && (i < |hostname| ==> '*' !in hostname[i + 1..])
  }

  /** The stored form agrees with the hostname up to the first wildcard. */
  lemma {:induction false} StoredUpToWildcard(h: string)
    ensures var i := IndexOf(h, '*');
            && |Stored(h)| > i
            && (forall k | 0 <= k < i :: Stored(h)[k] == h[k])
            && Stored(h)[i] == if i < |h| then '\\' else '.'
  {
    if h != "" && h[0] != '*' {
      StoredUpToWildcard(h[1..]);
      assert Stored(h) == [h[0]] + Stored(h[1..]);
    }
  }

  /** A stored form starts with the escape of a name without a leading wildcard only if the name itself does. */
  lemma EscapeAtStartOfStored(h: string)
    requires h != "" && h[0] != '*'
    ensures EscapeAtStart(Stored(h)) <==> EscapeAtStart(h[..IndexOf(h, '*')])
  {
    hide IndexOf, Stored;
    StoredUpToWildcard(h);
    var s, i := Stored(h), IndexOf(h, '*');
    assert forall k | 0 <= k < i :: h[..i][k] == s[k];
    assert s[i] == '\\' || s[i] == '.';
  }

  lemma AppendDot(a: string, b: string)
    ensures a + "." == b + "." <==> a == b
  {
    assert (a + ".")[..|a|] == a && (b + ".")[..|b|] == b;
    if a + "." == b + "." {
      assert |a + "."| == |b + "."|;
    }
  }

  lemma ReplaceFirst(rest: string)
    ensures ReplaceWildcards(ESCAPED_STAR + rest) == "*" + rest
  {
    var s := ESCAPED_STAR + rest;
    assert EscapeAtStart(s) && s[4..] == rest;
  }

  lemma FindableStar(h: string)
    requires h != "" && h[0] == '*'
    ensures Findable(h) <==> '*' !in h[1..]
  {
    hide Escape, ReplaceWildcards;
    var t := h[1..];
    assert h == ['*'] + t;
    EscapeFirst('*', t);
    Associative(ESCAPED_STAR, Escape(t), ".");
    ReplaceFirst(Escape(t) + ".");
    Associative("*", t, ".");
    DropFirst('*', Escape(t) + ".");
    DropFirst('*', t + ".");
    AppendDot(Escape(t), t);
    EscapeIdentity(t);
  }

  lemma FindableEmpty()
    ensures Findable("")
  {
    assert Stored("") == ".";
    assert "."[1..] == "" && ReplaceWildcards("") == "";
  }

  lemma OneWildcardStar(h: string)
    requires h != "" && h[0] == '*'
    ensures OneWildcard(h) <==> '*' !in h[1..]
  {
    assert h[..0] == "" && h[0 + 1..] == h[1..];
  }

  lemma OneWildcardStep(h: string)
    requires h != "" && h[0] != '*'
    ensures OneWildcard(h) <==> !EscapeAtStart(h[..IndexOf(h, '*')]) && OneWildcard(h[1..])
  {
    var t, i := h[1..], IndexOf(h, '*');
    assert i == 1 + IndexOf(t, '*');
    hide IndexOf;
    assert h[..i][1..] == t[..i - 1];
    assert i < |h| ==> h[i + 1..] == t[i..];
  }

  /** replaceWildcards undoes the stored form exactly for hostnames with at most one wildcard and no literal escape. */
  lemma {:induction false} FindableExactly(h: string)
    ensures Findable(h) <==> OneWildcard(h)
  {
    if h == "" {
      FindableEmpty();
    } else {
      hide Findable, OneWildcard, IndexOf, EscapeAtStart, Stored;
      if h[0] == '*' {
        FindableStar(h);
        OneWildcardStar(h);
      } else {
        FindableExactly(h[1..]);
        EscapeAtStartOfStored(h);
        FindableStep(h);
        OneWildcardStep(h);
      }
    }
  }

  lemma FindableStep(h: string)
    requires h != "" && h[0] != '*'
    ensures Findable(h) <==> !EscapeAtStart(Stored(h)) && Findable(h[1..])
  {
    var t := h[1..];
    assert h + "." == [h[0]] + (t + ".");
    assert Stored(h) == [h[0]] + Stored(t);
    assert Stored(h)[1..] == Stored(t);
    if EscapeAtStart(Stored(h)) {
      assert ReplaceWildcards(Stored(h))[0] == '*' != (h + ".")[0];
    } else {
      assert ReplaceWildcards(Stored(h)) == [h[0]] + ReplaceWildcards(Stored(t));
      assert ReplaceWildcards(Stored(h))[1..] == ReplaceWildcards(Stored(t));
      assert (h + ".")[1..] == t + ".";
    }
  }
}
