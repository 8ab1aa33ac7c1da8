/** The few operations of Go's strings package that the controller uses, on single-character separators. */
module Strings {
  import opened Sequences

  datatype Option<+T> = None | Some(value: T)

  /** Position of the first c in s, or |s| when there is none. */
  function IndexOf(s: string, c: char): (i: nat)
    ensures i <= |s|
    ensures c !in s[..i]
    ensures i < |s| ==> s[i] == c
  {
    if s == "" then 0
    else if s[0] == c then 0
    else
      var i := 1 + IndexOf(s[1..], c);
      assert s[..i] == [s[0]] + s[1..][..i - 1];
      i
  }

  /** strings.Split: "a..b" gives three parts, "" gives one empty part. */
  function Split(s: string, sep: char): (parts: seq<string>)
    ensures |parts| > 0
    ensures forall p | p in parts :: sep !in p
    decreases |s|
  {
    var i := IndexOf(s, sep);
    if i == |s| then
      assert s[..i] == s;
      [s]
    else
      [s[..i]] + Split(s[i + 1..], sep)
  }

  /** strings.Join */
  function Join(parts: seq<string>, sep: char): string {
    if |parts| == 0 then ""
    else if |parts| == 1 then parts[0]
    else parts[0] + [sep] + Join(parts[1..], sep)
  }

  /** The first part is what precedes the first separator; the others are those of what follows it. */
  lemma SplitFirst(s: string, sep: char)
    ensures var i := IndexOf(s, sep);
            if i == |s| then Split(s, sep) == [s]
            else s[i] == sep && Split(s, sep) == [s[..i]] + Split(s[i + 1..], sep)
                 && Split(s, sep)[1..] == Split(s[i + 1..], sep)
  {
    hide IndexOf;
    var i := IndexOf(s, sep);
    if i < |s| {
      DropFirst(s[..i], Split(s[i + 1..], sep));
    }
  }

  lemma JoinFirst(head: string, tail: seq<string>, sep: char)
    ensures Join([head] + tail, sep) == if tail == [] then head else head + [sep] + Join(tail, sep)
  {
    DropFirst(head, tail);
  }

  lemma {:induction false} JoinInvertsSplit(s: string, sep: char)
    ensures Join(Split(s, sep), sep) == s
    decreases |s|
  {
    hide IndexOf, Split, Join;
    var i := IndexOf(s, sep);
    SplitFirst(s, sep);
    if i < |s| {
      JoinInvertsSplit(s[i + 1..], sep);
      JoinFirst(s[..i], Split(s[i + 1..], sep), sep);
      TakeApart(s, i);
    } else {
      JoinFirst(s, [], sep);
      assert [s] + [] == [s];
    }
  }

  /** One part more than there are separators. */
  lemma {:induction false} SplitCounts(s: string, sep: char)
    ensures |Split(s, sep)| == multiset(s)[sep] + 1
    decreases |s|
  {
    hide IndexOf, Split;
    var i := IndexOf(s, sep);
    SplitFirst(s, sep);
    if i < |s| {
      SplitCounts(s[i + 1..], sep);
      TakeApart(s, i);
      assert multiset(s) == multiset(s[..i]) + multiset{s[i]} + multiset(s[i + 1..]);
      assert sep !in multiset(s[..i]);
    } else {
      assert s[..i] == s;
      assert sep !in multiset(s);
    }
  }

  lemma SplitHead(head: string, rest: string, sep: char)
    requires sep !in head
    ensures Split(head + [sep] + rest, sep) == [head] + Split(rest, sep)
  {
    var s := head + [sep] + rest;
    var i := IndexOf(s, sep);
    assert forall j | 0 <= j < |head| :: s[j] == head[j];
    assert forall j | 0 <= j < i :: s[j] == s[..i][j];
    assert s[|head|] == sep;
    assert i == |head|;
    assert s[..i] == head && s[i + 1..] == rest;
  }

  lemma SplitWhole(s: string, sep: char)
    requires sep !in s
    ensures Split(s, sep) == [s]
  {
    assert IndexOf(s, sep) == |s|;
  }

  lemma {:induction false} SplitAppend(a: string, b: string, sep: char)
    ensures Split(a + [sep] + b, sep) == Split(a, sep) + Split(b, sep)
    decreases |a|
  {
    hide Split;
    var i := IndexOf(a, sep);
    if i == |a| {
      assert a[..i] == a;
      SplitHead(a, b, sep);
      SplitWhole(a, sep);
    } else {
      var head, rest := a[..i], a[i + 1..];
      assert a == head + [sep] + rest;
      SplitAppend(rest, b, sep);
      SplitHead(head, rest, sep);
      SplitHead(head, rest + [sep] + b, sep);
      assert a + [sep] + b == head + [sep] + (rest + [sep] + b);
      assert [head] + (Split(rest, sep) + Split(b, sep)) == [head] + Split(rest, sep) + Split(b, sep);
    }
  }

  lemma {:induction false} SplitInvertsJoin(parts: seq<string>, sep: char)
    requires |parts| > 0
    requires forall p | p in parts :: sep !in p
    ensures Split(Join(parts, sep), sep) == parts
  {
    if |parts| == 1 {
      SplitWhole(parts[0], sep);
    } else {
      hide Split;
      SplitInvertsJoin(parts[1..], sep);
      SplitHead(parts[0], Join(parts[1..], sep), sep);
      assert parts == [parts[0]] + parts[1..];
    }
  }

  /** The separator that ends the longest possible prefix is found from the right. */
  lemma LastSeparatorUnique(a: string, b: string, a': string, b': string, sep: char)
    requires a + [sep] + b == a' + [sep] + b'
    requires sep !in b && sep !in b'
    ensures a == a' && b == b'
  {
    var s := a + [sep] + b;
    assert forall k | |a| < k < |s| :: s[k] == b[k - |a| - 1];
    assert forall k | |a'| < k < |s| :: s[k] == b'[k - |a'| - 1];
    assert s[|a|] == sep && s[|a'|] == sep;
    assert |a| == |a'|;
    assert a == s[..|a|] == a';
    assert b == s[|a| + 1..] == b';
  }

  predicate HasPrefix(s: string, prefix: string) {
    |prefix| <= |s| && s[..|prefix|] == prefix
  }

  predicate HasSuffix(s: string, suffix: string) {
    |suffix| <= |s| && s[|s| - |suffix|..] == suffix
  }
}
