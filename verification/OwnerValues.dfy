/** Encodings of ownership and of the tag annotation as text. */
module OwnerValues {
  import opened Sequences
  import opened Strings

  const HERITAGE := "\"heritage=aws-global-accelerator-controller,cluster="

  datatype OwnerId = OwnerId(cluster: string, resource: string, ns: string, name: string) {
    /** Kubernetes kinds, namespaces and names hold neither commas nor slashes; the cluster name may hold anything. */
    predicate WellFormed() {
      && ',' !in resource && '/' !in resource
      && ',' !in ns && '/' !in ns
      && ',' !in name && '/' !in name
    }
  }

  type Owner = o: OwnerId | o.WellFormed() witness OwnerId("", "", "", "")

  /** acceleratorOwnerTagValue */
  function AcceleratorOwnerTagValue(resource: string, ns: string, name: string): string {
    resource + "/" + ns + "/" + name
  }

  /** Route53OwnerValue: the quoted text of the owner TXT record. */
  function Route53OwnerValue(o: OwnerId): string {
    HERITAGE + o.cluster + "," + o.resource + "/" + o.ns + "/" + o.name + "\""
  }

  lemma AcceleratorOwnerTagValueInjective(o: Owner, p: Owner)
    requires AcceleratorOwnerTagValue(o.resource, o.ns, o.name) == AcceleratorOwnerTagValue(p.resource, p.ns, p.name)
    ensures o.resource == p.resource && o.ns == p.ns && o.name == p.name
  {
    LastSeparatorUnique(o.resource + "/" + o.ns, o.name, p.resource + "/" + p.ns, p.name, '/');
    LastSeparatorUnique(o.resource, o.ns, p.resource, p.ns, '/');
  }

  /** Distinct owners never share an owner value, whatever text the cluster names hold. */
  lemma Route53OwnerValueInjective(o: Owner, p: Owner)
    requires Route53OwnerValue(o) == Route53OwnerValue(p)
    ensures o == p
  {
    var tailO := AcceleratorOwnerTagValue(o.resource, o.ns, o.name);
    var tailP := AcceleratorOwnerTagValue(p.resource, p.ns, p.name);
    var headO, headP := HERITAGE + o.cluster, HERITAGE + p.cluster;
    var bodyO, bodyP := headO + "," + tailO, headP + "," + tailP;
    assert Route53OwnerValue(o) == bodyO + "\"";
    assert Route53OwnerValue(p) == bodyP + "\"";
    assert bodyO == Route53OwnerValue(o)[..|Route53OwnerValue(o)| - 1] == bodyP;
    LastSeparatorUnique(headO, tailO, headP, tailP, ',');
    assert o.cluster == headO[|HERITAGE|..] == p.cluster;
    AcceleratorOwnerTagValueInjective(o, p);
  }

  /** Without the side condition the encoding collides. */
  lemma SlashesCollide()
    ensures exists o: OwnerId, p: OwnerId :: o != p && Route53OwnerValue(o) == Route53OwnerValue(p)
  {
    var o, p := OwnerId("c", "service", "a/b", "n"), OwnerId("c", "service", "a", "b/n");
    assert o.ns != p.ns;
    assert Route53OwnerValue(o) == HERITAGE + "c,service/a/b/n\"";
    assert Route53OwnerValue(p) == HERITAGE + "c,service/a/b/n\"";
  }

  /*** The tag annotation: "key=value,key=value" ***/

  datatype Tag = Tag(key: string, value: string)

  /** One item of the annotation; anything but exactly one '=' is skipped. */
  function ParseItem(item: string): seq<Tag> {
    var t := Split(item, '=');
    if |t| != 2 then [] else [Tag(t[0], t[1])]
  }

  function ParseItems(items: seq<string>): seq<Tag> {
    if items == [] then [] else ParseItem(items[0]) + ParseItems(items[1..])
  }

  function PrintTag(t: Tag): string {
    t.key + "=" + t.value
  }

  function PrintTags(tags: seq<Tag>): seq<string> {
    if tags == [] then [] else [PrintTag(tags[0])] + PrintTags(tags[1..])
  }

  predicate Plain(t: Tag) {
    ',' !in t.key && '=' !in t.key && ',' !in t.value && '=' !in t.value
  }

  lemma {:induction false} ParseItemsAppend(a: seq<string>, b: seq<string>)
    ensures ParseItems(a + b) == ParseItems(a) + ParseItems(b)
  {
    hide ParseItem;
    if a == [] {
      assert a + b == b;
    } else {
      ParseItemsAppend(a[1..], b);
      assert (a + b)[1..] == a[1..] + b;
      assert ParseItems(a + b) == ParseItem(a[0]) + (ParseItems(a[1..]) + ParseItems(b));
    }
  }

  /** acceleratorTags: the loop over the comma-separated items. */
  method AcceleratorTags(annotation: string) returns (results: seq<Tag>)
    ensures results == ParseItems(Split(annotation, ','))
  {
    results := [];
    var specifiedTags := Split(annotation, ',');
    for i := 0 to |specifiedTags|
      invariant results == ParseItems(specifiedTags[..i])
    {
      assert specifiedTags[..i + 1] == specifiedTags[..i] + [specifiedTags[i]];
      ParseItemsAppend(specifiedTags[..i], [specifiedTags[i]]);
      var t := Split(specifiedTags[i], '=');
      if |t| != 2 {
        continue;
      }
      results := results + [Tag(t[0], t[1])];
    }
    assert specifiedTags[..|specifiedTags|] == specifiedTags;
  }

  lemma PrintedItem(t: Tag)
    requires Plain(t)
    ensures ParseItem(PrintTag(t)) == [t] && ',' !in PrintTag(t)
  {
    hide Split;
    SplitHead(t.key, t.value, '=');
    SplitWhole(t.value, '=');
    assert PrintTag(t) == t.key + ['='] + t.value;
  }

  lemma {:induction false} ParsePrinted(tags: seq<Tag>)
    requires forall t | t in tags :: Plain(t)
    ensures ParseItems(PrintTags(tags)) == tags
    ensures |PrintTags(tags)| == |tags|
    ensures forall p | p in PrintTags(tags) :: ',' !in p
  {
    if tags != [] {
      hide Plain, ParseItem, PrintTag;
      ParsePrinted(tags[1..]);
      PrintedItem(tags[0]);
      DropFirst(PrintTag(tags[0]), PrintTags(tags[1..]));
      assert tags == [tags[0]] + tags[1..];
    }
  }

  /** Printing plain tags as the annotation and parsing it gives them back, in order. */
  lemma TagsRoundTrip(tags: seq<Tag>)
    requires forall t | t in tags :: Plain(t)
    ensures ParseItems(Split(Join(PrintTags(tags), ','), ',')) == tags
  {
    ParsePrinted(tags);
    if tags == [] {
      SplitWhole("", ',');
      SplitWhole("", '=');
      assert ParseItem("") == [];
    } else {
      SplitInvertsJoin(PrintTags(tags), ',');
    }
  }

  /** Malformed items never disturb the well-formed ones around them. */
  lemma MalformedItemsAreSkipped(before: seq<string>, item: string, after: seq<string>)
    requires |Split(item, '=')| != 2
    ensures ParseItems(before + [item] + after) == ParseItems(before + after)
  {
    ParseItemsAppend(before + [item], after);
    ParseItemsAppend(before, [item]);
    ParseItemsAppend(before, after);
  }
}
