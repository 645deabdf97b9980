/** The stored fragments and the `type` filter generateDomains applies to
    them (`items.filter(item => item.type === tag)`). The store itself sits
    behind a service module that is not part of this model: its content is an
    input here. */
module Items {

  /** A stored fragment; `tag` is the item's `type` field. */
  datatype Item = Item(id: int, tag: string, description: string)

  const PrefixTag: string := "prefixe"
  const SuffixTag: string := "sufixe"

  /** Items whose tag is exactly `tag`, in store order. */
  function Tagged(items: seq<Item>, tag: string): (r: seq<Item>)
    ensures |r| <= |items|
    ensures forall k :: 0 <= k < |r| ==> r[k].tag == tag
    decreases |items|
  {
    if items == [] then []
    else
      var last := items[|items| - 1];
      Tagged(items[..|items| - 1], tag) + (if last.tag == tag then [last] else [])
  }

  /** Positions of the items tagged `tag`: an independent count of a group. */
  function TaggedIndices(items: seq<Item>, tag: string): set<nat> {
    set k: nat | k < |items| && items[k].tag == tag
  }

  /** Filtering a concatenation filters each part: the filter keeps store order. */
  lemma {:induction false} TaggedAppend(a: seq<Item>, b: seq<Item>, tag: string)
    ensures Tagged(a + b, tag) == Tagged(a, tag) + Tagged(b, tag)
    decreases |b|
  {
    if b == [] {
      assert a + b == a;
    } else {
      var n := |b| - 1;
      assert (a + b)[..|a + b| - 1] == a + b[..n];
      TaggedAppend(a, b[..n], tag);
    }
  }

  /** An item belongs to the filtered group exactly when it is stored and
      carries that tag. */
  lemma {:induction false} TaggedMembers(items: seq<Item>, tag: string, x: Item)
    ensures x in Tagged(items, tag) <==> x in items && x.tag == tag
    decreases |items|
  {
    if items != [] {
      var n := |items| - 1;
      TaggedMembers(items[..n], tag, x);
      assert items == items[..n] + [items[n]];
    }
  }

  /** Dropping an item with another tag leaves the filtered group unchanged. */
  lemma TaggedSkip(before: seq<Item>, x: Item, after: seq<Item>, tag: string)
    requires x.tag != tag
    ensures Tagged(before + [x] + after, tag) == Tagged(before + after, tag)
  {
    TaggedAppend(before + [x], after, tag);
    TaggedAppend(before, [x], tag);
    assert Tagged([x], tag) == [] by {
      assert [x][..0] == [];
    }
    TaggedAppend(before, after, tag);
  }

  /** The filtered group has one member per item carrying exactly that tag. */
  lemma {:induction false} TaggedLength(items: seq<Item>, tag: string)
    ensures |Tagged(items, tag)| == |TaggedIndices(items, tag)|
    decreases |items|
  {
    if items != [] {
      var n := |items| - 1;
      var front := items[..n];
      TaggedLength(front, tag);
      var earlier := TaggedIndices(front, tag);
      assert n !in earlier;
      if items[n].tag == tag {
        assert TaggedIndices(items, tag) == earlier + {n} by {
          forall k: nat | k < n
            ensures front[k] == items[k]
          {
          }
        }
      } else {
        assert TaggedIndices(items, tag) == earlier by {
          forall k: nat | k < n
            ensures front[k] == items[k]
          {
          }
        }
      }
    }
  }

}
