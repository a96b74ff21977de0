/** The order in which channels are processed: by namespace, then by name. */
module ChannelOrder {
  import opened Model
  import opened Sorting

  predicate ChannelLe(a: Channel, b: Channel) {
    if a.ns != b.ns then StrLe(a.ns, b.ns) else StrLe(a.name, b.name)
  }

  lemma ChannelLeOrder()
    ensures Total(ChannelLe) && Transitive(ChannelLe)
  {
    hide StrLe;
    forall a, b ensures ChannelLe(a, b) || ChannelLe(b, a) {
      StrLeTotal(a.ns, b.ns);
      StrLeTotal(a.name, b.name);
    }
    forall a, b, c | ChannelLe(a, b) && ChannelLe(b, c) ensures ChannelLe(a, c) {
      ChannelLeTransitive(a, b, c);
    }
  }

  lemma ChannelLeTransitive(a: Channel, b: Channel, c: Channel)
    requires ChannelLe(a, b) && ChannelLe(b, c)
    ensures ChannelLe(a, c)
  {
    hide StrLe;
    if a.ns != b.ns && b.ns != c.ns {
      StrLeTransitive(a.ns, b.ns, c.ns);
      if a.ns == c.ns {
        StrLeAntisymmetric(a.ns, b.ns);
      }
    } else if a.ns == b.ns && b.ns == c.ns {
      StrLeTransitive(a.name, b.name, c.name);
    }
  }

  lemma ChannelsSeparated(channels: seq<Channel>)
    requires DistinctChannels(channels)
    ensures Separates(channels, ChannelLe)
  {
    hide StrLe;
    forall x, y | x in channels && y in channels && ChannelLe(x, y) && ChannelLe(y, x) ensures x == y {
      if x.ns != y.ns {
        StrLeAntisymmetric(x.ns, y.ns);
      }
      StrLeAntisymmetric(x.name, y.name);
      var i :| 0 <= i < |channels| && channels[i] == x;
      var k :| 0 <= k < |channels| && channels[k] == y;
      assert i == k;
    }
  }

  /** THEOREM (processing order). Of two channels in different namespaces the one in the
      smaller namespace is processed first; within a namespace, the one with the smaller
      name. */
  lemma ProcessingOrder(channels: seq<Channel>, i: nat, k: nat)
    requires i < k < |Sort(channels, ChannelLe)|
    ensures var a, b := Sort(channels, ChannelLe)[i], Sort(channels, ChannelLe)[k];
      (a.ns == b.ns && StrLe(a.name, b.name)) || (a.ns != b.ns && StrLe(a.ns, b.ns))
  {
    ChannelLeOrder();
    SortSorts(channels, ChannelLe);
    assert ChannelLe(Sort(channels, ChannelLe)[i], Sort(channels, ChannelLe)[k]);
  }

  lemma SameOrder(a: Channel, a': Channel, b: Channel, b': Channel)
    requires a.SameSpec(a') && b.SameSpec(b')
    ensures ChannelLe(a, b) == ChannelLe(a', b')
  {}

  /** Any two listings of the same distinct channels sort to the same sequence. */
  lemma SortForgetsOrder(channels: seq<Channel>, other: seq<Channel>)
    requires DistinctChannels(channels) && multiset(channels) == multiset(other)
    ensures Sort(channels, ChannelLe) == Sort(other, ChannelLe)
  {
    ChannelLeOrder();
    ChannelsSeparated(channels);
    hide ChannelLe;
    SortSorts(channels, ChannelLe);
    SortSorts(other, ChannelLe);
    SortKeeps(channels, ChannelLe);
    SortKeeps(other, ChannelLe);
    assert Separates(Sort(channels, ChannelLe), ChannelLe);
    SortedUnique(Sort(channels, ChannelLe), Sort(other, ChannelLe), ChannelLe);
  }
}
