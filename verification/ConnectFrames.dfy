/** Counting, over all instances, the frames of one kind that have been handed to sockets. */
module ConnectFrames {
  import opened ConnectAccount
  import opened ConnectCluster

  /** The frames of one kind. */
  ghost function Only(sent: multiset<Frame>, p: Frame -> bool): (r: multiset<Frame>)
    ensures forall f :: r[f] == if p(f) then sent[f] else 0
    decreases |sent|
  {
    if sent == multiset{} then multiset{}
    else
      var f :| f in sent;
      var rest := Only(sent[f := 0], p);
      if p(f) then rest[f := sent[f]] else rest
  }

  ghost function Total(c: Cluster, p: Frame -> bool): nat {
    if c == [] then 0 else |Only(c[0].sent, p)| + Total(c[1..], p)
  }

  lemma SameFrames(s: multiset<Frame>, t: multiset<Frame>, p: Frame -> bool)
    requires forall f :: p(f) ==> s[f] == t[f]
    ensures |Only(s, p)| == |Only(t, p)|
  {
    assert Only(s, p) == Only(t, p);
  }

  lemma OneMore(s: multiset<Frame>, t: multiset<Frame>, p: Frame -> bool, g: Frame)
    requires p(g) && forall f :: p(f) ==> t[f] == s[f] + if f == g then 1 else 0
    ensures |Only(t, p)| == |Only(s, p)| + 1
  {
    assert Only(t, p) == Only(s, p) + multiset{g};
  }

  lemma NoFrames(s: multiset<Frame>, p: Frame -> bool)
    requires forall f :: p(f) ==> s[f] == 0
    ensures |Only(s, p)| == 0
  {
    assert Only(s, p) == multiset{};
  }

  /** Only the changed instance counts differently. */
  lemma {:induction false} TotalUpdate(c: Cluster, i: nat, a: Account, p: Frame -> bool)
    requires i < |c|
    ensures Total(c[i := a], p) + |Only(c[i].sent, p)| == Total(c, p) + |Only(a.sent, p)|
    decreases i
  {
    hide Only;
    if i == 0 {
      assert c[0 := a][1..] == c[1..];
    } else {
      TotalUpdate(c[1..], i - 1, a, p);
      assert c[i := a][1..] == c[1..][i - 1 := a];
    }
  }

  lemma TotalOfTwo(a: Account, b: Account, p: Frame -> bool)
    ensures Total([a, b], p) == |Only(a.sent, p)| + |Only(b.sent, p)|
  {
    hide Only;
    assert [a, b][1..] == [b] && [b][1..] == [];
    assert Total([b], p) == |Only(b.sent, p)| + Total([], p);
  }
}
