/** Pairing of anchors and components between two glyphs: a first pass on exact keys,
    then a fallback pass, each taking the first unconsumed match in list order. */
module Pairing {
  import opened Types

  // ------------------------------------------------ the greedy first-match pass

  datatype PassResult<A, B> = PassResult(pairs: seq<(A, B)>, rest1: seq<A>, rest2: seq<B>)

  function RemoveAt<T>(s: seq<T>, j: nat): seq<T>
    requires j < |s|
  {
    s[..j] + s[j + 1..]
  }

  lemma RemoveAtMultiset<T>(s: seq<T>, j: nat)
    requires j < |s|
    ensures multiset(RemoveAt(s, j)) + multiset{s[j]} == multiset(s)
  {
    assert s == s[..j] + [s[j]] + s[j + 1..];
  }

  function Firsts<A, B>(ps: seq<(A, B)>): (r: seq<A>)
    ensures |r| == |ps| && forall k :: 0 <= k < |ps| ==> r[k] == ps[k].0
  {
    if ps == [] then [] else [ps[0].0] + Firsts(ps[1..])
  }

  function Seconds<A, B>(ps: seq<(A, B)>): (r: seq<B>)
    ensures |r| == |ps| && forall k :: 0 <= k < |ps| ==> r[k] == ps[k].1
  {
    if ps == [] then [] else [ps[0].1] + Seconds(ps[1..])
  }

  /** Index of the first element of `l` that matches `a`. */
  function FirstMatch<A, B>(a: A, l: seq<B>, m: (A, B) -> bool): (r: Option<nat>)
    ensures r.Some? ==> r.value < |l| && m(a, l[r.value]) && forall k :: 0 <= k < r.value ==> !m(a, l[k])
    ensures r.None? ==> forall k :: 0 <= k < |l| ==> !m(a, l[k])
    decreases |l|
  {
    if l == [] then None
    else if m(a, l[0]) then Some(0)
    else match FirstMatch(a, l[1..], m)
      case None => None
      case Some(k) => Some(k + 1)
  }

  /** For each element of `l1` in order, pair it with the first still unconsumed element of `l2`
      that matches, and consume that element. The elements of `l1` left unmatched keep their
      order, and so do those of `l2`. */
  function GreedyPass<A, B>(l1: seq<A>, l2: seq<B>, m: (A, B) -> bool): (r: PassResult<A, B>)
    ensures |r.pairs| + |r.rest1| == |l1| && |r.pairs| + |r.rest2| == |l2|
    decreases |l1|
  {
    if l1 == [] then PassResult([], [], l2)
    else
      match FirstMatch(l1[0], l2, m)
      case None =>
        var r := GreedyPass(l1[1..], l2, m);
        PassResult(r.pairs, [l1[0]] + r.rest1, r.rest2)
      case Some(j) =>
        var r := GreedyPass(l1[1..], RemoveAt(l2, j), m);
        PassResult([(l1[0], l2[j])] + r.pairs, r.rest1, r.rest2)
  }

  /** One step of the pass when the head of `l1` has no match. */
  lemma GreedyPassSkip<A, B>(l1: seq<A>, l2: seq<B>, m: (A, B) -> bool)
    requires l1 != [] && FirstMatch(l1[0], l2, m).None?
    ensures var r := GreedyPass(l1[1..], l2, m);
      GreedyPass(l1, l2, m) == PassResult(r.pairs, [l1[0]] + r.rest1, r.rest2)
  {
  }

  /** One step of the pass when the head of `l1` matches at index `j`. */
  lemma GreedyPassTake<A, B>(l1: seq<A>, l2: seq<B>, m: (A, B) -> bool, j: nat)
    requires l1 != [] && FirstMatch(l1[0], l2, m) == Some(j)
    ensures j < |l2|
    ensures var r := GreedyPass(l1[1..], RemoveAt(l2, j), m);
      GreedyPass(l1, l2, m) == PassResult([(l1[0], l2[j])] + r.pairs, r.rest1, r.rest2)
  {
  }

  /** Every pair the pass makes satisfies the match predicate. */
  lemma {:induction false} GreedyPassMatches<A, B>(l1: seq<A>, l2: seq<B>, m: (A, B) -> bool)
    ensures var r := GreedyPass(l1, l2, m);
      forall k :: 0 <= k < |r.pairs| ==> m(r.pairs[k].0, r.pairs[k].1)
    decreases |l1|
  {
    if l1 != [] {
      match FirstMatch(l1[0], l2, m)
      case None =>
        GreedyPassSkip(l1, l2, m);
        GreedyPassMatches(l1[1..], l2, m);
      case Some(j) =>
        GreedyPassTake(l1, l2, m, j);
        GreedyPassMatches(l1[1..], RemoveAt(l2, j), m);
    }
  }

  /** The same, for one pair. */
  lemma GreedyPassMatchAt<A, B>(l1: seq<A>, l2: seq<B>, m: (A, B) -> bool, k: nat)
    requires k < |GreedyPass(l1, l2, m).pairs|
    ensures m(GreedyPass(l1, l2, m).pairs[k].0, GreedyPass(l1, l2, m).pairs[k].1)
  {
    GreedyPassMatches(l1, l2, m);
  }

  /** Nothing is invented or lost: each list is split between its side of the pairs and its rest. */
  lemma {:induction false} GreedyPassPartition<A, B>(l1: seq<A>, l2: seq<B>, m: (A, B) -> bool)
    ensures var r := GreedyPass(l1, l2, m);
      && multiset(Firsts(r.pairs)) + multiset(r.rest1) == multiset(l1)
      && multiset(Seconds(r.pairs)) + multiset(r.rest2) == multiset(l2)
    decreases |l1|
  {
    if l1 != [] {
      var a := l1[0];
      assert l1 == [a] + l1[1..];
      match FirstMatch(a, l2, m)
      case None =>
        GreedyPassSkip(l1, l2, m);
        GreedyPassPartition(l1[1..], l2, m);
        var r := GreedyPass(l1[1..], l2, m);
        assert multiset([a] + r.rest1) == multiset{a} + multiset(r.rest1);
      case Some(j) =>
        GreedyPassTake(l1, l2, m, j);
        RemoveAtMultiset(l2, j);
        GreedyPassPartition(l1[1..], RemoveAt(l2, j), m);
        var r := GreedyPass(l1[1..], RemoveAt(l2, j), m);
        PartitionTake(a, l2[j], l1[1..], RemoveAt(l2, j), l2, r.pairs, r.rest1, r.rest2);
    }
  }

  lemma PairedCons<A, B>(a: A, b: B, ps: seq<(A, B)>)
    ensures multiset(Firsts([(a, b)] + ps)) == multiset{a} + multiset(Firsts(ps))
    ensures multiset(Seconds([(a, b)] + ps)) == multiset{b} + multiset(Seconds(ps))
  {
    assert Firsts([(a, b)] + ps) == [a] + Firsts(ps);
    assert Seconds([(a, b)] + ps) == [b] + Seconds(ps);
  }

  /** The multiset bookkeeping of a step that pairs `a` with `b`. */
  lemma PartitionTake<A, B>(a: A, b: B, tail1: seq<A>, tail2: seq<B>, l2: seq<B>,
                            ps: seq<(A, B)>, rest1: seq<A>, rest2: seq<B>)
    requires multiset(Firsts(ps)) + multiset(rest1) == multiset(tail1)
    requires multiset(Seconds(ps)) + multiset(rest2) == multiset(tail2)
    requires multiset(tail2) + multiset{b} == multiset(l2)
    ensures multiset(Firsts([(a, b)] + ps)) + multiset(rest1) == multiset([a] + tail1)
    ensures multiset(Seconds([(a, b)] + ps)) + multiset(rest2) == multiset(l2)
  {
    PairedCons(a, b, ps);
    assert multiset([a] + tail1) == multiset{a} + multiset(tail1);
  }

  /** The pass is maximal: no element left in the first rest matches one left in the second. */
  lemma {:induction false} GreedyPassMaximal<A, B>(l1: seq<A>, l2: seq<B>, m: (A, B) -> bool)
    ensures var r := GreedyPass(l1, l2, m);
      forall i, j :: 0 <= i < |r.rest1| && 0 <= j < |r.rest2| ==> !m(r.rest1[i], r.rest2[j])
    decreases |l1|
  {
    if l1 != [] {
      var a := l1[0];
      match FirstMatch(a, l2, m)
      case None =>
        GreedyPassSkip(l1, l2, m);
        GreedyPassMaximal(l1[1..], l2, m);
        var r := GreedyPass(l1[1..], l2, m);
        forall j | 0 <= j < |r.rest2|
          ensures !m(a, r.rest2[j])
        {
          RestComesFrom(l1[1..], l2, m, j);
        }
        var rest1 := [a] + r.rest1;
        forall i, j | 0 <= i < |rest1| && 0 <= j < |r.rest2|
          ensures !m(rest1[i], r.rest2[j])
        {
          if i > 0 {
            assert rest1[i] == r.rest1[i - 1];
          }
        }
      case Some(j) =>
        GreedyPassTake(l1, l2, m, j);
        GreedyPassMaximal(l1[1..], RemoveAt(l2, j), m);
    }
  }

  /** Each element left in the second rest is an element of the second list. */
  lemma RestComesFrom<A, B>(l1: seq<A>, l2: seq<B>, m: (A, B) -> bool, j: nat)
    requires j < |GreedyPass(l1, l2, m).rest2|
    ensures exists k :: 0 <= k < |l2| && l2[k] == GreedyPass(l1, l2, m).rest2[j]
  {
    var r := GreedyPass(l1, l2, m);
    GreedyPassPartition(l1, l2, m);
    assert r.rest2[j] in multiset(r.rest2);
    assert r.rest2[j] in multiset(l2);
    assert r.rest2[j] in l2;
  }

  /** The elements of the two lists that are left over, paired by position. */
  function Zip<A, B>(a: seq<A>, b: seq<B>): (r: seq<(A, B)>)
    ensures |r| == (if |a| < |b| then |a| else |b|)
    ensures forall k :: 0 <= k < |r| ==> r[k] == (a[k], b[k])
  {
    if a == [] || b == [] then [] else [(a[0], b[0])] + Zip(a[1..], b[1..])
  }

  /** The scan for the first element of `l` that matches `a`; `|l|` when there is none. */
  method FindFirstMatch<A, B>(a: A, l: seq<B>, m: (A, B) -> bool) returns (j: nat)
    ensures j <= |l|
    ensures FirstMatch(a, l, m) == if j < |l| then Some(j) else None
  {
    j := 0;
    while j < |l| && !m(a, l[j])
      invariant 0 <= j <= |l|
      invariant forall k :: 0 <= k < j ==> !m(a, l[k])
    {
      j := j + 1;
    }
  }

  /** The loop that runs the first-match pass: scan list 1, look up the first match in what is
      left of list 2, remove it. */
  method MatchPass<A, B>(l1: seq<A>, l2: seq<B>, m: (A, B) -> bool)
    returns (pairs: seq<(A, B)>, rest1: seq<A>, rest2: seq<B>)
    ensures PassResult(pairs, rest1, rest2) == GreedyPass(l1, l2, m)
  {
    pairs, rest1, rest2 := [], [], l2;
    var i := 0;
    while i < |l1|
      invariant 0 <= i <= |l1|
      invariant GreedyPass(l1, l2, m) == Joined(pairs, rest1, GreedyPass(l1[i..], rest2, m))
    {
      assert l1[i..][1..] == l1[i + 1..];
      pairs, rest1, rest2 := MatchStep(l1[i..], pairs, rest1, rest2, m);
      i := i + 1;
    }
    assert l1[i..] == [];
  }

  /** What the loop has collected so far, followed by what the pass makes of the rest. */
  function Joined<A, B>(pairs: seq<(A, B)>, rest1: seq<A>, r: PassResult<A, B>): PassResult<A, B>
  {
    PassResult(pairs + r.pairs, rest1 + r.rest1, r.rest2)
  }

  /** One turn of the loop: the head of `l1` is paired with its first match or set aside. */
  method MatchStep<A, B>(l1: seq<A>, pairs: seq<(A, B)>, rest1: seq<A>, rest2: seq<B>, m: (A, B) -> bool)
    returns (pairs': seq<(A, B)>, rest1': seq<A>, rest2': seq<B>)
    requires l1 != []
    ensures Joined(pairs', rest1', GreedyPass(l1[1..], rest2', m)) == Joined(pairs, rest1, GreedyPass(l1, rest2, m))
  {
    var a := l1[0];
    var j := FindFirstMatch(a, rest2, m);
    if j < |rest2| {
      GreedyPassTake(l1, rest2, m, j);
      var r := GreedyPass(l1[1..], RemoveAt(rest2, j), m);
      assert pairs + ([(a, rest2[j])] + r.pairs) == (pairs + [(a, rest2[j])]) + r.pairs;
      pairs', rest1', rest2' := pairs + [(a, rest2[j])], rest1, RemoveAt(rest2, j);
    } else {
      GreedyPassSkip(l1, rest2, m);
      var r := GreedyPass(l1[1..], rest2, m);
      assert rest1 + ([a] + r.rest1) == (rest1 + [a]) + r.rest1;
      pairs', rest1', rest2' := pairs, rest1 + [a], rest2;
    }
  }

  // ------------------------------------------------ components

  predicate SameBaseAndIdentifier(c1: Component, c2: Component)
  {
    c1.baseGlyph == c2.baseGlyph && c1.identifier == c2.identifier
  }

  predicate SameBase(c1: Component, c2: Component)
  {
    c1.baseGlyph == c2.baseGlyph
  }

  /** Exact (base glyph, identifier) matches first, then base glyph only; unmatched components are dropped. */
  function PairComponents(c1: seq<Component>, c2: seq<Component>): seq<(Component, Component)>
  {
    var exact := GreedyPass(c1, c2, SameBaseAndIdentifier);
    var fallback := GreedyPass(exact.rest1, exact.rest2, SameBase);
    exact.pairs + fallback.pairs
  }

  /** The pairing loop over copies of the two lists. */
  method PairComponentsLoop(components1: seq<Component>, components2: seq<Component>)
    returns (pairs: seq<(Component, Component)>)
    ensures pairs == PairComponents(components1, components2)
  {
    var exactPairs, rest1, rest2 := MatchPass(components1, components2, SameBaseAndIdentifier);
    var basePairs, unmatched1, unmatched2 := MatchPass(rest1, rest2, SameBase);
    pairs := exactPairs + basePairs;
  }

  /** Every pair shares its base glyph, and the pairs of the exact pass, which come first,
      also share the identifier. */
  lemma PairComponentsMatch(c1: seq<Component>, c2: seq<Component>)
    ensures var ps := PairComponents(c1, c2);
      var exact := GreedyPass(c1, c2, SameBaseAndIdentifier);
      && |exact.pairs| <= |ps|
      && (forall k :: 0 <= k < |ps| ==> ps[k].0.baseGlyph == ps[k].1.baseGlyph)
      && (forall k :: 0 <= k < |exact.pairs| ==> ps[k].0.identifier == ps[k].1.identifier)
  {
    var exact := GreedyPass(c1, c2, SameBaseAndIdentifier);
    var fallback := GreedyPass(exact.rest1, exact.rest2, SameBase);
    var ps := exact.pairs + fallback.pairs;
    forall k | 0 <= k < |ps|
      ensures ps[k].0.baseGlyph == ps[k].1.baseGlyph
    {
      if k >= |exact.pairs| {
        GreedyPassMatchAt(exact.rest1, exact.rest2, SameBase, k - |exact.pairs|);
        assert ps[k] == fallback.pairs[k - |exact.pairs|];
      } else {
        GreedyPassMatchAt(c1, c2, SameBaseAndIdentifier, k);
      }
    }
    forall k | 0 <= k < |exact.pairs|
      ensures ps[k].0.identifier == ps[k].1.identifier
    {
      GreedyPassMatchAt(c1, c2, SameBaseAndIdentifier, k);
    }
  }

  /** No component is used twice: the pairs draw on each list at most as often as it holds a component. */
  lemma PairComponentsUseEachOnce(c1: seq<Component>, c2: seq<Component>)
    ensures var ps := PairComponents(c1, c2);
      multiset(Firsts(ps)) <= multiset(c1) && multiset(Seconds(ps)) <= multiset(c2)
  {
    var exact := GreedyPass(c1, c2, SameBaseAndIdentifier);
    var fallback := GreedyPass(exact.rest1, exact.rest2, SameBase);
    GreedyPassPartition(c1, c2, SameBaseAndIdentifier);
    GreedyPassPartition(exact.rest1, exact.rest2, SameBase);
    FirstsAppend(exact.pairs, fallback.pairs);
    SecondsAppend(exact.pairs, fallback.pairs);
  }

  /** Of the components left unpaired, none in the first list has a base glyph in common with
      one in the second. */
  lemma PairComponentsMaximal(c1: seq<Component>, c2: seq<Component>)
    ensures var exact := GreedyPass(c1, c2, SameBaseAndIdentifier);
      var fallback := GreedyPass(exact.rest1, exact.rest2, SameBase);
      forall i, j :: 0 <= i < |fallback.rest1| && 0 <= j < |fallback.rest2| ==>
        fallback.rest1[i].baseGlyph != fallback.rest2[j].baseGlyph
  {
    var exact := GreedyPass(c1, c2, SameBaseAndIdentifier);
    GreedyPassMaximal(exact.rest1, exact.rest2, SameBase);
  }

  /** Every pair holds a component of each list, and the two share the base glyph. */
  lemma PairComponentsFrom(c1: seq<Component>, c2: seq<Component>)
    ensures forall k :: 0 <= k < |PairComponents(c1, c2)| ==>
      PairComponents(c1, c2)[k].0 in c1 && PairComponents(c1, c2)[k].1 in c2 &&
      PairComponents(c1, c2)[k].0.baseGlyph == PairComponents(c1, c2)[k].1.baseGlyph
  {
    PairComponentsMatch(c1, c2);
    forall k | 0 <= k < |PairComponents(c1, c2)|
      ensures PairComponents(c1, c2)[k].0 in c1 && PairComponents(c1, c2)[k].1 in c2
    {
      PairComponentsAt(c1, c2, k);
    }
  }

  lemma PairComponentsAt(c1: seq<Component>, c2: seq<Component>, k: nat)
    requires k < |PairComponents(c1, c2)|
    ensures PairComponents(c1, c2)[k].0 in c1 && PairComponents(c1, c2)[k].1 in c2
  {
    var ps := PairComponents(c1, c2);
    PairComponentsUseEachOnce(c1, c2);
    assert Firsts(ps)[k] in multiset(c1);
    assert Seconds(ps)[k] in multiset(c2);
  }

  lemma FirstsAppend<A, B>(a: seq<(A, B)>, b: seq<(A, B)>)
    ensures Firsts(a + b) == Firsts(a) + Firsts(b)
  {
    assert Firsts(a + b) == Firsts(a) + Firsts(b);
  }

  lemma SecondsAppend<A, B>(a: seq<(A, B)>, b: seq<(A, B)>)
    ensures Seconds(a + b) == Seconds(a) + Seconds(b)
  {
    assert Seconds(a + b) == Seconds(a) + Seconds(b);
  }

  /** Two lists of one length that match position by position: the pass pairs them in order
      and leaves nothing over (the head of what is left of the second list is always a match). */
  lemma {:induction false} GreedyPassAligned<A, B>(l1: seq<A>, l2: seq<B>, m: (A, B) -> bool)
    requires |l1| == |l2| && forall k :: 0 <= k < |l1| ==> m(l1[k], l2[k])
    ensures GreedyPass(l1, l2, m) == PassResult(Zip(l1, l2), [], [])
    decreases |l1|
  {
    if l1 != [] {
      assert FirstMatch(l1[0], l2, m) == Some(0);
      assert RemoveAt(l2, 0) == l2[1..];
      GreedyPassAligned(l1[1..], l2[1..], m);
    }
  }

  /** Components that agree position by position on base glyph and identifier are paired in
      order by the first pass; the second pass has nothing left to pair. */
  lemma PairComponentsAligned(c1: seq<Component>, c2: seq<Component>)
    requires |c1| == |c2| && forall k :: 0 <= k < |c1| ==> SameBaseAndIdentifier(c1[k], c2[k])
    ensures PairComponents(c1, c2) == Zip(c1, c2)
  {
    GreedyPassAligned(c1, c2, SameBaseAndIdentifier);
    assert GreedyPass([], [], SameBase) == PassResult([], [], []);
  }

  /** A glyph's components paired with themselves: each component with itself, in order. */
  lemma PairComponentsSelf(c: seq<Component>)
    ensures PairComponents(c, c) == Zip(c, c)
  {
    PairComponentsAligned(c, c);
  }

  // ------------------------------------------------ anchors

  /** An anchor as stored in a name bucket: everything but the name. */
  datatype AnchorEntry = AnchorEntry(identifier: Option<string>, x: real, y: real, color: Option<string>)

  type AnchorTree = map<Option<string>, seq<AnchorEntry>>

  function EntryOf(a: Anchor): AnchorEntry
  {
    AnchorEntry(a.identifier, a.x, a.y, a.color)
  }

  /** The anchor rebuilt from its bucket name and entry. */
  function AnchorOf(name: Option<string>, e: AnchorEntry): (a: Anchor)
    ensures a.name == name && EntryOf(a) == e
  {
    Anchor(name, e.x, e.y, e.identifier, e.color)
  }

  /** The entries of the anchors called `name`, in list order. */
  function Bucket(anchors: seq<Anchor>, name: Option<string>): (b: seq<AnchorEntry>)
    ensures |b| <= |anchors|
  {
    if anchors == [] then []
    else
      var last := anchors[|anchors| - 1];
      Bucket(anchors[..|anchors| - 1], name) + (if last.name == name then [EntryOf(last)] else [])
  }

  function AnchorNames(anchors: seq<Anchor>): set<Option<string>>
  {
    set a | a in anchors :: a.name
  }

  /** Anchors grouped by name, each group in list order. */
  function AnchorTreeOf(anchors: seq<Anchor>): AnchorTree
  {
    map n | n in AnchorNames(anchors) :: Bucket(anchors, n)
  }

  /** A bucket holds exactly the entries of the anchors with its name: the entry of every such
      anchor is in it, and every entry in it comes from one. */
  lemma {:induction false} BucketMembers(anchors: seq<Anchor>, name: Option<string>)
    ensures forall a :: a in anchors && a.name == name ==> EntryOf(a) in Bucket(anchors, name)
    ensures forall e :: e in Bucket(anchors, name) ==> exists a :: a in anchors && a.name == name && EntryOf(a) == e
    decreases |anchors|
  {
    if anchors != [] {
      var init := anchors[..|anchors| - 1];
      var last := anchors[|anchors| - 1];
      assert anchors == init + [last];
      BucketMembers(init, name);
    }
  }

  /** A name that no anchor carries has an empty bucket. */
  lemma {:induction false} BucketOfAbsentName(anchors: seq<Anchor>, name: Option<string>)
    requires name !in AnchorNames(anchors)
    ensures Bucket(anchors, name) == []
    decreases |anchors|
  {
    if anchors != [] {
      var init := anchors[..|anchors| - 1];
      assert anchors == init + [anchors[|anchors| - 1]];
      assert AnchorNames(init) <= AnchorNames(anchors);
      BucketOfAbsentName(init, name);
    }
  }

  /** The bucket of a prefix of the list is a prefix of the bucket. */
  lemma {:induction false} BucketGrows(anchors: seq<Anchor>, name: Option<string>, i: nat)
    requires i <= |anchors|
    ensures Bucket(anchors[..i], name) <= Bucket(anchors, name)
    decreases |anchors| - i
  {
    if i == |anchors| {
      assert anchors[..i] == anchors;
    } else {
      BucketGrows(anchors, name, i + 1);
      assert anchors[..i + 1][..i] == anchors[..i];
    }
  }

  /** Insertion order per name: the entry of the i-th anchor comes right after the entries of
      the earlier anchors with the same name. */
  lemma BucketInsertionOrder(anchors: seq<Anchor>, name: Option<string>, i: nat)
    requires i < |anchors| && anchors[i].name == name
    ensures |Bucket(anchors[..i], name)| < |Bucket(anchors, name)|
    ensures Bucket(anchors, name)[|Bucket(anchors[..i], name)|] == EntryOf(anchors[i])
  {
    BucketGrows(anchors, name, i + 1);
    assert anchors[..i + 1][..i] == anchors[..i];
    assert Bucket(anchors[..i + 1], name) == Bucket(anchors[..i], name) + [EntryOf(anchors[i])];
  }

  /** The tree-building loop: create the bucket on the first anchor of a name, append to it. */
  method BuildAnchorTree(anchors: seq<Anchor>) returns (tree: AnchorTree)
    ensures tree == AnchorTreeOf(anchors)
  {
    tree := map[];
    var i := 0;
    while i < |anchors|
      invariant 0 <= i <= |anchors|
      invariant tree == AnchorTreeOf(anchors[..i])
    {
      var anchor := anchors[i];
      var name := anchor.name;
      if name !in tree {
        tree := tree[name := []];
      }
      tree := tree[name := tree[name] + [EntryOf(anchor)]];
      AnchorTreeStep(anchors, i);
      i := i + 1;
    }
    assert anchors[..i] == anchors;
  }

  /** One step of the tree-building loop: appending the next anchor's entry to its name's
      bucket, created empty if missing, gives the tree of the longer prefix. */
  lemma AnchorTreeStep(anchors: seq<Anchor>, i: nat)
    requires i < |anchors|
    ensures var tree := AnchorTreeOf(anchors[..i]);
      var name := anchors[i].name;
      var bucket := if name in tree then tree[name] else [];
      AnchorTreeOf(anchors[..i + 1]) == tree[name := bucket + [EntryOf(anchors[i])]]
  {
    var before := anchors[..i];
    var anchor := anchors[i];
    var name := anchor.name;
    var tree := AnchorTreeOf(before);
    var bucket := if name in tree then tree[name] else [];
    assert anchors[..i + 1] == before + [anchor];
    assert anchors[..i + 1][..i] == before;
    assert AnchorNames(anchors[..i + 1]) == AnchorNames(before) + {name};
    if name !in tree {
      BucketOfAbsentName(before, name);
    }
    var after := tree[name := bucket + [EntryOf(anchor)]];
    forall n | n in AnchorNames(anchors[..i + 1])
      ensures after[n] == Bucket(anchors[..i + 1], n)
    {
    }
  }

  predicate SameIdentifier(e1: AnchorEntry, e2: AnchorEntry)
  {
    e1.identifier == e2.identifier
  }

  /** Pairs of bucket entries turned back into pairs of anchors called `name`. */
  function Named(name: Option<string>, ps: seq<(AnchorEntry, AnchorEntry)>): (r: seq<(Anchor, Anchor)>)
    ensures |r| == |ps|
    ensures forall k :: 0 <= k < |ps| ==> r[k] == (AnchorOf(name, ps[k].0), AnchorOf(name, ps[k].1))
  {
    if ps == [] then [] else [(AnchorOf(name, ps[0].0), AnchorOf(name, ps[0].1))] + Named(name, ps[1..])
  }

  /** The pairs for one shared name: identifier matches first, then the leftovers by position. */
  function PairBucket(name: Option<string>, b1: seq<AnchorEntry>, b2: seq<AnchorEntry>): (r: seq<(Anchor, Anchor)>)
    ensures |r| == if |b1| < |b2| then |b1| else |b2|
  {
    var exact := GreedyPass(b1, b2, SameIdentifier);
    Named(name, exact.pairs) + Named(name, Zip(exact.rest1, exact.rest2))
  }

  /** The pairs for every name of `order` that both trees hold, name by name. */
  function PairAnchors(tree1: AnchorTree, tree2: AnchorTree, order: seq<Option<string>>): seq<(Anchor, Anchor)>
  {
    if order == [] then []
    else
      var n := order[0];
      (if n in tree1 && n in tree2 then PairBucket(n, tree1[n], tree2[n]) else [])
        + PairAnchors(tree1, tree2, order[1..])
  }

  /** The names of the first list in first-occurrence order, each once. */
  function NameOrder(anchors: seq<Anchor>): (r: seq<Option<string>>)
    ensures forall n :: n in r <==> n in AnchorNames(anchors)
    ensures forall i, j :: 0 <= i < j < |r| ==> r[i] != r[j]
  {
    if anchors == [] then []
    else
      var init := anchors[..|anchors| - 1];
      var last := anchors[|anchors| - 1];
      assert anchors == init + [last];
      var r := NameOrder(init);
      if last.name in r then r else r + [last.name]
  }

  lemma NamedAppend(name: Option<string>, a: seq<(AnchorEntry, AnchorEntry)>, b: seq<(AnchorEntry, AnchorEntry)>)
    ensures Named(name, a + b) == Named(name, a) + Named(name, b)
  {
    assert Named(name, a + b) == Named(name, a) + Named(name, b);
  }

  /** One bucket: the identifier pass, then the positional pass on what is left. */
  method PairBucketLoop(name: Option<string>, anchors1: seq<AnchorEntry>, anchors2: seq<AnchorEntry>)
    returns (pairs: seq<(Anchor, Anchor)>)
    ensures pairs == PairBucket(name, anchors1, anchors2)
  {
    var exactPairs, rest1, rest2 := MatchPass(anchors1, anchors2, SameIdentifier);
    var positional := PairByIndex(name, rest1, rest2);
    pairs := Named(name, exactPairs) + positional;
  }

  /** Positional pairing: pop the heads of both lists until one runs out. */
  method PairByIndex(name: Option<string>, anchors1: seq<AnchorEntry>, anchors2: seq<AnchorEntry>)
    returns (pairs: seq<(Anchor, Anchor)>)
    ensures pairs == Named(name, Zip(anchors1, anchors2))
  {
    pairs := [];
    if anchors1 == [] || anchors2 == [] {
      return;
    }
    var rest1, rest2 := anchors1, anchors2;
    ghost var all := Named(name, Zip(anchors1, anchors2));
    ghost var k := 0;
    while true
      invariant 0 <= k < |all|
      invariant rest1 == anchors1[k..] && rest2 == anchors2[k..]
      invariant pairs == all[..k]
      decreases |rest1|
    {
      var anchor1, anchor2 := rest1[0], rest2[0];
      rest1, rest2 := rest1[1..], rest2[1..];
      pairs := pairs + [(AnchorOf(name, anchor1), AnchorOf(name, anchor2))];
      assert all[..k + 1] == all[..k] + [all[k]];
      k := k + 1;
      if rest1 == [] || rest2 == [] {
        assert all[..k] == all;
        return;
      }
    }
  }

  /** The loop over the names of the first tree, skipping names the second tree lacks. */
  method PairAnchorsLoop(tree1: AnchorTree, tree2: AnchorTree, order: seq<Option<string>>)
    returns (pairs: seq<(Anchor, Anchor)>)
    ensures pairs == PairAnchors(tree1, tree2, order)
  {
    pairs := [];
    var i := 0;
    while i < |order|
      invariant 0 <= i <= |order|
      invariant pairs + PairAnchors(tree1, tree2, order[i..]) == PairAnchors(tree1, tree2, order)
    {
      var name := order[i];
      assert order[i..][1..] == order[i + 1..];
      PairAnchorsUnfold(tree1, tree2, order[i..]);
      if name in tree1 && name in tree2 {
        var bucketPairs := PairBucketLoop(name, tree1[name], tree2[name]);
        assert pairs + (bucketPairs + PairAnchors(tree1, tree2, order[i + 1..]))
          == (pairs + bucketPairs) + PairAnchors(tree1, tree2, order[i + 1..]);
        pairs := pairs + bucketPairs;
      } else {
        assert [] + PairAnchors(tree1, tree2, order[i + 1..]) == PairAnchors(tree1, tree2, order[i + 1..]);
      }
      i := i + 1;
    }
    assert order[i..] == [];
  }

  lemma PairAnchorsUnfold(tree1: AnchorTree, tree2: AnchorTree, order: seq<Option<string>>)
    requires order != []
    ensures var n := order[0];
      PairAnchors(tree1, tree2, order) ==
        (if n in tree1 && n in tree2 then PairBucket(n, tree1[n], tree2[n]) else []) + PairAnchors(tree1, tree2, order[1..])
  {
  }

  /** In one bucket: every pair carries the bucket's name on both sides; the identifier pass
      comes first and its pairs agree on the identifier; no entry is used twice; and the
      shorter bucket is used up entirely. */
  lemma PairBucketProperties(name: Option<string>, b1: seq<AnchorEntry>, b2: seq<AnchorEntry>)
    ensures var exact := GreedyPass(b1, b2, SameIdentifier);
      var ps := exact.pairs + Zip(exact.rest1, exact.rest2);
      && PairBucket(name, b1, b2) == Named(name, ps)
      && (forall k :: 0 <= k < |exact.pairs| ==> ps[k].0.identifier == ps[k].1.identifier)
      && multiset(Firsts(ps)) <= multiset(b1)
      && multiset(Seconds(ps)) <= multiset(b2)
      && (|b1| <= |b2| ==> multiset(Firsts(ps)) == multiset(b1))
      && (|b2| <= |b1| ==> multiset(Seconds(ps)) == multiset(b2))
  {
    var exact := GreedyPass(b1, b2, SameIdentifier);
    var zipped := Zip(exact.rest1, exact.rest2);
    var ps := exact.pairs + zipped;
    NamedAppend(name, exact.pairs, zipped);
    forall k | 0 <= k < |exact.pairs|
      ensures ps[k].0.identifier == ps[k].1.identifier
    {
      GreedyPassMatchAt(b1, b2, SameIdentifier, k);
    }
    BucketPairsMultisets(b1, b2);
  }

  /** The entries a bucket's pairs use, counted with multiplicity. */
  lemma BucketPairsMultisets(b1: seq<AnchorEntry>, b2: seq<AnchorEntry>)
    ensures var ps := BucketPairs(b1, b2);
      && multiset(Firsts(ps)) <= multiset(b1)
      && multiset(Seconds(ps)) <= multiset(b2)
      && (|b1| <= |b2| ==> multiset(Firsts(ps)) == multiset(b1))
      && (|b2| <= |b1| ==> multiset(Seconds(ps)) == multiset(b2))
  {
    var exact := GreedyPass(b1, b2, SameIdentifier);
    var zipped := Zip(exact.rest1, exact.rest2);
    GreedyPassPartition(b1, b2, SameIdentifier);
    FirstsAppend(exact.pairs, zipped);
    SecondsAppend(exact.pairs, zipped);
    ZipTakes(exact.rest1, exact.rest2);
    ZipMultisets(multiset(Firsts(exact.pairs)), multiset(exact.rest1), multiset(Firsts(zipped)), multiset(b1));
    ZipMultisets(multiset(Seconds(exact.pairs)), multiset(exact.rest2), multiset(Seconds(zipped)), multiset(b2));
  }

  lemma ZipMultisets<T>(p: multiset<T>, r: multiset<T>, z: multiset<T>, all: multiset<T>)
    requires p + r == all && z <= r
    ensures p + z <= all
    ensures z == r ==> p + z == all
  {
  }

  /** Zipping uses a prefix of each list, all of the shorter one. */
  lemma ZipTakes<A, B>(a: seq<A>, b: seq<B>)
    ensures |a| <= |b| ==> Firsts(Zip(a, b)) == a
    ensures |b| <= |a| ==> Seconds(Zip(a, b)) == b
    ensures multiset(Firsts(Zip(a, b))) <= multiset(a)
    ensures multiset(Seconds(Zip(a, b))) <= multiset(b)
  {
    var z := Zip(a, b);
    assert Firsts(z) == a[..|z|];
    assert Seconds(z) == b[..|z|];
    PrefixMultiset(a, |z|);
    PrefixMultiset(b, |z|);
  }

  lemma PrefixMultiset<T>(s: seq<T>, n: nat)
    requires n <= |s|
    ensures multiset(s[..n]) <= multiset(s)
  {
    assert s == s[..n] + s[n..];
  }

  /** Both anchors of every pair of a bucket carry the bucket's name. */
  lemma PairBucketNamed(name: Option<string>, b1: seq<AnchorEntry>, b2: seq<AnchorEntry>)
    ensures forall k :: 0 <= k < |PairBucket(name, b1, b2)| ==>
      PairBucket(name, b1, b2)[k].0.name == name && PairBucket(name, b1, b2)[k].1.name == name
  {
    var exact := GreedyPass(b1, b2, SameIdentifier);
    NamedAppend(name, exact.pairs, Zip(exact.rest1, exact.rest2));
  }

  /** A pair whose two anchors carry the same name, one that `order` lists and both trees hold. */
  predicate SharedPair(p: (Anchor, Anchor), tree1: AnchorTree, tree2: AnchorTree, order: seq<Option<string>>)
  {
    p.0.name == p.1.name && p.0.name in order && p.0.name in tree1 && p.0.name in tree2
  }

  /** Pairs are made only for names both trees hold, and both anchors of a pair carry it. */
  lemma {:induction false} PairAnchorsShared(tree1: AnchorTree, tree2: AnchorTree, order: seq<Option<string>>)
    ensures forall k :: 0 <= k < |PairAnchors(tree1, tree2, order)| ==>
      SharedPair(PairAnchors(tree1, tree2, order)[k], tree1, tree2, order)
    decreases |order|
  {
    if order != [] {
      var n := order[0];
      var head := if n in tree1 && n in tree2 then PairBucket(n, tree1[n], tree2[n]) else [];
      var tail := PairAnchors(tree1, tree2, order[1..]);
      PairAnchorsShared(tree1, tree2, order[1..]);
      AllSharedWiden(tail, tree1, tree2, order);
      if n in tree1 && n in tree2 {
        PairBucketNamed(n, tree1[n], tree2[n]);
      }
      assert AllShared(head, tree1, tree2, order);
      AllSharedAppend(head, tail, tree1, tree2, order);
      PairAnchorsUnfold(tree1, tree2, order);
    }
  }

  predicate AllShared(ps: seq<(Anchor, Anchor)>, tree1: AnchorTree, tree2: AnchorTree, order: seq<Option<string>>)
  {
    forall k :: 0 <= k < |ps| ==> SharedPair(ps[k], tree1, tree2, order)
  }

  lemma AllSharedWiden(ps: seq<(Anchor, Anchor)>, tree1: AnchorTree, tree2: AnchorTree, order: seq<Option<string>>)
    requires order != [] && AllShared(ps, tree1, tree2, order[1..])
    ensures AllShared(ps, tree1, tree2, order)
  {
    forall k | 0 <= k < |ps|
      ensures SharedPair(ps[k], tree1, tree2, order)
    {
      assert ps[k].0.name in order[1..];
    }
  }

  lemma AllSharedAppend(a: seq<(Anchor, Anchor)>, b: seq<(Anchor, Anchor)>, tree1: AnchorTree, tree2: AnchorTree,
                        order: seq<Option<string>>)
    requires AllShared(a, tree1, tree2, order) && AllShared(b, tree1, tree2, order)
    ensures AllShared(a + b, tree1, tree2, order)
  {
    forall k | 0 <= k < |a + b|
      ensures SharedPair((a + b)[k], tree1, tree2, order)
    {
      if k < |a| {
        assert (a + b)[k] == a[k];
      } else {
        assert (a + b)[k] == b[k - |a|];
      }
    }
  }

  /** How many pairs carry a given name. */
  function CountNamed(ps: seq<(Anchor, Anchor)>, name: Option<string>): nat
  {
    if ps == [] then 0 else (if ps[0].0.name == name then 1 else 0) + CountNamed(ps[1..], name)
  }

  lemma {:induction false} CountNamedAppend(a: seq<(Anchor, Anchor)>, b: seq<(Anchor, Anchor)>, name: Option<string>)
    ensures CountNamed(a + b, name) == CountNamed(a, name) + CountNamed(b, name)
    decreases |a|
  {
    if a != [] {
      var c := a + b;
      assert c[0] == a[0];
      assert c[1..] == a[1..] + b;
      CountNamedAppend(a[1..], b, name);
      assert CountNamed(c, name) == (if c[0].0.name == name then 1 else 0) + CountNamed(c[1..], name);
      assert CountNamed(a, name) == (if a[0].0.name == name then 1 else 0) + CountNamed(a[1..], name);
    } else {
      assert a + b == b;
    }
  }

  lemma {:induction false} CountNamedUniform(ps: seq<(Anchor, Anchor)>, n: Option<string>, name: Option<string>)
    requires forall k :: 0 <= k < |ps| ==> ps[k].0.name == n
    ensures CountNamed(ps, name) == if n == name then |ps| else 0
    decreases |ps|
  {
    if ps != [] {
      CountNamedUniform(ps[1..], n, name);
    }
  }

  /** When the name order lists each name once, every name both trees hold yields
      min(|bucket 1|, |bucket 2|) pairs, and any other name none. */
  lemma {:induction false} PairAnchorsCount(tree1: AnchorTree, tree2: AnchorTree, order: seq<Option<string>>, name: Option<string>)
    requires forall i, j :: 0 <= i < j < |order| ==> order[i] != order[j]
    ensures CountNamed(PairAnchors(tree1, tree2, order), name) ==
      if name in order && name in tree1 && name in tree2 then
        (if |tree1[name]| < |tree2[name]| then |tree1[name]| else |tree2[name]|)
      else 0
    decreases |order|
  {
    if order != [] {
      var n := order[0];
      var head := if n in tree1 && n in tree2 then PairBucket(n, tree1[n], tree2[n]) else [];
      var tail := PairAnchors(tree1, tree2, order[1..]);
      PairAnchorsCount(tree1, tree2, order[1..], name);
      PairAnchorsUnfold(tree1, tree2, order);
      CountNamedAppend(head, tail, name);
      if n in tree1 && n in tree2 {
        PairBucketNamed(n, tree1[n], tree2[n]);
        CountNamedUniform(head, n, name);
      } else {
        assert CountNamed(head, name) == 0;
      }
      assert name in order <==> name == n || name in order[1..];
      if name == n {
        assert name !in order[1..];
      }
    }
  }

  /** A pair of anchors taken from the two lists, with a common name. */
  predicate PairFrom(p: (Anchor, Anchor), anchors1: seq<Anchor>, anchors2: seq<Anchor>)
  {
    p.0 in anchors1 && p.1 in anchors2 && p.0.name == p.1.name
  }

  /** An entry of a name's bucket, given back its name, is an anchor of the list. */
  lemma BucketAnchor(anchors: seq<Anchor>, name: Option<string>, e: AnchorEntry)
    requires e in Bucket(anchors, name)
    ensures AnchorOf(name, e) in anchors
  {
    BucketMembers(anchors, name);
    var a :| a in anchors && a.name == name && EntryOf(a) == e;
    assert AnchorOf(name, e) == a;
  }

  /** The entry pairs of two buckets: identifier matches, then the leftovers by position. */
  function BucketPairs(b1: seq<AnchorEntry>, b2: seq<AnchorEntry>): seq<(AnchorEntry, AnchorEntry)>
  {
    var exact := GreedyPass(b1, b2, SameIdentifier);
    exact.pairs + Zip(exact.rest1, exact.rest2)
  }

  /** Each entry pair takes its entries from the two buckets. */
  lemma BucketPairsFrom(b1: seq<AnchorEntry>, b2: seq<AnchorEntry>, k: nat)
    requires k < |BucketPairs(b1, b2)|
    ensures BucketPairs(b1, b2)[k].0 in b1 && BucketPairs(b1, b2)[k].1 in b2
  {
    var ps := BucketPairs(b1, b2);
    BucketPairsMultisets(b1, b2);
    assert Firsts(ps)[k] in multiset(b1);
    assert Seconds(ps)[k] in multiset(b2);
  }

  /** The pairs of one name's buckets are made of anchors of the two lists. */
  lemma PairBucketFrom(anchors1: seq<Anchor>, anchors2: seq<Anchor>, name: Option<string>)
    ensures forall k :: 0 <= k < |PairBucket(name, Bucket(anchors1, name), Bucket(anchors2, name))| ==>
      PairFrom(PairBucket(name, Bucket(anchors1, name), Bucket(anchors2, name))[k], anchors1, anchors2)
  {
    var b1, b2 := Bucket(anchors1, name), Bucket(anchors2, name);
    var ps := BucketPairs(b1, b2);
    PairBucketProperties(name, b1, b2);
    var r := PairBucket(name, b1, b2);
    assert r == Named(name, ps);
    forall k | 0 <= k < |r|
      ensures PairFrom(r[k], anchors1, anchors2)
    {
      assert r[k] == (AnchorOf(name, ps[k].0), AnchorOf(name, ps[k].1));
      BucketPairsFrom(b1, b2, k);
      BucketAnchor(anchors1, name, ps[k].0);
      BucketAnchor(anchors2, name, ps[k].1);
    }
  }

  /** Every pair made from the anchor trees of two lists holds an anchor of each list, and the
      two carry the same name. */
  lemma {:induction false} PairAnchorsFrom(anchors1: seq<Anchor>, anchors2: seq<Anchor>, order: seq<Option<string>>)
    ensures forall k :: 0 <= k < |PairAnchors(AnchorTreeOf(anchors1), AnchorTreeOf(anchors2), order)| ==>
      PairFrom(PairAnchors(AnchorTreeOf(anchors1), AnchorTreeOf(anchors2), order)[k], anchors1, anchors2)
    decreases |order|
  {
    var tree1, tree2 := AnchorTreeOf(anchors1), AnchorTreeOf(anchors2);
    if order != [] {
      var n := order[0];
      var head := if n in tree1 && n in tree2 then PairBucket(n, tree1[n], tree2[n]) else [];
      var tail := PairAnchors(tree1, tree2, order[1..]);
      PairAnchorsFrom(anchors1, anchors2, order[1..]);
      if n in tree1 && n in tree2 {
        PairBucketFrom(anchors1, anchors2, n);
      }
      assert AllFrom(head, anchors1, anchors2);
      AllFromAppend(head, tail, anchors1, anchors2);
    }
  }

  predicate AllFrom(ps: seq<(Anchor, Anchor)>, anchors1: seq<Anchor>, anchors2: seq<Anchor>)
  {
    forall k :: 0 <= k < |ps| ==> PairFrom(ps[k], anchors1, anchors2)
  }

  lemma AllFromAppend(a: seq<(Anchor, Anchor)>, b: seq<(Anchor, Anchor)>, anchors1: seq<Anchor>, anchors2: seq<Anchor>)
    requires AllFrom(a, anchors1, anchors2) && AllFrom(b, anchors1, anchors2)
    ensures AllFrom(a + b, anchors1, anchors2)
  {
    forall k | 0 <= k < |a + b|
      ensures PairFrom((a + b)[k], anchors1, anchors2)
    {
      if k < |a| {
        assert (a + b)[k] == a[k];
      } else {
        assert (a + b)[k] == b[k - |a|];
      }
    }
  }

  // ------------------------------------------------ anchors regrouped by name

  /** A bucket's entries turned back into anchors called `name`. */
  function Unbucket(name: Option<string>, b: seq<AnchorEntry>): (r: seq<Anchor>)
    ensures |r| == |b| && forall k :: 0 <= k < |b| ==> r[k] == AnchorOf(name, b[k])
  {
    if b == [] then [] else [AnchorOf(name, b[0])] + Unbucket(name, b[1..])
  }

  /** The anchors grouped by name: for each name of `order` in turn, the anchors carrying it in
      list order. This is the order the anchor pairing hands its results back in. */
  function Regrouped(anchors: seq<Anchor>, order: seq<Option<string>>): seq<Anchor>
  {
    if order == [] then [] else Unbucket(order[0], Bucket(anchors, order[0])) + Regrouped(anchors, order[1..])
  }

  lemma BucketSnoc(anchors: seq<Anchor>, a: Anchor, name: Option<string>)
    ensures Bucket(anchors + [a], name) == Bucket(anchors, name) + (if a.name == name then [EntryOf(a)] else [])
  {
    assert (anchors + [a])[..|anchors|] == anchors;
  }

  lemma UnbucketSnoc(name: Option<string>, b: seq<AnchorEntry>, e: AnchorEntry)
    ensures Unbucket(name, b + [e]) == Unbucket(name, b) + [AnchorOf(name, e)]
  {
    assert Unbucket(name, b + [e]) == Unbucket(name, b) + [AnchorOf(name, e)];
  }

  /** One more anchor at the end of the list lands in the group of its name, if `order` has it. */
  lemma {:induction false} RegroupedSnoc(anchors: seq<Anchor>, a: Anchor, order: seq<Option<string>>)
    requires forall i, j :: 0 <= i < j < |order| ==> order[i] != order[j]
    ensures multiset(Regrouped(anchors + [a], order)) ==
      multiset(Regrouped(anchors, order)) + (if a.name in order then multiset{a} else multiset{})
    decreases |order|
  {
    if order != [] {
      var n := order[0];
      var b := Bucket(anchors, n);
      BucketSnoc(anchors, a, n);
      RegroupedSnoc(anchors, a, order[1..]);
      RegroupedStep(anchors + [a], order);
      RegroupedStep(anchors, order);
      if a.name == n {
        UnbucketSnoc(n, b, EntryOf(a));
        assert AnchorOf(a.name, EntryOf(a)) == a;
        assert a.name !in order[1..];
        assert multiset(Unbucket(n, b + [EntryOf(a)])) == multiset(Unbucket(n, b)) + multiset{a};
      } else {
        assert b + [] == b;
        assert a.name in order <==> a.name in order[1..];
      }
    } else {
      assert Regrouped(anchors + [a], order) == [] == Regrouped(anchors, order);
    }
  }

  lemma RegroupedStep(anchors: seq<Anchor>, order: seq<Option<string>>)
    requires order != []
    ensures multiset(Regrouped(anchors, order)) ==
      multiset(Unbucket(order[0], Bucket(anchors, order[0]))) + multiset(Regrouped(anchors, order[1..]))
  {
  }

  /** Grouping by a list of distinct names that covers every anchor's name is a permutation. */
  lemma {:induction false} RegroupedPermutes(anchors: seq<Anchor>, order: seq<Option<string>>)
    requires forall i, j :: 0 <= i < j < |order| ==> order[i] != order[j]
    requires forall k :: 0 <= k < |anchors| ==> anchors[k].name in order
    ensures multiset(Regrouped(anchors, order)) == multiset(anchors)
    decreases |anchors|
  {
    if anchors == [] {
      RegroupedEmpty(order);
    } else {
      var init, last := anchors[..|anchors| - 1], anchors[|anchors| - 1];
      assert anchors == init + [last];
      RegroupedPermutes(init, order);
      RegroupedSnoc(init, last, order);
    }
  }

  lemma {:induction false} RegroupedEmpty(order: seq<Option<string>>)
    ensures Regrouped([], order) == []
    decreases |order|
  {
    if order != [] {
      RegroupedEmpty(order[1..]);
    }
  }

  /** The first-occurrence name order of a list regroups it into a permutation of itself. */
  lemma RegroupedByNameOrder(anchors: seq<Anchor>)
    ensures multiset(Regrouped(anchors, NameOrder(anchors))) == multiset(anchors)
  {
    forall k | 0 <= k < |anchors|
      ensures anchors[k].name in NameOrder(anchors)
    {
      assert anchors[k] in anchors;
    }
    RegroupedPermutes(anchors, NameOrder(anchors));
  }
}
