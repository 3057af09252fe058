/** The worked examples that accompany the pairing helpers, as concrete facts about the model. */
module PairingExamples {
  import opened Types
  import opened Pairing

  function ZeroTransform(): Transform
  {
    Transform(0.0, 0.0, 0.0, 0.0, 0.0, 0.0)
  }

  function C(base: string, identifier: Option<string>): Component
  {
    Component(base, ZeroTransform(), identifier)
  }

  /** Exact (base glyph, identifier) matches are found wherever they sit in the second list. */
  lemma PairComponentsByIdentifier()
    ensures PairComponents([C("A", Some("1")), C("B", Some("1")), C("A", None)],
                           [C("A", None), C("B", Some("1")), C("A", Some("1"))])
         == [(C("A", Some("1")), C("A", Some("1"))), (C("B", Some("1")), C("B", Some("1"))), (C("A", None), C("A", None))]
  {
    var l1 := [C("A", Some("1")), C("B", Some("1")), C("A", None)];
    var l2 := [C("A", None), C("B", Some("1")), C("A", Some("1"))];
    assert FirstMatch(l1[0], l2, SameBaseAndIdentifier) == Some(2);
    var r2 := RemoveAt(l2, 2);
    assert r2 == [C("A", None), C("B", Some("1"))];
    assert FirstMatch(l1[1], r2, SameBaseAndIdentifier) == Some(1);
    var r3 := RemoveAt(r2, 1);
    assert r3 == [C("A", None)];
    assert FirstMatch(l1[2], r3, SameBaseAndIdentifier) == Some(0);
    assert RemoveAt(r3, 0) == [];
    assert l1[1..][1..] == [l1[2]];
    assert GreedyPass([l1[2]], r3, SameBaseAndIdentifier) == PassResult([(l1[2], r3[0])], [], []);
    assert GreedyPass(l1[1..], r2, SameBaseAndIdentifier) == PassResult([(l1[1], r2[1]), (l1[2], r3[0])], [], []);
    assert GreedyPass(l1, l2, SameBaseAndIdentifier) == PassResult([(l1[0], l2[2]), (l1[1], r2[1]), (l1[2], r3[0])], [], []);
  }

  /** Components without identifiers pair by base glyph, in the order of the first list. */
  lemma PairComponentsByBase()
    ensures PairComponents([C("A", None), C("B", None)], [C("B", None), C("A", None)])
         == [(C("A", None), C("A", None)), (C("B", None), C("B", None))]
  {
    var l1 := [C("A", None), C("B", None)];
    var l2 := [C("B", None), C("A", None)];
    assert FirstMatch(l1[0], l2, SameBaseAndIdentifier) == Some(1);
    assert RemoveAt(l2, 1) == [C("B", None)];
    assert FirstMatch(l1[1], [C("B", None)], SameBaseAndIdentifier) == Some(0);
    assert RemoveAt([C("B", None)], 0) == [];
    assert l1[1..] == [l1[1]];
    assert GreedyPass(l1[1..], [C("B", None)], SameBaseAndIdentifier) == PassResult([(l1[1], l2[0])], [], []);
    assert GreedyPass(l1, l2, SameBaseAndIdentifier) == PassResult([(l1[0], l2[1]), (l1[1], l2[0])], [], []);
  }

  function E(identifier: Option<string>, x: real, y: real): AnchorEntry
  {
    AnchorEntry(identifier, x, y, None)
  }

  function A(name: string, identifier: Option<string>, x: real, y: real): Anchor
  {
    Anchor(Some(name), x, y, identifier, None)
  }

  /** Identifier matches pair first, wherever they sit in the other bucket; no identifier
      matches no identifier. */
  lemma PairAnchorsByIdentifier()
    ensures PairAnchors(map[Some("test") := [E(None, 1.0, 2.0), E(Some("identifier 1"), 3.0, 4.0)]],
                        map[Some("test") := [E(Some("identifier 1"), 1.0, 2.0), E(None, 3.0, 4.0)]],
                        [Some("test")])
         == [(A("test", None, 1.0, 2.0), A("test", None, 3.0, 4.0)),
             (A("test", Some("identifier 1"), 3.0, 4.0), A("test", Some("identifier 1"), 1.0, 2.0))]
  {
    var b1 := [E(None, 1.0, 2.0), E(Some("identifier 1"), 3.0, 4.0)];
    var b2 := [E(Some("identifier 1"), 1.0, 2.0), E(None, 3.0, 4.0)];
    var t1, t2, order := map[Some("test") := b1], map[Some("test") := b2], [Some("test")];
    PairAnchorsUnfold(t1, t2, order);
    assert order[1..] == [];
    assert PairAnchors(t1, t2, []) == [];
    BucketByIdentifier(b1, b2);
    NamedByIdentifier(b1, b2);
  }

  lemma NamedByIdentifier(b1: seq<AnchorEntry>, b2: seq<AnchorEntry>)
    requires b1 == [E(None, 1.0, 2.0), E(Some("identifier 1"), 3.0, 4.0)]
    requires b2 == [E(Some("identifier 1"), 1.0, 2.0), E(None, 3.0, 4.0)]
    ensures Named(Some("test"), [(b1[0], b2[1]), (b1[1], b2[0])])
         == [(A("test", None, 1.0, 2.0), A("test", None, 3.0, 4.0)),
             (A("test", Some("identifier 1"), 3.0, 4.0), A("test", Some("identifier 1"), 1.0, 2.0))]
  {
    var named := Named(Some("test"), [(b1[0], b2[1]), (b1[1], b2[0])]);
    assert named[0] == (A("test", None, 1.0, 2.0), A("test", None, 3.0, 4.0));
    assert named[1] == (A("test", Some("identifier 1"), 3.0, 4.0), A("test", Some("identifier 1"), 1.0, 2.0));
  }

  lemma BucketByIdentifier(b1: seq<AnchorEntry>, b2: seq<AnchorEntry>)
    requires b1 == [E(None, 1.0, 2.0), E(Some("identifier 1"), 3.0, 4.0)]
    requires b2 == [E(Some("identifier 1"), 1.0, 2.0), E(None, 3.0, 4.0)]
    ensures PairBucket(Some("test"), b1, b2) == Named(Some("test"), [(b1[0], b2[1]), (b1[1], b2[0])])
  {
    assert FirstMatch(b1[0], b2, SameIdentifier) == Some(1);
    assert RemoveAt(b2, 1) == [b2[0]];
    assert FirstMatch(b1[1], [b2[0]], SameIdentifier) == Some(0);
    assert RemoveAt([b2[0]], 0) == [];
    assert b1[1..] == [b1[1]];
    assert GreedyPass(b1[1..], [b2[0]], SameIdentifier) == PassResult([(b1[1], b2[0])], [], []);
    assert GreedyPass(b1, b2, SameIdentifier) == PassResult([(b1[0], b2[1]), (b1[1], b2[0])], [], []);
  }

  /** Without an identifier match, the leftovers pair by position and keep their own identifiers. */
  lemma PairAnchorsByPosition()
    ensures PairAnchors(map[Some("test") := [E(Some("identifier 1"), 3.0, 4.0)]],
                        map[Some("test") := [E(Some("identifier 2"), 1.0, 2.0)]],
                        [Some("test")])
         == [(A("test", Some("identifier 1"), 3.0, 4.0), A("test", Some("identifier 2"), 1.0, 2.0))]
  {
    var b1 := [E(Some("identifier 1"), 3.0, 4.0)];
    var b2 := [E(Some("identifier 2"), 1.0, 2.0)];
    assert FirstMatch(b1[0], b2, SameIdentifier) == None;
    assert GreedyPass(b1, b2, SameIdentifier) == PassResult([], b1, b2);
    assert PairBucket(Some("test"), b1, b2) == Named(Some("test"), [(b1[0], b2[0])]);
  }

  /** Anchors group by name, each group in list order. */
  lemma AnchorTreeGroups()
    ensures AnchorTreeOf(SampleAnchors())
         == map[Some("test") := [E(Some("1"), 1.0, 2.0), E(None, 1.0, 2.0), E(None, 3.0, 4.0), E(None, 2.0, 3.0)],
                Some("test 2") := [E(None, 1.0, 2.0)]]
  {
    var anchors := SampleAnchors();
    assert AnchorNames(anchors) == {Some("test"), Some("test 2")} by {
      assert forall a :: a in anchors ==> a.name == Some("test") || a.name == Some("test 2");
      assert anchors[0].name == Some("test") && anchors[4].name == Some("test 2");
    }
    SampleBucketTest();
    SampleBucketTest2();
  }

  /** Four anchors called "test" and one called "test 2", in list order. */
  function SampleAnchors(): seq<Anchor>
  {
    [A("test", Some("1"), 1.0, 2.0), A("test", None, 1.0, 2.0), A("test", None, 3.0, 4.0),
     A("test", None, 2.0, 3.0), A("test 2", None, 1.0, 2.0)]
  }

  lemma SamplePrefixes()
    ensures var anchors := SampleAnchors();
      && anchors[..5] == anchors && anchors[..4][..3] == anchors[..3] && anchors[..3][..2] == anchors[..2]
      && anchors[..2][..1] == anchors[..1] && anchors[..1][..0] == []
  {
  }

  lemma SampleBucketTest()
    ensures Bucket(SampleAnchors(), Some("test"))
         == [E(Some("1"), 1.0, 2.0), E(None, 1.0, 2.0), E(None, 3.0, 4.0), E(None, 2.0, 3.0)]
  {
    var anchors, t := SampleAnchors(), Some("test");
    SamplePrefixes();
    assert Bucket(anchors[..1], t) == [E(Some("1"), 1.0, 2.0)];
    assert Bucket(anchors[..2], t) == [E(Some("1"), 1.0, 2.0), E(None, 1.0, 2.0)];
    assert Bucket(anchors[..3], t) == [E(Some("1"), 1.0, 2.0), E(None, 1.0, 2.0), E(None, 3.0, 4.0)];
    assert Bucket(anchors[..4], t) == [E(Some("1"), 1.0, 2.0), E(None, 1.0, 2.0), E(None, 3.0, 4.0), E(None, 2.0, 3.0)];
  }

  lemma SampleBucketTest2()
    ensures Bucket(SampleAnchors(), Some("test 2")) == [E(None, 1.0, 2.0)]
  {
    var anchors := SampleAnchors();
    SamplePrefixes();
    assert AnchorNames(anchors[..4]) == {Some("test")} by {
      assert forall a :: a in anchors[..4] ==> a.name == Some("test");
      assert anchors[..4][0] == anchors[0];
    }
    BucketOfAbsentName(anchors[..4], Some("test 2"));
  }
}

/** The worked examples that accompany the per-pair arithmetic, as concrete facts about the model. */
module GlyphMathExamples {
  import opened Types
  import opened GlyphMath

  /** An anchor sum keeps the first anchor's name, identifier and color. */
  lemma CombineAnchorsExample()
    ensures CombineAnchors(Plus, [(Anchor(Some("foo"), 100.0, -100.0, Some("1"), Some("0,0,0,0")),
                                   Anchor(Some("bar"), 200.0, -200.0, Some("2"), Some("1,1,1,1")))])
         == [Anchor(Some("foo"), 300.0, -300.0, Some("1"), Some("0,0,0,0"))]
  {
  }

  /** Anchor coordinates scale by the x and the y factor. */
  lemma ScaleAnchorsExample()
    ensures ScaleAnchors(Times, [Anchor(Some("foo"), 100.0, -100.0, Some("1"), Some("0,0,0,0"))], 2.0, 1.5)
         == [Anchor(Some("foo"), 200.0, -150.0, Some("1"), Some("0,0,0,0"))]
  {
  }

  /** A component sum adds the transformations field by field and keeps the first identifier. */
  lemma CombineComponentsExample()
    ensures CombineComponents(Plus, [(Component("A", Transform(1.0, 3.0, 5.0, 7.0, 9.0, 11.0), Some("1")),
                                      Component("A", Transform(12.0, 14.0, 16.0, 18.0, 20.0, 22.0), None))])
         == [Component("A", Transform(13.0, 17.0, 21.0, 25.0, 29.0, 33.0), Some("1"))]
  {
  }

  /** xScale, xyScale and xOffset take the x factor; yxScale, yScale and yOffset the y factor. */
  lemma ScaleComponentsExample()
    ensures ScaleComponents(Times, [Component("A", Transform(1.0, 2.0, 3.0, 4.0, 5.0, 6.0), Some("1"))], 2.0, 1.5)
         == [Component("A", Transform(2.0, 4.0, 4.5, 6.0, 10.0, 9.0), Some("1"))]
  {
  }
}
