/** Three points on a line after whose insertion the removal of one leaves a child outside its parent's covering distance
    (runners/genlayer-py-std/src-emb/genlayer_embeddings/vecdb.py:260-406). */
module CoverExample {
  import opened Wrappers
  import opened CoverLevels
  import opened CoverForest
  import opened CoverBound
  import opened CoverDescent
  import opened CoverIndex
  import opened CoverRemoval
  import opened CoverEdges
  import VecDb

  /** Three points on a line, at 0, -1 and 1.3. */
  datatype Point = Middle | Left | Right

  function Place(p: Point): real {
    if p.Middle? then 0.0 else if p.Left? then -1.0 else 1.3
  }

  function Away(a: Point, b: Point): real {
    var d := Place(a) - Place(b);
    if d < 0.0 then -d else d
  }

  function Three(): Space<Point> {
    Space([Middle, Left, Right], Away)
  }

  lemma {:induction false} AwayMetric()
    ensures TrueMetric(Away) && InReach(Away)
  {
    TopIsFar();
    hide Power, PowerUp, TopReach;
    forall a, b, c: Point ensures Triangle(Away, a, b, c) {}
  }

  lemma {:induction false} TopIsFar()
    ensures TopReach() > 3.0
  {
    hide PowerUp;
    PowerGrows(MAX_LEVEL);
  }

  lemma {:induction false} SmallPowers()
    ensures Power(-1) < 1.0 && Power(0) == 1.0 && Power(1) == 1.3
  {
    PowerNext(-1);
    PowerNext(0);
  }

  /** The index after the middle point was inserted, then the left one, then the right one. */
  function Empty(): Index {
    Index(Forest([], map[]), {}, map[], None)
  }

  function First(): Index {
    Index(Forest([Node(0, 0, [], None)], map[0 := {}]), {}, map[0 := 0], Some(0))
  }

  function Second(): Index {
    Index(Forest([Node(0, 0, [1], None), Node(1, -1, [], Some(0))], map[0 := {}, 1 := {0}]), {}, map[0 := 0, 1 := 1], Some(0))
  }

  function Third(): Index {
    Index(Forest([Node(0, 0, [1], Some(2)), Node(1, -1, [], Some(0)), Node(2, 1, [0], None)], map[0 := {2}, 1 := {0, 2}, 2 := {}]),
          {}, map[0 := 0, 1 := 1, 2 := 2], Some(2))
  }

  lemma {:induction false} EmptySettled()
    ensures Settled(Three(), Empty()) && EdgesCovered(Three(), Empty().forest)
  {
    AwayMetric();
    hide TrueMetric, InReach;
  }

  lemma {:induction false} FirstInserted()
    ensures Settled(Three(), First()) && EdgesCovered(Three(), First().forest)
  {
    EmptySettled();
    hide Settled, EdgesCovered, Inserted, Power, PowerUp;
    var s, nodes := Three(), [Node(0, 0, [], None)];
    SettledReady(s, Empty(), 0);
    assert FirstAdded(Empty(), nodes, {}, 0, 0) == First();
    FirstIs(s, nodes);
    InsertedSettled(s, Empty(), First(), 0, 0);
    InsertCovers(s, Empty(), First(), 0, 0);
  }

  lemma {:induction false} FirstIs(s: Space<Point>, nodes: seq<Node>)
    requires s == Three() && nodes == [Node(0, 0, [], None)] && Ready(s, Empty(), 0, {}, None)
    ensures Inserted(s, Empty(), FirstAdded(Empty(), nodes, {}, 0, 0), 0, 0, {}, None)
  {
    hide Loose, Insertion, Power, PowerUp;
    FirstAddedCore(s, Empty(), nodes, {}, 0, 0, {}, None);
  }

  lemma {:induction false} SecondInserted()
    ensures Settled(Three(), Second()) && EdgesCovered(Three(), Second().forest)
  {
    FirstInserted();
    SecondPlace();
    hide Settled, EdgesCovered, Inserted, Chosen, Attached;
    var s := Three();
    SettledReady(s, First(), 1);
    AttachInserts(s, First(), Second(), [Node(0, 0, [], None), Node(1, -1, [], Some(0))], 1, 1, Below(0, -1), 1.0, {}, None);
    InsertedSettled(s, First(), Second(), 1, 1);
    InsertCovers(s, First(), Second(), 1, 1);
  }

  lemma {:induction false} SecondPlace()
    ensures Chosen(Three(), First(), 1, Below(0, -1), 1.0)
    ensures Attached(First(), Second(), [Node(0, 0, [], None), Node(1, -1, [], Some(0))], 1, 1, Below(0, -1))
  {
    SmallPowers();
    SecondAttached();
    hide Power, PowerUp, Radius, Attached, Second;
  }

  lemma {:induction false} SecondAttached()
    ensures Attached(First(), Second(), [Node(0, 0, [], None), Node(1, -1, [], Some(0))], 1, 1, Below(0, -1))
  {
    var ix, arena := First(), [Node(0, 0, [], None), Node(1, -1, [], Some(0))];
    assert [] + [1 as nat] == [1] && ix.forest.above[0] + {0} == {0};
    assert LeafPut(ix, arena, {}, 1, 0, 1).at == Second().at;
    assert LeafPut(ix, arena, {}, 1, 0, 1).forest.nodes == Second().forest.nodes;
    assert LeafPut(ix, arena, {}, 1, 0, 1).forest.above == Second().forest.above;
  }

  lemma {:induction false} ThirdInserted()
    ensures Settled(Three(), Third()) && EdgesCovered(Three(), Third().forest)
  {
    SecondInserted();
    ThirdPlace();
    hide Settled, EdgesCovered, Inserted, Chosen, Attached;
    var s := Three();
    SettledReady(s, Second(), 2);
    AttachInserts(s, Second(), Third(), [Node(0, 0, [1], None), Node(1, -1, [], Some(0)), Node(2, 1, [0], None)], 2, 2, AboveRoot(1), 0.0, {}, None);
    InsertedSettled(s, Second(), Third(), 2, 2);
    InsertCovers(s, Second(), Third(), 2, 2);
  }

  lemma {:induction false} ThirdPlace()
    ensures Chosen(Three(), Second(), 2, AboveRoot(1), 0.0)
    ensures Attached(Second(), Third(), [Node(0, 0, [1], None), Node(1, -1, [], Some(0)), Node(2, 1, [0], None)], 2, 2, AboveRoot(1))
  {
    SmallPowers();
    ThirdAttached();
    SecondInserted();
    hide Power, PowerUp, Radius, Attached, Third, Settled, EdgesCovered, LevelsFall, ChildrenOk, ParentsOk;
    SettledShape(Three(), Second());
  }

  lemma {:induction false} ThirdAttached()
    ensures Attached(Second(), Third(), [Node(0, 0, [1], None), Node(1, -1, [], Some(0)), Node(2, 1, [0], None)], 2, 2, AboveRoot(1))
  {
    var ix, arena := Second(), [Node(0, 0, [1], None), Node(1, -1, [], Some(0)), Node(2, 1, [0], None)];
    var put := RootPut(ix, arena, {}, 2, 0, 2);
    assert put.at == Third().at && put.forest.nodes == Third().forest.nodes;
    assert put.forest.above[0] == {2} && put.forest.above[1] == {0, 2} && put.forest.above[2] == {};
    assert put.forest.above == Third().forest.above;
  }

  /** Three inserts lead to a covered index in which the root would not cover the element that moves up when the middle point
      is removed: after the removal the root does not cover its child. */
  lemma {:induction false} CoveringLost()
    ensures Settled(Three(), Third()) && EdgesCovered(Three(), Third().forest)
    ensures Third().at[0] == 0 && !StaysCovered(Three(), Third().forest.nodes, 0)
  {
    ThirdInserted();
    SmallPowers();
    hide Settled, EdgesCovered, Power, PowerUp;
  }

  /** The index as the three inserts leave it; the middle point is removed. */
  method RemovalUncovers() returns (db: VecDb.VecDB<Point, nat>)
    ensures db.Valid() && db.Live() == {1, 2} && !EdgesCovered(db.Keyed(), db.Tree())
  {
    AwayMetric();
    CoveringLost();
    hide TrueMetric, InReach, Settled, EdgesCovered, StaysCovered, Power, PowerUp;
    db := new VecDb.VecDB(Away);
    db.keys, db.values := Three().keys, [0, 0, 0];
    db.nodes, db.elemToNode, db.rootIdx := Third().forest.nodes, Third().at, Third().root;
    db.above, db.freeNodes, db.freeIdx := Third().forest.above, {}, {};
    assert db.Ix() == Third() && db.Keyed() == Three();
    db.Remove(0);
  }
}
