/** The earlier scene: the attach step of `load`, `dispose`, and a
    `setCarColor` that looks one level into a material array only. */
module ExampleScene {
  import opened Wrappers
  import opened JsNumber
  import opened Three
  import opened SceneWalks
  import MainScene

  const CarTransform: Transform :=
    Transform(Vec3(-20.0, -1.0, 0.0), Vec3(0.0, 1.5, 0.0), Vec3(120.0, 120.0, 120.0))

  const EngineTransform: Transform :=
    Transform(Vec3(-50.0, -1.0, 0.0), Vec3(0.0, 1.5, 0.0), Vec3(0.3, 0.3, 0.3))

  /** What the callback re-colours at one node: the single material, or
      each array entry that is a material, when it is the paint. An array
      inside the array is an entry without the paint's name, so nothing in
      it is looked at. */
  function NodePaint(n: Node): set<Material>
  {
    if n.material.None? then {}
    else set m | m in Entries(n.material.value) && IsCarPaint(m)
  }

  /** What a walk re-colours. */
  function PaintOf(ns: seq<Node>): set<Material>
  {
    Gather(ns, NodePaint)
  }

  /** The materials `setCarColor` re-colours with `model` loaded, or none. */
  function PaintTargets(model: Option<Node>): set<Material>
  {
    PaintOf(Visited(model))
  }

  /** A walk re-colours a material exactly when it is the paint and some
      visited node holds it as its material or as a direct entry of its
      array. */
  lemma PaintExactly(ns: seq<Node>, m: Material)
    ensures m in PaintOf(ns) <==>
              IsCarPaint(m) && exists k :: 0 <= k < |ns| && ns[k].material.Some? && m in Entries(ns[k].material.value)
  {
    GatherExactly(ns, NodePaint, m);
  }

  /** What a walk re-colours is reachable from it. */
  lemma PaintReachable(ns: seq<Node>)
    ensures PaintOf(ns) <= MaterialsOf(ns)
  {
    GatherWithin(ns, NodePaint, NodeDisposed);
    DisposedAreReachable(ns);
  }

  /** On a walk whose material arrays are all flat, both scenes re-colour
      the same materials. */
  lemma {:induction false} SameTargetsWhenFlat(ns: seq<Node>)
    requires forall k :: 0 <= k < |ns| && ns[k].material.Some? ==> IsFlat(ns[k].material.value)
    ensures PaintOf(ns) == MainScene.PaintOf(ns)
  {
    if ns != [] {
      SameTargetsWhenFlat(ns[..|ns| - 1]);
      var n := ns[|ns| - 1];
      if n.material.Some? {
        EntriesOfFlat(n.material.value);
        forall m | m in MainScene.NodePaint(n)
          ensures m in NodePaint(n)
        {
          MainScene.NodePaintExactly(n, m);
        }
        forall m | m in NodePaint(n)
          ensures m in MainScene.NodePaint(n)
        {
          MainScene.NodePaintExactly(n, m);
        }
      }
    }
  }

  /** With an array nested inside the array, the scenes differ: a paint
      material in the inner array is re-coloured by the main scene only. */
  lemma NestedPaintDiffers(m: Material, t: Transform)
    requires IsCarPaint(m)
    ensures var n := Node(true, None, Some(Group([Group([Leaf(m)])])), t, []);
            && m in MainScene.PaintTargets(Some(n))
            && m !in PaintTargets(Some(n))
  {
    var a := [Leaf(m)];
    var inner := Group(a);
    var b := [inner];
    var n := Node(true, None, Some(Group(b)), t, []);
    assert a[..|a| - 1] == [] && b[..|b| - 1] == [];
    assert Leaves(inner) == LeavesOf(a) == LeavesOf([]) + Leaves(a[0]) == [m];
    assert Leaves(Group(b)) == LeavesOf(b) == LeavesOf([]) + Leaves(b[0]) == [m];
    assert Entries(Group(b)) == EntriesOf(b) == EntriesOf([]) + [];
    var w := [n];
    assert Traverse(n) == [n] + TraverseAll([]) == w;
    assert w[..|w| - 1] == [];
    assert PaintOf(w) == Gather([], NodePaint) + NodePaint(n) == {};
    MainScene.NodePaintExactly(n, m);
  }

  /** The traverse callback of `setCarColor` for one node. */
  method PaintVisit(child: Node, color: Num)
    modifies NodePaint(child)`color
    ensures forall m :: m in NodePaint(child) ==> m.color == color
  {
    if child.material.None? {
      return;
    }
    match child.material.value
    case Group(items) =>
      var j := 0;
      assert items[..0] == [];
      while j < |items|
        invariant 0 <= j <= |items|
        invariant forall m :: m in EntriesOf(items[..j]) && IsCarPaint(m) ==> m.color == color
      {
        LeavesOfStep(items, j);
        if items[j].Leaf? && IsCarPaint(items[j].mat) {
          EntryIn(items, j);
          items[j].mat.color := color;
        }
        j := j + 1;
      }
      assert items[..j] == items;
    case Leaf(m) =>
      if IsCarPaint(m) {
        m.color := color;
      }
  }

  /** `ExampleScene`. `children` holds what `load` adds. */
  class ExampleScene {
    var model: Option<Node>
    var engineModel: Option<Node>
    var children: seq<Node>

    constructor ()
      ensures model == None && engineModel == None && children == []
    {
      model := None;
      engineModel := None;
      children := [];
    }

    /** `load()` after `Promise.all` has settled to `joined`. On rejection
        nothing changes and the error is rethrown; otherwise the car and
        the engine are placed and added, and a failing animation import is
        rethrown afterwards. */
    method Load(joined: Joined, animation: Outcome<string>) returns (r: Outcome<string>)
      modifies this
      ensures joined.Rejected? ==>
                r == Fail(joined.error) && model == old(model) && engineModel == old(engineModel) && children == old(children)
      ensures joined.Loaded? ==>
                && r == animation
                && model == Some(Place(joined.car, CarTransform))
                && engineModel == Some(Place(joined.engine, EngineTransform))
                && children == old(children) + [model.value, engineModel.value]
    {
      match joined
      case Rejected(e) =>
        return Fail(e);
      case Loaded(car, engine) =>
        model := Some(Place(car, CarTransform));
        children := children + [model.value];
        engineModel := Some(Place(engine, EngineTransform));
        children := children + [engineModel.value];
        r := animation;
    }

    /** `dispose()`: the same walk as the main scene's. */
    method Dispose()
      modifies GeometriesOf(Visited(model))`disposed, DisposedMaterials(Visited(model))`disposed
      ensures forall g :: g in GeometriesOf(Visited(model)) ==> g.disposed
      ensures forall m :: m in DisposedMaterials(Visited(model)) ==> m.disposed
    {
      DisposeModel(model);
    }

    /** `setCarColor(color)`: every paint target gets `color`; the frame
        leaves every other material as it was, and without a car nothing
        changes. */
    method SetCarColor(color: Num)
      modifies PaintTargets(model)`color
      ensures forall m :: m in PaintTargets(model) ==> m.color == color
    {
      if model.None? {
        return;
      }
      var walk := Traverse(model.value);
      var i := 0;
      assert walk[..0] == [];
      while i < |walk|
        invariant 0 <= i <= |walk|
        invariant forall m :: m in PaintOf(walk[..i]) ==> m.color == color
      {
        GatherStep(walk, NodePaint, i);
        GatherContain(walk, NodePaint, i);
        WalkAllocated(walk[..i]);
        PaintReachable(walk[..i]);
        assert NodePaint(walk[i]) <= PaintTargets(model);
        label Head:
        PaintVisit(walk[i], color);
        forall m | m in PaintOf(walk[..i + 1])
          ensures m.color == color
        {
          if m !in NodePaint(walk[i]) {
            assert m in PaintOf(walk[..i]);
            assert m.color == old@Head(m.color);
          }
        }
        i := i + 1;
      }
      assert walk[..|walk|] == walk;
    }
  }
}
