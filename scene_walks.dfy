/** What both scenes share: the car-paint sentinel, the set of nodes a walk
    from `this.model` visits, and the `dispose` callback, which is the same in
    both scenes (every entry of a material array is a material or an array,
    never null, and both callbacks skip an inner array, so `m?.dispose?.()`
    and `m && typeof m.dispose === "function" && m.dispose()` call `dispose` on the same objects). */
module SceneWalks {
  import opened Wrappers
  import opened Three

  /** The name that marks the car's paint material. */
  const CarPaintName: string := "EXT_Carpaint_Inst"

  /** A material both scenes re-colour: standard and named as the paint. */
  predicate IsCarPaint(m: Material)
  {
    m.isStandard && m.name == CarPaintName
  }

  /** The nodes visited by `this.model.traverse(...)`; none without a model. */
  function Visited(model: Option<Node>): seq<Node>
  {
    if model.None? then [] else Traverse(model.value)
  }

  /** The materials the dispose callback frees for one node: the single
      material, or the material entries of the array. */
  function NodeDisposed(n: Node): set<Material>
  {
    if n.material.None? then {} else set m | m in Entries(n.material.value)
  }

  /** The materials freed by a whole walk. */
  function DisposedMaterials(ns: seq<Node>): set<Material>
  {
    Gather(ns, NodeDisposed)
  }

  /** The dispose callback for one visited node: free its geometry if it has
      one, then its material or each material entry of its array. */
  method DisposeVisit(child: Node)
    modifies NodeGeometry(child)`disposed, NodeDisposed(child)`disposed
    ensures forall g :: g in NodeGeometry(child) ==> g.disposed
    ensures forall m :: m in NodeDisposed(child) ==> m.disposed
  {
    if child.geometry.Some? {
      child.geometry.value.disposed := true;
    }
    if child.material.Some? {
      match child.material.value
      case Leaf(m) =>
        m.disposed := true;
      case Group(items) =>
        var j := 0;
        while j < |items|
          invariant 0 <= j <= |items|
          invariant forall m :: m in EntriesOf(items[..j]) ==> m.disposed
          invariant forall g :: g in NodeGeometry(child) ==> g.disposed
        {
          LeavesOfStep(items, j);
          if items[j].Leaf? {
            EntryIn(items, j);
            items[j].mat.disposed := true;
          }
          j := j + 1;
        }
        assert items[..j] == items;
    }
  }

  /** The materials a walk frees are reachable from it. */
  lemma DisposedAreReachable(ns: seq<Node>)
    ensures DisposedMaterials(ns) <= MaterialsOf(ns)
  {
    forall k | 0 <= k < |ns|
      ensures NodeDisposed(ns[k]) <= NodeMaterials(ns[k])
    {
      if ns[k].material.Some? {
        EntriesAreLeaves(ns[k].material.value);
      }
    }
    GatherWithin(ns, NodeDisposed, NodeMaterials);
  }

  /** A walk frees a material exactly when some visited node holds it as its
      material or as an entry of its array, whatever its name or kind. */
  lemma DisposedExactly(ns: seq<Node>, m: Material)
    ensures m in DisposedMaterials(ns) <==>
              exists k :: 0 <= k < |ns| && ns[k].material.Some? && m in Entries(ns[k].material.value)
  {
    GatherExactly(ns, NodeDisposed, m);
  }

  /** `dispose()` of either scene: with a model, the callback above on every
      node of its walk, in traversal order; without one, nothing. */
  method DisposeModel(model: Option<Node>)
    modifies GeometriesOf(Visited(model))`disposed, DisposedMaterials(Visited(model))`disposed
    ensures forall g :: g in GeometriesOf(Visited(model)) ==> g.disposed
    ensures forall m :: m in DisposedMaterials(Visited(model)) ==> m.disposed
  {
    var walk := Visited(model);
    var i := 0;
    while i < |walk|
      invariant 0 <= i <= |walk|
      invariant forall g :: g in GeometriesOf(walk[..i]) ==> g.disposed
      invariant forall m :: m in DisposedMaterials(walk[..i]) ==> m.disposed
    {
      GatherStep(walk, NodeGeometry, i);
      GatherStep(walk, NodeDisposed, i);
      GatherContain(walk, NodeGeometry, i);
      GatherContain(walk, NodeDisposed, i);
      WalkAllocated(walk[..i]);
      DisposedAreReachable(walk[..i]);
      DisposeVisit(walk[i]);
      assert GeometriesOf(walk[..i + 1]) == GeometriesOf(walk[..i]) + NodeGeometry(walk[i]);
      assert DisposedMaterials(walk[..i + 1]) == DisposedMaterials(walk[..i]) + NodeDisposed(walk[i]);
      i := i + 1;
    }
    assert walk[..|walk|] == walk;
  }

  /** What `Promise.all` over the car and engine loads settles to: both
      loaded scenes, or the first rejection. */
  datatype Joined = Loaded(car: Node, engine: Node) | Rejected(error: string)

  /** `position.set`, `rotation.set` and `scale.set` on a loaded model. */
  function Place(n: Node, t: Transform): Node
  {
    n.(transform := t)
  }
}
