/** The scene that shows the car: the attach step of `load` after both
    models have loaded, the sweep-uniform and hover part of `update`,
    `dispose`, and `setCarColor`, which flattens nested material arrays
    before it looks at names. */
module MainScene {
  import opened Wrappers
  import opened JsNumber
  import opened Three
  import opened SceneWalks
  import opened LightSweepShader

  const CarTransform: Transform :=
    Transform(Vec3(-30.0, -1.0, 0.0), Vec3(0.0, 1.5, 0.0), Vec3(120.0, 120.0, 120.0))

  const EngineTransform: Transform :=
    Transform(Vec3(-30.0, -1.0, 0.0), Vec3(0.0, 1.5, 0.0), Vec3(0.3, 0.3, 0.3))

  // ---------------------------------------------------------------------
  // setCarColor

  /** The local `flattenMaterials` closure: appends to `materials` every
      standard material of a slot, descending into arrays (`forEach`), in
      order. */
  method FlattenMaterials(m: Slot, materials: seq<Material>) returns (r: seq<Material>)
    ensures r == materials + StandardOnly(Leaves(m))
    decreases m
  {
    match m
    case Leaf(mat) =>
      StandardOnlyStep([], mat);
      assert [] + [mat] == Leaves(m);
      r := if mat.isStandard then materials + [mat] else materials;
    case Group(items) =>
      r := materials;
      var j := 0;
      assert items[..0] == [];
      while j < |items|
        invariant 0 <= j <= |items|
        invariant r == materials + StandardOnly(LeavesOf(items[..j]))
      {
        LeavesOfStep(items, j);
        StandardOnlyAppend(LeavesOf(items[..j]), Leaves(items[j]));
        AppendAssoc(materials, StandardOnly(LeavesOf(items[..j])), StandardOnly(Leaves(items[j])));
        r := FlattenMaterials(items[j], r);
        j := j + 1;
      }
      assert items[..j] == items;
  }

  /** What the callback re-colours at one node: the flattened materials
      named as the paint. */
  function NodePaint(n: Node): set<Material>
  {
    if n.material.None? then {}
    else set m | m in StandardOnly(Leaves(n.material.value)) && m.name == CarPaintName
  }

  /** What a walk re-colours. */
  function PaintOf(ns: seq<Node>): set<Material>
  {
    Gather(ns, NodePaint)
  }

  /** The materials `setCarColor` re-colours with `model` loaded, or none. */
  function PaintTargets(model: Option<Node>): set<Material>
  {
    PaintOf(Visited(model))
  }

  /** A node re-colours a material exactly when it is the paint and sits
      anywhere in the node's slot: as the material, in the array, or in an
      array nested at any depth. Nodes without a material re-colour nothing. */
  lemma NodePaintExactly(n: Node, m: Material)
    ensures m in NodePaint(n) <==> n.material.Some? && m in Leaves(n.material.value) && IsCarPaint(m)
  {
    if n.material.Some? {
      StandardOnlyMembers(Leaves(n.material.value), m);
    }
  }

  /** A walk re-colours a material exactly when it is the paint and some
      visited node holds it anywhere in its slot. */
  lemma PaintExactly(ns: seq<Node>, m: Material)
    ensures m in PaintOf(ns) <==>
              IsCarPaint(m) && exists k :: 0 <= k < |ns| && ns[k].material.Some? && m in Leaves(ns[k].material.value)
  {
    GatherExactly(ns, NodePaint, m);
    forall k | 0 <= k < |ns|
      ensures m in NodePaint(ns[k]) <==> ns[k].material.Some? && m in Leaves(ns[k].material.value) && IsCarPaint(m)
    {
      NodePaintExactly(ns[k], m);
    }
  }

  /** Only car paint is re-coloured: a material with another name, or one
      that is not standard, is never a target. */
  lemma PaintIsCarPaint(ns: seq<Node>, m: Material)
    requires m in PaintOf(ns)
    ensures IsCarPaint(m)
  {
    PaintExactly(ns, m);
  }

  /** What a walk re-colours is reachable from it. */
  lemma PaintReachable(ns: seq<Node>)
    ensures PaintOf(ns) <= MaterialsOf(ns)
  {
    forall k, m | 0 <= k < |ns| && m in NodePaint(ns[k])
      ensures m in NodeMaterials(ns[k])
    {
      NodePaintExactly(ns[k], m);
    }
    GatherWithin(ns, NodePaint, NodeMaterials);
  }

  /** The traverse callback of `setCarColor` for one node: skip a node
      without a material; otherwise flatten its slot and give the colour to
      each collected material named as the paint. */
  method PaintVisit(child: Node, color: Num)
    modifies NodePaint(child)`color
    ensures forall m :: m in NodePaint(child) ==> m.color == color
  {
    if child.material.None? {
      return;
    }
    var materials := FlattenMaterials(child.material.value, []);
    assert materials == StandardOnly(Leaves(child.material.value));
    var k := 0;
    while k < |materials|
      invariant 0 <= k <= |materials|
      invariant forall i :: 0 <= i < k && materials[i].name == CarPaintName ==> materials[i].color == color
    {
      if materials[k].name == CarPaintName {
        materials[k].color := color;
      }
      k := k + 1;
    }
  }

  // ---------------------------------------------------------------------
  // update

  /** The `userData.sweepUniforms` of each listed material, in order. */
  function HookUniforms(ms: seq<Material>): (us: seq<Option<SweepUniforms>>)
    reads ms
    ensures |us| == |ms| && forall k :: 0 <= k < |ms| ==> us[k] == ms[k].sweepUniforms
  {
    if ms == [] then [] else HookUniforms(ms[..|ms| - 1]) + [ms[|ms| - 1].sweepUniforms]
  }

  /** The uniform cells of those records. */
  function Cells(us: seq<Option<SweepUniforms>>): set<UniformCell>
  {
    (set k | 0 <= k < |us| && us[k].Some? :: us[k].value.time)
    + (set k | 0 <= k < |us| && us[k].Some? :: us[k].value.sweepActive)
  }

  /** No record's `time` cell is any record's `sweepActive` cell. */
  predicate Apart(us: seq<Option<SweepUniforms>>)
  {
    forall i, j :: 0 <= i < |us| && 0 <= j < |us| && us[i].Some? && us[j].Some?
      ==> us[i].value.time != us[j].value.sweepActive
  }

  /** Every record in `us` that the hook has set holds `time` and `active`. */
  predicate Swept(us: seq<Option<SweepUniforms>>, time: real, active: real)
    reads Cells(us)
  {
    forall k :: 0 <= k < |us| && us[k].Some? ==>
      us[k].value.time.value == time && us[k].value.sweepActive.value == active
  }

  /** The body of the `forEach` for a material whose hook has run. The
      records already written keep their values, since none of their cells
      is one of the other kind here. */
  method SweepWrite(u: SweepUniforms, time: real, active: real, ghost done: seq<Option<SweepUniforms>>)
    requires u.time != u.sweepActive
    requires forall k :: 0 <= k < |done| && done[k].Some? ==>
               done[k].value.time != u.sweepActive && done[k].value.sweepActive != u.time
    requires Swept(done, time, active)
    modifies u.time, u.sweepActive
    ensures Swept(done + [Some(u)], time, active)
  {
    u.time.value := time;
    u.sweepActive.value := active;
    assert (done + [Some(u)])[|done|] == Some(u);
    forall k | 0 <= k < |done| && done[k].Some?
      ensures (done + [Some(u)])[k] == done[k]
    {
    }
  }

  /** The `forEach` of `update()` over the sweep materials: what it writes
      into every record the hook has set. */
  method SweepAll(ms: seq<Material>, time: real, active: real)
    requires Apart(HookUniforms(ms))
    modifies Cells(HookUniforms(ms))
    ensures Swept(HookUniforms(ms), time, active)
  {
    ghost var us := HookUniforms(ms);
    var i := 0;
    assert us[..0] == [];
    while i < |ms|
      invariant 0 <= i <= |ms|
      invariant Swept(us[..i], time, active)
    {
      assert us[..i + 1] == us[..i] + [us[i]];
      if ms[i].sweepUniforms.Some? {
        var u := ms[i].sweepUniforms.value;
        assert us[i] == Some(u);
        SweepWrite(u, time, active, us[..i]);
      } else {
        assert Swept(us[..i] + [us[i]], time, active);
      }
      i := i + 1;
    }
    assert us[..i] == us;
  }

  /** The value `hovered ? 1 : 0`. */
  function ActiveFlag(hovered: bool): (v: real)
    ensures v == 1.0 || v == 0.0
    ensures v > 0.5 <==> hovered
  {
    if hovered then 1.0 else 0.0
  }

  /** `MainScene`. `children` holds what `load` adds (the lights the
      constructor adds are not modelled). */
  class MainScene {
    var model: Option<Node>
    var engineModel: Option<Node>
    var children: seq<Node>
    var hovered: bool
    const sweepMaterials: MaterialList

    constructor ()
      ensures model == None && engineModel == None && children == [] && !hovered
      ensures fresh(sweepMaterials) && sweepMaterials.items == []
    {
      model := None;
      engineModel := None;
      children := [];
      hovered := false;
      sweepMaterials := new MaterialList();
    }

    /** The materials the light-sweep patch of a successful load touches. */
    static function LoadTargets(joined: Joined): set<Material>
    {
      if joined.Loaded? then SetOf(SweepTargets(Place(joined.car, CarTransform))) else {}
    }

    /** `load()` after `Promise.all` has settled to `joined`; `animation` is
        how the dynamic import of the car animation settles. On rejection
        nothing changes and the error is rethrown. Otherwise the car and the
        engine are placed and added, in that order, then the light-sweep
        patch is applied to the car alone: `sweepMaterials` gains exactly the
        car's sweep targets, each with its own fresh hook, and a failing
        animation import is rethrown after all that. */
    method Load(joined: Joined, animation: Outcome<string>) returns (r: Outcome<string>)
      modifies this`model, this`engineModel, this`children, sweepMaterials, LoadTargets(joined)`onBeforeCompile
      ensures joined.Rejected? ==>
                && r == Fail(joined.error)
                && model == old(model) && engineModel == old(engineModel) && children == old(children)
                && sweepMaterials.items == old(sweepMaterials.items)
      ensures joined.Loaded? ==>
                && r == animation
                && model == Some(Place(joined.car, CarTransform))
                && engineModel == Some(Place(joined.engine, EngineTransform))
                && children == old(children) + [model.value, engineModel.value]
                && sweepMaterials.items == old(sweepMaterials.items) + SweepTargets(model.value)
                && (forall m :: m in SweepTargets(model.value) ==> FreshlyArmed(m))
                && OwnCells(SweepTargets(model.value))
    {
      match joined
      case Rejected(e) =>
        return Fail(e);
      case Loaded(car, engine) =>
        var placed := Place(car, CarTransform);
        model := Some(placed);
        children := children + [placed];
        var placedEngine := Place(engine, EngineTransform);
        engineModel := Some(placedEngine);
        children := children + [placedEngine];
        ApplyLightSweepShader(placed, sweepMaterials);
        r := animation;
    }

    /** The sweep-uniform and hover part of `update()`, with `elapsed` the
        clock's elapsed milliseconds and `hit` whether the raycast from the
        mouse hits the car. Every listed material whose hook has run gets
        `time = elapsed * 0.001` and the flag of the hover state BEFORE this
        call; the others are skipped. The hover state then takes the hit,
        but only while a car is loaded. */
    method Update(elapsed: real, hit: bool)
      requires Apart(HookUniforms(sweepMaterials.items))
      modifies this`hovered, Cells(HookUniforms(sweepMaterials.items))
      ensures forall i :: 0 <= i < |sweepMaterials.items| && sweepMaterials.items[i].sweepUniforms.Some? ==>
                && sweepMaterials.items[i].sweepUniforms.value.time.value == elapsed * 0.001
                && sweepMaterials.items[i].sweepUniforms.value.sweepActive.value == ActiveFlag(old(hovered))
      ensures hovered == (if model.Some? then hit else old(hovered))
    {
      var ms := sweepMaterials.items;
      SweepAll(ms, elapsed * 0.001, ActiveFlag(hovered));
      if model.Some? {
        hovered := hit;
      }
    }

    /** `dispose()`: frees what the car's walk holds; the engine is not
        walked. */
    method Dispose()
      modifies GeometriesOf(Visited(model))`disposed, DisposedMaterials(Visited(model))`disposed
      ensures forall g :: g in GeometriesOf(Visited(model)) ==> g.disposed
      ensures forall m :: m in DisposedMaterials(Visited(model)) ==> m.disposed
    {
      DisposeModel(model);
    }

    /** `setCarColor(color)`: every paint target of the car gets `color`;
        the frame leaves every other material, the engine's included, as it
        was, and without a car nothing changes. */
    method SetCarColor(color: Num)
      modifies PaintTargets(model)`color
      ensures forall m :: m in PaintTargets(model) ==> m.color == color
    {
      if model.None? {
        return;
      }
      var walk := Traverse(model.value);
      var i := 0;
      assert walk[..0] == [];
      while i < |walk|
        invariant 0 <= i <= |walk|
        invariant forall m :: m in PaintOf(walk[..i]) ==> m.color == color
      {
        GatherStep(walk, NodePaint, i);
        GatherContain(walk, NodePaint, i);
        WalkAllocated(walk[..i]);
        PaintReachable(walk[..i]);
        assert NodePaint(walk[i]) <= PaintTargets(model);
        label Head:
        PaintVisit(walk[i], color);
        forall m | m in PaintOf(walk[..i + 1])
          ensures m.color == color
        {
          if m !in NodePaint(walk[i]) {
            assert m in PaintOf(walk[..i]);
            assert m.color == old@Head(m.color);
          }
        }
        i := i + 1;
      }
      assert walk[..|walk|] == walk;
    }
  }

  /** The colour is assigned, not blended: after two calls the paint holds
      the second colour (with `a == b`, a repeated call changes nothing). */
  method SetCarColorTwice(scene: MainScene, a: Num, b: Num)
    modifies PaintTargets(scene.model)`color
    ensures forall m :: m in PaintTargets(scene.model) ==> m.color == b
  {
    scene.SetCarColor(a);
    scene.SetCarColor(b);
  }
}
