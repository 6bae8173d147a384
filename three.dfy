/** The parts of three.js that the scenes and the shader patch touch, as the
    program relies on them: materials and geometries with identity, material
    slots of a mesh, the scene-graph tree and its pre-order `traverse`, and the
    shader object handed to `onBeforeCompile`. */
module Three {
  import opened Wrappers
  import opened JsNumber

  /** A BufferGeometry. `disposed` records that `dispose()` was called; a
      second call has no further effect, because the renderer stops listening
      after the first. */
  class Geometry {
    var disposed: bool

    constructor ()
      ensures !disposed
    {
      disposed := false;
    }
  }

  /** A uniform `{ value: number }`. It is an object: whoever holds it sees
      every write to `value`. */
  class UniformCell {
    var value: real

    constructor (value: real)
      ensures this.value == value
    {
      this.value := value;
    }
  }

  /** The `{ time, sweepActive }` record of the light-sweep patch. */
  class SweepUniforms {
    const time: UniformCell
    const sweepActive: UniformCell

    constructor (time: UniformCell, sweepActive: UniformCell)
      ensures this.time == time && this.sweepActive == sweepActive
    {
      this.time := time;
      this.sweepActive := sweepActive;
    }
  }

  /** What a material's `onBeforeCompile` does: three.js's default does
      nothing; the light-sweep hook carries the uniforms its closure captured. */
  datatype Hook = DefaultHook | SweepHook(uniforms: SweepUniforms)

  /** A material. `isStandard` is `instanceof MeshStandardMaterial`, which
      also holds for its subclasses. `color` is the number last given to
      `color.setHex`. `disposed` records a `dispose()` call, as for a geometry.
      `sweepUniforms` is `userData.sweepUniforms`. */
  class Material {
    const name: string
    const isStandard: bool
    var color: Num
    var disposed: bool
    var onBeforeCompile: Hook
    var sweepUniforms: Option<SweepUniforms>

    constructor (name: string, isStandard: bool, color: Num)
      ensures this.name == name && this.isStandard == isStandard && this.color == color
      ensures !disposed && onBeforeCompile == DefaultHook && sweepUniforms == None
    {
      this.name := name;
      this.isStandard := isStandard;
      this.color := color;
      disposed := false;
      onBeforeCompile := DefaultHook;
      sweepUniforms := None;
    }
  }

  /** The value of a mesh's `material` property: one material, or an array
      whose entries may themselves be arrays. */
  datatype Slot = Leaf(mat: Material) | Group(items: seq<Slot>)

  /** Every material in a slot, descending into nested arrays, in order. */
  function Leaves(s: Slot): seq<Material>
    decreases s, 1
  {
    match s
    case Leaf(m) => [m]
    case Group(items) => LeavesOf(items)
  }

  function LeavesOf(items: seq<Slot>): seq<Material>
    decreases items, 0
  {
    if items == [] then [] else LeavesOf(items[..|items| - 1]) + Leaves(items[|items| - 1])
  }

  /** The materials a one-level walk sees: the material itself, or the
      entries of the array that are materials (nested arrays are skipped). */
  function Entries(s: Slot): seq<Material>
  {
    match s
    case Leaf(m) => [m]
    case Group(items) => EntriesOf(items)
  }

  function EntriesOf(items: seq<Slot>): seq<Material>
  {
    if items == [] then []
    else EntriesOf(items[..|items| - 1]) + (if items[|items| - 1].Leaf? then [items[|items| - 1].mat] else [])
  }

  /** A slot without arrays inside arrays (the only shape three.js builds). */
  predicate IsFlat(s: Slot)
  {
    s.Group? ==> forall k :: 0 <= k < |s.items| ==> s.items[k].Leaf?
  }

  /** The `instanceof MeshStandardMaterial` filter, keeping order. */
  function StandardOnly(ms: seq<Material>): (r: seq<Material>)
    ensures |r| <= |ms|
  {
    if ms == [] then []
    else StandardOnly(ms[..|ms| - 1]) + (if ms[|ms| - 1].isStandard then [ms[|ms| - 1]] else [])
  }

  datatype Vec3 = Vec3(x: real, y: real, z: real)

  /** An object's `position`, `rotation` (Euler angles) and `scale`. */
  datatype Transform = Transform(position: Vec3, rotation: Vec3, scale: Vec3)

  /** An Object3D. `isMesh` is `instanceof Mesh`; `geometry` and `material`
      are absent on nodes that have none. */
  datatype Node = Node(isMesh: bool, geometry: Option<Geometry>, material: Option<Slot>,
                       transform: Transform, children: seq<Node>)

  /** The nodes `traverse` visits: the node itself, then each child's
      subtree, children in order (pre-order). */
  function Traverse(n: Node): (r: seq<Node>)
    decreases n, 1
    ensures |r| >= 1 && r[0] == n
    ensures forall k :: 0 <= k < |n.children| ==> n.children[k] in r
  {
    [n] + TraverseAll(n.children)
  }

  /** The walks of `ns`, one after the other; every node of `ns` is visited. */
  function TraverseAll(ns: seq<Node>): (r: seq<Node>)
    decreases ns, 0
    ensures forall k :: 0 <= k < |ns| ==> ns[k] in r
  {
    if ns == [] then [] else Traverse(ns[0]) + TraverseAll(ns[1..])
  }

  /** Every material reachable from a node's `material` property. */
  function NodeMaterials(n: Node): set<Material>
  {
    if n.material.None? then {} else set m | m in Leaves(n.material.value)
  }

  /** What a callback run by `traverse` collects over a walk: the union,
      over the visited nodes, of what `per` picks at each of them. */
  function Gather<T>(ns: seq<Node>, per: Node -> set<T>): set<T>
  {
    if ns == [] then {} else Gather(ns[..|ns| - 1], per) + per(ns[|ns| - 1])
  }

  /** Every material reachable from the nodes of a walk. */
  function MaterialsOf(ns: seq<Node>): set<Material>
  {
    Gather(ns, NodeMaterials)
  }

  function NodeGeometry(n: Node): set<Geometry>
  {
    if n.geometry.None? then {} else {n.geometry.value}
  }

  /** Every geometry held by the nodes of a walk. */
  function GeometriesOf(ns: seq<Node>): set<Geometry>
  {
    Gather(ns, NodeGeometry)
  }

  /** The shader object three.js passes to `onBeforeCompile`: its uniforms by
      name and the GLSL sources of the two stages. */
  class Shader {
    var uniforms: map<string, UniformCell>
    var vertexShader: string
    var fragmentShader: string

    constructor (uniforms: map<string, UniformCell>, vertexShader: string, fragmentShader: string)
      ensures this.uniforms == uniforms
      ensures this.vertexShader == vertexShader && this.fragmentShader == fragmentShader
    {
      this.uniforms := uniforms;
      this.vertexShader := vertexShader;
      this.fragmentShader := fragmentShader;
    }
  }

  /** In a flat slot the one-level walk and the deep walk see the same
      materials in the same order. */
  lemma {:induction false} EntriesOfFlat(s: Slot)
    requires IsFlat(s)
    ensures Entries(s) == Leaves(s)
  {
    if s.Group? {
      FlatItemsAgree(s.items);
    }
  }

  lemma {:induction false} FlatItemsAgree(items: seq<Slot>)
    requires forall k :: 0 <= k < |items| ==> items[k].Leaf?
    ensures EntriesOf(items) == LeavesOf(items)
  {
    if items != [] {
      FlatItemsAgree(items[..|items| - 1]);
    }
  }

  /** The one-level walk sees only materials the deep walk also sees. */
  lemma {:induction false} EntriesAreLeaves(s: Slot)
    ensures forall m :: m in Entries(s) ==> m in Leaves(s)
  {
    if s.Group? {
      EntriesOfAreLeavesOf(s.items);
    }
  }

  lemma {:induction false} EntriesOfAreLeavesOf(items: seq<Slot>)
    ensures forall m :: m in EntriesOf(items) ==> m in LeavesOf(items)
  {
    if items != [] {
      EntriesOfAreLeavesOf(items[..|items| - 1]);
    }
  }

  /** The leaves of a longer prefix of items: those of the shorter one, then
      the next item's. */
  lemma LeavesOfStep(items: seq<Slot>, k: nat)
    requires k < |items|
    ensures LeavesOf(items[..k + 1]) == LeavesOf(items[..k]) + Leaves(items[k])
    ensures EntriesOf(items[..k + 1]) == EntriesOf(items[..k]) + (if items[k].Leaf? then [items[k].mat] else [])
  {
    assert items[..k + 1][..k] == items[..k];
  }

  /** The filter keeps exactly the standard materials. */
  lemma {:induction false} StandardOnlyMembers(ms: seq<Material>, m: Material)
    ensures m in StandardOnly(ms) <==> m in ms && m.isStandard
  {
    if ms != [] {
      StandardOnlyMembers(ms[..|ms| - 1], m);
      assert ms == ms[..|ms| - 1] + [ms[|ms| - 1]];
    }
  }

  /** The filter on a list one material longer. */
  lemma StandardOnlyStep(ms: seq<Material>, m: Material)
    ensures StandardOnly(ms + [m]) == StandardOnly(ms) + (if m.isStandard then [m] else [])
  {
    assert (ms + [m])[..|ms|] == ms;
  }

  /** The filter distributes over concatenation. */
  lemma {:induction false} StandardOnlyAppend(a: seq<Material>, b: seq<Material>)
    ensures StandardOnly(a + b) == StandardOnly(a) + StandardOnly(b)
  {
    if b != [] {
      assert (a + b)[..|a + b| - 1] == a + b[..|b| - 1];
      StandardOnlyAppend(a, b[..|b| - 1]);
    } else {
      assert a + b == a;
    }
  }

  /** A walk collects an object exactly when some visited node picks it. */
  lemma {:induction false} GatherExactly<T>(ns: seq<Node>, per: Node -> set<T>, x: T)
    ensures x in Gather(ns, per) <==> exists k :: 0 <= k < |ns| && x in per(ns[k])
  {
    if ns != [] {
      var init := ns[..|ns| - 1];
      GatherExactly(init, per, x);
      if x in Gather(init, per) {
        var k :| 0 <= k < |init| && x in per(init[k]);
        assert ns[k] == init[k];
      }
      if exists k :: 0 <= k < |ns| && x in per(ns[k]) {
        var k :| 0 <= k < |ns| && x in per(ns[k]);
        if k < |init| {
          assert init[k] == ns[k];
        }
      }
    }
  }

  /** What each visited node picks is part of what the walk collects. */
  lemma {:induction false} GatherContain<T>(ns: seq<Node>, per: Node -> set<T>, k: nat)
    requires k < |ns|
    ensures per(ns[k]) <= Gather(ns, per)
  {
    if k < |ns| - 1 {
      GatherContain(ns[..|ns| - 1], per, k);
    }
  }

  /** A prefix one node longer collects what the next node picks on top. */
  lemma GatherStep<T>(ns: seq<Node>, per: Node -> set<T>, i: nat)
    requires i < |ns|
    ensures Gather(ns[..i + 1], per) == Gather(ns[..i], per) + per(ns[i])
  {
    assert ns[..i + 1][..i] == ns[..i];
  }

  /** Picking less at every visited node collects less over the walk. */
  lemma {:induction false} GatherWithin<T>(ns: seq<Node>, small: Node -> set<T>, big: Node -> set<T>)
    requires forall k :: 0 <= k < |ns| ==> small(ns[k]) <= big(ns[k])
    ensures Gather(ns, small) <= Gather(ns, big)
  {
    if ns != [] {
      GatherWithin(ns[..|ns| - 1], small, big);
    }
  }

  /** The entries of a prefix of an array are entries of the array. */
  lemma EntriesOfWithin(items: seq<Slot>, k: nat)
    requires k <= |items|
    ensures forall m :: m in EntriesOf(items[..k]) ==> m in EntriesOf(items)
    decreases |items| - k
  {
    if k < |items| {
      LeavesOfStep(items, k);
      EntriesOfWithin(items, k + 1);
    } else {
      assert items[..k] == items;
    }
  }

  /** A material entry of an array is one of the array's entries. */
  lemma EntryIn(items: seq<Slot>, j: nat)
    requires j < |items| && items[j].Leaf?
    ensures items[j].mat in EntriesOf(items)
  {
    LeavesOfStep(items, j);
    EntriesOfWithin(items, j + 1);
  }

  /** A slot's materials are objects of the heap it lives in. */
  lemma {:induction false} LeavesAllocated(s: Slot)
    ensures forall m :: m in Leaves(s) ==> allocated(m)
    decreases s, 1
  {
    if s.Group? {
      LeavesOfAllocated(s.items);
    }
  }

  /** Everything a walk holds is an object of the heap the walk lives in. */
  lemma WalkAllocated(ns: seq<Node>)
    ensures forall g :: g in GeometriesOf(ns) ==> allocated(g)
    ensures forall m :: m in MaterialsOf(ns) ==> allocated(m)
  {
    forall g | g in GeometriesOf(ns)
      ensures allocated(g)
    {
      GatherExactly(ns, NodeGeometry, g);
    }
    forall m | m in MaterialsOf(ns)
      ensures allocated(m)
    {
      GatherExactly(ns, NodeMaterials, m);
      var k :| 0 <= k < |ns| && m in NodeMaterials(ns[k]);
      LeavesAllocated(ns[k].material.value);
    }
  }

  lemma {:induction false} LeavesOfAllocated(items: seq<Slot>)
    ensures forall m :: m in LeavesOf(items) ==> allocated(m)
    decreases items, 0
  {
    if items != [] {
      LeavesOfAllocated(items[..|items| - 1]);
      LeavesAllocated(items[|items| - 1]);
    }
  }
}
