/** The light-sweep patch: `applyLightSweepShader` walks an object, collects
    every standard material into the caller's list and installs an
    `onBeforeCompile` hook that shares fresh `time`/`sweepActive` uniforms
    with the shader and with `userData`, and splices GLSL into both stages. */
module LightSweepShader {
  import opened Wrappers
  import opened JsString
  import opened Three

  // ---------------------------------------------------------------------
  // The GLSL text, exactly as the template literals spell it.

  /** A line break followed by `n` spaces: the indentation of the template
      literals. */
  function Newline(n: nat): (r: string)
    ensures |r| == n + 1 && FreeOf(r, '#')
  {
    "\n" + seq(n, _ => ' ')
  }

  const Nl12: string := Newline(12)
  const Nl14: string := Newline(14)
  const Nl16: string := Newline(16)
  const Nl18: string := Newline(18)

  const VertexDeclarations: string := Nl14 + "varying vec3 vWorldPos;" + Nl12

  const WorldPosMarker: string := "#include <worldpos_vertex>"

  /** The world-position write that follows the marker. */
  const WorldPosWrite: string := Nl16 + "vWorldPos = (modelMatrix * vec4(position, 1.0)).xyz;" + Nl14

  /** Replaces the marker: the marker itself, then the world-position write. */
  const WorldPosInjection: string := Nl16 + WorldPosMarker + WorldPosWrite

  const FragmentDeclarations: string :=
    Nl14 + "varying vec3 vWorldPos;" + Nl14 + "uniform float time;" + Nl14 + "uniform float sweepActive;" + Nl12

  const DitheringMarker: string := "#include <dithering_fragment>"

  /** Replaces the marker: the marker itself, then the sweep block (kept as
      opaque text; its arithmetic runs on the GPU). */
  const SweepBlock: string := Nl16 + DitheringMarker + SweepLines

  /** The sweep lines that follow the marker. */
  const SweepLines: string :=
    "\n"
    + Nl16 + "float sweepY = mod(time * 2.0, 10.0) - 5.0;"
    + Nl16 + "float intensity = exp(-10.0 * abs(vWorldPos.y - sweepY));" + "\n"
    + Nl16 + "if (sweepActive > 0.5) {" + Nl18 + "gl_FragColor.rgb += intensity;" + Nl16 + "}" + Nl14

  /** The hook's two assignments to `shader.vertexShader`: prepend the
      declaration, then replace the first marker. Replacing after prepending
      is prepending after replacing: the declaration contains no `#`, so the
      marker replaced is the first one of the original source. */
  function PatchVertex(src: string): (r: string)
    ensures r == VertexDeclarations + ReplaceFirst(src, WorldPosMarker, WorldPosInjection)
  {
    DeclarationsFreeOfHash();
    ReplaceFirstAfterPrefix(VertexDeclarations, src, WorldPosMarker, WorldPosInjection);
    ReplaceFirst(VertexDeclarations + src, WorldPosMarker, WorldPosInjection)
  }

  /** The hook's two assignments to `shader.fragmentShader`, with the same
      commutation: the declarations contain no `#` either. */
  function PatchFragment(src: string): (r: string)
    ensures r == FragmentDeclarations + ReplaceFirst(src, DitheringMarker, SweepBlock)
  {
    DeclarationsFreeOfHash();
    ReplaceFirstAfterPrefix(FragmentDeclarations, src, DitheringMarker, SweepBlock);
    ReplaceFirst(FragmentDeclarations + src, DitheringMarker, SweepBlock)
  }

  // ---------------------------------------------------------------------
  // What the splices do to any source text.

  predicate FreeOf(s: string, c: char)
  {
    forall k :: 0 <= k < |s| ==> s[k] != c
  }

  lemma FreeOfAppend(a: string, b: string, c: char)
    requires FreeOf(a, c) && FreeOf(b, c)
    ensures FreeOf(a + b, c)
  {
    forall k | 0 <= k < |a + b|
      ensures (a + b)[k] != c
    {
      if k < |a| {
        assert (a + b)[k] == a[k];
      } else {
        assert (a + b)[k] == b[k - |a|];
      }
    }
  }

  /** Neither declaration block contains `#`, which starts both markers. */
  lemma DeclarationsFreeOfHash()
    ensures FreeOf(VertexDeclarations, '#') && FreeOf(FragmentDeclarations, '#')
  {
    var v, t, a := "varying vec3 vWorldPos;", "uniform float time;", "uniform float sweepActive;";
    assert FreeOf(v, '#') && FreeOf(t, '#') && FreeOf(a, '#');
    FreeOfAppend(Nl14, v, '#');
    FreeOfAppend(Nl14 + v, Nl12, '#');
    FreeOfAppend(Nl14 + v, Nl14, '#');
    FreeOfAppend(Nl14 + v + Nl14, t, '#');
    FreeOfAppend(Nl14 + v + Nl14 + t, Nl14, '#');
    FreeOfAppend(Nl14 + v + Nl14 + t + Nl14, a, '#');
    FreeOfAppend(Nl14 + v + Nl14 + t + Nl14 + a, Nl12, '#');
  }

  /** Without the marker, the vertex patch only adds the declaration. */
  lemma PatchVertexWithoutMarker(src: string)
    requires forall j :: 0 <= j <= |src| ==> !OccursAt(src, WorldPosMarker, j)
    ensures PatchVertex(src) == VertexDeclarations + src
  {
    ReplaceFirstAbsent(src, WorldPosMarker, WorldPosInjection);
  }

  /** Both injections still contain the marker they replace, 17 code points
      in, so later chunks that expect it still find it. */
  lemma InjectionsKeepMarkers()
    ensures OccursAt(WorldPosInjection, WorldPosMarker, 17)
    ensures OccursAt(SweepBlock, DitheringMarker, 17)
  {
    assert |Nl16| == 17;
    MarkerAfter(Nl16, WorldPosMarker, WorldPosWrite);
    MarkerAfter(Nl16, DitheringMarker, SweepLines);
  }

  lemma MarkerAfter(p: string, pat: string, rest: string)
    ensures OccursAt(p + pat + rest, pat, |p|)
  {
    assert (p + pat + rest)[|p|..|p| + |pat|] == pat;
  }

  /** With its first marker at `i`, the vertex source keeps everything around
      it, and the marker is replaced by itself plus the world-position write. */
  lemma PatchVertexAtFirstMarker(src: string, i: nat)
    requires OccursAt(src, WorldPosMarker, i)
    requires forall j :: 0 <= j < i ==> !OccursAt(src, WorldPosMarker, j)
    ensures PatchVertex(src)
         == VertexDeclarations + src[..i] + WorldPosInjection + src[i + |WorldPosMarker|..]
  {
    DeclarationsFreeOfHash();
    ReplaceAfterPrefixAt(VertexDeclarations, src, WorldPosMarker, WorldPosInjection, i);
  }

  /** Without the marker, the fragment patch only adds the declarations. */
  lemma PatchFragmentWithoutMarker(src: string)
    requires forall j :: 0 <= j <= |src| ==> !OccursAt(src, DitheringMarker, j)
    ensures PatchFragment(src) == FragmentDeclarations + src
  {
    ReplaceFirstAbsent(src, DitheringMarker, SweepBlock);
  }

  /** With its first marker at `i`, the fragment source keeps that marker,
      followed by the sweep block; every later text, other markers included,
      is unchanged. */
  lemma PatchFragmentAtFirstMarker(src: string, i: nat)
    requires OccursAt(src, DitheringMarker, i)
    requires forall j :: 0 <= j < i ==> !OccursAt(src, DitheringMarker, j)
    ensures PatchFragment(src)
         == FragmentDeclarations + src[..i] + SweepBlock + src[i + |DitheringMarker|..]
  {
    DeclarationsFreeOfHash();
    ReplaceAfterPrefixAt(FragmentDeclarations, src, DitheringMarker, SweepBlock, i);
  }

  // ---------------------------------------------------------------------
  // The compile hook.

  /** Fresh uniforms as the literal builds them: two distinct cells, both 0. */
  predicate Initialised(u: SweepUniforms)
    reads u.time, u.sweepActive
  {
    u.time != u.sweepActive && u.time.value == 0.0 && u.sweepActive.value == 0.0
  }

  /** `m` carries a sweep hook whose uniforms, and both their cells, were
      created since the previous state, and are as the literal builds them. */
  twostate predicate FreshlyArmed(new m: Material)
    reads m`onBeforeCompile, if m.onBeforeCompile.SweepHook? then {m.onBeforeCompile.uniforms.time, m.onBeforeCompile.uniforms.sweepActive} else {}
  {
    && m.onBeforeCompile.SweepHook?
    && fresh(m.onBeforeCompile.uniforms)
    && fresh(m.onBeforeCompile.uniforms.time) && fresh(m.onBeforeCompile.uniforms.sweepActive)
    && Initialised(m.onBeforeCompile.uniforms)
  }

  /** The light-sweep hook, run on the shader three.js is about to compile.
      The shader's `time`/`sweepActive` and `userData.sweepUniforms` become the
      very cells the closure captured, and both sources are patched. */
  method RunSweepHook(mat: Material, uniforms: SweepUniforms, shader: Shader)
    modifies shader, mat`sweepUniforms
    ensures shader.uniforms == old(shader.uniforms)["time" := uniforms.time]["sweepActive" := uniforms.sweepActive]
    ensures mat.sweepUniforms == Some(uniforms)
    ensures shader.vertexShader == PatchVertex(old(shader.vertexShader))
    ensures shader.fragmentShader == PatchFragment(old(shader.fragmentShader))
  {
    shader.uniforms := shader.uniforms["time" := uniforms.time];
    shader.uniforms := shader.uniforms["sweepActive" := uniforms.sweepActive];
    mat.sweepUniforms := Some(uniforms);
    shader.vertexShader := PatchVertex(shader.vertexShader);
    shader.fragmentShader := PatchFragment(shader.fragmentShader);
  }

  /** three.js calling `material.onBeforeCompile(shader)`: the default hook
      does nothing; an installed sweep hook runs with its captured uniforms. */
  method Compile(mat: Material, shader: Shader)
    modifies shader, mat`sweepUniforms
    ensures mat.onBeforeCompile.DefaultHook? ==>
              mat.sweepUniforms == old(mat.sweepUniforms) && unchanged(shader)
    ensures mat.onBeforeCompile.SweepHook? ==>
              var u := mat.onBeforeCompile.uniforms;
              && mat.sweepUniforms == Some(u)
              && shader.uniforms == old(shader.uniforms)["time" := u.time]["sweepActive" := u.sweepActive]
              && shader.vertexShader == PatchVertex(old(shader.vertexShader))
              && shader.fragmentShader == PatchFragment(old(shader.fragmentShader))
  {
    match mat.onBeforeCompile
    case DefaultHook =>
    case SweepHook(u) =>
      RunSweepHook(mat, u, shader);
  }

  // ---------------------------------------------------------------------
  // The walk that installs the hook.

  /** The caller-owned `sweepMaterials` array. */
  class MaterialList {
    var items: seq<Material>

    constructor ()
      ensures items == []
    {
      items := [];
    }
  }

  /** The materials one visited node contributes: for a mesh with a material,
      the standard entries of its array, or the material itself; nested
      arrays are entries that are not materials. */
  function NodeSweepTargets(n: Node): seq<Material>
  {
    if n.isMesh && n.material.Some? then StandardOnly(Entries(n.material.value)) else []
  }

  /** The materials a walk contributes, in traversal then slot order. */
  function SweepTargetsOf(ns: seq<Node>): seq<Material>
  {
    if ns == [] then [] else SweepTargetsOf(ns[..|ns| - 1]) + NodeSweepTargets(ns[|ns| - 1])
  }

  /** What `applyLightSweepShader(obj, list)` appends to `list`. */
  function SweepTargets(obj: Node): seq<Material>
  {
    SweepTargetsOf(Traverse(obj))
  }

  function SetOf(ms: seq<Material>): set<Material>
  {
    set m | m in ms
  }

  lemma SweepTargetsStep(ns: seq<Node>, i: nat)
    requires i < |ns|
    ensures SweepTargetsOf(ns[..i + 1]) == SweepTargetsOf(ns[..i]) + NodeSweepTargets(ns[i])
  {
    assert ns[..i + 1][..i] == ns[..i];
  }

  /** A node contributes exactly the standard materials of its slot's
      entries, and only if it is a mesh: there is no name filter. */
  lemma NodeSweepTargetsExactly(n: Node, m: Material)
    ensures m in NodeSweepTargets(n) <==>
              n.isMesh && n.material.Some? && m in Entries(n.material.value) && m.isStandard
  {
    if n.isMesh && n.material.Some? {
      StandardOnlyMembers(Entries(n.material.value), m);
    }
  }

  /** A walk contributes a material exactly when some visited node does. */
  lemma {:induction false} SweepTargetsExactly(ns: seq<Node>, m: Material)
    ensures m in SweepTargetsOf(ns) <==> exists k :: 0 <= k < |ns| && m in NodeSweepTargets(ns[k])
  {
    if ns != [] {
      var init := ns[..|ns| - 1];
      SweepTargetsExactly(init, m);
      if m in SweepTargetsOf(init) {
        var k :| 0 <= k < |init| && m in NodeSweepTargets(init[k]);
        assert ns[k] == init[k];
      }
      if exists k :: 0 <= k < |ns| && m in NodeSweepTargets(ns[k]) {
        var k :| 0 <= k < |ns| && m in NodeSweepTargets(ns[k]);
        if k < |init| {
          assert init[k] == ns[k];
        }
      }
    }
  }

  /** Each visited node's contribution is part of the walk's. */
  lemma {:induction false} SweepTargetsContain(ns: seq<Node>, k: nat)
    requires k < |ns|
    ensures forall m :: m in NodeSweepTargets(ns[k]) ==> m in SweepTargetsOf(ns)
  {
    if k < |ns| - 1 {
      SweepTargetsContain(ns[..|ns| - 1], k);
    }
  }

  lemma NodeSweepTargetsAllocated(n: Node)
    ensures forall m :: m in NodeSweepTargets(n) ==> allocated(m)
  {
    if n.isMesh && n.material.Some? {
      LeavesAllocated(n.material.value);
      EntriesAreLeaves(n.material.value);
      forall m | m in NodeSweepTargets(n)
        ensures allocated(m)
      {
        StandardOnlyMembers(Entries(n.material.value), m);
      }
    }
  }

  /** The entries the forEach of one mesh walks: the array, or a one-element
      array holding the single material. */
  function SlotEntries(s: Slot): (r: seq<Slot>)
    ensures EntriesOf(r) == Entries(s)
  {
    if s.Group? then s.items else assert EntriesOf([s]) == EntriesOf([]) + [s.mat]; [s]
  }

  /** The standard entries of a prefix one entry longer; the new one is an
      entry of the whole array. */
  lemma TargetsStep(items: seq<Slot>, j: nat)
    requires j < |items|
    ensures StandardOnly(EntriesOf(items[..j + 1]))
         == StandardOnly(EntriesOf(items[..j]))
            + (if items[j].Leaf? && items[j].mat.isStandard then [items[j].mat] else [])
    ensures items[j].Leaf? ==> items[j].mat in EntriesOf(items)
  {
    LeavesOfStep(items, j);
    if items[j].Leaf? {
      StandardOnlyStep(EntriesOf(items[..j]), items[j].mat);
      assert items[j].mat in EntriesOf(items[..j + 1]);
      EntriesOfWithin(items, j + 1);
    } else {
      assert EntriesOf(items[..j + 1]) == EntriesOf(items[..j]);
    }
  }

  /** One `forEach` step on a standard material: fresh uniforms, a hook
      that captures them, and a push onto the list. */
  method InstallHook(mat: Material, list: MaterialList)
    modifies list, mat`onBeforeCompile
    ensures list.items == old(list.items) + [mat]
    ensures FreshlyArmed(mat)
  {
    var time := new UniformCell(0.0);
    var sweepActive := new UniformCell(0.0);
    var uniforms := new SweepUniforms(time, sweepActive);
    mat.onBeforeCompile := SweepHook(uniforms);
    list.items := list.items + [mat];
  }

  /** The cells of the sweep hook that `m` carries; none for the default
      hook. */
  function HookCells(m: Material): set<UniformCell>
    reads m`onBeforeCompile
  {
    match m.onBeforeCompile
    case DefaultHook => {}
    case SweepHook(u) => {u.time, u.sweepActive}
  }

  /** Distinct materials of `ms` carry hooks over disjoint cells: each has
      uniforms of its own, so writing one material's `time` or `sweepActive`
      never changes another's. */
  predicate OwnCells(ms: seq<Material>)
    reads ms
  {
    forall m1, m2 :: m1 in ms && m2 in ms && m1 != m2 ==> HookCells(m1) !! HookCells(m2)
  }

  /** The standard material an entry contributes, if it is one. */
  function EntryTarget(e: Slot): seq<Material>
  {
    if e.Leaf? && e.mat.isStandard then [e.mat] else []
  }

  /** The `forEach` body for one entry. `prior` are materials armed
      earlier, whose cells stay apart from the new ones. */
  method PatchEntry(e: Slot, list: MaterialList, ghost prior: seq<Material>)
    requires OwnCells(prior)
    modifies list, SetOf(EntryTarget(e))`onBeforeCompile
    ensures list.items == old(list.items) + EntryTarget(e)
    ensures forall m :: m in EntryTarget(e) ==> FreshlyArmed(m)
    ensures OwnCells(prior + EntryTarget(e))
  {
    if e.Leaf? && e.mat.isStandard {
      InstallHook(e.mat, list);
      // The new cells did not exist before the call; every other material
      // kept its hook, whose cells did.
      forall m1, m2 | m1 in prior + [e.mat] && m2 in prior + [e.mat] && m1 != m2
        ensures HookCells(m1) !! HookCells(m2)
      {
        if m1 == e.mat || m2 == e.mat {
          var m := if m1 == e.mat then m2 else m1;
          assert m in prior && m.onBeforeCompile == old(m.onBeforeCompile);
          if m.onBeforeCompile.SweepHook? {
            assert old(allocated(m.onBeforeCompile.uniforms));
          }
        } else {
          assert HookCells(m1) == old(HookCells(m1)) && HookCells(m2) == old(HookCells(m2));
        }
      }
    } else {
      assert prior + [] == prior;
    }
  }

  /** The `forEach` over one mesh's entries: each standard material entry
      gets fresh uniforms and a hook, in entry order; other entries, nested
      arrays included, are skipped. The new cells are apart from each other
      and from those of the `prior` materials. */
  method PatchEntries(materials: seq<Slot>, list: MaterialList, ghost prior: seq<Material>)
    requires OwnCells(prior)
    modifies list, SetOf(StandardOnly(EntriesOf(materials)))`onBeforeCompile
    ensures list.items == old(list.items) + StandardOnly(EntriesOf(materials))
    ensures forall m :: m in StandardOnly(EntriesOf(materials)) ==> FreshlyArmed(m)
    ensures OwnCells(prior + StandardOnly(EntriesOf(materials)))
  {
    ghost var done: seq<Material> := [];
    var j := 0;
    assert materials[..0] == [];
    while j < |materials|
      invariant 0 <= j <= |materials|
      invariant done == StandardOnly(EntriesOf(materials[..j]))
      invariant list.items == old(list.items) + done
      invariant forall k :: 0 <= k < |done| ==> FreshlyArmed(done[k])
      invariant OwnCells(prior + done)
    {
      TargetsStep(materials, j);
      if materials[j].Leaf? && materials[j].mat.isStandard {
        StandardOnlyMembers(EntriesOf(materials), materials[j].mat);
      }
      label Head:
      PatchEntry(materials[j], list, prior + done);
      AppendAssoc(old(list.items), done, EntryTarget(materials[j]));
      AppendAssoc(prior, done, EntryTarget(materials[j]));
      ghost var before := done;
      done := done + EntryTarget(materials[j]);
      forall k | 0 <= k < |done|
        ensures FreshlyArmed(done[k])
      {
        if k < |before| && !(done[k] in EntryTarget(materials[j])) {
          var m := done[k];
          assert m.onBeforeCompile == old@Head(m.onBeforeCompile);
          var u := m.onBeforeCompile.uniforms;
          assert u.time.value == old@Head(u.time.value) && u.sweepActive.value == old@Head(u.sweepActive.value);
        }
      }
      j := j + 1;
    }
    WholePrefix(materials);
  }

  lemma WholePrefix(items: seq<Slot>)
    ensures StandardOnly(EntriesOf(items[..|items|])) == StandardOnly(EntriesOf(items))
  {
    assert items[..|items|] == items;
  }

  /** The traverse callback for one node: a mesh with a material has its
      entries patched; any other node is left alone. */
  method PatchVisit(child: Node, list: MaterialList, ghost prior: seq<Material>)
    requires OwnCells(prior)
    modifies list, SetOf(NodeSweepTargets(child))`onBeforeCompile
    ensures list.items == old(list.items) + NodeSweepTargets(child)
    ensures forall m :: m in NodeSweepTargets(child) ==> FreshlyArmed(m)
    ensures OwnCells(prior + NodeSweepTargets(child))
  {
    if child.isMesh && child.material.Some? {
      PatchEntries(SlotEntries(child.material.value), list, prior);
    } else {
      assert prior + [] == prior;
    }
  }

  /** `applyLightSweepShader(obj, list)`: the callback above on every node of
      `obj`, in traversal order. The list gains exactly the standard materials
      of `obj`'s meshes, after what it already held; each of them ends up with
      a hook over uniforms of its own, created by this call. A material that
      occurs twice is pushed twice and keeps the hook installed last. Nothing
      else changes: in particular `userData.sweepUniforms` is left for the
      hook to set when the shader compiles. */
  method ApplyLightSweepShader(obj: Node, list: MaterialList)
    modifies list, SetOf(SweepTargets(obj))`onBeforeCompile
    ensures list.items == old(list.items) + SweepTargets(obj)
    ensures forall m :: m in SweepTargets(obj) ==> FreshlyArmed(m)
    ensures OwnCells(SweepTargets(obj))
  {
    var walk := Traverse(obj);
    ghost var done: seq<Material> := [];
    var i := 0;
    assert walk[..0] == [];
    while i < |walk|
      invariant 0 <= i <= |walk|
      invariant done == SweepTargetsOf(walk[..i])
      invariant list.items == old(list.items) + done
      invariant forall m :: m in done ==> FreshlyArmed(m)
      invariant OwnCells(done)
    {
      SweepTargetsStep(walk, i);
      SweepTargetsContain(walk, i);
      NodeSweepTargetsAllocated(walk[i]);
      label Head:
      PatchVisit(walk[i], list, done);
      AppendAssoc(old(list.items), done, NodeSweepTargets(walk[i]));
      ghost var before := done;
      done := done + NodeSweepTargets(walk[i]);
      forall m | m in done
        ensures FreshlyArmed(m)
      {
        if m in before && !(m in NodeSweepTargets(walk[i])) {
          assert m.onBeforeCompile == old@Head(m.onBeforeCompile);
          var u := m.onBeforeCompile.uniforms;
          assert u.time.value == old@Head(u.time.value) && u.sweepActive.value == old@Head(u.sweepActive.value);
        }
      }
      i := i + 1;
    }
    WholeWalk(walk);
  }

  /** Applying twice pushes every target a second time; each ends with a
      hook over uniforms created by these calls. */
  method ApplyTwice(obj: Node, list: MaterialList)
    modifies list, SetOf(SweepTargets(obj))`onBeforeCompile
    ensures list.items == old(list.items) + SweepTargets(obj) + SweepTargets(obj)
    ensures forall m :: m in SweepTargets(obj) ==> FreshlyArmed(m)
    ensures OwnCells(SweepTargets(obj))
  {
    ApplyLightSweepShader(obj, list);
    ApplyLightSweepShader(obj, list);
  }

  /** A target of the patch, compiled afterwards: `userData.sweepUniforms`
      and the shader's two uniforms are then the very cells the patch
      created, still at 0. */
  method ApplyThenCompile(obj: Node, list: MaterialList, m: Material, shader: Shader)
    requires m in SweepTargets(obj)
    modifies list, SetOf(SweepTargets(obj))`onBeforeCompile, shader, m`sweepUniforms
    ensures m.sweepUniforms.Some? && fresh(m.sweepUniforms.value)
    ensures "time" in shader.uniforms && shader.uniforms["time"] == m.sweepUniforms.value.time
    ensures "sweepActive" in shader.uniforms && shader.uniforms["sweepActive"] == m.sweepUniforms.value.sweepActive
    ensures shader.uniforms["time"].value == 0.0 && shader.uniforms["sweepActive"].value == 0.0
    ensures shader.uniforms["time"] != shader.uniforms["sweepActive"]
  {
    ApplyLightSweepShader(obj, list);
    Compile(m, shader);
  }

  lemma AppendAssoc(a: seq<Material>, b: seq<Material>, c: seq<Material>)
    ensures a + b + c == a + (b + c)
  {
  }

  lemma WholeWalk(walk: seq<Node>)
    ensures SweepTargetsOf(walk[..|walk|]) == SweepTargetsOf(walk)
  {
    assert walk[..|walk|] == walk;
  }
}
