# Porsche showcase: the scene, shader and control logic in Dafny

The site shows a Porsche on top of three.js. Most of its code configures
libraries. This project models the few pieces that hold logic of their own:

- **The two scenes' material walks.**
  - `setCarColor` re-colours the car paint. The main scene flattens nested material arrays first; the example scene looks one array level deep.
  - `dispose` frees every geometry of the car, and every material held as a node's material or as a direct entry of its array; materials in nested arrays are not freed.
  - `load` attaches the models once both have loaded.
- **The main scene's `update`.** It writes the sweep uniforms of every patched material, then takes the hover state.
- **The light-sweep patch.** It collects the standard materials of an object into a caller-owned list. It installs an `onBeforeCompile` hook that shares fresh uniform cells with the shader and with `userData`. The hook also splices GLSL text into both shader stages: it prepends declarations and replaces the first marker only, as `String.prototype.replace` does with a string pattern.
- **The camera controller.** Its initial limits, `start`/`stop`, and the scroll lock: while the last page section straddles the middle of the viewport, the polar angle is pinned.
- **The colour picker.** It turns `#rrggbb` into a number by replacing its first `#` with `0x` and parsing in radix 16.

## Layout

| file | module | contents |
|---|---|---|
| wrappers.dfy | Wrappers | `Option`, `Outcome` (pass, or an error) |
| js_string.dfy | JsString | first-occurrence `indexOf` and string-pattern `replace` (ECMA-262, 2024 edition, section 22.1.3.19) |
| js_number.dfy | JsNumber | `Num` (an integer or NaN) and `parseInt(s, 16)` (ECMA-262, 2024 edition, section 19.2.5) |
| three.dfy | Three | stand-ins for three.js |
| scene_walks.dfy | SceneWalks | the walk and the `dispose` callback both scenes share, the `load` input |
| light_sweep_shader.dfy | LightSweepShader | the GLSL splices, the hook, the collecting walk |
| main_scene.dfy | MainScene | class `MainScene`: `load`, `update`, `dispose`, `setCarColor` |
| example_scene.dfy | ExampleScene | class `ExampleScene`: `load`, `dispose`, the one-level `setCarColor` |
| controls.dfy | Controls | class `Controls` |
| color_picker.dfy | ColorPicker | class `ColorPicker` |

The three.js stand-ins are:

- classes for materials, geometries, uniform cells and the shader object, because their identity matters: a material can be shared between meshes, and a uniform cell is shared between a closure, the shader and `userData`;
- a `Slot` datatype for a mesh's `material` value: one material, or an array that may nest arrays;
- a `Node` datatype for the scene graph;
- `Traverse`, which is pre-order: the node, then each child's subtree in order.

Each operation of the source is a method over this state. Each method's
`ensures` ties the new state to a specification function: `SweepTargets`,
`PaintTargets`, `PatchVertex`, `LockState`, and so on. Lemmas state what
those functions mean. A method's `modifies` clause is part of what it
promises: what it does not name keeps its value.

Promises expressed through frames:

- `setCarColor` re-colours only its targets, so no other material changes colour. With no model loaded, its targets are the empty set, so nothing changes.
- The engine is never walked.
- `applyLightSweepShader` does not touch `userData.sweepUniforms`. Only the hook, run by `Compile`, sets it.

## Model

| member | source | states |
|---|---|---|
| JsString.IndexOf | src/shaders/lightSweepShader.ts:40-46 | the result is an index where the pattern occurs with no occurrence before it; `None` exactly when the pattern occurs nowhere |
| JsString.ReplaceFirst | src/shaders/lightSweepShader.ts:40-67 | both shader splices, and equally the colour picker's `#` to `0x` (src/ColorPicker.ts:24): without an occurrence the input is returned; otherwise the text before the first occurrence and after it are kept, the replacement sits at that index, and the length changes by the difference of the two lengths |
| JsString.ReplaceFirstAt | src/shaders/lightSweepShader.ts:40-46 | with the first occurrence at `i`, `replace` keeps the text before `i` and after the occurrence and puts the replacement in between |
| JsString.ReplaceFirstAbsent | src/shaders/lightSweepShader.ts:40-46 | without an occurrence `replace` returns its input |
| JsString.ReplaceFirstAfterPrefix | src/shaders/lightSweepShader.ts:35-46 | prepending a text free of the pattern's first character commutes with `replace`: the marker replaced is the original source's first |
| JsString.ReplaceAfterPrefixAbsent | src/shaders/lightSweepShader.ts:35-46 | with no marker in the source, the prepended text brings none either, so `replace` returns the whole concatenation unchanged |
| JsNumber.TrimStart | src/ColorPicker.ts:24 | `parseInt`'s trimming removes exactly the leading white space: all removed code points are white space and the rest does not start with one |
| JsNumber.ParseInt16 | src/ColorPicker.ts:24 | NaN for empty or all-white-space input and when the first non-space code point is neither a hex digit nor a sign; a negative result needs a leading `-` |
| JsNumber.HexDigitsPrefix | src/ColorPicker.ts:24 | parsing reads the longest prefix of radix-16 digits and stops at the first other code point |
| JsNumber.HexValueConcat | src/ColorPicker.ts:24 | the digits of a concatenation denote the left part shifted by one hex place per right digit, plus the right part |
| JsNumber.HexValueBound | src/ColorPicker.ts:24 | `n` digits denote less than 16^n |
| JsNumber.ParseHexLiteral | src/ColorPicker.ts:24 | `parseInt("0x" + d, 16)` is the value of the digits `d` |
| JsNumber.HexValueIgnoresCase | src/ColorPicker.ts:24 | digit strings that differ only in the case of `A`-`F` denote the same number |
| Three.Traverse | src/shaders/lightSweepShader.ts:16 | the walk starts at the node itself and visits every child |
| Three.TraverseAll | src/shaders/lightSweepShader.ts:16 | every node of the list is visited |
| Three.StandardOnlyMembers | src/shaders/lightSweepShader.ts:23 | the `instanceof MeshStandardMaterial` filter keeps a material iff it is in the list and standard |
| Three.StandardOnlyAppend | src/scenes/MainScene.ts:179-182 | the filter distributes over concatenation, so filtering per array entry equals filtering the flattened list |
| Three.EntriesOfFlat | src/scenes/ExampleScene.ts:173-181 | without arrays inside arrays, the one-level walk and the deep walk see the same materials in the same order |
| Three.EntriesAreLeaves | src/scenes/ExampleScene.ts:173-181 | whatever the one-level walk sees, the deep walk sees too |
| SceneWalks.DisposeVisit | src/scenes/MainScene.ts:157-166 | the callback frees the node's geometry if it has one, and its material or every material entry of its array |
| SceneWalks.DisposeModel | src/scenes/MainScene.ts:156-167 | every geometry the car's walk holds is freed, and every material held as a node's material or as a direct entry of its array; materials in nested arrays are not; with no model the frame is empty and nothing changes |
| SceneWalks.DisposedExactly | src/scenes/ExampleScene.ts:152-164 | a material is freed iff a visited node holds it as its material or as an entry of its array, whatever its name or kind |
| SceneWalks.DisposedAreReachable | src/scenes/MainScene.ts:156-167 | what is freed is reachable from the car, so a material only the engine holds is never freed |
| LightSweepShader.PatchVertex | src/shaders/lightSweepShader.ts:35-46 | the patched vertex source is the declaration followed by the original source with the original's first `#include <worldpos_vertex>` replaced |
| LightSweepShader.PatchFragment | src/shaders/lightSweepShader.ts:48-67 | the patched fragment source is the declarations followed by the original source with the original's first `#include <dithering_fragment>` replaced |
| LightSweepShader.PatchVertexWithoutMarker | src/shaders/lightSweepShader.ts:35-46 | without `#include <worldpos_vertex>` the vertex patch only prepends the declaration |
| LightSweepShader.PatchVertexAtFirstMarker | src/shaders/lightSweepShader.ts:35-46 | with the first marker at `i`, the vertex source keeps all text around it and the marker becomes itself plus the world-position write |
| LightSweepShader.PatchFragmentWithoutMarker | src/shaders/lightSweepShader.ts:48-67 | without `#include <dithering_fragment>` the fragment patch only prepends the declarations |
| LightSweepShader.PatchFragmentAtFirstMarker | src/shaders/lightSweepShader.ts:48-67 | with the first marker at `i`, the fragment source keeps all text around it, later markers included, and the marker becomes itself plus the sweep block |
| LightSweepShader.InjectionsKeepMarkers | src/shaders/lightSweepShader.ts:40-67 | both injected texts still contain the marker they replace |
| LightSweepShader.RunSweepHook | src/shaders/lightSweepShader.ts:29-67 | the shader's `time` and `sweepActive` and `userData.sweepUniforms` become the captured cells; both sources become their patched form |
| LightSweepShader.Compile | src/shaders/lightSweepShader.ts:29-68 | with the default hook nothing changes; with the sweep hook the effects of `RunSweepHook` with the captured uniforms |
| LightSweepShader.NodeSweepTargetsExactly | src/shaders/lightSweepShader.ts:17-23 | a node contributes a material iff the node is a mesh with a material and the material is a standard entry of it; there is no name filter |
| LightSweepShader.SweepTargetsExactly | src/shaders/lightSweepShader.ts:16-23 | a walk contributes a material iff some visited node does |
| LightSweepShader.InstallHook | src/shaders/lightSweepShader.ts:24-70 | one standard material gets a hook over two fresh, distinct cells at 0 and is pushed onto the list |
| LightSweepShader.PatchEntry | src/shaders/lightSweepShader.ts:22-71 | one `forEach` step: a standard material is pushed once and armed with a fresh hook; any other entry leaves the list as it was; materials listed before keep uniform cells disjoint from each other and from the new ones |
| LightSweepShader.PatchEntries | src/shaders/lightSweepShader.ts:18-72 | the list gains the standard entries of one mesh in entry order, each with a fresh hook; no two distinct materials share a uniform cell, counting those listed before; nested arrays are skipped |
| LightSweepShader.PatchVisit | src/shaders/lightSweepShader.ts:16-73 | a mesh with a material has its entries patched, keeping distinct materials' cells disjoint; any other node adds nothing |
| LightSweepShader.ApplyLightSweepShader | src/shaders/lightSweepShader.ts:12-75 | the list keeps its entries and gains exactly the sweep targets, in traversal then slot order; each target ends with a hook over fresh cells at 0, and no two distinct targets share a uniform cell |
| LightSweepShader.ApplyTwice | src/shaders/lightSweepShader.ts:22-70 | applying twice pushes every target a second time and each keeps a hook made by these calls; distinct targets still share no cell |
| LightSweepShader.ApplyThenCompile | src/shaders/lightSweepShader.ts:24-33 | after the patch and a compile, `userData.sweepUniforms` and the shader's two uniforms are the same fresh distinct cells, still 0 |
| MainScene.FlattenMaterials | src/scenes/MainScene.ts:179-184 | the closure appends, in order, the standard materials of the slot found at any depth |
| MainScene.NodePaintExactly | src/scenes/MainScene.ts:173-190 | a node re-colours a material iff the node has a material and the material is standard, named `EXT_Carpaint_Inst`, and found at any depth of the slot |
| MainScene.PaintExactly | src/scenes/MainScene.ts:173-191 | the walk re-colours a material iff it is standard and named `EXT_Carpaint_Inst` and some visited node holds it at any depth of its slot |
| MainScene.PaintIsCarPaint | src/scenes/MainScene.ts:186-190 | only standard materials named as the paint are re-coloured |
| MainScene.PaintVisit | src/scenes/MainScene.ts:174-190 | the callback gives the colour to every paint of the node's flattened slot and skips a node without a material |
| MainScene.MainScene.SetCarColor | src/scenes/MainScene.ts:170-192 | every paint target of the car gets the colour; nothing else is modified, and without a car the frame is empty |
| MainScene.SetCarColorTwice | src/scenes/MainScene.ts:188 | the colour is assigned: after two calls the paint holds the second colour |
| MainScene.ActiveFlag | src/scenes/MainScene.ts:137 | the flag is 0 or 1 and exceeds the shader's 0.5 threshold iff the scene was hovered |
| MainScene.SweepWrite | src/scenes/MainScene.ts:135-138 | one material's record gets both values, and every record written before keeps its values, because no earlier cell is the other kind of cell here |
| MainScene.SweepAll | src/scenes/MainScene.ts:134-139 | after the `forEach`, every record the hook has set holds the given `time` and flag |
| MainScene.MainScene.Update | src/scenes/MainScene.ts:134-145 | each listed material with `userData.sweepUniforms` gets `time = elapsed * 0.001` and the flag of the hover state from before the call; the hover state becomes the hit only while a car is loaded |
| MainScene.MainScene.Load | src/scenes/MainScene.ts:87-123 | a rejection changes nothing and is rethrown; otherwise both models are placed and added, `sweepMaterials` gains exactly the car's sweep targets, each armed with fresh cells at 0 that no other target shares, and an animation import failure is rethrown |
| MainScene.MainScene.Dispose | src/scenes/MainScene.ts:153-168 | every geometry of the car and every material held as a node's material or as a direct entry of its array is freed; materials in nested arrays are not |
| MainScene.MainScene.constructor | src/scenes/MainScene.ts:33-45 | no models, not hovered, an empty `sweepMaterials` |
| ExampleScene.PaintExactly | src/scenes/ExampleScene.ts:168-191 | the walk re-colours a material iff it is the paint and a visited node holds it as its material or a direct entry of its array |
| ExampleScene.SameTargetsWhenFlat | src/scenes/ExampleScene.ts:168-191 | on walks without nested arrays the two scenes re-colour the same materials |
| ExampleScene.NestedPaintDiffers | src/scenes/ExampleScene.ts:173-181 | the paint inside an inner array is re-coloured by the main scene and not by this one |
| ExampleScene.PaintVisit | src/scenes/ExampleScene.ts:171-188 | the callback gives the colour to the single material or each direct entry when it is the paint |
| ExampleScene.ExampleScene.SetCarColor | src/scenes/ExampleScene.ts:168-191 | every paint target gets the colour; nothing else is modified, and without a car the frame is empty |
| ExampleScene.ExampleScene.Load | src/scenes/ExampleScene.ts:88-129 | a rejection changes nothing and is rethrown; otherwise both models are placed and added, and an animation import failure is rethrown |
| ExampleScene.ExampleScene.Dispose | src/scenes/ExampleScene.ts:150-166 | every geometry of the car and every material held as a node's material or as a direct entry of its array is freed; materials in nested arrays are not |
| ExampleScene.ExampleScene.constructor | src/scenes/ExampleScene.ts:28-29 | no car and no engine model |
| Controls.LockedScrollRange | src/Controls.ts:77-86 | for a section at document offsets `top` and `bottom`, the lock holds at scroll offset `y` iff `top - h/2 < y < bottom - h/2`: one open interval of scroll positions |
| Controls.NoHeightNeverLocks | src/Controls.ts:85 | a section with no height never locks |
| Controls.LockedScrollConvex | src/Controls.ts:77-86 | scrolling between two locked positions never unlocks |
| Controls.EdgeOnMiddleIsOutside | src/Controls.ts:85 | a section whose edge lies on the middle line is outside |
| Controls.Controls.constructor | src/Controls.ts:44-66 | wheel and two-finger actions are none, distance in [8, 15], polar angle in [pi/4, 3pi/4], camera at (10, 2, 10) aimed at the origin, disabled |
| Controls.Controls.Start | src/Controls.ts:68-71 | afterwards the controls listen on their element exactly once |
| Controls.Controls.Stop | src/Controls.ts:73-75 | afterwards the controls listen on nothing |
| Controls.Controls.Update | src/Controls.ts:88-105 | in the section: enabled with both polar bounds at the current angle; elsewhere: disabled with bounds -infinity and +infinity |
| Controls.LockBounds | src/Controls.ts:89-104 | locked, the bounds admit only the current angle; unlocked, every angle |
| Controls.EnabledIffPinned | src/Controls.ts:89-104 | input is enabled iff the bounds collapse to one finite angle |
| Controls.UpdateForgetsHistory | src/Controls.ts:88-105 | two controllers in any states agree after the same `update`: there is no hysteresis |
| Controls.UpdateTwice | src/Controls.ts:88-105 | repeating `update` with the same inputs leaves the state one call gives |
| ColorPicker.ColorFromInput | src/ColorPicker.ts:24 | without a `#` the input itself is parsed; with a leading `#` the string parsed is `0x` followed by the rest |
| ColorPicker.HashBecomesHexPrefix | src/ColorPicker.ts:24 | for `#` followed by digits, the string parsed is `0x` followed by the same digits |
| ColorPicker.SixDigitColour | src/ColorPicker.ts:24 | `#rrggbb` gives r * 65536 + g * 256 + b, which lies in [0, 0xFFFFFF] |
| ColorPicker.CaseDoesNotMatter | src/ColorPicker.ts:24 | inputs that differ only in letter case give the same colour |
| ColorPicker.ColorPicker.UpdateCarColor | src/ColorPicker.ts:23-26 | the scene's paint targets get the parsed number, unchanged |

## Left out

- GLTF loading, progress logging and the `Promise.all` concurrency of `load`: both loads are asynchronous I/O through a library loader. `Load` takes the joined outcome and the outcome of the animation import as inputs.
- The Box3 bounding-box log, `camera.lookAt` and the `CarAnimation` timelines run during `load`: they are logging, library camera state and GSAP configuration.
- The light orbits of both `update` methods, `resize`, and `onMouseMove`: they are floating-point trigonometry and viewport maths. The example scene's `update` touches nothing else, so it is not modelled.
- The raycast: `MainScene.MainScene.Update` takes its result as the boolean `hit`.
- The GLSL sweep maths: the injected text is opaque; only its splicing is modelled.
- `super.update(delta / 1000)` in `Controls.update`: it is camera-controls damping physics. The boolean it returns is not modelled.
- Floating point: reals are exact here. The model does not capture rounding of `Math.PI / 4`, `3 * Math.PI / 4` or `elapsed * 0.001`, or any rounding of `parseInt` results above 2^53.
- `Color.setHex`: a material's `color` records the number handed to it, not the RGB floats three.js derives from it.
- DOM listener wiring (`mousemove`, the picker's `input` event, `querySelector`) and `window.removeEventListener` in `dispose`: they are DOM glue.
- Null or undefined entries in material arrays: every entry is a material or an array. On such an entry the example scene's `setCarColor` would throw.
- Replacement strings with `$` patterns: no replacement in this program contains `$`.
- Strings are sequences of code points, not of UTF-16 code units. Every string the program handles is ASCII.
- `Object3D.add` of an object that already has a parent moving it: the models are fresh when added.
- src/App.ts, src/index.ts, src/animations/CarAnimation.ts and vite.config.ts are not part of this model. App.ts hands the main scene to the picker; `ColorPicker.PaintedScene` accepts either scene for that reason.
- MainScene.MainScene.Update: it requires that no material's `time` cell is another material's `sweepActive` cell. `Load` proves that the hooks it installs have pairwise disjoint cells, but the model does not carry that into `userData.sweepUniforms`, which the hook sets at compile time, across later compiles and updates.
- The five lights each scene's constructor adds (src/scenes/MainScene.ts:67, src/scenes/ExampleScene.ts:66): `children` starts empty here, because lights hold no logic the model needs; `Load` appends the two models after whatever `children` holds.
- ColorPicker.ColorPicker.UpdateCarColor: the contract does not say that `setCarColor` is called exactly once per call. It states the resulting colours, which repeated calls would not change.
