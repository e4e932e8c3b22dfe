# UR10 + Shadow Hand composer, modelled in Dafny

This project models the logic of the composer script
`source/xr10_shadow_hand/scripts/combine_models.py`. The script builds one USD
scene from a UR10 robot arm asset and a Shadow Hand asset. It references the
arm at `/ur10`, then looks for the arm's end-effector frame. It mounts the hand
under that frame at `<frame>/shadow_hand`, with a fixed rotation of
(90, 0, 180) and a zero translation, and saves the result. The script also
selects joint prims for a manual movement check.

USD is replaced by an abstract stage: a finite map from path strings to prim
records (path, name, type name, ordered child paths). A prim is valid exactly
when its path is a key. `WellFormed` states what every real stage guarantees.
Each record sits at its own path. Every listed child is valid, and its path is
its parent's path followed by `/` and its name. The pseudo-root is the empty
path `""`, so the top-level prim `/ur10` is `ChildPath("", "ur10")`.

Modules, in the order they build on each other:

- `Strings` (strings.dfy): ASCII lower-casing and substring containment. These model Python's `str.lower` and `in` on strings.
- `Seqs` (seqs.dfy): order-preserving `Filter`, which models a list comprehension with a condition, plus its membership, subsequence, multiplicity, last-element and agreement lemmas.
- `Scene` (scene.dfy): the abstract stage, `GetChildren`, and the effect of `DefinePrim` on the map.
- `EndEffector` (end_effector.dfy): `find_end_effector` and every one of its outcomes.
- `Composition` (composition.dfy): the output stage as a class. Its methods mirror the USD calls the composer makes. `CombineModels` is the decision flow of `combine_models`.
- `Selection` (selection.dfy): the joint and finger selections of `test_movements`, and the finding below.

Inputs the script gets from outside are parameters:

- Whether `Usd.Stage.Open` succeeds on each input is a boolean.
- The prims that the `/ur10` reference brings into the output stage are given data (`arm`).
- The hand reference brings in nothing that the model tracks.

## Model

| member | source | states |
|---|---|---|
| `Strings.Lower` | source/xr10_shadow_hand/scripts/combine_models.py:30 | the result has the input's length, and each character is the ASCII lower-case form of the input's character |
| `Strings.EqualIgnoringCaseLower` | source/xr10_shadow_hand/scripts/combine_models.py:30 | names that differ only in ASCII case lower-case to the same string, so the link and finger tests ignore case |
| `Strings.ContainsIffOccurs` | source/xr10_shadow_hand/scripts/combine_models.py:30 | the containment scan holds exactly when the substring occurs at some position |
| `Strings.Contains` | source/xr10_shadow_hand/scripts/combine_models.py:30 | Python's `sub in s`: the empty string is contained in every string, and nothing longer than `s` is contained in it |
| `Strings.LowerContains` | source/xr10_shadow_hand/scripts/combine_models.py:30 | `word in name.lower()` holds exactly when `word` occurs at some position of the ASCII-lower-cased name |
| `Strings.LowerContainsIgnoresCase` | source/xr10_shadow_hand/scripts/combine_models.py:30 | two names that differ only in ASCII case pass or fail the test together, for any word |
| `Seqs.Filter` | source/xr10_shadow_hand/scripts/combine_models.py:30 | the comprehension `[x for x in xs if p(x)]`; its own contract bounds the result by the input's length, and the rows below state its members, order and multiplicities |
| `Seqs.FilterMembers` | source/xr10_shadow_hand/scripts/combine_models.py:30 | a value is in the comprehension's result exactly when it is in the input and satisfies the test |
| `Seqs.FilterIsSubsequence` | source/xr10_shadow_hand/scripts/combine_models.py:116-117 | a comprehension's result is an order-preserving subsequence of its input |
| `Seqs.FilterMultiplicity` | source/xr10_shadow_hand/scripts/combine_models.py:133-134 | each element that satisfies the test is kept as often as it occurs in the input; any other element occurs zero times |
| `Seqs.FilterCounts` | source/xr10_shadow_hand/scripts/combine_models.py:133-134 | the multiplicity statement, for all elements at once |
| `Seqs.FilterLast` | source/xr10_shadow_hand/scripts/combine_models.py:35 | `links[-1]` is the last element of the input that satisfies the test |
| `Seqs.FilterEmptyIff` | source/xr10_shadow_hand/scripts/combine_models.py:31-32 | `not links` holds exactly when no input element satisfies the test |
| `Scene.GetChildren` | source/xr10_shadow_hand/scripts/combine_models.py:30 | `GetChildren` returns one prim per listed child path, in order, each at that path |
| `Scene.ChildPathIsDirect` | source/xr10_shadow_hand/scripts/combine_models.py:19 | `f"{base}/{name}"`, for a one-segment name, is exactly one path segment below `base` |
| `Scene.DefineIn` | source/xr10_shadow_hand/scripts/combine_models.py:61 | defining a prim adds exactly its path to the valid prims, and every record other than the prim's own and its parent's is unchanged |
| `Scene.DefineInDefines` | source/xr10_shadow_hand/scripts/combine_models.py:73 | after a definition the prim is valid with the requested type. A new prim has no children and is appended at the end of a valid parent's child list, the parent changing in nothing else. An existing prim keeps its children, and its parent is unchanged |
| `Scene.DefineInWellFormed` | source/xr10_shadow_hand/scripts/combine_models.py:73 | defining a prim with a one-segment name keeps the stage well formed |
| `EndEffector.IsLink` | source/xr10_shadow_hand/scripts/combine_models.py:30 | the link test is `Strings.LowerContains(name, "link")`, so "link" occurs at some position of the ASCII-lower-cased name, whatever the case of its letters |
| `EndEffector.FindEndEffector` | source/xr10_shadow_hand/scripts/combine_models.py:5-35 | a frame found is a valid prim, and it is either the base followed by one of the four conventional names or one of the base's listed children; the lemmas below pin down which one in every case |
| `EndEffector.FirstCandidate` | source/xr10_shadow_hand/scripts/combine_models.py:18-22 | a search result is a valid prim at `base/name` for one of the names tried |
| `EndEffector.FirstCandidateIsFirst` | source/xr10_shadow_hand/scripts/combine_models.py:18-22 | the search returns the earliest name whose `base/name` exists |
| `EndEffector.FirstCandidateNone` | source/xr10_shadow_hand/scripts/combine_models.py:18-22 | the search finds nothing exactly when no `base/name` exists |
| `EndEffector.FirstCandidateAgrees` | source/xr10_shadow_hand/scripts/combine_models.py:18-22 | the search depends only on which candidate paths exist |
| `EndEffector.CandidateWins` | source/xr10_shadow_hand/scripts/combine_models.py:16-22 | if some candidate exists, the result is the first existing one in the order tool0, wrist_3_link, ee_link, end_effector, whatever the fallback would give |
| `EndEffector.MissingBase` | source/xr10_shadow_hand/scripts/combine_models.py:25-27 | with no candidate and no valid base prim, the result is None |
| `EndEffector.NoLinkChild` | source/xr10_shadow_hand/scripts/combine_models.py:30-32 | with no candidate, a valid base, and no direct child whose lower-cased name contains "link", the result is None |
| `EndEffector.LastLinkChild` | source/xr10_shadow_hand/scripts/combine_models.py:30-35 | with no candidate, the result is the path of the last direct child, in enumeration order, whose lower-cased name contains "link" |
| `EndEffector.ResultIsDirectChild` | source/xr10_shadow_hand/scripts/combine_models.py:19-35 | any frame found is a valid prim one segment below the base; a fallback result is one of the base's listed children |
| `Seqs.FilterAgrees` | source/xr10_shadow_hand/scripts/combine_models.py:30-35 | two inputs that agree elementwise on the test and on a key (here the prim path) give results of the same length with the same keys, position by position |
| `EndEffector.OnlyDirectChildNamesMatter` | source/xr10_shadow_hand/scripts/combine_models.py:5-35 | the result depends only on three things: which candidates exist, the base's child list, and the lower-cased names of its direct children. Grandchildren are never examined, and case is ignored |
| `Composition.OutputStage.CreateNew` | source/xr10_shadow_hand/scripts/combine_models.py:46 | a new stage is empty, has nothing saved, and is bound to the output path |
| `Composition.OutputStage.DefinePrim` | source/xr10_shadow_hand/scripts/combine_models.py:61 | the prim map becomes `DefineIn` of the old map. References, transforms and saves are unchanged |
| `Composition.OutputStage.AddReference` | source/xr10_shadow_hand/scripts/combine_models.py:62 | the asset is appended to the prim's reference list, and the prims it brings in are added. Nothing else changes |
| `Composition.OutputStage.SetRotate` | source/xr10_shadow_hand/scripts/combine_models.py:91 | the prim's rotation is set. Nothing else changes |
| `Composition.OutputStage.SetTranslate` | source/xr10_shadow_hand/scripts/combine_models.py:92 | the prim's translation is set. Nothing else changes |
| `Composition.OutputStage.Save` | source/xr10_shadow_hand/scripts/combine_models.py:95 | the current content is appended to what has been saved. The content itself is unchanged |
| `Composition.OutputStage.MountArm` | source/xr10_shadow_hand/scripts/combine_models.py:61-62 | `/ur10` is defined as an Xform, the arm asset is referenced on it, and the arm's prims appear |
| `Composition.OutputStage.AttachHand` | source/xr10_shadow_hand/scripts/combine_models.py:73-92 | `frame/shadow_hand` is defined as an Xform, the hand asset is referenced on it, and the rotation (90, 0, 180) and translation (0, 0, 0) are set on it |
| `Composition.IsFalsy` | source/xr10_shadow_hand/scripts/combine_models.py:66 | Python's `not eef_path` on an optional string: true for None and for the empty string; `Composition.ResolvedFrameIsUsable` shows only None reaches it here |
| `Composition.ResolvedFrameIsUsable` | source/xr10_shadow_hand/scripts/combine_models.py:65-68 | `not eef_path` holds exactly when resolution returned None, since a resolved frame is never empty. A resolved frame is a valid prim, and the hand path below it is not `/ur10` |
| `Composition.ArmCompositionIsArm` | source/xr10_shadow_hand/scripts/combine_models.py:61-62 | once the reference brings `/ur10` in, the stage is exactly the referenced arm |
| `Composition.CombineModels` | source/xr10_shadow_hand/scripts/combine_models.py:37-98 | the output stage is created with `CreateNew` (line 46) before either input is opened (lines 49, 55), so it exists, bound to the output path, on the early-failure paths too. The result is True exactly when both inputs open and a frame resolves. Failure never saves. A failed open leaves the stage empty. A missing frame leaves only the arm and its reference. Success leaves the arm plus `frame/shadow_hand` with the hand reference and the fixed rotate/translate, saved exactly once |
| `Selection.IsRevoluteJoint` | source/xr10_shadow_hand/scripts/combine_models.py:117 | the joint test `child.GetTypeName() == "RevoluteJoint"`; it has no contract of its own, and `Selection.Joints` states the selection it makes |
| `Selection.IsFingerJoint` | source/xr10_shadow_hand/scripts/combine_models.py:134 | the finger test is `Strings.LowerContains(name, "finger")`, so "finger" occurs at some position of the ASCII-lower-cased name, whatever the case of its letters |
| `Selection.Joints` | source/xr10_shadow_hand/scripts/combine_models.py:116-117 | the joint selection is an order-preserving subsequence of the children. It holds exactly the children of type "RevoluteJoint", each as often as it occurs |
| `Selection.FingerJoints` | source/xr10_shadow_hand/scripts/combine_models.py:133-134 | the finger selection is an order-preserving subsequence of the children. It holds exactly the children whose lower-cased name contains "finger", each as often as it occurs |
| `Selection.ArmJoints` | source/xr10_shadow_hand/scripts/combine_models.py:112-117 | joints are listed exactly when `/ur10` is valid, and then they are its RevoluteJoint children |
| `Selection.HandFingersAsWritten` | source/xr10_shadow_hand/scripts/combine_models.py:129-134 | fingers are listed exactly when a prim exists at `/ur10/shadow_hand`, and then they are its finger children |
| `Selection.HandFingers` | source/xr10_shadow_hand/scripts/combine_models.py:129-134 | fingers are listed exactly when a prim exists at `frame/shadow_hand`, and then they are its finger children |
| `Selection.ComposedHandIsNeverAtAsWrittenPath` | source/xr10_shadow_hand/scripts/combine_models.py:73 | the hand the composer defines is never at `/ur10/shadow_hand` |
| `Selection.AsWrittenLookupMissesHand` | source/xr10_shadow_hand/scripts/combine_models.py:129 | if the arm has no prim of its own at `/ur10/shadow_hand`, the movement test's lookup finds no hand, although the composed stage holds one |
| `Selection.ExampleArmMissesHand` | source/xr10_shadow_hand/scripts/combine_models.py:129 | a concrete arm, `/ur10` with child `tool0`, meets the conditions of the previous lemma |
| `Selection.CorrectedLookupFindsHand` | source/xr10_shadow_hand/scripts/combine_models.py:73 | looking under the resolved frame always finds the composed hand, in a well-formed stage |

## Findings

| source | as written | input that shows it | evidently intended | confidence | as-written member | corrected member |
|---|---|---|---|---|---|---|
| source/xr10_shadow_hand/scripts/combine_models.py:129 | the movement test looks for the hand at `/ur10/shadow_hand`, but line 73 defines it at `eef_path + "/shadow_hand"`, and `eef_path` is always a direct child of `/ur10` | an arm with `/ur10` and child `/ur10/tool0`: the hand is defined at `/ur10/tool0/shadow_hand` and the lookup reports "Shadow Hand not found" | look up `shadow_hand` under the resolved end-effector frame | high; not executed | `Selection.HandFingersAsWritten`, `Selection.AsWrittenLookupMissesHand` | `Selection.HandFingers`, `Selection.CorrectedLookupFindsHand` |

test_movements.py repeats the same assumption. At its line 57 it looks the hand up at `/ur10_shadow_hand/ur10/shadow_hand`. That file is not part of this model.

## Left out

- `test_movements.py` as a whole. It consists of simulation-host launching, world stepping, rendering, attribute setting through the simulator, and an unbounded run loop. None of it has behaviour that can be stated without the host.
- In `test_movements` (lines 100-143), opening the combined file and the printing loops over the selections are left out. They only print. The prim lookups and the two selections are modelled.
- The `__main__` block (lines 145-176) is file-system I/O: path joining, existence checks, `exit(1)` and `makedirs`. The `carb.log_error` and `print` diagnostics are left out as well.
- USD semantics are abstract. The model does not cover how references are composed, the file format, or what `Open`, `CreateNew` and `Save` do on disk. `Save` records the stage content in `saved`.
- Composition.OutputStage.AddReference: the prims a reference brings in are an input (`brought`), and the stage gains them by map union. Opinion strength is not modelled, so the referenced `/ur10` record replaces the locally defined Xform one.
- Composition.OutputStage.AttachHand: the prims the hand reference brings in are not modelled. When the arm has no prim of its own at `frame/shadow_hand`, the hand has no children in the model, so the finger selection on a composed stage is empty; otherwise the existing prim keeps its children.
- Scene.DefineInDefines: `DefinePrim` in USD also creates missing ancestors. The model only appends a new prim to its parent when the parent is valid. At both call sites the parent is the pseudo-root or a valid prim.
- Strings.Lower: Python's `str.lower` is Unicode-aware. The model lower-cases ASCII letters only, so a name whose "link" or "finger" comes from non-ASCII case folding is not matched.
- Composition.CombineModels: the rotation (90, 0, 180) and translation (0, 0, 0) are recorded as exact integer triples. There is no floating-point type or arithmetic, and how `XformCommonAPI` encodes the ops is not modelled.
- `Usd.Stage.Open` failing is a boolean input. The opened input stages are not otherwise used by the code.
- Concurrency and the enumeration order's stability across toolkit versions are out of scope. The child order is whatever the stage lists, and the model only fixes that the fallback picks the last match in that order.
