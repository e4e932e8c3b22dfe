/** The composer (`combine_models`): creates an output stage, references the
    UR10 arm at /ur10, resolves the end-effector frame, references the Shadow
    Hand under it with a fixed rotate/translate, and saves. USD itself is
    abstract: opening an input is a boolean, and what the /ur10 reference
    brings into the output stage is given as data. */
module Composition {
  import opened Scene
  import opened EndEffector

  /** Where the arm is mounted in the output stage, and the hand's prim name. */
  const ArmRoot: Path := "/ur10"
  const ArmName: string := "ur10"
  const HandName: string := "shadow_hand"
  const XformType: string := "Xform"

  /** A transform value recorded exactly as written; nothing computes with it. */
  datatype Vec3 = Vec3(x: int, y: int, z: int)

  /** 90 degrees about X, then 180 about Z; no offset. */
  const HandRotation: Vec3 := Vec3(90, 0, 180)
  const HandTranslation: Vec3 := Vec3(0, 0, 0)

  /** What a save writes out: the prims, the references authored on each prim
      (asset paths, in the order added) and the rotate and translate values
      authored through the common transform API. */
  datatype LayerData = LayerData(
    prims: Stage,
    references: map<Path, seq<string>>,
    rotations: map<Path, Vec3>,
    translations: map<Path, Vec3>)

  /** The references authored on `path` so far. */
  function RefsAt(refs: map<Path, seq<string>>, path: Path): seq<string> {
    if path in refs then refs[path] else []
  }

  const EmptyLayer: LayerData := LayerData(map[], map[], map[], map[])

  /** The stage `Usd.Stage.CreateNew` returns, with the edits the composer makes. */
  class OutputStage {
    const layerPath: string
    var prims: Stage
    var references: map<Path, seq<string>>
    var rotations: map<Path, Vec3>
    var translations: map<Path, Vec3>
    /** The content written by each call of Save, oldest first. */
    var saved: seq<LayerData>

    function Content(): LayerData
      reads this
    {
      LayerData(prims, references, rotations, translations)
    }


    /** `Usd.Stage.CreateNew(path)`: an empty stage, nothing saved yet. */
    constructor CreateNew(path: string)
      ensures layerPath == path && Content() == EmptyLayer && saved == []
    {
      layerPath := path;
      prims, references, rotations, translations := map[], map[], map[], map[];
      saved := [];
    }

    /** `DefinePrim(f"{parent}/{name}", typeName)`, returning the prim's path. */
    method DefinePrim(parent: Path, name: string, typeName: string) returns (path: Path)
      requires IsName(name)
      modifies this
      ensures path == ChildPath(parent, name)
      ensures prims == DefineIn(old(prims), parent, name, typeName)
      ensures references == old(references) && rotations == old(rotations)
      ensures translations == old(translations) && saved == old(saved)
    {
      path := ChildPath(parent, name);
      prims := DefineIn(prims, parent, name, typeName);
    }

    /** `GetReferences().AddReference(asset)` on the valid prim at `path`.
        `brought` stands for the prims that composing the asset makes appear
        in the stage; how they are composed is not modelled. */
    method AddReference(path: Path, asset: string, brought: Stage)
      requires path in prims
      modifies this
      ensures prims == old(prims) + brought
      ensures references == old(references)[path := RefsAt(old(references), path) + [asset]]
      ensures rotations == old(rotations) && translations == old(translations)
      ensures saved == old(saved)
    {
      references := references[path := RefsAt(references, path) + [asset]];
      prims := prims + brought;
    }

    /** `XformCommonAPI(prim).SetRotate(v)`. */
    method SetRotate(path: Path, v: Vec3)
      requires path in prims
      modifies this
      ensures rotations == old(rotations)[path := v]
      ensures prims == old(prims) && references == old(references)
      ensures translations == old(translations) && saved == old(saved)
    {
      rotations := rotations[path := v];
    }

    /** `XformCommonAPI(prim).SetTranslate(v)`. */
    method SetTranslate(path: Path, v: Vec3)
      requires path in prims
      modifies this
      ensures translations == old(translations)[path := v]
      ensures prims == old(prims) && references == old(references)
      ensures rotations == old(rotations) && saved == old(saved)
    {
      translations := translations[path := v];
    }

    /** Lines 61-62 of the composer: define /ur10 as an Xform and reference
        the arm asset on it; `arm` is what that reference brings in. */
    method MountArm(asset: string, arm: Stage)
      modifies this
      ensures prims == DefineIn(old(prims), "", ArmName, XformType) + arm
      ensures references == old(references)[ArmRoot := RefsAt(old(references), ArmRoot) + [asset]]
      ensures rotations == old(rotations) && translations == old(translations)
      ensures saved == old(saved)
    {
      var armPath := DefinePrim("", ArmName, XformType);
      assert armPath == ArmRoot;
      AddReference(armPath, asset, arm);
    }

    /** Lines 73-92 of the composer: define `eef/shadow_hand` as an Xform,
        reference the hand asset on it and author the fixed rotate and
        translate values. What the hand reference brings in is not modelled. */
    method AttachHand(eef: Path, asset: string)
      modifies this
      ensures var hand := ChildPath(eef, HandName);
        && prims == DefineIn(old(prims), eef, HandName, XformType)
        && references == old(references)[hand := RefsAt(old(references), hand) + [asset]]
        && rotations == old(rotations)[hand := HandRotation]
        && translations == old(translations)[hand := HandTranslation]
      ensures saved == old(saved)
    {
      var handPath := DefinePrim(eef, HandName, XformType);
      AddReference(handPath, asset, map[]);
      assert prims + map[] == prims;
      SetRotate(handPath, HandRotation);
      SetTranslate(handPath, HandTranslation);
    }

    /** `Save()`: writes the current content; the content itself is unchanged. */
    method Save()
      modifies this
      ensures Content() == old(Content())
      ensures saved == old(saved) + [Content()]
    {
      saved := saved + [Content()];
    }
  }

  /** Python's truth test `not eef_path` on the resolved frame. */
  predicate IsFalsy(p: Option<Path>) {
    p.None? || p.value == ""
  }

  /** A frame resolved under /ur10 is never the empty string, so
      `not eef_path` holds exactly when resolution found nothing; a resolved
      frame is a valid prim, and the hand path under it is not /ur10. */
  lemma ResolvedFrameIsUsable(arm: Stage, eef: Option<Path>)
    requires WellFormed(arm) && eef == FindEndEffector(arm, ArmRoot)
    ensures IsFalsy(eef) <==> eef.None?
    ensures eef.Some? ==> eef.value in arm && ChildPath(eef.value, HandName) != ArmRoot
  {
    ResultIsDirectChild(arm, ArmRoot);
  }

  /** The defined /ur10 prim is replaced by what its reference brings in
      whenever that data holds /ur10 itself. */
  lemma ArmCompositionIsArm(arm: Stage)
    requires ArmRoot in arm
    ensures DefineIn(map[], "", ArmName, XformType) + arm == arm
  {
    var defined := DefineIn(map[], "", ArmName, XformType);
    assert ChildPath("", ArmName) == ArmRoot;
    assert defined.Keys == {ArmRoot};
  }

  /** `combine_models(ur10_usd_path, shadow_hand_usd_path, output_usd_path)`.
      `ur10Opens` and `shadowHandOpens` say whether `Usd.Stage.Open` succeeds
      on each input; `arm` is the content of the output stage once /ur10
      references the arm asset, and must be a well-formed stage holding /ur10. */
  method CombineModels(ur10UsdPath: string, shadowHandUsdPath: string, outputUsdPath: string,
                       ur10Opens: bool, shadowHandOpens: bool, arm: Stage)
    returns (success: bool, stage: OutputStage)
    requires WellFormed(arm) && ArmRoot in arm
    ensures fresh(stage) && stage.layerPath == outputUsdPath
    ensures success <==> ur10Opens && shadowHandOpens && FindEndEffector(arm, ArmRoot).Some?
    ensures !success ==> stage.saved == []
    ensures !(ur10Opens && shadowHandOpens) ==> stage.Content() == EmptyLayer
    ensures ur10Opens && shadowHandOpens && !success ==>
      stage.Content() == LayerData(arm, map[ArmRoot := [ur10UsdPath]], map[], map[])
    ensures success ==>
      var eef := FindEndEffector(arm, ArmRoot).value;
      var hand := ChildPath(eef, HandName);
      && stage.Content() == LayerData(
           DefineIn(arm, eef, HandName, XformType),
           map[ArmRoot := [ur10UsdPath], hand := [shadowHandUsdPath]],
           map[hand := HandRotation],
           map[hand := HandTranslation])
      && stage.saved == [stage.Content()]
  {
    stage := new OutputStage.CreateNew(outputUsdPath);
    if !ur10Opens {
      return false, stage;
    }
    if !shadowHandOpens {
      return false, stage;
    }
    stage.MountArm(ur10UsdPath, arm);
    ArmCompositionIsArm(arm);
    ghost var armRefs := map[ArmRoot := [ur10UsdPath]];
    assert RefsAt(map[], ArmRoot) + [ur10UsdPath] == [ur10UsdPath];
    assert stage.prims == arm && stage.references == armRefs;
    var eefPath := FindEndEffector(stage.prims, ArmRoot);
    ResolvedFrameIsUsable(arm, eefPath);
    if IsFalsy(eefPath) {
      return false, stage;
    }
    var eef := eefPath.value;
    ghost var hand := ChildPath(eef, HandName);
    assert RefsAt(armRefs, hand) + [shadowHandUsdPath] == [shadowHandUsdPath];
    stage.AttachHand(eef, shadowHandUsdPath);
    stage.Save();
    success := true;
  }
}
