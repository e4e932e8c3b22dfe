/** The child selections made by `test_movements` in the composer script:
    the revolute joints directly under the arm and the finger joints directly
    under the hand, together with the prim lookups that guard them. */
module Selection {
  import opened Strings
  import opened Seqs
  import opened Scene
  import opened EndEffector
  import opened Composition

  const RevoluteJointType: string := "RevoluteJoint"

  /** Where the movement test looks for the hand. */
  const HandPathAsWritten: Path := "/ur10/shadow_hand"

  predicate IsRevoluteJoint(p: Prim) {
    p.typeName == RevoluteJointType
  }

  /** The finger test: the lower-cased name contains "finger". */
  predicate IsFingerJoint(p: Prim) {
    LowerContains(p.name, "finger")
  }

  /** `[c for c in children if c.GetTypeName() == "RevoluteJoint"]`: the
      children of that type, each as often as it occurs, in their order. */
  function Joints(children: seq<Prim>): (r: seq<Prim>)
    ensures IsSubsequence(r, children)
    ensures forall x :: multiset(r)[x] == if x.typeName == RevoluteJointType then multiset(children)[x] else 0
  {
    FilterIsSubsequence(children, IsRevoluteJoint);
    FilterCounts(children, IsRevoluteJoint);
    Filter(children, IsRevoluteJoint)
  }

  /** `[c for c in children if "finger" in c.GetName().lower()]`: the children
      whose ASCII-lower-cased name contains "finger", in their order. */
  function FingerJoints(children: seq<Prim>): (r: seq<Prim>)
    ensures IsSubsequence(r, children)
    ensures forall x :: multiset(r)[x] == if LowerContains(x.name, "finger") then multiset(children)[x] else 0
  {
    FilterIsSubsequence(children, IsFingerJoint);
    FilterCounts(children, IsFingerJoint);
    Filter(children, IsFingerJoint)
  }

  /** The arm's joints, or None when /ur10 is not a valid prim. */
  function ArmJoints(s: Stage): (r: Option<seq<Prim>>)
    requires WellFormed(s)
    ensures r.Some? <==> ArmRoot in s
    ensures r.Some? ==> forall x :: x in r.value <==> x in GetChildren(s, ArmRoot) && IsRevoluteJoint(x)
  {
    if ArmRoot in s then Some(Joints(GetChildren(s, ArmRoot))) else None
  }

  /** The hand's finger joints as the movement test looks them up: at
      /ur10/shadow_hand, or None when no prim is there. */
  function HandFingersAsWritten(s: Stage): (r: Option<seq<Prim>>)
    requires WellFormed(s)
    ensures r.Some? <==> HandPathAsWritten in s
    ensures r.Some? ==> forall x :: x in r.value <==> x in GetChildren(s, HandPathAsWritten) && IsFingerJoint(x)
  {
    if HandPathAsWritten in s then Some(FingerJoints(GetChildren(s, HandPathAsWritten))) else None
  }

  /** The hand's finger joints looked up where the composer defines the hand:
      `shadow_hand` under the end-effector frame `frame`. */
  function HandFingers(s: Stage, frame: Path): (r: Option<seq<Prim>>)
    requires WellFormed(s)
    ensures r.Some? <==> ChildPath(frame, HandName) in s
    ensures r.Some? ==> forall x :: x in r.value <==> x in GetChildren(s, ChildPath(frame, HandName)) && IsFingerJoint(x)
  {
    var hand := ChildPath(frame, HandName);
    if hand in s then Some(FingerJoints(GetChildren(s, hand))) else None
  }

  /** The composer puts the hand one segment below a direct child of /ur10,
      so the hand it defines is never at /ur10/shadow_hand. */
  lemma ComposedHandIsNeverAtAsWrittenPath(arm: Stage)
    requires WellFormed(arm) && FindEndEffector(arm, ArmRoot).Some?
    ensures ChildPath(FindEndEffector(arm, ArmRoot).value, HandName) != HandPathAsWritten
  {
    ResultIsDirectChild(arm, ArmRoot);
  }

  /** Whenever the arm asset has no prim of its own at /ur10/shadow_hand,
      the movement test's lookup misses the hand the composer defined. */
  lemma AsWrittenLookupMissesHand(arm: Stage)
    requires WellFormed(arm) && FindEndEffector(arm, ArmRoot).Some?
    requires HandPathAsWritten !in arm
    ensures var eef := FindEndEffector(arm, ArmRoot).value;
      var out := DefineIn(arm, eef, HandName, XformType);
      && WellFormed(out)
      && ChildPath(eef, HandName) in out
      && HandFingersAsWritten(out) == None
  {
    var eef := FindEndEffector(arm, ArmRoot).value;
    ComposedHandIsNeverAtAsWrittenPath(arm);
    DefineInWellFormed(arm, eef, HandName, XformType);
    DefineInDefines(arm, eef, HandName, XformType);
  }

  /** A two-prim UR10: /ur10 with the single child /ur10/tool0. */
  const ExampleArm: Stage := map[
    "/ur10" := Prim("/ur10", "ur10", "Xform", ["/ur10/tool0"]),
    "/ur10/tool0" := Prim("/ur10/tool0", "tool0", "Xform", [])]

  /** That arm is an input of the kind above: the frame resolves to
      /ur10/tool0, the hand goes to /ur10/tool0/shadow_hand, and nothing is at
      /ur10/shadow_hand. */
  lemma ExampleArmMissesHand()
    ensures WellFormed(ExampleArm)
    ensures FindEndEffector(ExampleArm, ArmRoot) == Some("/ur10/tool0")
    ensures HandPathAsWritten !in ExampleArm
  {
    assert ChildPath("/ur10", "tool0") == "/ur10/tool0";
    assert IsName("tool0");
    assert ExampleArm.Keys == {"/ur10", "/ur10/tool0"};
    assert |HandPathAsWritten| == 17;
    assert ChildPath(ArmRoot, EndEffectorNames[0]) == "/ur10/tool0";
    CandidateWins(ExampleArm, ArmRoot, 0);
  }

  /** Looking under the resolved frame always finds the hand the composer
      defined, in the well-formed stage it leaves behind. */
  lemma CorrectedLookupFindsHand(arm: Stage)
    requires WellFormed(arm) && FindEndEffector(arm, ArmRoot).Some?
    ensures var eef := FindEndEffector(arm, ArmRoot).value;
      var out := DefineIn(arm, eef, HandName, XformType);
      WellFormed(out) && HandFingers(out, eef).Some?
  {
    var eef := FindEndEffector(arm, ArmRoot).value;
    DefineInWellFormed(arm, eef, HandName, XformType);
    DefineInDefines(arm, eef, HandName, XformType);
  }
}
