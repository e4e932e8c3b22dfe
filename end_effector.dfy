/** End-effector frame resolution (`find_end_effector`): a priority search
    over conventional frame names, with a fallback to the last direct child
    whose name mentions "link". */
module EndEffector {
  import opened Strings
  import opened Seqs
  import opened Scene

  /** Conventional end-effector frame names, in the order they are tried. */
  const EndEffectorNames: seq<string> := ["tool0", "wrist_3_link", "ee_link", "end_effector"]

  /** The fallback's test: the lower-cased name contains "link". */
  predicate IsLink(p: Prim) {
    LowerContains(p.name, "link")
  }

  /** The first `base/name` that is a valid prim, trying `names` in order. */
  function FirstCandidate(s: Stage, base: Path, names: seq<string>): (r: Option<Path>)
    ensures r.Some? ==> r.value in s
    ensures r.Some? ==> exists k :: 0 <= k < |names| && r.value == ChildPath(base, names[k])
  {
    if names == [] then None
    else if ChildPath(base, names[0]) in s then Some(ChildPath(base, names[0]))
    else
      var r := FirstCandidate(s, base, names[1..]);
      assert r.Some? ==> exists k :: 0 <= k < |names| && r.value == ChildPath(base, names[k]) by {
        if r.Some? {
          var k :| 0 <= k < |names[1..]| && r.value == ChildPath(base, names[1..][k]);
          assert names[1..][k] == names[k + 1];
        }
      }
      r
  }

  /** The search returns the earliest candidate that exists. */
  lemma {:induction false} FirstCandidateIsFirst(s: Stage, base: Path, names: seq<string>, k: nat)
    requires k < |names| && ChildPath(base, names[k]) in s
    requires forall j :: 0 <= j < k ==> ChildPath(base, names[j]) !in s
    ensures FirstCandidate(s, base, names) == Some(ChildPath(base, names[k]))
    decreases |names|
  {
    if k > 0 {
      assert ChildPath(base, names[0]) !in s;
      forall j | 0 <= j < k - 1 ensures ChildPath(base, names[1..][j]) !in s {
        assert names[1..][j] == names[j + 1];
      }
      assert names[1..][k - 1] == names[k];
      FirstCandidateIsFirst(s, base, names[1..], k - 1);
    }
  }

  /** The search finds nothing exactly when no candidate exists. */
  lemma {:induction false} FirstCandidateNone(s: Stage, base: Path, names: seq<string>)
    ensures FirstCandidate(s, base, names) == None <==>
            forall j :: 0 <= j < |names| ==> ChildPath(base, names[j]) !in s
    decreases |names|
  {
    if names != [] {
      FirstCandidateNone(s, base, names[1..]);
      if ChildPath(base, names[0]) !in s {
        forall j | 0 <= j < |names| && j != 0 ensures names[j] == names[1..][j - 1] { }
      }
    }
  }

  /** Stages that agree on which candidates exist give the same search result. */
  lemma {:induction false} FirstCandidateAgrees(s1: Stage, s2: Stage, base: Path, names: seq<string>)
    requires forall j :: 0 <= j < |names| ==> (ChildPath(base, names[j]) in s1 <==> ChildPath(base, names[j]) in s2)
    ensures FirstCandidate(s1, base, names) == FirstCandidate(s2, base, names)
    decreases |names|
  {
    if names != [] {
      forall j | 0 <= j < |names[1..]|
        ensures ChildPath(base, names[1..][j]) in s1 <==> ChildPath(base, names[1..][j]) in s2
      {
        assert names[1..][j] == names[j + 1];
      }
      FirstCandidateAgrees(s1, s2, base, names[1..]);
    }
  }

  /** `find_end_effector(stage, base_path)`. A frame it finds is a valid
      prim, and it is either `base` followed by one of the conventional names
      or one of the base's listed children. */
  function FindEndEffector(s: Stage, base: Path): (r: Option<Path>)
    requires WellFormed(s)
    ensures r.Some? ==> r.value in s
    ensures r.Some? ==>
      || (exists k :: 0 <= k < |EndEffectorNames| && r.value == ChildPath(base, EndEffectorNames[k]))
      || (base in s && r.value in s[base].children)
  {
    match FirstCandidate(s, base, EndEffectorNames)
    case Some(p) => Some(p)
    case None =>
      if base !in s then None
      else
        var kids := GetChildren(s, base);
        var links := Filter(kids, IsLink);
        if links == [] then None
        else
          var last := links[|links| - 1];
          assert last.path in s[base].children by {
            FilterMembers(kids, IsLink);
            assert last in links;
            var i :| 0 <= i < |kids| && kids[i] == last;
            assert s[base].children[i] in s[base].children;
          }
          Some(last.path)
  }

  /** No conventional end-effector name exists under `base`. */
  ghost predicate NoCandidate(s: Stage, base: Path) {
    forall j :: 0 <= j < |EndEffectorNames| ==> ChildPath(base, EndEffectorNames[j]) !in s
  }

  /** When some candidate exists, the first existing one in the order
      tool0, wrist_3_link, ee_link, end_effector is the result, whatever the
      base's children are. */
  lemma CandidateWins(s: Stage, base: Path, k: nat)
    requires WellFormed(s)
    requires k < |EndEffectorNames| && ChildPath(base, EndEffectorNames[k]) in s
    requires forall j :: 0 <= j < k ==> ChildPath(base, EndEffectorNames[j]) !in s
    ensures FindEndEffector(s, base) == Some(ChildPath(base, EndEffectorNames[k]))
  {
    FirstCandidateIsFirst(s, base, EndEffectorNames, k);
  }

  /** No candidate and a missing base prim: no frame. */
  lemma MissingBase(s: Stage, base: Path)
    requires WellFormed(s) && NoCandidate(s, base) && base !in s
    ensures FindEndEffector(s, base) == None
  {
  }

  /** No candidate and no direct child whose lower-cased name contains
      "link": no frame. */
  lemma NoLinkChild(s: Stage, base: Path)
    requires WellFormed(s) && NoCandidate(s, base) && base in s
    requires forall c :: c in s[base].children ==> !IsLink(s[c])
    ensures FindEndEffector(s, base) == None
  {
    FirstCandidateNone(s, base, EndEffectorNames);
    var kids := GetChildren(s, base);
    forall j | 0 <= j < |kids| ensures !IsLink(kids[j]) {
      assert s[base].children[j] in s[base].children;
    }
    FilterEmptyIff(kids, IsLink);
  }

  /** No candidate: the result is the last direct child, in enumeration
      order, whose lower-cased name contains "link". */
  lemma LastLinkChild(s: Stage, base: Path, i: nat)
    requires WellFormed(s) && NoCandidate(s, base) && base in s
    requires i < |s[base].children| && IsLink(s[s[base].children[i]])
    requires forall j :: i < j < |s[base].children| ==> !IsLink(s[s[base].children[j]])
    ensures FindEndEffector(s, base) == Some(s[base].children[i])
  {
    FirstCandidateNone(s, base, EndEffectorNames);
    var kids := GetChildren(s, base);
    FilterLast(kids, IsLink, i);
  }

  /** Any frame found is a valid prim one segment below `base`; when it comes
      from the fallback it is listed among the base's children. */
  lemma ResultIsDirectChild(s: Stage, base: Path)
    requires WellFormed(s)
    ensures FindEndEffector(s, base).Some? ==>
      && FindEndEffector(s, base).value in s
      && IsDirectChildPath(base, FindEndEffector(s, base).value)
    ensures FindEndEffector(s, base).Some? && NoCandidate(s, base) ==>
      base in s && FindEndEffector(s, base).value in s[base].children
  {
    var first := FirstCandidate(s, base, EndEffectorNames);
    FirstCandidateNone(s, base, EndEffectorNames);
    if first.Some? {
      var k :| 0 <= k < |EndEffectorNames| && first.value == ChildPath(base, EndEffectorNames[k]);
      assert IsName(EndEffectorNames[k]);
      ChildPathIsDirect(base, EndEffectorNames[k]);
    } else if base in s {
      var kids := GetChildren(s, base);
      var links := Filter(kids, IsLink);
      if links != [] {
        var last := links[|links| - 1];
        FilterMembers(kids, IsLink);
        assert last in kids;
        var i :| 0 <= i < |kids| && kids[i] == last;
        var c := s[base].children[i];
        assert last.path == c && c in s;
        ChildPathIsDirect(base, s[c].name);
      }
    }
  }

  /** Only the candidates' existence, the base's child list and the
      lower-cased names of its direct children decide the result: deeper
      descendants are never examined and the match ignores ASCII case. */
  lemma OnlyDirectChildNamesMatter(s1: Stage, s2: Stage, base: Path)
    requires WellFormed(s1) && WellFormed(s2)
    requires forall j :: 0 <= j < |EndEffectorNames| ==>
      (ChildPath(base, EndEffectorNames[j]) in s1 <==> ChildPath(base, EndEffectorNames[j]) in s2)
    requires base in s1 <==> base in s2
    requires base in s1 ==> s1[base].children == s2[base].children
    requires base in s1 ==> forall c :: c in s1[base].children ==> Lower(s1[c].name) == Lower(s2[c].name)
    ensures FindEndEffector(s1, base) == FindEndEffector(s2, base)
  {
    FirstCandidateAgrees(s1, s2, base, EndEffectorNames);
    if FirstCandidate(s1, base, EndEffectorNames) == None && base in s1 {
      var a := GetChildren(s1, base);
      var b := GetChildren(s2, base);
      forall i | 0 <= i < |a| ensures a[i].path == b[i].path && IsLink(a[i]) == IsLink(b[i]) {
        assert s1[base].children[i] in s1[base].children;
      }
      FilterAgrees(a, b, IsLink, (x: Prim) => x.path);
    }
  }
}
