/** An abstract USD stage: a finite map from prim paths to prim records.
    A prim is valid exactly when its path is a key of the map. The
    pseudo-root is written as the empty path "", so that the absolute path
    of a top-level prim is ChildPath("", name) == "/" + name. */
module Scene {

  datatype Option<T> = None | Some(value: T)

  type Path = string

  /** A prim as the composer sees it: its own path (GetPath), its name
      (GetName), its schema type name (GetTypeName) and the paths of its
      children in the stage's enumeration order (GetChildren). */
  datatype Prim = Prim(path: Path, name: string, typeName: string, children: seq<Path>)

  type Stage = map<Path, Prim>

  /** The path `f"{parent}/{name}"`. */
  function ChildPath(parent: Path, name: string): Path {
    parent + "/" + name
  }

  /** A legal prim name: one non-empty path segment. */
  predicate IsName(n: string) {
    n != [] && '/' !in n
  }

  /** `p` names a direct child of `parent`: one more non-empty segment. */
  predicate IsDirectChildPath(parent: Path, p: Path) {
    |p| > |parent| + 1 && p[..|parent| + 1] == parent + "/" && IsName(p[|parent| + 1..])
  }

  lemma ChildPathIsDirect(parent: Path, name: string)
    requires IsName(name)
    ensures IsDirectChildPath(parent, ChildPath(parent, name))
  {
  }

  /** The invariants every stage the toolkit hands out satisfies: each record
      sits at its own path, and each listed child is a valid prim whose path
      is its parent's path followed by its name. */
  ghost predicate WellFormed(s: Stage) {
    forall p :: p in s ==>
      && s[p].path == p
      && forall c :: c in s[p].children ==>
           c in s && IsName(s[c].name) && c == ChildPath(p, s[c].name)
  }

  /** `prim.GetChildren()`: the child prims of the valid prim at `p`, in order. */
  function GetChildren(s: Stage, p: Path): (r: seq<Prim>)
    requires WellFormed(s) && p in s
    ensures |r| == |s[p].children|
    ensures forall i :: 0 <= i < |r| ==> r[i] == s[s[p].children[i]] && r[i].path == s[p].children[i]
  {
    var ch := s[p].children;
    seq(|ch|, i requires 0 <= i < |ch| => s[ch[i]])
  }

  /** The stage after `DefinePrim(f"{parent}/{name}", typeName)`. An existing
      prim keeps its children and takes the new type name; a new prim has no
      children and is appended to its parent's child list when the parent is
      a valid prim. Ancestors that do not exist are not created. Only the
      defined path is added, and no record other than the defined prim's and
      its parent's changes. */
  function DefineIn(s: Stage, parent: Path, name: string, typeName: string): (r: Stage)
    ensures r.Keys == s.Keys + {ChildPath(parent, name)}
    ensures forall q :: q in s && q != ChildPath(parent, name) && q != parent ==> r[q] == s[q]
  {
    var p := ChildPath(parent, name);
    if p in s then
      s[p := s[p].(typeName := typeName)]
    else
      var added := s[p := Prim(p, name, typeName, [])];
      if parent in s then added[parent := s[parent].(children := s[parent].children + [p])]
      else added
  }

  /** After a definition the prim is valid and has the requested type; an
      existing prim keeps its children; a new one is appended at the end of
      its valid parent's child list, and the parent changes in nothing else. */
  lemma DefineInDefines(s: Stage, parent: Path, name: string, typeName: string)
    requires WellFormed(s)
    ensures var p := ChildPath(parent, name);
      && var t := DefineIn(s, parent, name, typeName);
      && p in t && t[p].typeName == typeName && t[p].path == p
      && (p !in s ==> t[p].name == name && t[p].children == [])
      && (p in s ==> t[p].children == s[p].children)
      && (p !in s && parent in s ==> t[parent] == s[parent].(children := s[parent].children + [p]))
      && (p in s && parent in s && parent != p ==> t[parent] == s[parent])
  {
  }

  /** Defining a prim with a legal name keeps the stage well formed. */
  lemma DefineInWellFormed(s: Stage, parent: Path, name: string, typeName: string)
    requires WellFormed(s) && IsName(name)
    ensures WellFormed(DefineIn(s, parent, name, typeName))
  {
  }
}
