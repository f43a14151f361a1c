/** Resolution of asset paths through symbolic links, over an abstract file tree, and confinement to a
    registered root. */
module AssetPath {

  type Name = string

  /** An absolute path: the component names below the root directory. */
  type Path = seq<Name>

  /** A link target as written: absolute or relative, split into components. */
  datatype Target = Target(absolute: bool, components: seq<Name>)

  datatype Node = Directory | NonDirectory | Link(target: Target) | BrokenLink | Unreadable

  /** What each path names, without following a link at its end; a path not in the map is missing, and asking about an
      unreadable one fails otherwise. */
  type Tree = map<Path, Node>

  datatype Error = TooManyLinks | InvalidTarget | QueryFailed | InvalidRelativePath | RootChanged | OutsideRoot

  datatype Resolution = Found(path: Path) | Absent | Failed(error: Error)

  const MAX_LINKS: nat := 40

  function Parent(p: Path): Path { if p == [] then [] else p[..|p| - 1] }

  predicate Skipped(name: Name) { name == "" || name == "." }

  // ---------------------------------------------------------------- the resolving loop as a function

  /** The loop over the pending components: a link's target is spliced in front of what remains.
      `deps` collects the paths whose change could change the answer. */
  function Resolve(tree: Tree, resolved: Path, pending: seq<Name>, links: nat, deps: seq<Path>): (r: (Resolution, seq<Path>))
    requires links <= MAX_LINKS
    ensures r.0.Failed? ==> r.0.error.TooManyLinks? || r.0.error.InvalidTarget? || r.0.error.QueryFailed?
    decreases MAX_LINKS - links, |pending|
  {
    if pending == [] then (Found(resolved), deps)
    else
      var name, rest := pending[0], pending[1..];
      if Skipped(name) then Resolve(tree, resolved, rest, links, deps)
      else if name == ".." then Resolve(tree, Parent(resolved), rest, links, deps)
      else
        var next := resolved + [name];
        if next !in tree then (Absent, deps + [next])
        else match tree[next]
          case Link(target) =>
            if links == MAX_LINKS then (Failed(TooManyLinks), deps)
            else Resolve(tree, if target.absolute then [] else resolved, target.components + rest, links + 1, deps + [next])
          case BrokenLink => if links == MAX_LINKS then (Failed(TooManyLinks), deps) else (Failed(InvalidTarget), deps + [next])
          case Unreadable => (Failed(QueryFailed), deps)
          case Directory => Resolve(tree, next, rest, links, deps)
          case NonDirectory => if rest != [] then (Absent, deps + [next]) else (Found(next), deps)
  }

  method CanonicalPath(tree: Tree, components: seq<Name>, dependencies: seq<Path>)
    returns (result: Resolution, deps: seq<Path>)
    ensures (result, deps) == Resolve(tree, [], components, 0, dependencies)
  {
    var pending, resolved: Path, links := components, [], 0;
    deps := dependencies;
    while pending != []
      invariant links <= MAX_LINKS
      invariant Resolve(tree, resolved, pending, links, deps) == Resolve(tree, [], components, 0, dependencies)
      decreases MAX_LINKS - links, |pending|
    {
      var component := pending[0];
      pending := pending[1..];
      if Skipped(component) {
        continue;
      }
      if component == ".." {
        resolved := Parent(resolved);
        continue;
      }
      var next := resolved + [component];
      if next !in tree {
        deps := deps + [next];
        return Absent, deps;
      }
      if tree[next].Unreadable? {
        return Failed(QueryFailed), deps;
      }
      if tree[next].Link? || tree[next].BrokenLink? {
        if links + 1 > MAX_LINKS {
          return Failed(TooManyLinks), deps;
        }
        links := links + 1;
        deps := deps + [next];
        if tree[next].BrokenLink? {
          return Failed(InvalidTarget), deps;
        }
        var target := tree[next].target;
        if target.absolute {
          resolved := [];
        }
        pending := target.components + pending;
      } else {
        if pending != [] && !tree[next].Directory? {
          deps := deps + [next];
          return Absent, deps;
        }
        resolved := next;
      }
    }
    result := Found(resolved);
  }

  // ---------------------------------------------------------------- canonical paths

  predicate IsDirectory(tree: Tree, p: Path) { p == [] || (p in tree && tree[p].Directory?) }

  predicate PlainName(name: Name) { !Skipped(name) && name != ".." }

  /** Every prefix exists and is no link, every proper prefix is a directory, every name is plain. */
  ghost predicate Canonical(tree: Tree, p: Path) {
    && (forall i | 0 <= i < |p| :: PlainName(p[i]) && IsDirectory(tree, p[..i]))
    && (p == [] || (p in tree && (tree[p].Directory? || tree[p].NonDirectory?)))
  }

  lemma CanonicalParent(tree: Tree, p: Path)
    requires Canonical(tree, p)
    ensures Canonical(tree, Parent(p)) && IsDirectory(tree, Parent(p))
  {
    if p != [] {
      assert IsDirectory(tree, p[..|p| - 1]);
      forall i | 0 <= i < |Parent(p)| ensures PlainName(Parent(p)[i]) && IsDirectory(tree, Parent(p)[..i]) {
        assert p[..i] == Parent(p)[..i];
      }
    }
  }

  lemma CanonicalChild(tree: Tree, p: Path, name: Name)
    requires Canonical(tree, p) && IsDirectory(tree, p) && PlainName(name)
    requires p + [name] in tree && (tree[p + [name]].Directory? || tree[p + [name]].NonDirectory?)
    ensures Canonical(tree, p + [name])
  {
    var q := p + [name];
    forall i | 0 <= i < |q| ensures PlainName(q[i]) && IsDirectory(tree, q[..i]) {
      if i < |p| {
        assert q[..i] == p[..i];
      } else {
        assert q[..i] == p;
      }
    }
  }

  /** A found path is canonical, so no later lookup of it can be redirected. */
  lemma {:induction false} FoundIsCanonical(tree: Tree, resolved: Path, pending: seq<Name>, links: nat, deps: seq<Path>)
    requires links <= MAX_LINKS && Canonical(tree, resolved) && (pending != [] ==> IsDirectory(tree, resolved))
    ensures var r := Resolve(tree, resolved, pending, links, deps).0;
            r.Found? ==> Canonical(tree, r.path)
    decreases MAX_LINKS - links, |pending|
  {
    if pending != [] {
      var name, rest := pending[0], pending[1..];
      var next := resolved + [name];
      if Skipped(name) {
        FoundIsCanonical(tree, resolved, rest, links, deps);
      } else if name == ".." {
        CanonicalParent(tree, resolved);
        FoundIsCanonical(tree, Parent(resolved), rest, links, deps);
      } else if next in tree {
        match tree[next]
        case Link(target) =>
          if links < MAX_LINKS {
            FoundIsCanonical(tree, if target.absolute then [] else resolved, target.components + rest, links + 1, deps + [next]);
          }
        case BrokenLink =>
        case Unreadable =>
        case Directory =>
          CanonicalChild(tree, resolved, name);
          FoundIsCanonical(tree, next, rest, links, deps);
        case NonDirectory => CanonicalChild(tree, resolved, name);
      }
    }
  }

  /** A canonical path resolves to itself, through no link and with nothing to watch. */
  lemma {:induction false} CanonicalIsFixpoint(tree: Tree, p: Path, k: nat, links: nat, deps: seq<Path>)
    requires Canonical(tree, p) && k <= |p| && links <= MAX_LINKS
    ensures Resolve(tree, p[..k], p[k..], links, deps) == (Found(p), deps)
    decreases |p| - k
  {
    if k < |p| {
      assert PlainName(p[k]);
      assert p[..k] + [p[k]] == p[..k + 1] && p[k..][1..] == p[k + 1..];
      CanonicalIsFixpoint(tree, p, k + 1, links, deps);
      if k + 1 < |p| {
        assert IsDirectory(tree, p[..k + 1]);
      } else {
        assert p[..k + 1] == p;
      }
    } else {
      assert p[..k] == p;
    }
  }

  /** The paths that resolve to themselves are exactly the canonical ones. */
  lemma FixpointIffCanonical(tree: Tree, p: Path)
    ensures Resolve(tree, [], p, 0, []).0 == Found(p) <==> Canonical(tree, p)
  {
    FoundIsCanonical(tree, [], p, 0, []);
    if Canonical(tree, p) {
      CanonicalIsFixpoint(tree, p, 0, 0, []);
      assert p[..0] == [] && p[0..] == p;
    }
  }

  // ---------------------------------------------------------------- the recursive semantics

  /** How far a walk got: the resolution and the links followed so far. */
  datatype Walked = Walked(at: Resolution, links: nat)

  /** Resolution as a recursive semantics: a link's target is walked completely, from the directory that
      holds it or from the root, and the walk then goes on from where it ended, which must be a directory
      if components remain. */
  function Walk(tree: Tree, from: Path, components: seq<Name>, links: nat): (w: Walked)
    requires links <= MAX_LINKS
    ensures links <= w.links <= MAX_LINKS
    decreases MAX_LINKS - links, |components|
  {
    if components == [] then Walked(Found(from), links)
    else
      var name, rest := components[0], components[1..];
      if Skipped(name) then Walk(tree, from, rest, links)
      else if name == ".." then Walk(tree, Parent(from), rest, links)
      else
        var next := from + [name];
        if next !in tree then Walked(Absent, links)
        else match tree[next]
          case Directory => Walk(tree, next, rest, links)
          case NonDirectory => if rest == [] then Walked(Found(next), links) else Walked(Absent, links)
          case Unreadable => Walked(Failed(QueryFailed), links)
          case BrokenLink => Walked(Failed(if links == MAX_LINKS then TooManyLinks else InvalidTarget), links)
          case Link(target) =>
            if links == MAX_LINKS then Walked(Failed(TooManyLinks), links)
            else
              var end := Walk(tree, if target.absolute then [] else from, target.components, links + 1);
              if !end.at.Found? || rest == [] then end
              else if !IsDirectory(tree, end.at.path) then Walked(Absent, end.links)
              else Walk(tree, end.at.path, rest, end.links)
  }

  /** Walking a concatenation is walking its parts, a directory check in between. */
  function Continue(tree: Tree, w: Walked, rest: seq<Name>): Walked
    requires w.links <= MAX_LINKS
  {
    if !w.at.Found? || rest == [] then w
    else if !IsDirectory(tree, w.at.path) then Walked(Absent, w.links)
    else Walk(tree, w.at.path, rest, w.links)
  }

  lemma {:induction false} WalkAppend(tree: Tree, from: Path, a: seq<Name>, b: seq<Name>, links: nat)
    requires links <= MAX_LINKS && Canonical(tree, from) && IsDirectory(tree, from)
    ensures Walk(tree, from, a + b, links) == Continue(tree, Walk(tree, from, a, links), b)
    decreases MAX_LINKS - links, |a|, 1
  {
    if a == [] {
      assert a + b == b;
    } else {
      var name, rest := a[0], a[1..];
      assert (a + b)[0] == name && (a + b)[1..] == rest + b;
      var next := from + [name];
      if Skipped(name) {
        WalkAppend(tree, from, rest, b, links);
      } else if name == ".." {
        CanonicalParent(tree, from);
        WalkAppend(tree, Parent(from), rest, b, links);
      } else if next in tree {
        match tree[next]
        case Directory =>
          CanonicalChild(tree, from, name);
          WalkAppend(tree, next, rest, b, links);
        case NonDirectory =>
        case BrokenLink =>
        case Unreadable =>
        case Link(target) =>
          if links < MAX_LINKS {
            WalkAppendLink(tree, from, target, rest, b, links);
          }
      }
    }
  }

  lemma {:induction false} WalkAppendLink(tree: Tree, from: Path, target: Target, rest: seq<Name>, b: seq<Name>, links: nat)
    requires links < MAX_LINKS && Canonical(tree, from) && IsDirectory(tree, from)
    ensures var end := Walk(tree, if target.absolute then [] else from, target.components, links + 1);
            Continue(tree, end, rest + b) == Continue(tree, Continue(tree, end, rest), b)
    decreases MAX_LINKS - links, |rest| + 1, 0
  {
    var start: Path := if target.absolute then [] else from;
    var end := Walk(tree, start, target.components, links + 1);
    if end.at.Found? {
      WalkFindsCanonical(tree, start, target.components, links + 1);
      if rest == [] {
        assert rest + b == b;
      } else if IsDirectory(tree, end.at.path) {
        WalkAppend(tree, end.at.path, rest, b, end.links);
      }
    }
  }

  lemma {:induction false} WalkFindsCanonical(tree: Tree, from: Path, components: seq<Name>, links: nat)
    requires links <= MAX_LINKS && Canonical(tree, from) && (components != [] ==> IsDirectory(tree, from))
    ensures Walk(tree, from, components, links).at.Found? ==> Canonical(tree, Walk(tree, from, components, links).at.path)
    decreases MAX_LINKS - links, |components|
  {
    if components != [] {
      var name, rest := components[0], components[1..];
      var next := from + [name];
      if Skipped(name) {
        WalkFindsCanonical(tree, from, rest, links);
      } else if name == ".." {
        CanonicalParent(tree, from);
        WalkFindsCanonical(tree, Parent(from), rest, links);
      } else if next in tree {
        match tree[next]
        case Directory =>
          CanonicalChild(tree, from, name);
          WalkFindsCanonical(tree, next, rest, links);
        case NonDirectory => CanonicalChild(tree, from, name);
        case BrokenLink =>
        case Unreadable =>
        case Link(target) =>
          if links < MAX_LINKS {
            var start: Path := if target.absolute then [] else from;
            WalkFindsCanonical(tree, start, target.components, links + 1);
            var end := Walk(tree, start, target.components, links + 1);
            if end.at.Found? && rest != [] && IsDirectory(tree, end.at.path) {
              WalkFindsCanonical(tree, end.at.path, rest, end.links);
            }
          }
      }
    }
  }

  /** The splicing loop computes exactly the recursive semantics. */
  lemma {:induction false} ResolveIsWalk(tree: Tree, resolved: Path, pending: seq<Name>, links: nat, deps: seq<Path>)
    requires links <= MAX_LINKS && Canonical(tree, resolved) && (pending != [] ==> IsDirectory(tree, resolved))
    ensures Resolve(tree, resolved, pending, links, deps).0 == Walk(tree, resolved, pending, links).at
    decreases MAX_LINKS - links, |pending|
  {
    if pending != [] {
      var name, rest := pending[0], pending[1..];
      var next := resolved + [name];
      if Skipped(name) {
        ResolveIsWalk(tree, resolved, rest, links, deps);
      } else if name == ".." {
        CanonicalParent(tree, resolved);
        ResolveIsWalk(tree, Parent(resolved), rest, links, deps);
      } else if next in tree {
        match tree[next]
        case Directory =>
          CanonicalChild(tree, resolved, name);
          ResolveIsWalk(tree, next, rest, links, deps);
        case NonDirectory =>
        case BrokenLink =>
        case Unreadable =>
        case Link(target) =>
          if links < MAX_LINKS {
            var start: Path := if target.absolute then [] else resolved;
            ResolveIsWalk(tree, start, target.components + rest, links + 1, deps + [next]);
            WalkAppend(tree, start, target.components, rest, links + 1);
          }
      }
    }
  }

  // ---------------------------------------------------------------- confinement

  function CommonPrefix(a: Path, b: Path): (n: nat)
    ensures n <= |a| && n <= |b| && a[..n] == b[..n]
    ensures n < |a| && n < |b| ==> a[n] != b[n]
  {
    if a == [] || b == [] || a[0] != b[0] then 0
    else
      var n := 1 + CommonPrefix(a[1..], b[1..]);
      assert a[..n] == [a[0]] + a[1..][..n - 1] && b[..n] == [b[0]] + b[1..][..n - 1];
      n
  }

  /** The target relative to the root, for two canonical paths: up from the root, then down. */
  function LexicallyRelative(target: Path, root: Path): seq<Name> {
    var n := CommonPrefix(target, root);
    if n == |target| == |root| then ["."] else seq(|root| - n, _ => "..") + target[n..]
  }

  predicate HasForbidden(name: Name) { '\0' in name || ':' in name || '\\' in name }

  /** The check on the relative path as written. */
  predicate Wellformed(rootAbsolute: bool, absolute: bool, relative: seq<Name>) {
    && rootAbsolute && !absolute && relative != [] && relative != [""]
    && forall i | 0 <= i < |relative| :: !HasForbidden(relative[i]) && relative[i] != ".."
  }

  function ResolveConfined(tree: Tree, rootAbsolute: bool, root: Path, absolute: bool, relative: seq<Name>, deps: seq<Path>)
    : (r: (Resolution, seq<Path>))
  {
    if !Wellformed(rootAbsolute, absolute, relative) then (Failed(InvalidRelativePath), deps)
    else
      var (canonicalRoot, deps1) := Resolve(tree, [], root, 0, deps + [root, root + relative]);
      if canonicalRoot.Failed? then (canonicalRoot, deps1)
      else if canonicalRoot != Found(root) then (Failed(RootChanged), deps1)
      else
        var (target, deps2) := Resolve(tree, [], root + relative, 0, deps1);
        if !target.Found? then (target, deps2)
        else
          var way := LexicallyRelative(target.path, root);
          if way == [] || way == ["."] || way[0] == ".." then (Failed(OutsideRoot), deps2)
          else (target, deps2 + [target.path])
  }

  method ResolveConfinedAssetPath(tree: Tree, rootAbsolute: bool, root: Path, absolute: bool, relative: seq<Name>,
                                  dependencies: seq<Path>) returns (result: Resolution, deps: seq<Path>)
    ensures (result, deps) == ResolveConfined(tree, rootAbsolute, root, absolute, relative, dependencies)
  {
    deps := dependencies;
    if !Wellformed(rootAbsolute, absolute, relative) {
      return Failed(InvalidRelativePath), deps;
    }
    deps := deps + [root, root + relative];
    var canonicalRoot;
    canonicalRoot, deps := CanonicalPath(tree, root, deps);
    if canonicalRoot.Failed? {
      return canonicalRoot, deps;
    }
    if canonicalRoot != Found(root) {
      return Failed(RootChanged), deps;
    }
    result, deps := CanonicalPath(tree, root + relative, deps);
    if !result.Found? {
      return;
    }
    var way := LexicallyRelative(result.path, root);
    if way == [] || way == ["."] || way[0] == ".." {
      return Failed(OutsideRoot), deps;
    }
    deps := deps + [result.path];
  }

  predicate StrictlyBelow(p: Path, root: Path) { |root| < |p| && p[..|root|] == root }

  /** The lexical test accepts exactly the paths strictly below the root. */
  lemma LexicalTestIsConfinement(tree: Tree, target: Path, root: Path)
    requires Canonical(tree, target)
    ensures var way := LexicallyRelative(target, root);
            way != [] && way != ["."] && way[0] != ".." <==> StrictlyBelow(target, root)
  {
    var n := CommonPrefix(target, root);
    if StrictlyBelow(target, root) {
      assert forall i | 0 <= i < |root| :: target[i] == target[..|root|][i];
      assert n == |root| && PlainName(target[n]);
      assert LexicallyRelative(target, root) == target[n..];
      assert LexicallyRelative(target, root)[0] == target[n] != ".";
    }
  }

  /** A request is refused as written exactly for a root that is not absolute, a path that is absolute or empty, or a
      component that goes up or has a NUL, a colon or a backslash in it; then nothing is watched. */
  lemma RefusedAsWritten(tree: Tree, rootAbsolute: bool, root: Path, absolute: bool, relative: seq<Name>, deps: seq<Path>)
    ensures var r := ResolveConfined(tree, rootAbsolute, root, absolute, relative, deps);
            var refused := !rootAbsolute || absolute || relative == [] || relative == [""]
              || exists i | 0 <= i < |relative| ::
                   relative[i] == ".." || '\0' in relative[i] || ':' in relative[i] || '\\' in relative[i];
            && (r.0 == Failed(InvalidRelativePath) <==> refused)
            && (refused ==> r.1 == deps)
  {
    hide Resolve, LexicallyRelative;
  }

  /** A confined resolution finds only canonical paths strictly below a root that is itself canonical, and
      finds exactly what the recursive semantics finds there. */
  lemma ConfinedLaw(tree: Tree, root: Path, relative: seq<Name>, deps: seq<Path>)
    requires Wellformed(true, false, relative)
    ensures var r := ResolveConfined(tree, true, root, false, relative, deps).0;
            var w := Walk(tree, [], root + relative, 0).at;
            && (forall p :: r == Found(p) <==>
                  Canonical(tree, root) && w == Found(p) && Canonical(tree, p) && StrictlyBelow(p, root))
            && (r == Failed(OutsideRoot) <==> Canonical(tree, root) && w.Found? && !StrictlyBelow(w.path, root))
            && (r == Failed(RootChanged) <==> !Canonical(tree, root) && !Walk(tree, [], root, 0).at.Failed?)
  {
    var start := deps + [root, root + relative];
    var deps1 := Resolve(tree, [], root, 0, start).1;
    ResolveIsWalk(tree, [], root, 0, start);
    ResolveIsWalk(tree, [], root, 0, []);
    ResolveIsWalk(tree, [], root + relative, 0, deps1);
    FixpointIffCanonical(tree, root);
    FoundIsCanonical(tree, [], root + relative, 0, deps1);
    var w := Walk(tree, [], root + relative, 0).at;
    if w.Found? {
      LexicalTestIsConfinement(tree, w.path, root);
    }
  }
}
