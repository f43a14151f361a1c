/** Which paths a resolution asks to be watched: the links it followed, in order, and the path at which it had to stop. */
module AssetTrail {
  import opened AssetPath

  /** The watched paths of the recursive semantics: a link, then those of its target, then those of the rest of the way. */
  function Trail(tree: Tree, from: Path, components: seq<Name>, links: nat): seq<Path>
    requires links <= MAX_LINKS
    decreases MAX_LINKS - links, |components|
  {
    if components == [] then []
    else
      var name, rest := components[0], components[1..];
      if Skipped(name) then Trail(tree, from, rest, links)
      else if name == ".." then Trail(tree, Parent(from), rest, links)
      else
        var next := from + [name];
        if next !in tree then [next]
        else match tree[next]
          case Directory => Trail(tree, next, rest, links)
          case NonDirectory => if rest == [] then [] else [next]
          case Unreadable => []
          case BrokenLink => if links == MAX_LINKS then [] else [next]
          case Link(target) =>
            if links == MAX_LINKS then []
            else
              var start: Path := if target.absolute then [] else from;
              [next] + Trail(tree, start, target.components, links + 1)
              + Onward(tree, Walk(tree, start, target.components, links + 1), rest)
  }

  /** The watched paths of the rest of the way, from where a walk ended. */
  function Onward(tree: Tree, end: Walked, rest: seq<Name>): seq<Path>
    requires end.links <= MAX_LINKS
    decreases MAX_LINKS - end.links, |rest| + 1
  {
    if !end.at.Found? || rest == [] then []
    else if !IsDirectory(tree, end.at.path) then [end.at.path]
    else Trail(tree, end.at.path, rest, end.links)
  }

  /** Walking on from a link, and what that adds to the trail. */
  lemma LinkUnfolds(tree: Tree, from: Path, components: seq<Name>, links: nat, target: Target)
    requires links < MAX_LINKS && components != [] && PlainName(components[0])
    requires from + [components[0]] in tree && tree[from + [components[0]]] == Link(target)
    ensures var start: Path := if target.absolute then [] else from;
      var end := Walk(tree, start, target.components, links + 1);
      && Walk(tree, from, components, links) == Continue(tree, end, components[1..])
      && Trail(tree, from, components, links)
         == [from + [components[0]]] + Trail(tree, start, target.components, links + 1) + Onward(tree, end, components[1..])
  {
    hide Onward;
  }

  lemma {:induction false} TrailAppendAtLink(tree: Tree, from: Path, a: seq<Name>, b: seq<Name>, links: nat, target: Target)
    requires links < MAX_LINKS && Canonical(tree, from) && IsDirectory(tree, from) && a != [] && PlainName(a[0])
    requires from + [a[0]] in tree && tree[from + [a[0]]] == Link(target)
    ensures Trail(tree, from, a + b, links) == Trail(tree, from, a, links) + Onward(tree, Walk(tree, from, a, links), b)
    decreases MAX_LINKS - links, |a|, 1
  {
    assert (a + b)[0] == a[0] && (a + b)[1..] == a[1..] + b;
    LinkUnfolds(tree, from, a, links, target);
    LinkUnfolds(tree, from, a + b, links, target);
    OnwardAppend(tree, from, target, a[1..], b, links);
    hide *;
  }

  lemma {:induction false} TrailAppend(tree: Tree, from: Path, a: seq<Name>, b: seq<Name>, links: nat)
    requires links <= MAX_LINKS && Canonical(tree, from) && IsDirectory(tree, from)
    ensures Trail(tree, from, a + b, links) == Trail(tree, from, a, links) + Onward(tree, Walk(tree, from, a, links), b)
    decreases MAX_LINKS - links, |a|, 2
  {
    if a == [] {
      assert a + b == b;
    } else {
      var name, rest := a[0], a[1..];
      assert (a + b)[0] == name && (a + b)[1..] == rest + b;
      var next := from + [name];
      if Skipped(name) {
        TrailAppend(tree, from, rest, b, links);
      } else if name == ".." {
        CanonicalParent(tree, from);
        TrailAppend(tree, Parent(from), rest, b, links);
      } else if next in tree {
        match tree[next]
        case Directory =>
          CanonicalChild(tree, from, name);
          TrailAppend(tree, next, rest, b, links);
        case NonDirectory =>
        case BrokenLink =>
        case Unreadable =>
        case Link(target) =>
          if links < MAX_LINKS {
            TrailAppendAtLink(tree, from, a, b, links, target);
          }
      }
    }
  }

  lemma {:induction false} OnwardAppend(tree: Tree, from: Path, target: Target, rest: seq<Name>, b: seq<Name>, links: nat)
    requires links < MAX_LINKS && Canonical(tree, from) && IsDirectory(tree, from)
    ensures var end := Walk(tree, if target.absolute then [] else from, target.components, links + 1);
      Onward(tree, end, rest + b) == Onward(tree, end, rest) + Onward(tree, Continue(tree, end, rest), b)
    decreases MAX_LINKS - links, |rest| + 1, 0
  {
    var start: Path := if target.absolute then [] else from;
    var end := Walk(tree, start, target.components, links + 1);
    if end.at.Found? {
      WalkFindsCanonical(tree, start, target.components, links + 1);
      if rest == [] {
        assert rest + b == b;
      } else if IsDirectory(tree, end.at.path) {
        TrailAppend(tree, end.at.path, rest, b, end.links);
      }
    }
  }

  /** What the loop collects is exactly the trail of the recursive semantics. */
  lemma {:induction false} ResolveWatchesTrail(tree: Tree, resolved: Path, pending: seq<Name>, links: nat, deps: seq<Path>)
    requires links <= MAX_LINKS && Canonical(tree, resolved) && (pending != [] ==> IsDirectory(tree, resolved))
    ensures Resolve(tree, resolved, pending, links, deps).1 == deps + Trail(tree, resolved, pending, links)
    decreases MAX_LINKS - links, |pending|
  {
    if pending != [] {
      var name, rest := pending[0], pending[1..];
      var next := resolved + [name];
      if Skipped(name) {
        ResolveWatchesTrail(tree, resolved, rest, links, deps);
      } else if name == ".." {
        CanonicalParent(tree, resolved);
        ResolveWatchesTrail(tree, Parent(resolved), rest, links, deps);
      } else if next in tree {
        match tree[next]
        case Directory =>
          CanonicalChild(tree, resolved, name);
          ResolveWatchesTrail(tree, next, rest, links, deps);
        case NonDirectory =>
        case BrokenLink =>
        case Unreadable =>
        case Link(target) =>
          if links < MAX_LINKS {
            ResolveWatchesLink(tree, resolved, name, target, rest, links, deps);
          }
      }
    }
  }

  lemma {:induction false} ResolveWatchesLink(tree: Tree, resolved: Path, name: Name, target: Target, rest: seq<Name>, links: nat,
                                              deps: seq<Path>)
    requires links < MAX_LINKS && Canonical(tree, resolved) && IsDirectory(tree, resolved)
    ensures var start: Path := if target.absolute then [] else resolved;
      var next := resolved + [name];
      Resolve(tree, start, target.components + rest, links + 1, deps + [next]).1
      == deps + ([next] + Trail(tree, start, target.components, links + 1)
                 + Onward(tree, Walk(tree, start, target.components, links + 1), rest))
    decreases MAX_LINKS - links - 1, |target.components + rest| + 1
  {
    var start: Path := if target.absolute then [] else resolved;
    var next := resolved + [name];
    ResolveWatchesTrail(tree, start, target.components + rest, links + 1, deps + [next]);
    TrailAppend(tree, start, target.components, rest, links + 1);
    hide Resolve, Trail, Walk, Onward;
  }

  // ---------------------------------------------------------------- what is on a trail

  /** The links among some paths. */
  function LinksAmong(tree: Tree, ps: seq<Path>): nat {
    if ps == [] then 0
    else LinksAmong(tree, ps[..|ps| - 1]) + if ps[|ps| - 1] in tree && tree[ps[|ps| - 1]].Link? then 1 else 0
  }

  lemma {:induction false} LinksAppend(tree: Tree, a: seq<Path>, b: seq<Path>)
    ensures LinksAmong(tree, a + b) == LinksAmong(tree, a) + LinksAmong(tree, b)
  {
    if b == [] {
      assert a + b == a;
    } else {
      assert (a + b)[..|a + b| - 1] == a + b[..|b| - 1];
      LinksAppend(tree, a, b[..|b| - 1]);
    }
  }

  /** A path at which a resolution has to stop: it is missing, no directory, or a link without a usable target. */
  predicate Stops(tree: Tree, p: Path) { p !in tree || tree[p].NonDirectory? || tree[p].BrokenLink? }

  /** A trail of links only, or of links and one last path at which the way ends. */
  ghost predicate LinksThenStop(tree: Tree, ps: seq<Path>) {
    && (forall i | 0 <= i < |ps| - 1 :: ps[i] in tree && tree[ps[i]].Link?)
    && (ps != [] ==> (ps[|ps| - 1] in tree && tree[ps[|ps| - 1]].Link?) || Stops(tree, ps[|ps| - 1]))
  }

  ghost predicate LinksOnly(tree: Tree, ps: seq<Path>) { forall i | 0 <= i < |ps| :: ps[i] in tree && tree[ps[i]].Link? }

  lemma LinksOnlyThen(tree: Tree, a: seq<Path>, b: seq<Path>)
    requires LinksOnly(tree, a) && LinksThenStop(tree, b)
    ensures LinksThenStop(tree, a + b) && (LinksOnly(tree, b) ==> LinksOnly(tree, a + b))
  {
  }

  /** Every link that was followed is watched, once for each time; besides the links only the path that ended the way is
      watched, and none if something was found. */
  lemma {:induction false} TrailIsLinksThenStop(tree: Tree, from: Path, components: seq<Name>, links: nat)
    requires links <= MAX_LINKS && Canonical(tree, from) && (components != [] ==> IsDirectory(tree, from))
    ensures var t, w := Trail(tree, from, components, links), Walk(tree, from, components, links);
      && LinksThenStop(tree, t) && LinksAmong(tree, t) == w.links - links
      && (w.at.Found? ==> LinksOnly(tree, t))
      && (w.at == Absent ==> t != [] && Stops(tree, t[|t| - 1]))
    decreases MAX_LINKS - links, |components|, 1
  {
    hide LinksThenStop, LinksOnly, LinksAmong;
    NothingWatched(tree);
    if components != [] {
      var name, rest := components[0], components[1..];
      var next := from + [name];
      if Skipped(name) {
        TrailIsLinksThenStop(tree, from, rest, links);
      } else if name == ".." {
        CanonicalParent(tree, from);
        TrailIsLinksThenStop(tree, Parent(from), rest, links);
      } else if next !in tree || tree[next].BrokenLink? || tree[next].NonDirectory? {
        StopAlone(tree, next);
      } else {
        match tree[next]
        case Directory =>
          CanonicalChild(tree, from, name);
          TrailIsLinksThenStop(tree, next, rest, links);
        case Link(target) =>
          if links < MAX_LINKS {
            LinkUnfolds(tree, from, components, links, target);
            LinkIsLinksThenStop(tree, from, next, target, rest, links);
          }
        case _ =>
      }
    }
  }

  lemma NothingWatched(tree: Tree)
    ensures LinksThenStop(tree, []) && LinksOnly(tree, []) && LinksAmong(tree, []) == 0
  {
  }

  lemma StopAlone(tree: Tree, p: Path)
    requires Stops(tree, p)
    ensures LinksThenStop(tree, [p]) && LinksAmong(tree, [p]) == 0
  {
    assert [p][..0] == [];
  }

  lemma {:induction false} LinkIsLinksThenStop(tree: Tree, from: Path, next: Path, target: Target, rest: seq<Name>, links: nat)
    requires links < MAX_LINKS && Canonical(tree, from) && IsDirectory(tree, from) && next in tree && tree[next] == Link(target)
    ensures var start: Path := if target.absolute then [] else from;
      var end := Walk(tree, start, target.components, links + 1);
      var t := [next] + Trail(tree, start, target.components, links + 1) + Onward(tree, end, rest);
      var w := Continue(tree, end, rest);
      && LinksThenStop(tree, t) && LinksAmong(tree, t) == w.links - links
      && (w.at.Found? ==> LinksOnly(tree, t))
      && (w.at == Absent ==> t != [] && Stops(tree, t[|t| - 1]))
    decreases MAX_LINKS - links - 1, |target.components| + |rest| + 2, 2
  {
    hide *;
    var start: Path := if target.absolute then [] else from;
    var end := Walk(tree, start, target.components, links + 1);
    RootIsCanonical(tree);
    TrailIsLinksThenStop(tree, start, target.components, links + 1);
    WalkFindsCanonical(tree, start, target.components, links + 1);
    OnwardIsLinksThenStop(tree, end, rest);
    if !end.at.Found? {
      NothingOnward(tree, end, rest);
    }
    TrailsCombine(tree, next, Trail(tree, start, target.components, links + 1), Onward(tree, end, rest), end,
                  Continue(tree, end, rest), links);
  }

  lemma RootIsCanonical(tree: Tree)
    ensures Canonical(tree, []) && IsDirectory(tree, [])
  {
  }

  /** A link, the trail of its target and the rest of the way, when each of the two is links and at most one stop. */
  lemma TrailsCombine(tree: Tree, next: Path, inner: seq<Path>, onward: seq<Path>, end: Walked, w: Walked, links: nat)
    requires next in tree && tree[next].Link?
    requires LinksThenStop(tree, inner) && LinksAmong(tree, inner) == end.links - (links + 1)
    requires (end.at.Found? ==> LinksOnly(tree, inner)) && (end.at == Absent ==> inner != [] && Stops(tree, inner[|inner| - 1]))
    requires LinksThenStop(tree, onward) && LinksAmong(tree, onward) == w.links - end.links
    requires w.at.Found? ==> LinksOnly(tree, onward)
    requires end.at.Found? && w.at == Absent ==> onward != [] && Stops(tree, onward[|onward| - 1])
    requires !end.at.Found? ==> onward == [] && w == end
    ensures var t := [next] + inner + onward;
      && LinksThenStop(tree, t) && LinksAmong(tree, t) == w.links - links
      && (w.at.Found? ==> LinksOnly(tree, t))
      && (w.at == Absent ==> t != [] && Stops(tree, t[|t| - 1]))
  {
    LinkThenTrail(tree, next, inner, onward, end);
    LastOfThree([next], inner, onward);
    hide *;
  }

  lemma NothingOnward(tree: Tree, end: Walked, rest: seq<Name>)
    requires end.links <= MAX_LINKS && !end.at.Found?
    ensures Onward(tree, end, rest) == [] && Continue(tree, end, rest) == end
  {
  }

  lemma LastOfThree(a: seq<Path>, b: seq<Path>, c: seq<Path>)
    ensures c != [] ==> (a + b + c)[|a + b + c| - 1] == c[|c| - 1]
    ensures c == [] && b != [] ==> (a + b + c)[|a + b + c| - 1] == b[|b| - 1]
  {
  }

  lemma LinkThenTrail(tree: Tree, next: Path, inner: seq<Path>, onward: seq<Path>, end: Walked)
    requires next in tree && tree[next].Link?
    requires LinksThenStop(tree, inner) && LinksThenStop(tree, onward)
    requires end.at.Found? ==> LinksOnly(tree, inner)
    requires !end.at.Found? ==> onward == []
    ensures LinksThenStop(tree, [next] + inner + onward)
    ensures end.at.Found? && LinksOnly(tree, onward) ==> LinksOnly(tree, [next] + inner + onward)
    ensures LinksAmong(tree, [next] + inner + onward) == 1 + LinksAmong(tree, inner) + LinksAmong(tree, onward)
    ensures onward == [] ==> [next] + inner + onward == [next] + inner
  {
    assert [next][..0] == [];
    LinksAppend(tree, [next], inner);
    LinksAppend(tree, [next] + inner, onward);
    if !end.at.Found? {
      LinksOnlyThen(tree, [next], inner);
      assert [next] + inner + onward == [next] + inner;
    } else {
      LinksOnlyThen(tree, [next] + inner, onward);
    }
  }

  lemma {:induction false} OnwardIsLinksThenStop(tree: Tree, end: Walked, rest: seq<Name>)
    requires end.links <= MAX_LINKS && (end.at.Found? ==> Canonical(tree, end.at.path))
    ensures var t, w := Onward(tree, end, rest), Continue(tree, end, rest);
      && LinksThenStop(tree, t) && LinksAmong(tree, t) == w.links - end.links
      && (w.at.Found? ==> LinksOnly(tree, t))
      && (end.at.Found? && w.at == Absent ==> t != [] && Stops(tree, t[|t| - 1]))
    decreases MAX_LINKS - end.links, |rest| + 1, 0
  {
    if end.at.Found? && rest != [] {
      if IsDirectory(tree, end.at.path) {
        TrailIsLinksThenStop(tree, end.at.path, rest, end.links);
      } else {
        StopAlone(tree, end.at.path);
      }
    }
  }

  /** A confined lookup watches the root and the path as given, the trails of the two resolutions, and what it found. */
  lemma ConfinedWatches(tree: Tree, root: Path, relative: seq<Name>, deps: seq<Path>)
    requires Wellformed(true, false, relative)
    ensures var (r, watched) := ResolveConfined(tree, true, root, false, relative, deps);
      var given := deps + [root, root + relative] + Trail(tree, [], root, 0);
      watched == if !Canonical(tree, root) then given
                 else given + Trail(tree, [], root + relative, 0) + if r.Found? then [r.path] else []
  {
    var start := deps + [root, root + relative];
    var deps1 := Resolve(tree, [], root, 0, start).1;
    ResolveWatchesTrail(tree, [], root, 0, start);
    ResolveWatchesTrail(tree, [], root + relative, 0, deps1);
    ResolveIsWalk(tree, [], root, 0, start);
    ResolveIsWalk(tree, [], root, 0, []);
    FixpointIffCanonical(tree, root);
  }
}
