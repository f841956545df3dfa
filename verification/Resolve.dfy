/**
 `resolve` of `agent_edits.rs`: `.` and `..` folded by name, then as much of the path as exists
 canonicalized and the rest put back. Paths are absolute.
 */
module Resolve {
  import opened Disk

  function Last(p: Path): string
    requires p != []
  {
    p[|p| - 1]
  }

  /** `..` takes back the name before it, whatever that name is on disk. */
  function Folded(lexical: Path, todo: seq<Comp>): Path
    decreases |todo|
  {
    if todo == [] then lexical
    else
      match todo[0]
      case Named(name) => Folded(lexical + [name], todo[1..])
      case Up => Folded(if lexical == [] then [] else Parent(lexical), todo[1..])
  }

  lemma RootIsFound(nodes: Nodes)
    ensures Canonical(nodes, []) == Found([])
  {
    assert Names([]) == [];
  }

  function Resolved(nodes: Nodes, p: Path): Path
    decreases |p|
  {
    var found := Canonical(nodes, p);
    if found.Found? then found.path
    else
      assert p != [] by { RootIsFound(nodes); }
      Resolved(nodes, Parent(p)) + [Last(p)]
  }

  method Resolve(nodes: Nodes, path: seq<Comp>) returns (resolved: Path)
    ensures resolved == Resolved(nodes, Folded([], path))
  {
    var lexical: Path := [];
    assert path[0..] == path;
    for i := 0 to |path|
      invariant Folded(lexical, path[i..]) == Folded([], path)
    {
      assert path[i..][1..] == path[i + 1..];
      match path[i] {
        case Up => lexical := if lexical == [] then [] else Parent(lexical);
        case Named(name) => lexical := lexical + [name];
      }
    }
    var existing, rest := lexical, [];
    while true
      invariant Resolved(nodes, lexical) == Resolved(nodes, existing) + Reversed(rest)
      decreases |existing|
    {
      var found := Canonical(nodes, existing);
      if found.Found? {
        return found.path + Reversed(rest);
      }
      RootIsFound(nodes);
      ReversedSnoc(rest, Last(existing));
      assert Resolved(nodes, existing) + Reversed(rest) ==
             Resolved(nodes, Parent(existing)) + ([Last(existing)] + Reversed(rest));
      rest := rest + [Last(existing)];
      existing := Parent(existing);
    }
  }

  function Reversed(names: seq<string>): seq<string> {
    if names == [] then [] else Reversed(names[1..]) + [names[0]]
  }

  lemma {:induction false} ReversedSnoc(names: seq<string>, name: string)
    ensures Reversed(names + [name]) == [name] + Reversed(names)
    decreases |names|
  {
    if names == [] {
      assert names + [name] == [name];
    } else {
      assert (names + [name])[1..] == names[1..] + [name];
      ReversedSnoc(names[1..], name);
    }
  }

  // ---- How far a path exists ----

  /** `p[..k]` is the longest beginning of `p` that can be canonicalized, and `dir` is what it is. */
  ghost predicate Stops(nodes: Nodes, p: Path, k: nat, dir: Path) {
    k <= |p| && Canonical(nodes, p[..k]) == Found(dir) && forall j | k < j <= |p| :: !Canonical(nodes, p[..j]).Found?
  }

  lemma {:induction false} ResolvedStops(nodes: Nodes, p: Path) returns (k: nat, dir: Path)
    ensures Stops(nodes, p, k, dir) && Resolved(nodes, p) == dir + p[k..]
    decreases |p|
  {
    if Canonical(nodes, p).Found? {
      assert p[..|p|] == p;
      k, dir := |p|, Canonical(nodes, p).path;
    } else {
      RootIsFound(nodes);
      var init := Parent(p);
      k, dir := ResolvedStops(nodes, init);
      forall j | k < j <= |p| ensures !Canonical(nodes, p[..j]).Found? {
        assert j < |p| ==> p[..j] == init[..j];
        assert p[..|p|] == p;
      }
      assert p[..k] == init[..k];
      assert init[k..] + [Last(p)] == p[k..];
    }
  }

  lemma {:induction false} StopsResolved(nodes: Nodes, p: Path, k: nat, dir: Path)
    requires Stops(nodes, p, k, dir)
    ensures Resolved(nodes, p) == dir + p[k..]
    decreases |p|
  {
    assert p[..|p|] == p;
    if k == |p| {
      assert dir + p[k..] == dir;
    } else {
      var init := Parent(p);
      forall j | k < j <= |init| ensures !Canonical(nodes, init[..j]).Found? {
        assert init[..j] == p[..j];
      }
      assert init[..k] == p[..k];
      StopsResolved(nodes, init, k, dir);
      assert init[k..] + [Last(p)] == p[k..];
    }
  }

  lemma LongerIsNotFound(nodes: Nodes, p: Path, k: nat)
    requires k <= |p| && !Canonical(nodes, p[..k]).Found?
    ensures forall j | k <= j <= |p| :: !Canonical(nodes, p[..j]).Found?
  {
    forall j | k <= j <= |p| ensures !Canonical(nodes, p[..j]).Found? {
      if Canonical(nodes, p[..j]).Found? {
        assert Names(p[..j]) == Names(p[..k]) + Names(p[k..j]);
        FoundOnTheWay(nodes, [], Names(p[..k]), Names(p[k..j]), LINK_LIMIT);
      }
    }
  }

  // ---- Resolving twice ----

  /** Resolving stops for a reason that holds at the real directory too, not because of the links spent on the way. */
  ghost predicate Steady(nodes: Nodes, p: Path) {
    forall k: nat, dir | Stops(nodes, p, k, dir) && k < |p| :: !Canonical(nodes, dir + [p[k]]).Found?
  }

  /** A resolved path resolves to itself exactly when what stopped it was not the count of links followed so far. */
  lemma ResolveTwice(nodes: Nodes, p: Path)
    requires Sound(nodes)
    ensures Resolved(nodes, Resolved(nodes, p)) == Resolved(nodes, p) <==> Steady(nodes, p)
  {
    hide Walk, Resolved, Canonical, Real;
    var k, dir := ResolvedStops(nodes, p);
    var r := Resolved(nodes, p);
    CanonicalIsReal(nodes, p[..k]);
    assert r[..|dir|] == dir && r[|dir|..] == p[k..];
    RealIsCanonical(nodes, dir, LINK_LIMIT);
    OneStop(nodes, p, k, dir);
    if k == |p| {
      assert r == dir;
      StopsResolved(nodes, dir, |dir|, dir);
    } else {
      assert r[..|dir| + 1] == dir + [p[k]];
      if Steady(nodes, p) {
        LongerIsNotFound(nodes, r, |dir| + 1);
        StopsResolved(nodes, r, |dir|, dir);
      } else {
        FurtherNow(nodes, p, k, dir);
      }
    }
  }

  lemma OneStop(nodes: Nodes, p: Path, k: nat, dir: Path)
    requires Stops(nodes, p, k, dir)
    ensures forall j: nat, d | Stops(nodes, p, j, d) :: j == k && d == dir
  {
  }

  /** The second resolution follows a link the first had no more links left for. */
  lemma FurtherNow(nodes: Nodes, p: Path, k: nat, dir: Path)
    requires Sound(nodes) && Stops(nodes, p, k, dir) && k < |p| && Real(nodes, dir)
    requires Canonical(nodes, dir + [p[k]]).Found?
    ensures Resolved(nodes, dir + p[k..]) != dir + p[k..]
  {
    hide Walk, Resolved, Canonical;
    var r, next := dir + p[k..], dir + [p[k]];
    var m, x := ResolvedStops(nodes, r);
    CanonicalIsReal(nodes, r[..m]);
    assert r[..|next|] == next;
    assert m >= |next|;
    if x + r[m..] == r {
      assert |x| == m;
      assert x == (x + r[m..])[..m] == r[..m];
      assert x[..|next|] == next && p[..k] + [p[k]] == p[..k + 1];
      RealPrefix(nodes, x, |next|);
      hide Real;
      UnderAlias(nodes, p[..k], dir, [p[k]]);
    }
  }

  /** No beginning of the path takes more links than one resolution follows. */
  ghost predicate FewLinks(nodes: Nodes, p: Path) {
    forall j | 0 <= j <= |p| :: !Canonical(nodes, p[..j]).TooManyLinks?
  }

  lemma FewLinksIsSteady(nodes: Nodes, p: Path)
    requires Sound(nodes) && FewLinks(nodes, p)
    ensures Steady(nodes, p)
  {
    forall k: nat, dir | Stops(nodes, p, k, dir) && k < |p| ensures !Canonical(nodes, dir + [p[k]]).Found? {
      assert p[..k] + [p[k]] == p[..k + 1];
      SameFromThere(nodes, p[..k], dir, [p[k]]);
    }
  }

  /** From a directory on, a path is found as it is from the directory's own name. */
  lemma SameFromThere(nodes: Nodes, alias: Path, dir: Path, suffix: Path)
    requires Sound(nodes) && Canonical(nodes, alias) == Found(dir) && !Canonical(nodes, alias + suffix).TooManyLinks?
    ensures Canonical(nodes, dir + suffix) == Canonical(nodes, alias + suffix)
  {
    hide Walk, Names;
    CanonicalIsReal(nodes, alias);
    hide Real;
    WalkOn(nodes, [], Names(alias), Names(suffix), LINK_LIMIT);
    assert Names(alias + suffix) == Names(alias) + Names(suffix);
    var left: nat :| left <= LINK_LIMIT
      && Walk(nodes, [], Names(alias + suffix), LINK_LIMIT) == Walk(nodes, dir, Names(suffix), left);
    WalkWithMore(nodes, dir, Names(suffix), left, LINK_LIMIT);
    Descend(nodes, dir, Names(suffix));
    assert Names(dir + suffix) == Names(dir) + Names(suffix);
  }

  lemma Descend(nodes: Nodes, dir: Path, rest: seq<Comp>)
    requires Real(nodes, dir)
    ensures Walk(nodes, [], Names(dir) + rest, LINK_LIMIT) == Walk(nodes, dir, rest, LINK_LIMIT)
  {
    assert [] + dir == dir;
    if dir == [] {
      assert Names(dir) + rest == rest;
    } else if IsDir(nodes, dir) || rest == [] {
      WalkDown(nodes, [], dir, rest, LINK_LIMIT);
    } else {
      DescendToFile(nodes, dir, rest);
    }
  }

  /** Nothing is below a file, by either way to it. */
  lemma DescendToFile(nodes: Nodes, dir: Path, rest: seq<Comp>)
    requires Real(nodes, dir) && dir != [] && !IsDir(nodes, dir) && rest != []
    ensures Walk(nodes, [], Names(dir) + rest, LINK_LIMIT) == Walk(nodes, dir, rest, LINK_LIMIT)
  {
    hide Walk, Names;
    var init, step := Parent(dir), [Named(Last(dir))] + rest;
    RealPrefix(nodes, dir, |init|);
    assert [] + init == init && dir[..|dir|] == dir && init + [Last(dir)] == dir;
    NamesSplit(init, Last(dir), rest);
    WalkDown(nodes, [], init, step, LINK_LIMIT);
    StepDown(nodes, init, Last(dir), rest, LINK_LIMIT);
  }

  lemma NamesSplit(init: Path, name: string, rest: seq<Comp>)
    ensures Names(init + [name]) + rest == Names(init) + ([Named(name)] + rest)
  {
  }

  /** Whatever alias of a directory a path is spelled under, present or deleted, it resolves to one path. */
  lemma {:induction false} SpellingsResolveAlike(nodes: Nodes, alias: Path, dir: Path, suffix: Path)
    requires Sound(nodes) && Canonical(nodes, alias) == Found(dir) && FewLinks(nodes, alias + suffix)
    ensures Resolved(nodes, alias + suffix) == Resolved(nodes, dir + suffix)
    decreases |suffix|
  {
    var p := alias + suffix;
    assert p[..|p|] == p;
    SameFromThere(nodes, alias, dir, suffix);
    if suffix == [] || Canonical(nodes, p).Found? {
      assert alias + [] == alias;
    } else {
      var less := Parent(suffix);
      assert Parent(p) == alias + less && Parent(dir + suffix) == dir + less;
      forall j | 0 <= j <= |alias + less| ensures !Canonical(nodes, (alias + less)[..j]).TooManyLinks? {
        assert (alias + less)[..j] == p[..j];
      }
      SpellingsResolveAlike(nodes, alias, dir, less);
    }
  }

  /**
   A file below a directory, with whatever is gone of its path, resolves to its place below the
   directory's own name.
   */
  lemma FileBelow(nodes: Nodes, alias: Path, dir: Path, suffix: Path, k: nat)
    requires Sound(nodes) && Canonical(nodes, alias) == Found(dir)
    requires k <= |suffix| && Real(nodes, dir + suffix[..k]) && (k < |suffix| ==> dir + suffix[..k + 1] !in nodes)
    ensures Resolved(nodes, alias + suffix) == dir + suffix
  {
    hide Walk, Resolved, Canonical, Real, Names;
    var p := alias + suffix;
    UnderAlias(nodes, alias, dir, suffix[..k]);
    assert p[..|alias| + k] == alias + suffix[..k];
    if k < |suffix| {
      var there, name := dir + suffix[..k], suffix[k];
      assert there + [name] == dir + suffix[..k + 1];
      NothingThere(nodes, alias + suffix[..k], there, name);
      assert p[..|alias| + k + 1] == alias + suffix[..k] + [name];
      LongerIsNotFound(nodes, p, |alias| + k + 1);
    }
    StopsResolved(nodes, p, |alias| + k, dir + suffix[..k]);
    assert dir + suffix[..k] + p[|alias| + k..] == dir + suffix;
  }

  lemma NothingThere(nodes: Nodes, alias: Path, dir: Path, name: string)
    requires Canonical(nodes, alias) == Found(dir) && dir + [name] !in nodes
    ensures !Canonical(nodes, alias + [name]).Found?
  {
    assert Names(alias + [name]) == Names(alias) + Names([name]);
    WalkOn(nodes, [], Names(alias), Names([name]), LINK_LIMIT);
  }

  // ---- Folding by name ----

  ghost predicate LinkFree(nodes: Nodes) {
    forall p <- nodes :: !nodes[p].Link?
  }

  /** Without links, folding `..` by name is what the file system does with it. */
  lemma {:induction false} FoldedIsWalked(nodes: Nodes, at: Path, todo: seq<Comp>, links: nat)
    requires LinkFree(nodes) && Walk(nodes, at, todo, links).Found?
    ensures Walk(nodes, at, todo, links) == Found(Folded(at, todo))
    decreases |todo|
  {
    if todo != [] {
      match todo[0] {
        case Up => FoldedIsWalked(nodes, if at == [] then [] else Parent(at), todo[1..], links);
        case Named(name) => FoldedIsWalked(nodes, at + [name], todo[1..], links);
      }
    }
  }

  lemma ExistingPathsResolve(nodes: Nodes, path: seq<Comp>)
    requires Sound(nodes) && LinkFree(nodes) && Walk(nodes, [], path, LINK_LIMIT).Found?
    ensures Found(Resolved(nodes, Folded([], path))) == Walk(nodes, [], path, LINK_LIMIT)
  {
    FoldedIsWalked(nodes, [], path, LINK_LIMIT);
    WalkFindsReal(nodes, [], path, LINK_LIMIT);
    RealIsCanonical(nodes, Folded([], path), LINK_LIMIT);
  }

  lemma {:induction false} FoldedNames(lexical: Path, p: Path)
    ensures Folded(lexical, Names(p)) == lexical + p
    decreases |p|
  {
    if p != [] {
      assert Names(p)[1..] == Names(p[1..]);
      FoldedNames(lexical + [p[0]], p[1..]);
    } else {
      assert lexical + p == lexical;
    }
  }

  /** The same law for the whole of `resolve`, spelled path in and spelled path out. */
  lemma ResolveIsIdempotent(nodes: Nodes, path: seq<Comp>)
    requires Sound(nodes)
    ensures var once := Resolved(nodes, Folded([], path));
            Resolved(nodes, Folded([], Names(once))) == once <==> Steady(nodes, Folded([], path))
  {
    var once := Resolved(nodes, Folded([], path));
    FoldedNames([], once);
    assert [] + once == once;
    ResolveTwice(nodes, Folded([], path));
  }

  // ---- A path it takes two resolutions to follow ----

  const LOOPED: Nodes := map[["a"] := Link(true, []), ["b"] := Link(true, [Named("c")]), ["c"] := Dir]

  function Repeated(name: string, n: nat): Path {
    seq(n, _ => name)
  }

  lemma OnceAround(todo: seq<Comp>, links: nat)
    requires todo != [] && todo[0] == Named("a") && links > 0
    ensures Walk(LOOPED, [], todo, links) == Walk(LOOPED, [], todo[1..], links - 1)
  {
    assert [] + ["a"] == ["a"];
    var target: seq<Comp> := [];
    assert LOOPED[["a"]] == Link(true, target);
    assert target + todo[1..] == todo[1..];
  }

  lemma {:induction false} AroundTheLoop(n: nat, rest: seq<Comp>, links: nat)
    requires n <= links
    ensures Walk(LOOPED, [], Names(Repeated("a", n)) + rest, links) == Walk(LOOPED, [], rest, links - n)
    decreases n
  {
    var todo := Names(Repeated("a", n)) + rest;
    if n == 0 {
      assert todo == rest;
    } else {
      assert todo[1..] == Names(Repeated("a", n - 1)) + rest;
      assert todo[0] == Named("a");
      OnceAround(todo, links);
      hide Walk;
      AroundTheLoop(n - 1, rest, links - 1);
    }
  }

  lemma ResolvedOnlyHalfway()
    ensures Sound(LOOPED)
    ensures var p := Repeated("a", LINK_LIMIT) + ["b"];
            Resolved(LOOPED, p) == ["b"] && Resolved(LOOPED, ["b"]) == ["c"]
  {
    hide Walk, LOOPED;
    var p := Repeated("a", LINK_LIMIT) + ["b"];
    var b: seq<Comp> := [Named("b")];
    AroundTheLoop(LINK_LIMIT, b, LINK_LIMIT);
    AroundTheLoop(LINK_LIMIT, [], LINK_LIMIT);
    assert Parent(p) == Repeated("a", LINK_LIMIT);
    assert Names(p) == Names(Repeated("a", LINK_LIMIT)) + b;
    assert Names(Parent(p)) == Names(Parent(p)) + [];
    assert Names(["b"]) == b;
    FromTheRoot();
    assert [] + [Last(p)] == ["b"];
  }

  lemma FromTheRoot()
    ensures Sound(LOOPED)
    ensures Walk(LOOPED, [], [], 0) == Found([]) && Walk(LOOPED, [], [Named("b")], 0) == TooManyLinks
    ensures Walk(LOOPED, [], [Named("b")], LINK_LIMIT) == Found(["c"])
  {
    assert Parent(["a"]) == Parent(["b"]) == Parent(["c"]) == [];
    assert [] + ["b"] == ["b"] && [] + ["c"] == ["c"];
    assert [Named("c")] + [Named("b")][1..] == [Named("c")] && [Named("c")][1..] == [];
    assert Walk(LOOPED, [], [Named("c")], LINK_LIMIT - 1) == Walk(LOOPED, ["c"], [], LINK_LIMIT - 1);
  }
}
