/**
 A file system with symbolic links, as much of it as `canonicalize`, `symlink_metadata` and
 `create_dir` show. A path is the list of its names from `/`; a link's target may climb.
 */
module Disk {
  type Path = seq<string>

  datatype Comp = Named(name: string) | Up

  datatype Node = Dir | File | Link(absolute: bool, target: seq<Comp>)

  type Nodes = map<Path, Node>

  /** How many links one resolution follows before the kernel gives up. */
  const LINK_LIMIT: nat := 40

  datatype Walked = Found(path: Path) | Missing | NotDirectory | TooManyLinks

  predicate IsDir(nodes: Nodes, p: Path) {
    p == [] || (p in nodes && nodes[p].Dir?)
  }

  predicate IsLink(nodes: Nodes, p: Path) {
    p in nodes && nodes[p].Link?
  }

  predicate Exists(nodes: Nodes, p: Path) {
    p == [] || p in nodes
  }

  function Parent(p: Path): Path
    requires p != []
  {
    p[..|p| - 1]
  }

  /** Every node sits in a directory, and the root is not a node of its own. */
  ghost predicate Sound(nodes: Nodes) {
    forall p <- nodes :: p != [] && IsDir(nodes, Parent(p))
  }

  /** A path with no link anywhere on it: its own canonical form. */
  ghost predicate Real(nodes: Nodes, p: Path) {
    forall k | 0 < k <= |p| :: p[..k] in nodes && !nodes[p[..k]].Link? && (k < |p| ==> nodes[p[..k]].Dir?)
  }

  /** Follows `todo` from the real directory `at`, resolving links as it meets them. */
  function Walk(nodes: Nodes, at: Path, todo: seq<Comp>, links: nat): Walked
    decreases links, |todo|
  {
    if todo == [] then Found(at)
    else if !IsDir(nodes, at) then NotDirectory
    else
      match todo[0]
      case Up => Walk(nodes, if at == [] then [] else Parent(at), todo[1..], links)
      case Named(name) =>
        var next := at + [name];
        if next !in nodes then Missing
        else if nodes[next].Link? then
          if links == 0 then TooManyLinks
          else Walk(nodes, if nodes[next].absolute then [] else at, nodes[next].target + todo[1..], links - 1)
        else Walk(nodes, next, todo[1..], links)
  }

  function Names(p: Path): (todo: seq<Comp>)
    ensures |todo| == |p| && forall i | 0 <= i < |p| :: todo[i] == Named(p[i])
  {
    seq(|p|, i requires 0 <= i < |p| => Named(p[i]))
  }

  function Canonical(nodes: Nodes, p: Path, limit: nat := LINK_LIMIT): Walked {
    Walk(nodes, [], Names(p), limit)
  }

  /** What is at `p` itself, links on the way to it followed but not one it names. */
  function SymlinkMetadata(nodes: Nodes, p: Path): Walked
    requires p != []
  {
    var parent := Canonical(nodes, Parent(p));
    if !parent.Found? then parent
    else if !IsDir(nodes, parent.path) then NotDirectory
    else if parent.path + [p[|p| - 1]] in nodes then Found(parent.path + [p[|p| - 1]])
    else Missing
  }

  // ---- Walking ----

  lemma RealStep(nodes: Nodes, p: Path, name: string)
    requires Sound(nodes) && Real(nodes, p) && p + [name] in nodes && !nodes[p + [name]].Link?
    ensures Real(nodes, p + [name])
  {
    var q := p + [name];
    assert Parent(q) == p;
    forall k | 0 < k <= |q| ensures q[..k] in nodes && !nodes[q[..k]].Link? && (k < |q| ==> nodes[q[..k]].Dir?) {
      if k <= |p| {
        assert q[..k] == p[..k];
        assert p[..|p|] == p;
      } else {
        assert q[..k] == q;
      }
    }
  }

  lemma RealPrefix(nodes: Nodes, p: Path, k: nat)
    requires Real(nodes, p) && k <= |p|
    ensures Real(nodes, p[..k]) && (k < |p| ==> IsDir(nodes, p[..k]))
  {
    forall j | 0 < j <= k ensures p[..k][..j] == p[..j] {
    }
  }

  /** A walk that finds something finds a real path. */
  lemma {:induction false} WalkFindsReal(nodes: Nodes, at: Path, todo: seq<Comp>, links: nat)
    requires Sound(nodes) && Real(nodes, at) && Walk(nodes, at, todo, links).Found?
    ensures Real(nodes, Walk(nodes, at, todo, links).path)
    decreases links, |todo|
  {
    if todo != [] {
      match todo[0] {
        case Up =>
          RealPrefix(nodes, at, if at == [] then 0 else |at| - 1);
          WalkFindsReal(nodes, if at == [] then [] else Parent(at), todo[1..], links);
        case Named(name) =>
          var next := at + [name];
          if nodes[next].Link? {
            WalkFindsReal(nodes, if nodes[next].absolute then [] else at, nodes[next].target + todo[1..], links - 1);
          } else {
            RealStep(nodes, at, name);
            WalkFindsReal(nodes, next, todo[1..], links);
          }
      }
    }
  }

  lemma CanonicalIsReal(nodes: Nodes, p: Path)
    requires Sound(nodes) && Canonical(nodes, p).Found?
    ensures Real(nodes, Canonical(nodes, p).path)
  {
    WalkFindsReal(nodes, [], Names(p), LINK_LIMIT);
  }

  lemma StepDown(nodes: Nodes, at: Path, name: string, rest: seq<Comp>, links: nat)
    requires IsDir(nodes, at) && at + [name] in nodes && !nodes[at + [name]].Link?
    ensures Walk(nodes, at, [Named(name)] + rest, links) == Walk(nodes, at + [name], rest, links)
  {
    assert ([Named(name)] + rest)[1..] == rest;
  }

  /** A real path below `at` is walked straight down, at no cost in links. */
  lemma {:induction false} WalkDown(nodes: Nodes, at: Path, names: Path, rest: seq<Comp>, links: nat)
    requires Real(nodes, at + names) && (names + Tail(rest) != [] ==> IsDir(nodes, at))
    requires names != [] && rest != [] ==> IsDir(nodes, at + names)
    ensures Walk(nodes, at, Names(names) + rest, links) == Walk(nodes, at + names, rest, links)
    decreases |names|
  {
    hide Walk, Real;
    if names == [] {
      assert Names(names) + rest == rest && at + names == at;
    } else {
      var next := at + [names[0]];
      RealHead(nodes, at, names);
      assert Names(names) + rest == [Named(names[0])] + (Names(names[1..]) + rest);
      StepDown(nodes, at, names[0], Names(names[1..]) + rest, links);
      WalkDown(nodes, next, names[1..], rest, links);
    }
  }

  lemma RealHead(nodes: Nodes, at: Path, names: Path)
    requires Real(nodes, at + names) && names != []
    ensures var next := at + [names[0]];
            && next in nodes && !nodes[next].Link? && (|names| > 1 ==> nodes[next].Dir?)
            && next + names[1..] == at + names && (|names| == 1 ==> at + names == next)
  {
    assert (at + names)[..|at| + 1] == at + [names[0]];
  }

  function Tail(rest: seq<Comp>): Path {
    if rest == [] then [] else [""]
  }

  /** A walk that stops at a directory goes on from there. */
  lemma {:induction false} WalkOn(nodes: Nodes, at: Path, todo: seq<Comp>, rest: seq<Comp>, links: nat)
    requires Walk(nodes, at, todo, links).Found?
    ensures exists left: nat :: left <= links
              && Walk(nodes, at, todo + rest, links) == Walk(nodes, Walk(nodes, at, todo, links).path, rest, left)
    decreases links, |todo|
  {
    if todo == [] {
      assert todo + rest == rest;
      assert Walk(nodes, at, todo + rest, links) == Walk(nodes, at, rest, links);
    } else {
      assert (todo + rest)[1..] == todo[1..] + rest;
      match todo[0] {
        case Up => WalkOn(nodes, if at == [] then [] else Parent(at), todo[1..], rest, links);
        case Named(name) =>
          var next := at + [name];
          if nodes[next].Link? {
            assert nodes[next].target + todo[1..] + rest == nodes[next].target + (todo[1..] + rest);
            WalkOn(nodes, if nodes[next].absolute then [] else at, nodes[next].target + todo[1..], rest, links - 1);
          } else {
            WalkOn(nodes, next, todo[1..], rest, links);
          }
      }
    }
  }

  /** A walk that goes on after what `todo` spells had found that first. */
  lemma {:induction false} FoundOnTheWay(nodes: Nodes, at: Path, todo: seq<Comp>, rest: seq<Comp>, links: nat)
    requires Walk(nodes, at, todo + rest, links).Found?
    ensures Walk(nodes, at, todo, links).Found?
    decreases links, |todo|
  {
    if todo != [] {
      assert (todo + rest)[1..] == todo[1..] + rest;
      match todo[0] {
        case Up => FoundOnTheWay(nodes, if at == [] then [] else Parent(at), todo[1..], rest, links);
        case Named(name) =>
          var next := at + [name];
          if nodes[next].Link? {
            assert nodes[next].target + todo[1..] + rest == nodes[next].target + (todo[1..] + rest);
            FoundOnTheWay(nodes, if nodes[next].absolute then [] else at, nodes[next].target + todo[1..], rest,
              links - 1);
          } else {
            FoundOnTheWay(nodes, next, todo[1..], rest, links);
          }
      }
    }
  }

  /** More links to spend never change a walk that did not run out of them. */
  lemma {:induction false} WalkWithMore(nodes: Nodes, at: Path, todo: seq<Comp>, links: nat, more: nat)
    requires links <= more && !Walk(nodes, at, todo, links).TooManyLinks?
    ensures Walk(nodes, at, todo, more) == Walk(nodes, at, todo, links)
    decreases links, |todo|
  {
    if todo != [] && IsDir(nodes, at) {
      match todo[0] {
        case Up => WalkWithMore(nodes, if at == [] then [] else Parent(at), todo[1..], links, more);
        case Named(name) =>
          var next := at + [name];
          if next in nodes {
            if nodes[next].Link? {
              WalkWithMore(nodes, if nodes[next].absolute then [] else at, nodes[next].target + todo[1..], links - 1,
                more - 1);
            } else {
              WalkWithMore(nodes, next, todo[1..], links, more);
            }
          }
      }
    }
  }

  /** Adding nodes never changes what was found. */
  lemma {:induction false} WalkInMore(nodes: Nodes, more: Nodes, at: Path, todo: seq<Comp>, links: nat)
    requires nodes.Items <= more.Items && Walk(nodes, at, todo, links).Found?
    ensures Walk(more, at, todo, links) == Walk(nodes, at, todo, links)
    decreases links, |todo|
  {
    if todo != [] {
      assert at != [] ==> (at, nodes[at]) in more.Items;
      match todo[0] {
        case Up => WalkInMore(nodes, more, if at == [] then [] else Parent(at), todo[1..], links);
        case Named(name) =>
          var next := at + [name];
          assert (next, nodes[next]) in more.Items;
          if nodes[next].Link? {
            WalkInMore(nodes, more, if nodes[next].absolute then [] else at, nodes[next].target + todo[1..], links - 1);
          } else {
            WalkInMore(nodes, more, next, todo[1..], links);
          }
      }
    }
  }

  lemma RealIsCanonical(nodes: Nodes, p: Path, limit: nat)
    requires Real(nodes, p)
    ensures Canonical(nodes, p, limit) == Found(p)
  {
    assert [] + p == p && Names(p) + [] == Names(p);
    WalkDown(nodes, [], p, [], limit);
  }

  /** A real path spelled under any alias of one of its directories is found as itself. */
  lemma UnderAlias(nodes: Nodes, alias: Path, dir: Path, suffix: Path)
    requires Canonical(nodes, alias) == Found(dir) && Real(nodes, dir + suffix)
    ensures Canonical(nodes, alias + suffix) == Found(dir + suffix)
  {
    WalkOn(nodes, [], Names(alias), Names(suffix), LINK_LIMIT);
    assert Names(alias + suffix) == Names(alias) + Names(suffix);
    var left: nat :| left <= LINK_LIMIT
      && Walk(nodes, [], Names(alias + suffix), LINK_LIMIT) == Walk(nodes, dir, Names(suffix), left);
    if suffix != [] {
      assert (dir + suffix)[..|dir|] == dir;
    }
    assert Names(suffix) + [] == Names(suffix);
    WalkDown(nodes, dir, suffix, [], left);
  }
}
