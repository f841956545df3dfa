/** `contained_dest` of `agent_setup.rs`: where gavin may write inside a workspace it did not create. */
module Containment {
  import opened Prelude
  import opened Disk
  import Resolve

  /** A component of the path asked for: a plain name, or anything else (`..`, `.`, a root). */
  datatype Piece = Normal(name: string) | Special

  function NamesOf(rel: seq<Piece>): (names: Path)
    requires forall p <- rel :: p.Normal?
    ensures |names| == |rel| && forall i | 0 <= i < |rel| :: names[i] == rel[i].name
  {
    seq(|rel|, i requires 0 <= i < |rel| => rel[i].name)
  }

  predicate Plain(rel: seq<Piece>) {
    rel != [] && forall p <- rel :: p.Normal?
  }

  /** `cur` is real down to its first `have` names, and missing from the next one on. */
  ghost predicate Grounded(nodes: Nodes, cur: Path, have: nat) {
    && have <= |cur| && Real(nodes, cur[..have])
    && (have < |cur| ==> IsDir(nodes, cur[..have]) && cur[..have + 1] !in nodes)
  }

  /**
   What a destination promises once the disk is as it was left: under the canonical root, every
   part of it that exists resolves to exactly that part, it is no link unless it is the root
   itself, and (when parents are made) its parent is a directory there.
   */
  ghost predicate Contained(nodes: Nodes, root: Path, canonicalRoot: Path, dest: Path, create: bool) {
    root <= dest &&
    var suffix := dest[|root|..];
    && (forall k | 0 <= k <= |suffix| :: Exists(nodes, canonicalRoot + suffix[..k]) ==>
          Canonical(nodes, root + suffix[..k]) == Found(canonicalRoot + suffix[..k]))
    && (suffix != [] ==> !IsLink(nodes, canonicalRoot + suffix))
    && (suffix != [] && create ==> IsDir(nodes, canonicalRoot + Parent(suffix)))
  }

  /** Nothing in the way: no link, and no file where a directory has to be. */
  ghost predicate Clear(nodes: Nodes, at: Path, names: Path) {
    IsDir(nodes, at) && forall k | 0 < k <= |names| :: var p := at + names[..k];
                          p in nodes ==> !nodes[p].Link? && (k < |names| ==> nodes[p].Dir?)
  }

  lemma AncestorsExist(nodes: Nodes, p: Path, i: nat)
    requires Sound(nodes) && p in nodes && 0 < i <= |p|
    ensures p[..i] in nodes
    decreases |p| - i
  {
    if i < |p| {
      AncestorsExist(nodes, p, i + 1);
      assert Parent(p[..i + 1]) == p[..i];
    } else {
      assert p[..i] == p;
    }
  }

  /** Whatever exists on a grounded path lies on its real part. */
  lemma GroundedReal(nodes: Nodes, cur: Path, have: nat, k: nat)
    requires Sound(nodes) && Grounded(nodes, cur, have) && k <= |cur| && Exists(nodes, cur[..k])
    ensures Real(nodes, cur[..k])
  {
    if have < k {
      assert cur[..k][..have + 1] == cur[..have + 1];
      AncestorsExist(nodes, cur[..k], have + 1);
    } else {
      RealPrefix(nodes, cur[..have], k);
      assert cur[..have][..k] == cur[..k];
    }
  }

  lemma Descend(nodes: Nodes, cur: Path, have: nat, name: string)
    requires Sound(nodes) && Grounded(nodes, cur, have)
    ensures SymlinkMetadata(nodes, cur + [name]) ==
            if have < |cur| then Missing
            else if !IsDir(nodes, cur) then NotDirectory
            else if cur + [name] in nodes then Found(cur + [name]) else Missing
  {
    hide Walk, Canonical, Grounded, Sound;
    assert Parent(cur + [name]) == cur;
    CanonicalOfGrounded(nodes, cur, have);
  }

  lemma CanonicalOfGrounded(nodes: Nodes, cur: Path, have: nat)
    requires Grounded(nodes, cur, have)
    ensures have <= |cur| && Canonical(nodes, cur) == if have < |cur| then Missing else Found(cur)
  {
    hide Walk;
    if have < |cur| {
      var solid, rest := cur[..have], cur[have..];
      assert Names(cur) == Names(solid) + Names(rest);
      assert solid + [rest[0]] == cur[..have + 1];
      assert solid + [] == solid && [] + solid == solid;
      WalkDown(nodes, [], solid, Names(rest), LINK_LIMIT);
      StopsThere(nodes, solid, rest);
    } else {
      assert cur[..have] == cur;
      RealIsCanonical(nodes, cur, LINK_LIMIT);
    }
  }

  lemma StopsThere(nodes: Nodes, solid: Path, rest: Path)
    requires rest != [] && IsDir(nodes, solid) && solid + [rest[0]] !in nodes
    ensures Walk(nodes, solid, Names(rest), LINK_LIMIT) == Missing
  {
  }

  /** What exists at a component is found by a stat of it. */
  lemma ExistingIsStatted(nodes: Nodes, cur: Path, have: nat, name: string)
    requires Sound(nodes) && Grounded(nodes, cur, have) && cur + [name] in nodes
    ensures have == |cur| && SymlinkMetadata(nodes, cur + [name]).Found?
  {
    Descend(nodes, cur, have, name);
    assert Parent(cur + [name]) == cur && cur[..|cur|] == cur;
    GroundedReal(nodes, cur, have, |cur|);
    assert forall k | 0 < k <= |cur| :: cur[..k] in nodes;
  }

  /** Following all of `names` from `at` on the disk as it was comes, after `i` of them, through `cur`. */
  ghost predicate OnTheWay(was: Nodes, at: Path, names: Path, i: nat, cur: Path, links: nat)
    requires i <= |names|
  {
    Walk(was, at, Names(names), links).Found? ==>
      exists left: nat :: left <= links && Walk(was, at, Names(names), links) == Walk(was, cur, Names(names[i..]), left)
  }

  /** However many links were spent before `at`. */
  ghost predicate AllTheWay(was: Nodes, at: Path, names: Path, i: nat, cur: Path)
    requires i <= |names|
  {
    forall links: nat | links <= LINK_LIMIT :: OnTheWay(was, at, names, i, cur, links)
  }

  lemma SetOut(was: Nodes, at: Path, names: Path)
    ensures AllTheWay(was, at, names, 0, at)
  {
    assert names[0..] == names;
  }

  lemma StepOn(was: Nodes, nodes: Nodes, at: Path, names: Path, i: nat, cur: Path, have: nat, next: Path, links: nat)
    requires Sound(nodes) && was.Items <= nodes.Items && Grounded(nodes, cur, have)
    requires i < |names| && links <= LINK_LIMIT && OnTheWay(was, at, names, i, cur, links)
    requires cur + [names[i]] in nodes ==> Canonical(nodes, cur + [names[i]]) == Found(next)
    ensures OnTheWay(was, at, names, i + 1, next, links)
  {
    hide Grounded, Sound;
    if Walk(was, at, Names(names), links).Found? {
      var left: nat :| left <= links && Walk(was, at, Names(names), links) == Walk(was, cur, Names(names[i..]), left);
      var step, rest := Names([names[i]]), Names(names[i + 1..]);
      assert Names(names[i..]) == step + rest;
      FoundOnTheWay(was, cur, step, rest, left);
      var there := cur + [names[i]];
      assert step[0] == Named(names[i]) && there in was && IsDir(was, cur);
      assert (there, was[there]) in nodes.Items;
      WalkInMore(was, nodes, cur, step, left);
      WalkWithMore(nodes, cur, step, left, LINK_LIMIT);
      StepIsCanonical(nodes, cur, have, names[i]);
      WalkOn(was, cur, step, rest, left);
    }
  }

  lemma StepAll(was: Nodes, nodes: Nodes, at: Path, names: Path, i: nat, cur: Path, have: nat, next: Path)
    requires Sound(nodes) && was.Items <= nodes.Items && Grounded(nodes, cur, have)
    requires i < |names| && AllTheWay(was, at, names, i, cur)
    requires cur + [names[i]] in nodes ==> Canonical(nodes, cur + [names[i]]) == Found(next)
    ensures AllTheWay(was, at, names, i + 1, next)
  {
    hide OnTheWay, Canonical, Grounded, Sound;
    var k := i + 1;
    forall links: nat | links <= LINK_LIMIT ensures OnTheWay(was, at, names, k, next, links) {
      StepOn(was, nodes, at, names, i, cur, have, next, links);
    }
  }

  lemma StepIsCanonical(nodes: Nodes, cur: Path, have: nat, name: string)
    requires Sound(nodes) && Grounded(nodes, cur, have) && cur + [name] in nodes
    ensures Canonical(nodes, cur + [name]) == Walk(nodes, cur, Names([name]), LINK_LIMIT)
  {
    hide Walk, SymlinkMetadata, Real;
    ExistingIsStatted(nodes, cur, have, name);
    assert cur[..have] == cur && [] + cur == cur && Parent(cur + [name]) == cur;
    assert Names(cur + [name]) == Names(cur) + Names([name]);
    WalkDown(nodes, [], cur, Names([name]), LINK_LIMIT);
  }

  /** Once all names are walked, the canonical path of what was asked for is where the walk stands. */
  lemma Arrived(was: Nodes, root: Path, at: Path, names: Path, cur: Path)
    requires Canonical(was, root) == Found(at)
    requires AllTheWay(was, at, names, |names|, cur)
    ensures Canonical(was, root + names).Found? ==> Canonical(was, root + names) == Found(cur)
  {
    assert Names(root + names) == Names(root) + Names(names);
    WalkOn(was, [], Names(root), Names(names), LINK_LIMIT);
    var left: nat :| left <= LINK_LIMIT
      && Walk(was, [], Names(root + names), LINK_LIMIT) == Walk(was, at, Names(names), left);
    assert OnTheWay(was, at, names, |names|, cur, left);
    assert Names(names[|names|..]) == [];
  }

  lemma ContainedWhenGrounded(nodes: Nodes, root: Path, canonicalRoot: Path, cur: Path, have: nat, create: bool)
    requires Sound(nodes) && canonicalRoot <= cur && Grounded(nodes, cur, have) && |canonicalRoot| <= have
    requires Canonical(nodes, root) == Found(canonicalRoot)
    requires create ==> have >= |cur| - 1
    ensures Contained(nodes, root, canonicalRoot, root + cur[|canonicalRoot|..], create)
  {
    hide Walk, Canonical, Sound, Names;
    var suffix := cur[|canonicalRoot|..];
    assert (root + suffix)[|root|..] == suffix && canonicalRoot + suffix == cur;
    forall k | 0 <= k <= |suffix| && Exists(nodes, canonicalRoot + suffix[..k])
      ensures Canonical(nodes, root + suffix[..k]) == Found(canonicalRoot + suffix[..k])
    {
      assert canonicalRoot + suffix[..k] == cur[..|canonicalRoot| + k];
      GroundedReal(nodes, cur, have, |canonicalRoot| + k);
      UnderAlias(nodes, root, canonicalRoot, suffix[..k]);
    }
    GroundedEnd(nodes, cur, have);
    if suffix != [] {
      assert canonicalRoot + Parent(suffix) == Parent(cur);
    }
  }

  lemma GroundedEnd(nodes: Nodes, cur: Path, have: nat)
    requires Sound(nodes) && Grounded(nodes, cur, have)
    ensures cur != [] ==> !IsLink(nodes, cur) && (have >= |cur| - 1 ==> IsDir(nodes, Parent(cur)))
  {
    assert cur[..|cur|] == cur;
    if cur != [] && cur in nodes {
      GroundedReal(nodes, cur, have, |cur|);
      assert !nodes[cur[..|cur|]].Link?;
    }
    if cur != [] && have == |cur| {
      RealPrefix(nodes, cur, |cur| - 1);
    }
  }

  /** The disk so far: what was there, and new directories below the canonical root. */
  ghost predicate Grown(was: Nodes, nodes: Nodes, rootC: Path) {
    was.Items <= nodes.Items && forall p <- nodes.Keys - was.Keys :: rootC < p && nodes[p] == Dir
  }

  lemma GrownHas(was: Nodes, nodes: Nodes, rootC: Path)
    requires Grown(was, nodes, rootC)
    ensures was.Items <= nodes.Items
  {
  }

  lemma GrownByDir(was: Nodes, nodes: Nodes, rootC: Path, p: Path)
    requires Grown(was, nodes, rootC) && rootC < p && p !in nodes
    ensures Grown(was, nodes[p := Dir], rootC)
  {
    var more := nodes[p := Dir];
    forall item <- was.Items ensures item in more.Items {
      assert item in nodes.Items;
    }
  }

  lemma ClearNext(was: Nodes, nodes: Nodes, rootC: Path, names: Path, i: nat)
    requires Grown(was, nodes, rootC) && Clear(was, rootC, names) && i < |names|
    ensures var p := rootC + names[..i] + [names[i]];
            p in nodes ==> !nodes[p].Link? && (i + 1 < |names| ==> nodes[p].Dir?)
  {
    var p := rootC + names[..i] + [names[i]];
    assert p == rootC + names[..i + 1];
    if p in nodes && p in was {
      assert (p, was[p]) in nodes.Items;
    }
  }

  /** A plain file or directory below a real one is its own canonical form. */
  lemma Alone(nodes: Nodes, cur: Path, name: string)
    requires Sound(nodes) && Real(nodes, cur)
    ensures cur + [name] in nodes && !nodes[cur + [name]].Link? ==>
            Canonical(nodes, cur + [name]) == Found(cur + [name])
  {
    if cur + [name] in nodes && !nodes[cur + [name]].Link? {
      RealStep(nodes, cur, name);
      RealIsCanonical(nodes, cur + [name], LINK_LIMIT);
    }
  }

  lemma MakeDir(nodes: Nodes, cur: Path, name: string)
    requires Sound(nodes) && Real(nodes, cur) && IsDir(nodes, cur) && cur + [name] !in nodes
    ensures var more := nodes[cur + [name] := Dir]; Sound(more) && Real(more, cur + [name])
  {
    var more := nodes[cur + [name] := Dir];
    assert Parent(cur + [name]) == cur;
    assert cur[..|cur|] == cur;
    assert Real(more, cur);
    RealStep(more, cur, name);
  }

  /** Where the walk down from the canonical root stands after `i` names. */
  ghost predicate Standing(was: Nodes, nodes: Nodes, rootC: Path, names: Path, i: nat, create: bool, clear: bool,
                           cur: Path, have: nat)
    requires i <= |names|
  {
    && Sound(nodes) && Grown(was, nodes, rootC) && (!create ==> nodes == was)
    && rootC <= cur && |rootC| <= have <= |cur| && Grounded(nodes, cur, have)
    && (create ==> have >= if i < |names| then |cur| else |cur| - 1)
    && (clear ==> Clear(was, rootC, names) && cur == rootC + names[..i])
    && AllTheWay(was, rootC, names, i, cur)
    && (i < |names| && have == |cur| && (clear || i > 0) ==> IsDir(nodes, cur))
  }

  lemma StandingFirst(nodes: Nodes, rootC: Path, names: Path, create: bool, clear: bool)
    requires Sound(nodes) && Real(nodes, rootC) && (clear ==> Clear(nodes, rootC, names))
    ensures Standing(nodes, nodes, rootC, names, 0, create, clear, rootC, |rootC|)
  {
    assert rootC[..|rootC|] == rootC && rootC + names[..0] == rootC;
    SetOut(nodes, rootC, names);
  }

  /** What lets the next component be entered. */
  lemma StandingReady(was: Nodes, nodes: Nodes, rootC: Path, names: Path, i: nat, create: bool, clear: bool,
                      cur: Path, have: nat)
    requires i < |names| && Standing(was, nodes, rootC, names, i, create, clear, cur, have)
    ensures Sound(nodes) && rootC <= cur && |rootC| <= have && Grounded(nodes, cur, have) && (create ==> have == |cur|)
    ensures clear ==>
              && (have == |cur| ==> IsDir(nodes, cur))
              && cur + [names[i]] == rootC + names[..i + 1]
              && (cur + [names[i]] in nodes ==>
                var n := nodes[cur + [names[i]]]; !n.Link? && (i + 1 < |names| ==> n.Dir?))
  {
    hide AllTheWay, Clear, Grounded, Grown, Sound;
    if clear {
      OneMore(rootC, names, i);
      ClearNext(was, nodes, rootC, names, i);
    }
  }

  lemma OneMore(rootC: Path, names: Path, i: nat)
    requires i < |names|
    ensures rootC + names[..i] + [names[i]] == rootC + names[..i + 1]
  {
  }

  lemma StandingStopped(was: Nodes, before: Nodes, nodes: Nodes, rootC: Path, names: Path, i: nat, create: bool,
                        clear: bool, cur: Path, had: nat)
    requires i < |names| && Standing(was, before, rootC, names, i, create, clear, cur, had)
    requires nodes == before || (create && nodes == before[cur + [names[i]] := Dir] && cur + [names[i]] !in before)
    ensures Grown(was, nodes, rootC) && (!create ==> nodes == was)
  {
    hide AllTheWay, Clear, Grounded, Grown, Sound;
    if nodes != before {
      GrownByDir(was, before, rootC, cur + [names[i]]);
    }
  }

  lemma StandingNext(was: Nodes, before: Nodes, nodes: Nodes, rootC: Path, names: Path, i: nat, create: bool,
                     clear: bool, cur: Path, had: nat, next: Path, have: nat)
    requires i < |names| && Standing(was, before, rootC, names, i, create, clear, cur, had)
    requires nodes == before || (create && nodes == before[cur + [names[i]] := Dir] && cur + [names[i]] !in before)
    requires Sound(nodes) && rootC <= next && |rootC| <= have && Grounded(nodes, next, have)
    requires create ==> have >= if i + 1 == |names| then |next| - 1 else |next|
    requires i + 1 < |names| && have == |next| ==> IsDir(nodes, next)
    requires clear ==> next == cur + [names[i]]
    requires cur + [names[i]] in before ==> Canonical(before, cur + [names[i]]) == Found(next)
    ensures Standing(was, nodes, rootC, names, i + 1, create, clear, next, have)
  {
    hide Clear, Grounded, Grown, Sound, Canonical, IsDir, AllTheWay, Names, Walk;
    StandingStopped(was, before, nodes, rootC, names, i, create, clear, cur, had);
    GrownHas(was, before, rootC);
    StepAll(was, before, rootC, names, i, cur, had, next);
    GroundedLength(nodes, next, have);
    if clear {
      OneMore(rootC, names, i);
    }
  }

  // ---- When a destination is granted ----

  /**
   What the k-th name of a path asked for has to be, on the disk as it was: nothing at all, or
   something that resolves to a place under the root, to a directory unless it is the last. A link
   to nothing is something that does not resolve.
   */
  ghost predicate Admits(was: Nodes, root: Path, rootC: Path, names: Path, denied: set<Path>, k: nat)
    requires 0 < k <= |names|
  {
    var p := root + names[..k];
    var there, resolved := SymlinkMetadata(was, p), Canonical(was, p);
    && Resolve.Resolved(was, root + names[..k - 1]) + [names[k - 1]] !in denied
    && (there.Missing? ||
        (there.Found? && resolved.Found? && rootC <= resolved.path && (k < |names| ==> IsDir(was, resolved.path))))
  }

  ghost predicate AdmitsAll(was: Nodes, root: Path, rootC: Path, names: Path, denied: set<Path>) {
    forall k | 0 < k <= |names| :: Admits(was, root, rootC, names, denied, k)
  }

  lemma ParentOfPrefix(root: Path, names: Path, k: nat)
    requires 0 < k <= |names|
    ensures Parent(root + names[..k]) == root + names[..k - 1] && (root + names[..k])[|root| + k - 1] == names[k - 1]
    ensures root + names[..k] == root + names[..k - 1] + [names[k - 1]]
  {
  }

  lemma MissingStays(nodes: Nodes, p: Path, name: string)
    requires Canonical(nodes, p).Missing?
    ensures Canonical(nodes, p + [name]).Missing?
  {
    assert Names(p + [name]) == Names(p) + Names([name]);
    WalkMissing(nodes, [], Names(p), Names([name]), LINK_LIMIT);
  }

  lemma {:induction false} WalkMissing(nodes: Nodes, at: Path, todo: seq<Comp>, rest: seq<Comp>, links: nat)
    requires Walk(nodes, at, todo, links).Missing?
    ensures Walk(nodes, at, todo + rest, links).Missing?
    decreases links, |todo|
  {
    assert (todo + rest)[1..] == todo[1..] + rest;
    match todo[0] {
      case Up => WalkMissing(nodes, if at == [] then [] else Parent(at), todo[1..], rest, links);
      case Named(name) =>
        var next := at + [name];
        if next in nodes {
          if nodes[next].Link? {
            assert nodes[next].target + todo[1..] + rest == nodes[next].target + (todo[1..] + rest);
            WalkMissing(nodes, if nodes[next].absolute then [] else at, nodes[next].target + todo[1..], rest,
              links - 1);
          } else {
            WalkMissing(nodes, next, todo[1..], rest, links);
          }
        }
    }
  }

  /** A name that is nothing in a directory that resolves is missing, and one in a file is refused. */
  lemma NextCanonical(nodes: Nodes, p: Path, dir: Path, name: string)
    requires Sound(nodes) && Canonical(nodes, p) == Found(dir) && dir + [name] !in nodes
    ensures Canonical(nodes, p + [name]) == if IsDir(nodes, dir) then Missing else NotDirectory
  {
    assert Names(p + [name]) == Names(p) + Names([name]);
    WalkOn(nodes, [], Names(p), Names([name]), LINK_LIMIT);
  }

  /** A path all of whose names are admitted takes few links. */
  lemma {:induction false} AdmittedFewLinks(was: Nodes, root: Path, rootC: Path, names: Path, denied: set<Path>, k: nat)
    requires Sound(was) && Canonical(was, root) == Found(rootC) && k <= |names|
    requires forall j | 0 < j <= k :: Admits(was, root, rootC, names, denied, j)
    ensures Canonical(was, root + names[..k]).Found? || Canonical(was, root + names[..k]).Missing?
  {
    if k == 0 {
      assert root + names[..0] == root;
    } else {
      AdmittedFewLinks(was, root, rootC, names, denied, k - 1);
      ParentOfPrefix(root, names, k);
      assert Admits(was, root, rootC, names, denied, k);
      hide Canonical, Sound, Real;
      var before := Canonical(was, root + names[..k - 1]);
      if before.Missing? {
        MissingStays(was, root + names[..k - 1], names[k - 1]);
      } else if before.path + [names[k - 1]] !in was {
        NextCanonical(was, root + names[..k - 1], before.path, names[k - 1]);
      }
    }
  }

  ghost predicate AdmitsUpTo(was: Nodes, rootC: Path, names: Path, denied: set<Path>, i: nat)
    requires i <= |names|
  {
    forall k | 0 < k <= i :: Admits(was, rootC, rootC, names, denied, k)
  }

  lemma AdmitsOneMore(was: Nodes, rootC: Path, names: Path, denied: set<Path>, i: nat)
    requires i < |names| && AdmitsUpTo(was, rootC, names, denied, i) && Admits(was, rootC, rootC, names, denied, i + 1)
    ensures AdmitsUpTo(was, rootC, names, denied, i + 1)
  {
    hide Admits;
  }

  /**
   How far the walk has come, told by the disk as it was: where the path so far resolves to, and
   past what was missing nothing is there.
   */
  ghost predicate Told(was: Nodes, nodes: Nodes, rootC: Path, names: Path, i: nat, denied: set<Path>, cur: Path)
    requires i <= |names|
  {
    var canonical := Canonical(was, rootC + names[..i]);
    && cur == Resolve.Resolved(was, rootC + names[..i])
    && AdmitsUpTo(was, rootC, names, denied, i)
    && (canonical.Found? ==> nodes == was && canonical.path == cur && Real(was, cur))
    && (!canonical.Found? ==>
          && canonical.Missing? && (Exists(nodes, cur) ==> IsDir(nodes, cur))
          && (i == |names| || forall name :: cur + [name] !in nodes))
  }

  lemma ToldFirst(was: Nodes, rootC: Path, names: Path, denied: set<Path>)
    requires Sound(was) && Real(was, rootC)
    ensures Told(was, was, rootC, names, 0, denied, rootC)
  {
    assert rootC + names[..0] == rootC;
    RealIsCanonical(was, rootC, LINK_LIMIT);
  }

  /** Whether one component may be entered. */
  ghost predicate Enterable(nodes: Nodes, rootC: Path, cur: Path, name: string, last: bool, denied: set<Path>) {
    var path := cur + [name];
    && path !in denied
    && if path in nodes then
         var resolved := Canonical(nodes, path);
         resolved.Found? && rootC <= resolved.path && (!last ==> IsDir(nodes, resolved.path))
       else Exists(nodes, cur) ==> IsDir(nodes, cur)
  }

  lemma StatOfNext(was: Nodes, p: Path, name: string)
    ensures var parent := Canonical(was, p);
            SymlinkMetadata(was, p + [name]) ==
            if !parent.Found? then parent
            else if !IsDir(was, parent.path) then NotDirectory
            else if parent.path + [name] in was then Found(parent.path + [name])
            else Missing
  {
    assert Parent(p + [name]) == p;
  }

  lemma FewUpTo(was: Nodes, rootC: Path, names: Path, i: nat)
    requires i < |names| && Resolve.FewLinks(was, rootC + names)
    ensures !Canonical(was, rootC + names[..i] + [names[i]]).TooManyLinks?
  {
    assert (rootC + names)[..|rootC| + i + 1] == rootC + names[..i] + [names[i]];
  }

  lemma ResolvedNext(was: Nodes, p: Path, name: string)
    ensures Resolve.Resolved(was, p + [name]) ==
            if Canonical(was, p + [name]).Found? then Canonical(was, p + [name]).path
              else Resolve.Resolved(was, p) + [name]
  {
    assert Parent(p + [name]) == p;
  }

  lemma AdmittedIfEntered(was: Nodes, nodes: Nodes, rootC: Path, names: Path, i: nat, denied: set<Path>, cur: Path)
    requires Sound(was) && i < |names| && Told(was, nodes, rootC, names, i, denied, cur)
    requires Resolve.FewLinks(was, rootC + names)
    ensures Enterable(nodes, rootC, cur, names[i], i + 1 == |names|, denied) <==>
            Admits(was, rootC, rootC, names, denied, i + 1)
  {
    hide Walk, Canonical, SymlinkMetadata, Real, Resolve.FewLinks, Resolve.Resolved, Enterable, Admits;
    var p, name := rootC + names[..i], names[i];
    ParentOfPrefix(rootC, names, i + 1);
    if Canonical(was, p).Found? {
      FewUpTo(was, rootC, names, i);
      Resolve.SameFromThere(was, p, cur, [name]);
      RealExists(was, cur);
      InSight(was, rootC, names, i, denied, cur);
    } else {
      OutOfSight(was, nodes, rootC, names, i, denied, cur);
    }
  }

  /** While what the walk has come to is there. */
  lemma InSight(was: Nodes, rootC: Path, names: Path, i: nat, denied: set<Path>, cur: Path)
    requires Sound(was) && i < |names| && Canonical(was, rootC + names[..i]) == Found(cur) && Exists(was, cur)
    requires Resolve.Resolved(was, rootC + names[..i]) == cur
    requires Canonical(was, cur + [names[i]]) == Canonical(was, rootC + names[..i] + [names[i]])
    ensures Enterable(was, rootC, cur, names[i], i + 1 == |names|, denied) <==>
            Admits(was, rootC, rootC, names, denied, i + 1)
  {
    hide Walk, Canonical, SymlinkMetadata, Resolve.Resolved;
    ParentOfPrefix(rootC, names, i + 1);
    StatOfNext(was, rootC + names[..i], names[i]);
    assert Parent(cur + [names[i]]) == cur;
  }

  /** And past what is missing. */
  lemma OutOfSight(was: Nodes, nodes: Nodes, rootC: Path, names: Path, i: nat, denied: set<Path>, cur: Path)
    requires i < |names| && Canonical(was, rootC + names[..i]).Missing? && cur + [names[i]] !in nodes
    requires Resolve.Resolved(was, rootC + names[..i]) == cur && (Exists(nodes, cur) ==> IsDir(nodes, cur))
    ensures Enterable(nodes, rootC, cur, names[i], i + 1 == |names|, denied) <==>
            Admits(was, rootC, rootC, names, denied, i + 1)
  {
    hide Walk, Canonical, SymlinkMetadata, Resolve.Resolved;
    ParentOfPrefix(rootC, names, i + 1);
    StatOfNext(was, rootC + names[..i], names[i]);
  }

  lemma RealExists(nodes: Nodes, p: Path)
    requires Real(nodes, p)
    ensures Exists(nodes, p)
  {
    assert p[..|p|] == p;
  }

  lemma NothingBelow(nodes: Nodes, path: Path)
    requires Sound(nodes) && path != [] && path !in nodes
    ensures forall name :: path + [name] !in nodes
  {
    forall name ensures path + [name] !in nodes {
      assert Parent(path + [name]) == path;
    }
  }

  lemma ToldNext(was: Nodes, before: Nodes, nodes: Nodes, rootC: Path, names: Path, i: nat, denied: set<Path>,
                 cur: Path, next: Path)
    requires Sound(was) && Sound(before) && i < |names| && Told(was, before, rootC, names, i, denied, cur)
    requires Resolve.FewLinks(was, rootC + names)
    requires Enterable(before, rootC, cur, names[i], i + 1 == |names|, denied)
    requires if cur + [names[i]] in before then nodes == before && Canonical(before, cur + [names[i]]) == Found(next)
             else next == cur + [names[i]] && (nodes == before || nodes == before[next := Dir])
    ensures Told(was, nodes, rootC, names, i + 1, denied, next)
  {
    hide Walk, Canonical, SymlinkMetadata, Real, Resolve.FewLinks, Resolve.Resolved;
    AdmittedIfEntered(was, before, rootC, names, i, denied, cur);
    hide Admits, Enterable, AdmitsUpTo;
    var p, name := rootC + names[..i], names[i];
    ParentOfPrefix(rootC, names, i + 1);
    AdmitsOneMore(was, rootC, names, denied, i);
    ResolvedNext(was, p, name);
    if Canonical(was, p).Found? {
      FewUpTo(was, rootC, names, i);
      Resolve.SameFromThere(was, p, cur, [name]);
      if cur + [name] in was {
        CanonicalIsReal(was, cur + [name]);
      } else {
        NextCanonicalMissing(was, p, cur, name, rootC, names, i, denied);
        MadeOrNot(before, nodes, next);
      }
    } else {
      MissingStays(was, p, name);
      MadeOrNot(before, nodes, next);
    }
  }

  /** A path that was nothing has nothing below it, made a directory or not. */
  lemma MadeOrNot(before: Nodes, nodes: Nodes, next: Path)
    requires Sound(before) && next != [] && next !in before && (nodes == before || nodes == before[next := Dir])
    ensures (Exists(nodes, next) ==> IsDir(nodes, next)) && forall name :: next + [name] !in nodes
  {
    NothingBelow(before, next);
  }

  lemma NextCanonicalMissing(was: Nodes, p: Path, cur: Path, name: string, rootC: Path, names: Path, i: nat,
                             denied: set<Path>)
    requires Sound(was) && i < |names| && p == rootC + names[..i] && name == names[i]
    requires Canonical(was, p) == Found(cur) && cur + [name] !in was && Admits(was, rootC, rootC, names, denied, i + 1)
    ensures Canonical(was, p + [name]).Missing?
  {
    hide Walk, Canonical;
    ParentOfPrefix(rootC, names, i + 1);
    StatOfNext(was, p, name);
    NextCanonical(was, p, cur, name);
  }

  /** Admitted by either spelling of the root, when few links are on the way. */
  lemma AdmitsByRoot(was: Nodes, root: Path, rootC: Path, names: Path, denied: set<Path>, k: nat)
    requires Sound(was) && Canonical(was, root) == Found(rootC) && 0 < k <= |names|
    requires Resolve.FewLinks(was, root + names)
    ensures Admits(was, root, rootC, names, denied, k) <==> Admits(was, rootC, rootC, names, denied, k)
  {
    hide Walk, Canonical, SymlinkMetadata, Resolve.Resolved;
    FewPrefix(was, root, names, k);
    FewPrefix(was, root, names, k - 1);
    ParentOfPrefix(root, names, k);
    ParentOfPrefix(rootC, names, k);
    Resolve.SameFromThere(was, root, rootC, names[..k]);
    Resolve.SameFromThere(was, root, rootC, names[..k - 1]);
    Resolve.SpellingsResolveAlike(was, root, rootC, names[..k - 1]);
    StatOfNext(was, root + names[..k - 1], names[k - 1]);
    StatOfNext(was, rootC + names[..k - 1], names[k - 1]);
  }

  lemma FewPrefix(was: Nodes, root: Path, names: Path, k: nat)
    requires k <= |names| && Resolve.FewLinks(was, root + names)
    ensures Resolve.FewLinks(was, root + names[..k]) && !Canonical(was, root + names[..k]).TooManyLinks?
  {
    hide Canonical;
    var whole, part := root + names, root + names[..k];
    forall j | 0 <= j <= |part| ensures !Canonical(was, part[..j]).TooManyLinks? {
      assert part[..j] == whole[..j];
    }
    assert part[..|part|] == part;
  }

  lemma FewByRoot(was: Nodes, root: Path, rootC: Path, names: Path)
    requires Sound(was) && Canonical(was, root) == Found(rootC) && Resolve.FewLinks(was, root + names)
    ensures Resolve.FewLinks(was, rootC + names)
  {
    hide Canonical, Walk;
    CanonicalIsReal(was, root);
    forall j | 0 <= j <= |rootC + names| ensures !Canonical(was, (rootC + names)[..j]).TooManyLinks? {
      if j <= |rootC| {
        assert (rootC + names)[..j] == rootC[..j];
        RealPrefix(was, rootC, j);
        RealIsCanonical(was, rootC[..j], LINK_LIMIT);
      } else {
        var k := j - |rootC|;
        assert (rootC + names)[..j] == rootC + names[..k];
        FewPrefix(was, root, names, k);
        Resolve.SameFromThere(was, root, rootC, names[..k]);
      }
    }
  }

  /** What is admitted throughout has few links on the way. */
  lemma AdmittedIsFew(was: Nodes, root: Path, rootC: Path, names: Path, denied: set<Path>)
    requires Sound(was) && Canonical(was, root) == Found(rootC) && AdmitsAll(was, root, rootC, names, denied)
    ensures Resolve.FewLinks(was, root + names)
  {
    hide Canonical, Walk, Admits;
    forall j | 0 <= j <= |root + names| ensures !Canonical(was, (root + names)[..j]).TooManyLinks? {
      if j < |root| {
        assert (root + names)[..j] == root[..j];
        PrefixIsFound(was, root, j);
      } else {
        var k := j - |root|;
        assert (root + names)[..j] == root + names[..k];
        AdmittedFewLinks(was, root, rootC, names, denied, k);
      }
    }
  }

  lemma PrefixIsFound(was: Nodes, p: Path, j: nat)
    requires j <= |p| && Canonical(was, p).Found?
    ensures Canonical(was, p[..j]).Found?
  {
    assert p == p[..j] + p[j..];
    assert Names(p) == Names(p[..j]) + Names(p[j..]);
    FoundOnTheWay(was, [], Names(p[..j]), Names(p[j..]), LINK_LIMIT);
  }

  /** What the walk's end shows. */
  lemma StandingLast(was: Nodes, nodes: Nodes, rootC: Path, names: Path, create: bool, clear: bool, cur: Path,
                     have: nat)
    requires Standing(was, nodes, rootC, names, |names|, create, clear, cur, have)
    ensures Sound(nodes) && Grown(was, nodes, rootC) && (!create ==> nodes == was)
    ensures rootC <= cur && |rootC| <= have && Grounded(nodes, cur, have) && (create ==> have >= |cur| - 1)
    ensures (clear ==> cur == rootC + names) && AllTheWay(was, rootC, names, |names|, cur)
  {
    hide Grown, Sound, Grounded, AllTheWay, Clear;
    assert names[..|names|] == names;
  }

  lemma ToldLast(was: Nodes, nodes: Nodes, rootC: Path, names: Path, denied: set<Path>, cur: Path)
    requires Told(was, nodes, rootC, names, |names|, denied, cur)
    ensures cur == Resolve.Resolved(was, rootC + names) && AdmitsAll(was, rootC, rootC, names, denied)
  {
    hide Canonical, Resolve.Resolved, Admits;
    assert names[..|names|] == names;
  }

  lemma NotAll(was: Nodes, rootC: Path, names: Path, denied: set<Path>, k: nat)
    requires 0 < k <= |names| && !Admits(was, rootC, rootC, names, denied, k)
    ensures !AdmitsAll(was, rootC, rootC, names, denied)
  {
    hide Admits;
  }

  class FileSystem {
    var nodes: Nodes

    constructor (nodes: Nodes)
      ensures this.nodes == nodes
    {
      this.nodes := nodes;
    }

    /** One more component: whatever is at `cur/name`, resolved, or the directory made there. */
    method Enter(rootC: Path, cur: Path, name: string, last: bool, create: bool, denied: set<Path>, ghost have: nat)
      returns (next: Result<Path>, ghost haveNext: nat)
      requires Sound(nodes) && rootC <= cur && |rootC| <= have && Grounded(nodes, cur, have)
               && (create ==> have == |cur|)
      modifies this
      ensures Sound(nodes) && (nodes == old(nodes)
              || (create && nodes == old(nodes)[cur + [name] := Dir] && cur + [name] !in old(nodes)))
      ensures next.Ok? ==> rootC <= next.value && |rootC| <= haveNext && Grounded(nodes, next.value, haveNext)
      ensures next.Ok? && create ==> haveNext >= if last then |next.value| - 1 else |next.value|
      ensures next.Ok? && !last && haveNext == |next.value| ==> IsDir(nodes, next.value)
      ensures (have == |cur| ==> IsDir(old(nodes), cur)) && cur + [name] !in denied &&
              (cur + [name] in old(nodes) ==> var n := old(nodes)[cur + [name]]; !n.Link? && (!last ==> n.Dir?))
              ==> next == Ok(cur + [name])
      ensures next.Ok? <==> Enterable(old(nodes), rootC, cur, name, last, denied)
      ensures cur + [name] in old(nodes) ==> nodes == old(nodes)
      ensures next.Ok? ==> if cur + [name] in old(nodes) then Canonical(old(nodes), cur + [name]) == Found(next.value)
              else next.value == cur + [name]
    {
      hide Walk, Canonical, SymlinkMetadata, Sound;
      var path := cur + [name];
      haveNext := have;
      Descend(nodes, cur, have, name);
      GroundedExists(nodes, cur, have);
      assert path[..|cur|] == cur && path[..|path|] == path && cur[..|cur|] == cur;
      assert forall k: nat | k <= |cur| :: path[..k] == cur[..k];
      if path in nodes {
        ExistingIsStatted(nodes, cur, have, name);
      }
      if path in denied {
        return Err("could not be read"), have;
      }
      var metadata := SymlinkMetadata(nodes, path);
      if metadata.Found? {
        var resolved := Canonical(nodes, path);
        if !resolved.Found? {
          Alone(nodes, cur, name);
          return Err("could not be resolved; gavin will not write through it"), have;
        }
        if !(rootC <= resolved.path) {
          Alone(nodes, cur, name);
          return Err("leads outside the workspace; gavin will not write through it"), have;
        }
        if !last && !IsDir(nodes, resolved.path) {
          Alone(nodes, cur, name);
          return Err("is not a directory"), have;
        }
        CanonicalIsReal(nodes, path);
        Alone(nodes, cur, name);
        assert resolved.path[..|resolved.path|] == resolved.path;
        return Ok(resolved.path), |resolved.path|;
      } else if metadata.Missing? && !last {
        if create {
          MakeDir(nodes, cur, name);
          nodes := nodes[path := Dir];
          haveNext := |path|;
        }
        return Ok(path), haveNext;
      } else if !metadata.Missing? {
        return Err("could not be read"), have;
      }
      return Ok(path), haveNext;
    }

    /** The components one after the other, from the canonical root. */
    method Follow(rootC: Path, names: Path, create: bool, denied: set<Path>)
      returns (dest: Result<Path>, ghost have: nat)
      requires Sound(nodes) && Real(nodes, rootC) && names != []
      modifies this
      ensures Sound(nodes) && Grown(old(nodes), nodes, rootC) && (!create ==> nodes == old(nodes))
      ensures dest.Ok? ==> rootC <= dest.value && |rootC| <= have && Grounded(nodes, dest.value, have)
      ensures dest.Ok? && create ==> have >= |dest.value| - 1
      ensures denied == {} && Clear(old(nodes), rootC, names) ==> dest == Ok(rootC + names)
      ensures dest.Ok? ==> AllTheWay(old(nodes), rootC, names, |names|, dest.value)
      ensures Resolve.FewLinks(old(nodes), rootC + names) ==>
                && (dest.Ok? <==> AdmitsAll(old(nodes), rootC, rootC, names, denied))
                && (dest.Ok? ==> dest.value == Resolve.Resolved(old(nodes), rootC + names))
    {
      var cur := rootC;
      have := |cur|;
      ghost var clear := denied == {} && Clear(nodes, rootC, names);
      hide Standing, Told, Sound, Grounded, IsDir, Real, Enterable, Canonical, Grown, AllTheWay, Clear, Admits,
        AdmitsAll;
      hide Resolve.Resolved, Resolve.FewLinks;
      StandingFirst(nodes, rootC, names, create, clear);
      ghost var few := Resolve.FewLinks(nodes, rootC + names);
      ToldFirst(nodes, rootC, names, denied);
      for i := 0 to |names|
        invariant Standing(old(nodes), nodes, rootC, names, i, create, clear, cur, have)
        invariant few ==> Told(old(nodes), nodes, rootC, names, i, denied, cur)
      {
        ghost var was, had := nodes, have;
        StandingReady(old(nodes), was, rootC, names, i, create, clear, cur, had);
        var next;
        next, have := Enter(rootC, cur, names[i], i + 1 == |names|, create, denied, have);
        if few {
          AdmittedIfEntered(old(nodes), was, rootC, names, i, denied, cur);
        }
        if next.Err? {
          if few {
            NotAll(old(nodes), rootC, names, denied, i + 1);
          }
          StandingStopped(old(nodes), was, nodes, rootC, names, i, create, clear, cur, had);
          return next, have;
        }
        StandingNext(old(nodes), was, nodes, rootC, names, i, create, clear, cur, had, next.value, have);
        if few {
          ToldNext(old(nodes), was, nodes, rootC, names, i, denied, cur, next.value);
        }
        cur := next.value;
      }
      StandingLast(old(nodes), nodes, rootC, names, create, clear, cur, have);
      if few {
        ToldLast(old(nodes), nodes, rootC, names, denied, cur);
      }
      return Ok(cur), have;
    }

    /** `denied` holds the paths the kernel will not stat or make for another reason than absence. */
    method ContainedDest(root: Path, rel: seq<Piece>, create: bool, denied: set<Path>) returns (dest: Result<Path>)
      requires Sound(nodes)
      modifies this
      ensures Sound(nodes) && (!create ==> nodes == old(nodes))
      ensures !Plain(rel) ==> dest.Err?
      ensures var canonicalRoot := Canonical(old(nodes), root);
              if canonicalRoot.Found? then
                && Grown(old(nodes), nodes, canonicalRoot.path)
                && (dest.Ok? ==> Contained(nodes, root, canonicalRoot.path, dest.value, create))
                && (Plain(rel) && denied == {} && Clear(old(nodes), canonicalRoot.path, NamesOf(rel)) ==>
                      dest == Ok(root + NamesOf(rel)))
              else nodes == old(nodes) && (Plain(rel) ==> dest == Ok(root + NamesOf(rel)))
      ensures Canonical(old(nodes), root).Found? && dest.Ok? && Plain(rel)
              && Canonical(old(nodes), root + NamesOf(rel)).Found? ==>
                Canonical(nodes, dest.value) == Canonical(old(nodes), root + NamesOf(rel))
      ensures Canonical(old(nodes), root).Found? && Plain(rel) ==>
                var rootC, names := Canonical(old(nodes), root).path, NamesOf(rel);
                var place := Resolve.Resolved(old(nodes), root + names);
                && (AdmitsAll(old(nodes), root, rootC, names, denied) ==>
                      rootC <= place && dest == Ok(root + place[|rootC|..]))
                && (Resolve.FewLinks(old(nodes), root + names) && dest.Ok? ==>
                      AdmitsAll(old(nodes), root, rootC, names, denied))
    {
      if rel == [] || exists p <- rel :: !p.Normal? {
        return Err("not a plain path inside the workspace");
      }
      var canonicalRoot := Canonical(nodes, root);
      if !canonicalRoot.Found? {
        return Ok(root + NamesOf(rel));
      }
      var rootC := canonicalRoot.path;
      WalkFindsReal(nodes, [], Names(root), LINK_LIMIT);
      hide Contained, Grounded, Sound, Clear, Real, Walk;
      ghost var have;
      dest, have := Follow(rootC, NamesOf(rel), create, denied);
      GrantedByRoot(old(nodes), root, rootC, NamesOf(rel), denied);
      if dest.Ok? {
        CanonicalInMore(old(nodes), nodes, root);
        ContainedWhenGrounded(nodes, root, rootC, dest.value, have, create);
        Arrived(old(nodes), root, rootC, NamesOf(rel), dest.value);
        ghost var there := dest.value;
        dest := Ok(root + dest.value[|rootC|..]);
        if Canonical(old(nodes), root + NamesOf(rel)).Found? {
          AskedIsFound(old(nodes), nodes, root, rootC, there, root + NamesOf(rel), create);
        }
      }
    }
  }

  /** Few links on the way by the root as it was spelled, and the same names admitted, as by the canonical root. */
  lemma GrantedByRoot(was: Nodes, root: Path, rootC: Path, names: Path, denied: set<Path>)
    requires Sound(was) && Canonical(was, root) == Found(rootC)
    ensures AdmitsAll(was, root, rootC, names, denied) ==> Resolve.FewLinks(was, root + names)
    ensures Resolve.FewLinks(was, root + names) ==>
              && Resolve.FewLinks(was, rootC + names)
              && Resolve.Resolved(was, root + names) == Resolve.Resolved(was, rootC + names)
              && (AdmitsAll(was, root, rootC, names, denied) <==> AdmitsAll(was, rootC, rootC, names, denied))
  {
    hide Canonical, Walk, Admits, Resolve.Resolved, Resolve.FewLinks;
    if AdmitsAll(was, root, rootC, names, denied) {
      AdmittedIsFew(was, root, rootC, names, denied);
    }
    if Resolve.FewLinks(was, root + names) {
      FewByRoot(was, root, rootC, names);
      Resolve.SpellingsResolveAlike(was, root, rootC, names);
      forall k | 0 < k <= |names|
        ensures Admits(was, root, rootC, names, denied, k) <==> Admits(was, rootC, rootC, names, denied, k)
      {
        AdmitsByRoot(was, root, rootC, names, denied, k);
      }
    }
  }

  lemma GroundedExists(nodes: Nodes, cur: Path, have: nat)
    requires Sound(nodes) && Grounded(nodes, cur, have)
    ensures Exists(nodes, cur) <==> have == |cur|
  {
    assert cur[..|cur|] == cur;
    if Exists(nodes, cur) {
      GroundedReal(nodes, cur, have, |cur|);
      assert forall k | 0 < k <= |cur| :: cur[..k] in nodes;
    } else {
      assert cur != [];
    }
  }

  lemma GroundedLength(nodes: Nodes, cur: Path, have: nat)
    requires Grounded(nodes, cur, have)
    ensures have <= |cur|
  {
  }

  /** The destination is what the path asked for was on the disk before. */
  lemma AskedIsFound(was: Nodes, nodes: Nodes, root: Path, rootC: Path, there: Path, asked: Path, create: bool)
    requires rootC <= there && Contained(nodes, root, rootC, root + there[|rootC|..], create)
    requires Sound(was) && was.Items <= nodes.Items && Canonical(was, asked) == Found(there)
    ensures Canonical(nodes, root + there[|rootC|..]) == Found(there)
  {
    var dest := root + there[|rootC|..];
    var suffix := dest[|root|..];
    assert suffix == there[|rootC|..] && suffix[..|suffix|] == suffix;
    assert rootC + suffix == there && root + suffix == dest;
    WalkFindsReal(was, [], Names(asked), LINK_LIMIT);
    assert there[..|there|] == there;
    assert there != [] ==> (there, was[there]) in nodes.Items;
    assert Exists(nodes, rootC + suffix[..|suffix|]);
  }

  lemma CanonicalInMore(nodes: Nodes, more: Nodes, p: Path)
    requires nodes.Items <= more.Items && Canonical(nodes, p).Found?
    ensures Canonical(more, p) == Canonical(nodes, p)
  {
    WalkInMore(nodes, more, [], Names(p), LINK_LIMIT);
  }
}
