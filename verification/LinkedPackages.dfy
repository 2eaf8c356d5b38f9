// The crates a plugin links: a worklist over the dependency graph (supply_chain.py, `linked_packages`).
module LinkedPackages {
  import opened Prelude

  datatype Package = Package(id: string, name: string)

  /** One dependency of a node; a kind of None is a normal one (not dev, not build). */
  datatype Dep = Dep(pkg: string, kinds: seq<Option<string>>)

  datatype Metadata = Metadata(packages: seq<Package>, nodes: map<string, seq<Dep>>)

  datatype LinkError = NotOneRoot(found: nat) | UnknownId

  predicate Normal(dep: Dep)
  {
    None in dep.kinds
  }

  /** `{p["id"]: p for p in packages}`: the last package of an id wins. */
  function ById(packages: seq<Package>): (byId: map<string, Package>)
    ensures forall id :: id in byId ==> byId[id].id == id
  {
    if packages == [] then map[]
    else var p := packages[|packages| - 1]; ById(packages[..|packages| - 1])[p.id := p]
  }

  function Named(packages: seq<Package>, name: string): seq<string>
  {
    if packages == [] then []
    else (if packages[0].name == name then [packages[0].id] else []) + Named(packages[1..], name)
  }

  // ----- Reachability -----

  ghost predicate Edge(nodes: map<string, seq<Dep>>, a: string, b: string)
  {
    a in nodes && exists i :: 0 <= i < |nodes[a]| && Normal(nodes[a][i]) && nodes[a][i].pkg == b
  }

  ghost predicate Path(nodes: map<string, seq<Dep>>, root: string, path: seq<string>, id: string)
  {
    && path != [] && path[0] == root && path[|path| - 1] == id
    && forall i :: 0 <= i < |path| - 1 ==> Edge(nodes, path[i], path[i + 1])
  }

  ghost predicate Reachable(nodes: map<string, seq<Dep>>, root: string, id: string)
  {
    exists path :: Path(nodes, root, path, id)
  }

  ghost predicate Distinct(s: seq<string>)
  {
    forall i, j :: 0 <= i < j < |s| ==> s[i] != s[j]
  }

  lemma ReachStart(nodes: map<string, seq<Dep>>, root: string)
    ensures Reachable(nodes, root, root)
  {
    assert Path(nodes, root, [root], root);
  }

  lemma ReachStep(nodes: map<string, seq<Dep>>, root: string, a: string, b: string)
    requires Reachable(nodes, root, a) && Edge(nodes, a, b)
    ensures Reachable(nodes, root, b)
  {
    var path :| Path(nodes, root, path, a);
    assert Path(nodes, root, path + [b], b);
  }

  /** A set that holds the root and is closed under normal edges holds everything reachable. */
  lemma {:induction false} ClosedHoldsPath(
    nodes: map<string, seq<Dep>>, root: string, seen: set<string>, path: seq<string>, id: string)
    requires root in seen && Path(nodes, root, path, id)
    requires forall a, b :: a in seen && Edge(nodes, a, b) ==> b in seen
    ensures id in seen
    decreases |path|
  {
    if |path| <= 1 {
    } else {
      var n := |path| - 1;
      var front := path[..n];
      assert Path(nodes, root, front, front[n - 1]);
      ClosedHoldsPath(nodes, root, seen, front, front[n - 1]);
      assert Edge(nodes, path[n - 1], path[n]);
    }
  }

  /** Everything known while the worklist runs. */
  ghost predicate Exploring(nodes: map<string, seq<Dep>>, root: string, seen: seq<string>, stack: seq<string>)
  {
    && Distinct(seen)
    && (if seen == [] then stack == [root] else seen[0] == root)
    && (forall id :: id in seen ==> id in nodes)
    && (forall id :: id in seen || id in stack ==> Reachable(nodes, root, id))
    && (forall a, b :: a in seen && Edge(nodes, a, b) ==> b in seen || b in stack)
  }

  /** The targets of the normal dependencies, in order and as often as they are named. */
  function NormalTargets(deps: seq<Dep>): (targets: seq<string>)
    ensures forall id :: id in targets <==> exists i :: 0 <= i < |deps| && Normal(deps[i]) && deps[i].pkg == id
  {
    if deps == [] then []
    else
      var n := |deps| - 1;
      if Normal(deps[n]) then NormalTargets(deps[..n]) + [deps[n].pkg] else NormalTargets(deps[..n])
  }

  /** The inner loop: push the targets of the normal dependencies, in order. */
  method PushNormal(deps: seq<Dep>, stack: seq<string>) returns (pushed: seq<string>)
    ensures pushed == stack + NormalTargets(deps)
  {
    pushed := stack;
    for k := 0 to |deps|
      invariant pushed == stack + NormalTargets(deps[..k])
    {
      assert deps[..k + 1][..k] == deps[..k];
      if Normal(deps[k]) {
        pushed := pushed + [deps[k].pkg];
      }
    }
    assert deps[..|deps|] == deps;
  }

  ghost function Unseen(nodes: map<string, seq<Dep>>, seen: seq<string>): set<string>
  {
    nodes.Keys - set id | id in seen
  }

  lemma UnseenShrinks(nodes: map<string, seq<Dep>>, seen: seq<string>, current: string)
    requires current in nodes && current !in seen
    ensures Unseen(nodes, seen + [current]) < Unseen(nodes, seen)
  {
    assert current in Unseen(nodes, seen) && current !in Unseen(nodes, seen + [current]);
  }

  /** One turn of the worklist on an id that is new. */
  lemma ExploreNew(
    nodes: map<string, seq<Dep>>, root: string, seen: seq<string>, stack: seq<string>, current: string, pushed: seq<string>)
    requires Exploring(nodes, root, seen, stack + [current]) && current in nodes && current !in seen
    requires forall id :: id in pushed <==> id in stack || Edge(nodes, current, id)
    ensures Exploring(nodes, root, seen + [current], pushed)
  {
    var now := seen + [current];
    assert forall id :: id in stack ==> id in stack + [current];
    assert current in stack + [current];
    forall id | id in now || id in pushed
      ensures Reachable(nodes, root, id)
    {
      if Edge(nodes, current, id) {
        ReachStep(nodes, root, current, id);
      }
    }
    forall a, b | a in now && Edge(nodes, a, b)
      ensures b in now || b in pushed
    {
      if a != current {
        assert b in seen || b in stack + [current];
      }
    }
  }

  ghost predicate AllKnown(m: Metadata, root: string)
  {
    forall id :: Reachable(m.nodes, root, id) ==> id in m.nodes && id in ById(m.packages)
  }

  ghost function Ids(packages: seq<Package>): (ids: seq<string>)
    ensures |ids| == |packages| && forall i :: 0 <= i < |ids| ==> ids[i] == packages[i].id
  {
    seq(|packages|, i requires 0 <= i < |packages| => packages[i].id)
  }

  /** `linked_packages`: exactly the packages reachable from the root through normal edges, each once, root first;
      it fails exactly when the root is not unique or a reachable id is missing from the metadata. */
  method LinkedPackages(m: Metadata, rootName: string) returns (r: Result<seq<Package>, LinkError>)
    ensures var roots := Named(m.packages, rootName);
            if |roots| != 1 then r == Err(NotOneRoot(|roots|))
            else if !AllKnown(m, roots[0]) then r == Err(UnknownId)
            else
              && r.Ok? && Ids(r.value) != [] && Ids(r.value)[0] == roots[0] && Distinct(Ids(r.value))
              && (forall id :: id in Ids(r.value) <==> Reachable(m.nodes, roots[0], id))
              && (forall p :: p in r.value ==> p == ById(m.packages)[p.id])
  {
    var byId := ById(m.packages);
    var roots := Named(m.packages, rootName);
    if |roots| != 1 {
      return Err(NotOneRoot(|roots|));
    }
    var root := roots[0];
    var seen: seq<string>, stack := [], [root];
    ReachStart(m.nodes, root);
    while stack != []
      invariant Exploring(m.nodes, root, seen, stack)
      decreases Unseen(m.nodes, seen), |stack|
    {
      var current := stack[|stack| - 1];
      ghost var before := stack;
      stack := stack[..|stack| - 1];
      assert before == stack + [current];
      if current in seen {
        assert Exploring(m.nodes, root, seen, stack);
        continue;
      }
      if current !in m.nodes {
        return Err(UnknownId);
      }
      var pushed := PushNormal(m.nodes[current], stack);
      ExploreNew(m.nodes, root, seen, stack, current, pushed);
      UnseenShrinks(m.nodes, seen, current);
      seen, stack := seen + [current], pushed;
    }
    SeenIsReachable(m.nodes, root, seen);
    r := Collect(byId, seen);
    if r.Err? {
      assert exists id :: id in seen && id !in byId;
    }
  }

  lemma SeenIsReachable(nodes: map<string, seq<Dep>>, root: string, seen: seq<string>)
    requires Exploring(nodes, root, seen, [])
    ensures forall id :: id in seen <==> Reachable(nodes, root, id)
  {
    var all := set id | id in seen;
    forall id | Reachable(nodes, root, id)
      ensures id in seen
    {
      var path :| Path(nodes, root, path, id);
      ClosedHoldsPath(nodes, root, all, path, id);
    }
  }

  /** `[by_id[i] for i in seen]`. */
  method Collect(byId: map<string, Package>, seen: seq<string>) returns (r: Result<seq<Package>, LinkError>)
    requires forall id :: id in byId ==> byId[id].id == id
    ensures r.Ok? <==> forall id :: id in seen ==> id in byId
    ensures r.Ok? ==> Ids(r.value) == seen && forall p :: p in r.value ==> p.id in byId && p == byId[p.id]
    ensures r.Err? ==> r == Err(UnknownId)
  {
    var found := [];
    for k := 0 to |seen|
      invariant |found| == k
      invariant forall i :: 0 <= i < k ==> seen[i] in byId && found[i] == byId[seen[i]]
    {
      if seen[k] !in byId {
        return Err(UnknownId);
      }
      found := found + [byId[seen[k]]];
    }
    r := Ok(found);
  }
}
