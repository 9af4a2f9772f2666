/**
 * `collect_evolution_chain`: a depth-first walk over the evolution-chain document that
 * emits one (parent id, child id) edge for every node below the root.
 */
module EvolutionChain {
  import opened Wrappers
  import opened Text
  import opened PokeUrls
  import opened Db

  /** One level of the chain document: `{species: {url}, evolves_to: [...]}` (a missing `evolves_to` is `[]`). */
  datatype ChainLink = ChainLink(speciesUrl: String, evolvesTo: seq<ChainLink>)

  /** The same tree with every species URL already turned into a pokemon id. */
  datatype IdTree = IdTree(id: int, children: seq<IdTree>)

  /** The pokemon id named by a species URL: rewritten to the pokemon collection, then extracted. */
  function SpeciesId(url: String): Result<int, UrlError>
  {
    ExtractId(SpeciesToPokemon(url))
  }

  /**
   * The id tree of a chain, reading each node's id with `idOf`, or None when some node's
   * id cannot be read. The walk uses `SpeciesId`; the structural facts hold for any reader.
   */
  function Resolve(c: ChainLink, idOf: String -> Result<int, UrlError>): Option<IdTree>
    decreases c, 1
  {
    match idOf(c.speciesUrl)
    case Err(_) => None
    case Ok(id) =>
      match ResolveAll(c.evolvesTo, idOf)
      case None => None
      case Some(ts) => Some(IdTree(id, ts))
  }

  function ResolveAll(cs: seq<ChainLink>, idOf: String -> Result<int, UrlError>): Option<seq<IdTree>>
    decreases cs, 0
  {
    if cs == [] then Some([])
    else
      match ResolveAll(cs[..|cs| - 1], idOf)
      case None => None
      case Some(ts) =>
        match Resolve(cs[|cs| - 1], idOf)
        case None => None
        case Some(t) => Some(ts + [t])
  }

  /** The edges the walk emits for `t` when its parent is `parent`, in emission order. */
  function Edges(t: IdTree, parent: Option<int>): seq<Edge>
    decreases t, 1
  {
    (if parent.Some? then [(parent.value, t.id)] else []) + ChildEdges(t.children, t.id)
  }

  function ChildEdges(ts: seq<IdTree>, p: int): seq<Edge>
    decreases ts, 0
  {
    if ts == [] then [] else Edges(ts[0], Some(p)) + ChildEdges(ts[1..], p)
  }

  /** The node ids in pre-order, children in document order. */
  function PreOrder(t: IdTree): seq<int>
    decreases t, 1
  {
    [t.id] + PreOrderAll(t.children)
  }

  function PreOrderAll(ts: seq<IdTree>): seq<int>
    decreases ts, 0
  {
    if ts == [] then [] else PreOrder(ts[0]) + PreOrderAll(ts[1..])
  }

  /** The parent-child links of the tree, as a set of (parent id, child id). */
  function Links(t: IdTree): set<Edge>
    decreases t, 1
  {
    (set c | c in t.children :: (t.id, c.id)) + LinksAll(t.children)
  }

  function LinksAll(ts: seq<IdTree>): set<Edge>
    decreases ts, 0
  {
    if ts == [] then {} else Links(ts[0]) + LinksAll(ts[1..])
  }

  function Targets(es: seq<Edge>): (r: seq<int>)
    ensures |r| == |es|
    ensures forall i :: 0 <= i < |es| ==> r[i] == es[i].1
  {
    if es == [] then [] else [es[0].1] + Targets(es[1..])
  }

  lemma {:induction false} TargetsAppend(a: seq<Edge>, b: seq<Edge>)
    ensures Targets(a + b) == Targets(a) + Targets(b)
  {
    assert |Targets(a + b)| == |Targets(a) + Targets(b)|;
  }

  /**
   * Each node below a parent emits exactly one edge, in pre-order: the targets of the
   * emitted edges are the pre-order of the subtree.
   */
  lemma {:induction false} TargetsArePreOrder(t: IdTree, p: int)
    ensures Targets(Edges(t, Some(p))) == PreOrder(t)
    decreases t, 1
  {
    TargetsAppend([(p, t.id)], ChildEdges(t.children, t.id));
    ChildTargetsArePreOrder(t.children, t.id);
  }

  lemma {:induction false} ChildTargetsArePreOrder(ts: seq<IdTree>, p: int)
    ensures Targets(ChildEdges(ts, p)) == PreOrderAll(ts)
    decreases ts, 0
  {
    if ts != [] {
      TargetsAppend(Edges(ts[0], Some(p)), ChildEdges(ts[1..], p));
      TargetsArePreOrder(ts[0], p);
      ChildTargetsArePreOrder(ts[1..], p);
    }
  }

  /**
   * The walk from the root: the root emits no edge, every other node emits exactly one,
   * in pre-order with children in document order, so there is one edge fewer than nodes.
   */
  lemma RootEdges(t: IdTree)
    ensures Targets(Edges(t, None)) == PreOrder(t)[1..]
    ensures |Edges(t, None)| == |PreOrder(t)| - 1
  {
    assert Edges(t, None) == ChildEdges(t.children, t.id);
    ChildTargetsArePreOrder(t.children, t.id);
  }

  /** The emitted edges are exactly the parent-child links of the tree. */
  lemma {:induction false} EdgesAreLinks(t: IdTree, p: int)
    ensures (set e | e in Edges(t, Some(p))) == {(p, t.id)} + Links(t)
    decreases t, 1
  {
    ChildEdgesAreLinks(t.children, t.id);
    var es := Edges(t, Some(p));
    assert es == [(p, t.id)] + ChildEdges(t.children, t.id);
    assert (set e | e in es) == {(p, t.id)} + (set e | e in ChildEdges(t.children, t.id));
  }

  lemma {:induction false} ChildEdgesAreLinks(ts: seq<IdTree>, p: int)
    ensures (set e | e in ChildEdges(ts, p)) == (set c | c in ts :: (p, c.id)) + LinksAll(ts)
    decreases ts, 0
  {
    if ts != [] {
      EdgesAreLinks(ts[0], p);
      ChildEdgesAreLinks(ts[1..], p);
      var a := Edges(ts[0], Some(p));
      var b := ChildEdges(ts[1..], p);
      assert (set e | e in a + b) == (set e | e in a) + (set e | e in b);
      assert (set c | c in ts :: (p, c.id)) == {(p, ts[0].id)} + (set c | c in ts[1..] :: (p, c.id)) by {
        assert ts == [ts[0]] + ts[1..];
      }
    }
  }

  lemma RootEdgesAreLinks(t: IdTree)
    ensures (set e | e in Edges(t, None)) == Links(t)
  {
    ChildEdgesAreLinks(t.children, t.id);
    assert Edges(t, None) == ChildEdges(t.children, t.id);
  }

  /** Both ends of every link are ids of nodes of the tree. */
  lemma {:induction false} LinksWithinTree(t: IdTree)
    ensures forall e :: e in Links(t) ==> e.0 in PreOrder(t) && e.1 in PreOrder(t)
    decreases t, 1
  {
    LinksAllWithinTrees(t.children);
    forall e | e in Links(t) ensures e.0 in PreOrder(t) && e.1 in PreOrder(t) {
      if e !in LinksAll(t.children) {
        var c :| c in t.children && e == (t.id, c.id);
        PreOrderAllHas(t.children, c);
      }
    }
  }

  lemma {:induction false} LinksAllWithinTrees(ts: seq<IdTree>)
    ensures forall e :: e in LinksAll(ts) ==> e.0 in PreOrderAll(ts) && e.1 in PreOrderAll(ts)
    decreases ts, 0
  {
    if ts != [] {
      LinksWithinTree(ts[0]);
      LinksAllWithinTrees(ts[1..]);
    }
  }

  lemma {:induction false} PreOrderAllHas(ts: seq<IdTree>, c: IdTree)
    requires c in ts
    ensures c.id in PreOrderAll(ts)
    decreases ts
  {
    if ts[0] != c {
      PreOrderAllHas(ts[1..], c);
    }
  }

  /** Every id in an emitted edge is the id of some node of the chain. */
  lemma EdgeEndpointsInTree(t: IdTree)
    ensures forall e :: e in Edges(t, None) ==> e.0 in PreOrder(t) && e.1 in PreOrder(t)
  {
    RootEdgesAreLinks(t);
    LinksWithinTree(t);
    forall e | e in Edges(t, None) ensures e.0 in PreOrder(t) && e.1 in PreOrder(t) {
      assert e in (set x | x in Edges(t, None));
    }
  }

  /** A list of chain nodes resolves exactly when each node does, element by element. */
  lemma {:induction false} ResolveAllEach(cs: seq<ChainLink>, idOf: String -> Result<int, UrlError>)
    ensures ResolveAll(cs, idOf).Some? <==> forall j :: 0 <= j < |cs| ==> Resolve(cs[j], idOf).Some?
    ensures ResolveAll(cs, idOf).Some? ==>
      |ResolveAll(cs, idOf).value| == |cs| &&
      forall j :: 0 <= j < |cs| ==> ResolveAll(cs, idOf).value[j] == Resolve(cs[j], idOf).value
    decreases |cs|
  {
    if cs != [] {
      var pre := cs[..|cs| - 1];
      ResolveAllEach(pre, idOf);
      assert forall j :: 0 <= j < |pre| ==> pre[j] == cs[j];
    }
  }

  lemma {:induction false} ChildEdgesSnoc(ts: seq<IdTree>, t: IdTree, p: int)
    ensures ChildEdges(ts + [t], p) == ChildEdges(ts, p) + Edges(t, Some(p))
    decreases |ts|
  {
    if ts == [] {
      assert [] + [t] == [t];
      assert [t][1..] == [];
    } else {
      assert (ts + [t])[0] == ts[0] && (ts + [t])[1..] == ts[1..] + [t];
      ChildEdgesSnoc(ts[1..], t, p);
    }
  }

  /** How `Resolve` reads one node: its id, then all of its children. */
  lemma ResolveNode(chain: ChainLink, idOf: String -> Result<int, UrlError>)
    ensures idOf(chain.speciesUrl).Err? ==> Resolve(chain, idOf).None?
    ensures idOf(chain.speciesUrl).Ok? && ResolveAll(chain.evolvesTo, idOf).None? ==> Resolve(chain, idOf).None?
    ensures idOf(chain.speciesUrl).Ok? && ResolveAll(chain.evolvesTo, idOf).Some? ==>
      Resolve(chain, idOf) == Some(IdTree(idOf(chain.speciesUrl).value, ResolveAll(chain.evolvesTo, idOf).value))
  {
  }

  /** The edges of a node: its own edge to the parent, if any, then those of its children. */
  lemma EdgesOfNode(id: int, ts: seq<IdTree>, parent: Option<int>, evolutions: seq<Edge>)
    ensures evolutions + Edges(IdTree(id, ts), parent)
      == (if parent.Some? then evolutions + [(parent.value, id)] else evolutions) + ChildEdges(ts, id)
  {
    var own := if parent.Some? then [(parent.value, id)] else [];
    assert Edges(IdTree(id, ts), parent) == own + ChildEdges(ts, id);
    assert evolutions + (own + ChildEdges(ts, id)) == (evolutions + own) + ChildEdges(ts, id);
  }

  /** The first `|done|` children resolve to the trees in `done`. */
  ghost predicate ResolvedPrefix(cs: seq<ChainLink>, done: seq<IdTree>, idOf: String -> Result<int, UrlError>)
  {
    |done| <= |cs| && forall j :: 0 <= j < |done| ==> Resolve(cs[j], idOf) == Some(done[j])
  }

  lemma ResolvedPrefixSnoc(cs: seq<ChainLink>, done: seq<IdTree>, t: IdTree, idOf: String -> Result<int, UrlError>)
    requires ResolvedPrefix(cs, done, idOf) && |done| < |cs| && Resolve(cs[|done|], idOf) == Some(t)
    ensures ResolvedPrefix(cs, done + [t], idOf)
  {
  }

  lemma ResolvedPrefixAll(cs: seq<ChainLink>, done: seq<IdTree>, idOf: String -> Result<int, UrlError>)
    requires ResolvedPrefix(cs, done, idOf) && |done| == |cs|
    ensures ResolveAll(cs, idOf) == Some(done)
  {
    ResolveAllEach(cs, idOf);
    assert forall j :: 0 <= j < |cs| ==> Resolve(cs[j], idOf).Some?;
    assert ResolveAll(cs, idOf).value == done;
  }

  lemma ResolveAllFails(cs: seq<ChainLink>, i: nat, idOf: String -> Result<int, UrlError>)
    requires i < |cs| && Resolve(cs[i], idOf).None?
    ensures ResolveAll(cs, idOf).None?
  {
    ResolveAllEach(cs, idOf);
  }

  /** One more child walked: the shared list now ends with that child's edges. */
  lemma AccumulateChild(head: seq<Edge>, done: seq<IdTree>, t: IdTree, p: int, acc: seq<Edge>, next: seq<Edge>)
    requires acc == head + ChildEdges(done, p) && next == acc + Edges(t, Some(p))
    ensures next == head + ChildEdges(done + [t], p)
  {
    ChildEdgesSnoc(done, t, p);
  }

  /**
   * `collect_evolution_chain(chain, parent_id, evolutions)`: the shared list is threaded
   * through the recursion; the result is that list extended with the edges of the
   * whole chain, or None when a species URL does not end in an integer (the
   * exception that the caller catches).
   */
  method CollectEvolutionChain(chain: ChainLink, parent: Option<int>, evolutions: seq<Edge>)
    returns (r: Option<seq<Edge>>)
    ensures Resolve(chain, SpeciesId).None? ==> r.None?
    ensures Resolve(chain, SpeciesId).Some? ==> r == Some(evolutions + Edges(Resolve(chain, SpeciesId).value, parent))
    decreases chain, 1
  {
    ResolveNode(chain, SpeciesId);
    var id := SpeciesId(chain.speciesUrl);
    if id.Err? {
      return None;
    }
    var acc := evolutions;
    if parent.Some? {
      acc := acc + [(parent.value, id.value)];
    }
    r := CollectChildren(chain.evolvesTo, id.value, acc);
    if r.Some? {
      EdgesOfNode(id.value, ResolveAll(chain.evolvesTo, SpeciesId).value, parent, evolutions);
    }
  }

  /** The `for evolution in chain.get('evolves_to', [])` loop of the walk. */
  method CollectChildren(children: seq<ChainLink>, id: int, evolutions: seq<Edge>)
    returns (r: Option<seq<Edge>>)
    ensures ResolveAll(children, SpeciesId).None? ==> r.None?
    ensures ResolveAll(children, SpeciesId).Some? ==>
      r == Some(evolutions + ChildEdges(ResolveAll(children, SpeciesId).value, id))
    decreases children, 0
  {
    var acc := evolutions;
    ghost var done: seq<IdTree> := [];
    var i := 0;
    while i < |children|
      invariant 0 <= i <= |children| && |done| == i
      invariant ResolvedPrefix(children, done, SpeciesId)
      invariant acc == evolutions + ChildEdges(done, id)
    {
      var next := CollectEvolutionChain(children[i], Some(id), acc);
      if next.None? {
        ResolveAllFails(children, i, SpeciesId);
        return None;
      }
      var t := Resolve(children[i], SpeciesId).value;
      ResolvedPrefixSnoc(children, done, t, SpeciesId);
      AccumulateChild(evolutions, done, t, id, acc, next.value);
      done := done + [t];
      acc := next.value;
      i := i + 1;
    }
    ResolvedPrefixAll(children, done, SpeciesId);
    return Some(acc);
  }
}
