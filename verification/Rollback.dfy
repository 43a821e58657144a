/**
  Rolling back a failed publication (src/object_model.cpp): the descendant worklist, the pass
  that detaches foreign references, and the reverse walk over the ownership ledger. Whatever
  the graph and however deletions cascade, only nodes of the ledger disappear.
 */
module Rollback {
  import opened Ordering
  import opened AddressSpace
  import opened Cascades

  // --------------------------------------------------------------- descendants

  ghost function Targets(refs: set<Reference>): set<ServerNodeId>
  {
    set r | r in refs :: r.target
  }

  /** Nodes already seen whose references have all been followed. */
  ghost predicate Explored(refs: set<Reference>, root: ServerNodeId, descendants: set<ServerNodeId>, pending: seq<ServerNodeId>)
  {
    forall r :: r in refs && r.local && (r.source == root || r.source in descendants) && r.source !in pending
                ==> r.target in descendants
  }

  ghost predicate AllReached(refs: set<Reference>, root: ServerNodeId, found: set<ServerNodeId>)
  {
    forall n :: n in found ==> n in Targets(refs) && Reaches(refs, root, n)
  }

  /** On success exactly the nodes below the root; on failure still nothing else. */
  method CollectDescendants(space: Space, root: ServerNodeId) returns (ok: bool, descendants: set<ServerNodeId>)
    requires ProperReferences(space.nodes, space.refs)
    modifies space`faults
    ensures ok ==> descendants == Descendants(space.refs, root) && space.faults == old(space.faults)
    ensures ok ==> root in space.nodes
    ensures !ok ==> space.faults > old(space.faults) || root !in space.nodes
    ensures descendants <= Descendants(space.refs, root) + {root}
    ensures root !in space.nodes ==> !ok && descendants == {}
    ensures space.faults >= old(space.faults)
  {
    hide Reaches, Explored;
    ghost var refs := space.refs;
    var pending := [root];
    descendants := {};
    NothingExplored(refs, root);
    ReachesItself(refs, root);
    while pending != []
      invariant space.faults == old(space.faults)
      invariant Explored(refs, root, descendants, pending)
      invariant AllReached(refs, root, descendants)
      invariant forall n :: n in pending ==> n == root || n in descendants
      invariant if root in space.nodes then forall n :: n in pending ==> n in space.nodes
                else pending == [root] && descendants == {}
      decreases Targets(refs) - descendants, |pending|
    {
      var current := pending[|pending| - 1];
      ghost var before, waiting := descendants, pending;
      pending := pending[..|pending| - 1];
      assert waiting == pending + [current];
      var references := space.Browse(current);
      if references.None? {
        return false, descendants;
      }
      var list := references.value;
      ghost var rest := pending;
      for i := 0 to |list|
        modifies {}
        invariant before <= descendants && AllReached(refs, root, descendants)
        invariant forall n :: n in pending <==> n in rest || n in descendants - before
        invariant descendants == before ==> pending == rest
        invariant forall n :: n in pending ==> n in space.nodes
        invariant forall k :: 0 <= k < i && list[k].local ==> list[k].target in descendants
      {
        if !list[i].local {
          continue;
        }
        var child := list[i].target;
        assert list[i] in Elements(list);
        ReachesFurther(refs, root, list[i]);
        if child !in descendants {
          descendants := descendants + {child};
          pending := pending + [child];
        }
      }
      FollowedAll(refs, root, before, waiting, current, list, descendants, pending, rest);
    }
    ExploredIsAll(refs, root, descendants);
    descendants := descendants - {root};
    return true, descendants;
  }

  lemma NothingExplored(refs: set<Reference>, root: ServerNodeId)
    ensures Explored(refs, root, {}, [root])
  {
  }

  lemma FollowedAll(refs: set<Reference>, root: ServerNodeId, before: set<ServerNodeId>,
                    waiting: seq<ServerNodeId>, current: ServerNodeId,
                    list: seq<Reference>, descendants: set<ServerNodeId>, pending: seq<ServerNodeId>, rest: seq<ServerNodeId>)
    requires Explored(refs, root, before, waiting) && waiting == rest + [current]
    requires Elements(list) == set r | r in refs && r.source == current
    requires before <= descendants
    requires forall n :: n in pending <==> n in rest || n in descendants - before
    requires forall k :: 0 <= k < |list| && list[k].local ==> list[k].target in descendants
    ensures Explored(refs, root, descendants, pending)
  {
    forall r | r in refs && r.local && (r.source == root || r.source in descendants) && r.source !in pending
      ensures r.target in descendants
    {
      if r.source == current {
        assert r in Elements(list);
      } else {
        assert r.source !in waiting;
      }
    }
  }

  lemma ExploredIsAll(refs: set<Reference>, root: ServerNodeId, descendants: set<ServerNodeId>)
    requires Explored(refs, root, descendants, []) && AllReached(refs, root, descendants)
    ensures descendants - {root} == Descendants(refs, root)
  {
    assert Closed(refs, descendants + {root});
    ReachesStaysInClosed(refs, descendants + {root}, root);
    forall n | n in descendants - {root} ensures n in Descendants(refs, root) {
      var r :| r in refs && r.target == n;
    }
  }

  // -------------------------------------------------------- foreign references

  ghost predicate Foreign(created: set<ServerNodeId>, r: Reference)
  {
    r.local && r.source in created && r.target !in created
  }

  /** What is left of the references when all those that lead out of the created nodes are taken away. */
  ghost function Detached(refs: set<Reference>, created: set<ServerNodeId>): set<Reference>
  {
    set r | r in refs && !(r.(local := true) in refs && Foreign(created, r.(local := true)))
  }

  /** Afterwards no hierarchical reference leads out of the created nodes. */
  method DetachForeignReferences(space: Space, created: set<ServerNodeId>) returns (ok: bool)
    modifies space`refs, space`faults
    ensures space.refs <= old(space.refs)
    ensures forall r :: r in old(space.refs) && r !in space.refs ==>
              r.source in created && r.target !in created
    ensures ok ==> Closed(space.refs, created) && space.refs == Detached(old(space.refs), created)
    ensures ok ==> space.faults == old(space.faults)
    ensures space.faults >= old(space.faults)
    ensures !ok ==> space.faults > old(space.faults) || !(created <= space.nodes)
  {
    var foreign: seq<Reference> := [];
    var rest := created;
    while rest != {}
      invariant rest <= created && space.refs == old(space.refs) && space.faults == old(space.faults)
      invariant forall r :: r in foreign ==> Foreign(created, r) && r in space.refs
      invariant forall r :: r in space.refs && Foreign(created, r) && r.source !in rest ==> r in foreign
      decreases rest
    {
      var source :| source in rest;
      var references := space.Browse(source);
      if references.None? {
        return false;
      }
      var list := references.value;
      ghost var before := foreign;
      for i := 0 to |list|
        modifies {}
        invariant forall r :: r in foreign <==> r in before || (r in list[..i] && Foreign(created, r))
      {
        TakeMore(list, i);
        assert list[i] in Elements(list);
        if !list[i].local || list[i].target in created {
          continue;
        }
        foreign := foreign + [list[i]];
      }
      TakeAll(list);
      assert forall r :: r in list <==> r in Elements(list);
      rest := rest - {source};
    }
    for i := 0 to |foreign|
      invariant space.refs == Undetached(old(space.refs), foreign[..i]) && space.faults == old(space.faults)
    {
      var r := foreign[i];
      assert r in foreign;
      TakeMore(foreign, i);
      ghost var before := space.refs;
      var result := space.DeleteReference(r.source, r.target, r.kind);
      if result != Good {
        UndetachedKeeps(old(space.refs), foreign[..i], created);
        return false;
      }
      UndetachedMore(old(space.refs), foreign, i);
    }
    TakeAll(foreign);
    UndetachedKeeps(old(space.refs), foreign, created);
    assert space.refs == Detached(old(space.refs), created);
    assert Closed(space.refs, created);
    return true;
  }

  /** The references that are left when some have been deleted, each with its twin. */
  ghost function Undetached(refs: set<Reference>, deleted: seq<Reference>): set<Reference>
  {
    set r | r in refs && r.(local := true) !in deleted
  }

  lemma UndetachedMore(refs: set<Reference>, deleted: seq<Reference>, i: nat)
    requires i < |deleted| && deleted[i].local
    ensures Undetached(refs, deleted[..i + 1]) ==
            set r | r in Undetached(refs, deleted[..i])
                    && !(r.source == deleted[i].source && r.target == deleted[i].target && r.kind == deleted[i].kind)
  {
    TakeMore(deleted, i);
  }

  lemma UndetachedKeeps(refs: set<Reference>, deleted: seq<Reference>, created: set<ServerNodeId>)
    requires forall r :: r in deleted ==> Foreign(created, r)
    ensures Undetached(refs, deleted) <= refs
    ensures forall r :: r in refs && r !in Undetached(refs, deleted) ==> r.source in created && r.target !in created
  {
  }

  // ------------------------------------------------------------------ rollback

  /** What holds between two deletions of a rollback that started from `nodes0` and `refs0`. */
  ghost predicate OnlyOwnedGone(space: Space, created: set<ServerNodeId>, nodes0: set<ServerNodeId>, refs0: set<Reference>)
    reads space
  {
    && space.nodes <= nodes0 && nodes0 - space.nodes <= created
    && space.refs <= refs0
    && Closed(space.refs, created)
    && ProperReferences(space.nodes, space.refs)
    && forall r :: r in refs0 && r !in space.refs ==> r.source in created || r.target in created
  }

  /** A single deletion inside a closed set of owned nodes can only take owned nodes along. */
  method DeleteOwned(space: Space, id: ServerNodeId, ghost created: set<ServerNodeId>, ghost nodes0: set<ServerNodeId>,
                     ghost refs0: set<Reference>)
    returns (status: Status)
    requires OnlyOwnedGone(space, created, nodes0, refs0) && id in created
    modifies space`nodes, space`refs, space`faults
    ensures OnlyOwnedGone(space, created, nodes0, refs0)
    ensures space.nodes <= old(space.nodes)
    ensures status == Good || status == BadNodeIdUnknown || status == BadOther
    ensures status != BadOther ==> id !in space.nodes
    ensures status == BadNodeIdUnknown <==> id !in old(space.nodes) && status != BadOther
    ensures space.refs == Cut(old(space.refs), old(space.nodes) - space.nodes)
    ensures old(space.nodes) - space.nodes <= {id} + Descendants(old(space.refs), id)
    ensures id !in old(space.nodes) ==> space.nodes == old(space.nodes)
    ensures space.faults >= old(space.faults)
    ensures space.faults == old(space.faults) ==> status != BadOther
  {
    ghost var before := space.refs;
    status := space.DeleteNode(id);
    ReachesStaysInClosed(before, created, id);
    assert Closed(space.refs, created);
    forall r | r in refs0 && r !in space.refs ensures r.source in created || r.target in created {
      assert r in before ==> r.source in {id} + Descendants(before, id) || r.target in {id} + Descendants(before, id);
    }
  }

  /** The deletions requested for the created nodes below one recursive root. */
  method RemoveDescendants(space: Space, descendants: set<ServerNodeId>, created: set<ServerNodeId>, removed0: set<ServerNodeId>,
                           ghost nodes0: set<ServerNodeId>, ghost refs0: set<Reference>)
    returns (complete: bool, removed: set<ServerNodeId>)
    requires OnlyOwnedGone(space, created, nodes0, refs0)
    modifies space`nodes, space`refs, space`faults
    ensures OnlyOwnedGone(space, created, nodes0, refs0)
    ensures space.nodes <= old(space.nodes) && removed0 <= removed
    ensures space.faults >= old(space.faults)
    ensures space.refs == Cut(old(space.refs), old(space.nodes) - space.nodes)
    ensures space.faults == old(space.faults) ==>
              && complete && removed == removed0 + descendants * created
              && MayLose(old(space.nodes), old(space.refs), descendants * created, old(space.nodes) - space.nodes)
  {
    complete, removed := true, removed0;
    var rest := descendants;
    ghost var before, links := space.nodes, space.refs;
    CutNothing(links);
    assert before - space.nodes == {};
    while rest != {}
      invariant OnlyOwnedGone(space, created, nodes0, refs0)
      invariant space.nodes <= old(space.nodes) && removed0 <= removed
      invariant rest <= descendants && space.refs == Cut(links, before - space.nodes)
      invariant space.faults >= old(space.faults)
      invariant space.faults == old(space.faults) ==>
                  complete && removed == removed0 + (descendants - rest) * created
      invariant space.faults == old(space.faults) ==> MayLose(before, links, (descendants - rest) * created, before - space.nodes)
      decreases rest
    {
      var descendant :| descendant in rest;
      ghost var done := (descendants - rest) * created;
      rest := rest - {descendant};
      if descendant !in created {
        assert (descendants - rest) * created == done;
        continue;
      }
      assert (descendants - rest) * created == done + {descendant};
      ghost var nodes1, refs1 := space.nodes, space.refs;
      var result := DeleteOwned(space, descendant, created, nodes0, refs0);
      if result == BadOther {
        complete := false;
        LossesAdd(links, before, nodes1, space.nodes);
        continue;
      }
      LossesAdd(links, before, nodes1, space.nodes);
      if space.faults == old(space.faults) {
        LoseOneMore(before, links, done, descendant, nodes1, space.nodes);
      }
      removed := removed + {descendant};
    }
    assert (descendants - {}) * created == descendants * created;
  }

  lemma LossesAdd(refs: set<Reference>, nodes: set<ServerNodeId>, nodes1: set<ServerNodeId>, nodes2: set<ServerNodeId>)
    requires nodes2 <= nodes1 <= nodes
    ensures Cut(Cut(refs, nodes - nodes1), nodes1 - nodes2) == Cut(refs, nodes - nodes2)
  {
  }

  /** Deleting one after the other takes no more than deleting them all. */
  lemma LoseOneMore(nodes: set<ServerNodeId>, refs: set<Reference>, done: set<ServerNodeId>, id: ServerNodeId,
                    nodes1: set<ServerNodeId>, nodes2: set<ServerNodeId>)
    requires nodes2 <= nodes1 <= nodes && MayLose(nodes, refs, done, nodes - nodes1) && id !in nodes2
    requires nodes1 - nodes2 <= {id} + Descendants(Cut(refs, nodes - nodes1), id)
    ensures MayLose(nodes, refs, done + {id}, nodes - nodes2)
  {
    forall n | n in nodes - nodes2 ensures TakenBy(refs, done + {id}, n) {
      if n in nodes - nodes1 {
        var d :| d in done && Reaches(refs, d, n);
        assert d in done + {id};
      } else {
        ReachesItself(refs, id);
        if n != id {
          assert n in nodes1 - nodes2 && n in Descendants(Cut(refs, nodes - nodes1), id);
          MoreReferencesReach(Cut(refs, nodes - nodes1), refs, id, n);
        }
        assert id in done + {id};
      }
    }
  }

  /** Deleting an entry itself. */
  lemma LoseEntry(nodes: set<ServerNodeId>, refs: set<Reference>, id: ServerNodeId, nodes2: set<ServerNodeId>)
    requires nodes2 <= nodes && id !in nodes2 && nodes - nodes2 <= {id} + Descendants(refs, id)
    requires id !in nodes ==> nodes2 == nodes
    ensures MayLose(nodes, refs, {id} * nodes, nodes - nodes2)
  {
    if id in nodes {
      assert {id} * nodes == {id};
      ReachesItself(refs, id);
      forall n | n in nodes - nodes2 ensures TakenBy(refs, {id}, n) { assert id in {id}; }
    } else {
      assert nodes - nodes2 == {};
    }
  }

  ghost predicate OwnedBy(ledger: seq<CreatedNode>, nodes: set<ServerNodeId>)
  {
    DistinctLedger(ledger) && Created(ledger) <= nodes
  }

  /** One turn of the reverse walk; without a failed request it is one of the possible turns. */
  method RollBackEntry(space: Space, entry: CreatedNode, created: set<ServerNodeId>, removed0: set<ServerNodeId>,
                       complete0: bool, ghost nodes0: set<ServerNodeId>, ghost refs0: set<Reference>)
    returns (complete: bool, removed: set<ServerNodeId>)
    requires OnlyOwnedGone(space, created, nodes0, refs0) && entry.id in created
    modifies space`nodes, space`refs, space`faults
    ensures OnlyOwnedGone(space, created, nodes0, refs0)
    ensures space.nodes <= old(space.nodes) && space.faults >= old(space.faults)
    ensures complete ==> complete0 && entry.id !in space.nodes
    ensures space.faults == old(space.faults) ==>
              MayTurn(created, entry, Progress(old(space.nodes), old(space.refs), removed0, complete0),
                      Progress(space.nodes, space.refs, removed, complete))
  {
    hide MayLose, Descendants, Closed;
    complete := complete0;
    var descendants: set<ServerNodeId> := {};
    if entry.recursiveRoot {
      var ok;
      ok, descendants := CollectDescendants(space, entry.id);
      if !ok {
        complete := false;
      }
    }
    var all;
    all, removed := RemoveDescendants(space, descendants, created, removed0, nodes0, refs0);
    if !all {
      complete := false;
    }
    ghost var nodes1, refs1 := space.nodes, space.refs;
    var result := DeleteOwned(space, entry.id, created, nodes0, refs0);
    if (result == BadNodeIdUnknown && entry.id !in removed) || (result != BadNodeIdUnknown && result != Good) {
      complete := false;
    }
    if space.faults == old(space.faults) {
      LoseEntry(nodes1, refs1, entry.id, space.nodes);
      TurnTaken(created, entry, descendants, Progress(old(space.nodes), old(space.refs), removed0, complete0), nodes1,
                Progress(space.nodes, space.refs, removed, complete));
    }
  }

  lemma TurnTaken(created: set<ServerNodeId>, entry: CreatedNode, descendants: set<ServerNodeId>, s: Progress,
                  nodes1: set<ServerNodeId>, t: Progress)
    requires descendants == if entry.recursiveRoot && entry.id in s.nodes then Descendants(s.refs, entry.id) else {}
    requires ProperReferences(s.nodes, s.refs)
    requires t.nodes <= nodes1 <= s.nodes
    requires MayLose(s.nodes, s.refs, descendants * created, s.nodes - nodes1)
    requires MayLose(nodes1, Cut(s.refs, s.nodes - nodes1), {entry.id} * nodes1, nodes1 - t.nodes)
    requires t.refs == Cut(Cut(s.refs, s.nodes - nodes1), nodes1 - t.nodes)
    requires t.removed == s.removed + descendants * created
    requires t.complete == (&& s.complete
                            && (entry.recursiveRoot ==> entry.id in s.nodes)
                            && (entry.id in nodes1 || entry.id in t.removed))
    ensures MayTurn(created, entry, s, t)
  {
    hide MayLose, Descendants;
    var gone, last := s.nodes - nodes1, nodes1 - t.nodes;
    assert s.nodes - gone == nodes1;
    if entry.id !in s.nodes {
      NothingBelowAbsent(s.nodes, s.refs, entry.id);
    }
    assert Below(created, s.refs, entry) == descendants * created;
    assert TurnWith(created, entry, s, t, gone, last);
  }

  /**
    Deletes the ledger backwards. Nothing outside the ledger is ever deleted, and a rollback
    that reports completion has removed the whole ledger. When no request fails, the result is
    one of the possible walks; so over an orderly ledger the rollback completes, however
    deletions cascade.
   */
  method RollbackCreatedNodes(space: Space, ledger: seq<CreatedNode>) returns (complete: bool)
    requires ProperReferences(space.nodes, space.refs)
    modifies space`nodes, space`refs, space`faults
    ensures ProperReferences(space.nodes, space.refs)
    ensures space.nodes <= old(space.nodes) && old(space.nodes) - space.nodes <= Created(ledger)
    ensures space.refs <= old(space.refs)
    ensures forall r :: r in old(space.refs) && r !in space.refs ==>
              r.source in Created(ledger) || r.target in Created(ledger)
    ensures complete ==> space.nodes == old(space.nodes) - Created(ledger)
    ensures space.faults == old(space.faults) && Created(ledger) <= old(space.nodes) ==>
              exists removed :: MayReach(ledger, 0, Start(old(space.nodes), Detached(old(space.refs), Created(ledger))),
                                         Progress(space.nodes, space.refs, removed, complete))
    ensures space.faults == old(space.faults) && OwnedBy(ledger, old(space.nodes))
            && Orderly(ledger, |ledger|, old(space.nodes), Detached(old(space.refs), Created(ledger)))
            ==> complete
    ensures space.faults == old(space.faults) && OwnedBy(ledger, old(space.nodes)) && Forward(old(space.refs), ledger)
            ==> complete
    ensures space.faults >= old(space.faults)
  {
    hide MayTurn, Orderly, Forward, Detached, Closed;
    complete := true;
    var created: set<ServerNodeId> := {};
    for i := 0 to |ledger|
      modifies {}
      invariant created == Created(ledger[..i])
    {
      TakeMore(ledger, i);
      created := created + {ledger[i].id};
    }
    TakeAll(ledger);
    var detached := DetachForeignReferences(space, created);
    if !detached {
      return false;
    }
    ghost var nodes0, refs0, faults0 := old(space.nodes), old(space.refs), old(space.faults);
    ghost var start := Start(nodes0, space.refs);
    StartIsOwned(space, created, nodes0, refs0);
    var removed: set<ServerNodeId> := {};
    var i := |ledger|;
    while i > 0
      invariant 0 <= i <= |ledger|
      invariant OnlyOwnedGone(space, created, nodes0, refs0)
      invariant complete ==> Created(ledger[i..]) !! space.nodes
      invariant space.faults >= faults0
      invariant space.faults == faults0 ==>
                  MayReach(ledger, i, start, Progress(space.nodes, space.refs, removed, complete))
    {
      i := i - 1;
      LedgerTail(ledger, i);
      ghost var s := Progress(space.nodes, space.refs, removed, complete);
      complete, removed := RollBackEntry(space, ledger[i], created, removed, complete, nodes0, refs0);
    }
    assert ledger[0..] == ledger;
    if space.faults == faults0 && OwnedBy(ledger, nodes0) {
      CompletesIfOrderly(ledger, nodes0, refs0, Progress(space.nodes, space.refs, removed, complete));
    }
  }

  lemma StartIsOwned(space: Space, created: set<ServerNodeId>, nodes0: set<ServerNodeId>, refs0: set<Reference>)
    requires space.nodes == nodes0 && space.refs <= refs0 && ProperReferences(nodes0, refs0) && Closed(space.refs, created)
    requires forall r :: r in refs0 && r !in space.refs ==> r.source in created && r.target !in created
    ensures OnlyOwnedGone(space, created, nodes0, refs0)
  {
  }

  lemma CompletesIfOrderly(ledger: seq<CreatedNode>, nodes: set<ServerNodeId>, refs: set<Reference>, t: Progress)
    requires OwnedBy(ledger, nodes) && ProperReferences(nodes, refs)
    requires MayReach(ledger, 0, Start(nodes, Detached(refs, Created(ledger))), t)
    ensures Orderly(ledger, |ledger|, nodes, Detached(refs, Created(ledger))) ==> t.complete
    ensures Forward(refs, ledger) ==> t.complete
  {
    hide MayReach, Orderly;
    var left := Detached(refs, Created(ledger));
    forall r | r in left && r.local && r.source in Created(ledger) ensures r.target in Created(ledger) {
      assert r.(local := true) == r;
    }
    assert Closed(left, Created(ledger));
    assert left <= refs;
    CompletesWhateverCascades(ledger, nodes, left);
    if Forward(refs, ledger) {
      forall j | 0 <= j < |ledger| ensures ledger[j].id in nodes { EntryIsCreated(ledger, j); }
      ForwardIsOrderly(ledger, |ledger|, nodes, left);
    }
  }

  lemma LedgerTail(ledger: seq<CreatedNode>, i: nat)
    requires i < |ledger|
    ensures Created(ledger[i..]) == Created(ledger[i + 1..]) + {ledger[i].id}
    ensures ledger[i].id in Created(ledger)
    ensures DistinctLedger(ledger) ==> ledger[i].id !in Created(ledger[i + 1..])
  {
    assert ledger[i..] == [ledger[i]] + ledger[i + 1..];
    assert ledger[i] in ledger;
  }
}
