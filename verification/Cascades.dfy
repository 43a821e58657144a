/**
  The reverse walk of a rollback (src/object_model.cpp) as a relation over values: which
  results are possible when no request fails but every deletion may cascade at will. The walk
  is proved to complete, whatever the cascades, exactly for orderly ledgers.
 */
module Cascades {
  import opened AddressSpace

  datatype CreatedNode = CreatedNode(id: ServerNodeId, recursiveRoot: bool)

  ghost function Created(ledger: seq<CreatedNode>): set<ServerNodeId>
  {
    set c | c in ledger :: c.id
  }

  ghost predicate DistinctLedger(ledger: seq<CreatedNode>)
  {
    forall i, j :: 0 <= i < j < |ledger| ==> ledger[i].id != ledger[j].id
  }

  /** Between two turns: what exists, what was explicitly removed below a root, and whether all went well. */
  datatype Progress = Progress(nodes: set<ServerNodeId>, refs: set<Reference>, removed: set<ServerNodeId>, complete: bool)

  // ------------------------------------------------------------------ the walk

  /** Deleting `ids` can take n along. */
  ghost predicate TakenBy(refs: set<Reference>, ids: set<ServerNodeId>, n: ServerNodeId)
  {
    exists d :: d in ids && Reaches(refs, d, n)
  }

  /** A possible loss when all of `ids` are deleted. */
  ghost predicate MayLose(nodes: set<ServerNodeId>, refs: set<Reference>, ids: set<ServerNodeId>, gone: set<ServerNodeId>)
  {
    ids * nodes <= gone <= nodes && forall n :: n in gone ==> TakenBy(refs, ids, n)
  }

  /** The created nodes that the walk removes explicitly before this entry's own. */
  ghost function Below(created: set<ServerNodeId>, refs: set<Reference>, entry: CreatedNode): set<ServerNodeId>
  {
    if entry.recursiveRoot then Descendants(refs, entry.id) * created else {}
  }

  /** One turn, in which first `gone` and then `last` is lost. */
  ghost predicate TurnWith(created: set<ServerNodeId>, entry: CreatedNode, s: Progress, t: Progress,
                           gone: set<ServerNodeId>, last: set<ServerNodeId>)
  {
    var below := Below(created, s.refs, entry);
    && MayLose(s.nodes, s.refs, below, gone)
    && MayLose(s.nodes - gone, Cut(s.refs, gone), {entry.id} * (s.nodes - gone), last)
    && t.nodes == s.nodes - gone - last
    && t.refs == Cut(Cut(s.refs, gone), last)
    && t.removed == s.removed + below
    && t.complete == (&& s.complete
                      && (entry.recursiveRoot ==> entry.id in s.nodes)
                      && (entry.id in s.nodes - gone || entry.id in t.removed))
  }

  ghost predicate MayTurn(created: set<ServerNodeId>, entry: CreatedNode, s: Progress, t: Progress)
  {
    exists gone, last :: TurnWith(created, entry, s, t, gone, last)
  }

  /** From `start`, the walk may have come to t with the first i entries still to do. */
  ghost predicate MayReach(ledger: seq<CreatedNode>, i: nat, start: Progress, t: Progress)
    requires i <= |ledger|
    decreases |ledger| - i
  {
    if i == |ledger| then t == start
    else exists s :: MayReach(ledger, i + 1, start, s) && MayTurn(Created(ledger), ledger[i], s, t)
  }

  ghost function Start(nodes: set<ServerNodeId>, refs: set<Reference>): Progress
  {
    Progress(nodes, refs, {}, true)
  }

  // ----------------------------------------------------------- orderly ledgers

  /**
    Walking back over the first i entries, a node that is deleted alone has nothing left below
    it, and a recursive root is still there and on no cycle. Whatever else is below a root is
    removed with it.
   */
  ghost predicate Orderly(ledger: seq<CreatedNode>, i: nat, nodes: set<ServerNodeId>, refs: set<Reference>)
    requires i <= |ledger|
  {
    if i == 0 then true
    else
      var entry := ledger[i - 1];
      var below := Descendants(refs, entry.id);
      if entry.id !in nodes then !entry.recursiveRoot && Orderly(ledger, i - 1, nodes, refs)
      else
        && (if entry.recursiveRoot then forall d :: d in below ==> !Reaches(refs, d, entry.id) else below == {})
        && Orderly(ledger, i - 1, nodes - below - {entry.id}, Cut(Cut(refs, below), {entry.id}))
  }

  /** Every reference among the entries leads from an earlier to a later one. */
  ghost predicate Forward(refs: set<Reference>, ledger: seq<CreatedNode>)
  {
    forall r, i, j ::
      (r in refs && r.local && 0 <= i < |ledger| && 0 <= j < |ledger|
       && ledger[i].id == r.source && ledger[j].id == r.target) ==> i <= j
  }

  // -------------------------------------------------------- what every turn keeps

  /** No later entry is left, nothing left was removed, and the owned nodes are closed. */
  ghost predicate Sane(ledger: seq<CreatedNode>, i: nat, s: Progress)
    requires i <= |ledger|
  {
    && Closed(s.refs, Created(ledger)) && ProperReferences(s.nodes, s.refs)
    && s.removed !! s.nodes
    && forall j :: i <= j < |ledger| ==> ledger[j].id !in s.nodes
  }

  /** The entries still to do are there, unless they were explicitly removed. */
  ghost predicate AllAccounted(ledger: seq<CreatedNode>, i: nat, s: Progress)
    requires i <= |ledger|
  {
    forall j :: 0 <= j < i ==> ledger[j].id in s.nodes || ledger[j].id in s.removed
  }

  lemma EntryIsCreated(ledger: seq<CreatedNode>, i: nat)
    requires i < |ledger|
    ensures ledger[i].id in Created(ledger)
  {
    assert ledger[i] in ledger;
  }

  lemma TurnKeepsSane(ledger: seq<CreatedNode>, i: nat, s: Progress, t: Progress)
    requires 0 < i <= |ledger| && Sane(ledger, i, s) && MayTurn(Created(ledger), ledger[i - 1], s, t)
    ensures Sane(ledger, i - 1, t)
  {
    hide MayLose, Descendants;
    var gone, last :| TurnWith(Created(ledger), ledger[i - 1], s, t, gone, last);
    LossMeans(s.nodes, s.refs, Below(Created(ledger), s.refs, ledger[i - 1]), gone);
    LossMeans(s.nodes - gone, Cut(s.refs, gone), {ledger[i - 1].id} * (s.nodes - gone), last);
  }

  lemma LossMeans(nodes: set<ServerNodeId>, refs: set<Reference>, ids: set<ServerNodeId>, gone: set<ServerNodeId>)
    requires MayLose(nodes, refs, ids, gone)
    ensures ids * nodes <= gone <= nodes
  {
  }

  lemma NothingBelowAbsent(nodes: set<ServerNodeId>, refs: set<Reference>, id: ServerNodeId)
    requires ProperReferences(nodes, refs) && id !in nodes
    ensures Descendants(refs, id) == {}
  {
    assert Closed(refs, {id});
    ReachesStaysInClosed(refs, {id}, id);
  }

  lemma BelowIsOwned(nodes: set<ServerNodeId>, refs: set<Reference>, created: set<ServerNodeId>, id: ServerNodeId)
    requires ProperReferences(nodes, refs) && Closed(refs, created) && id in created
    ensures Descendants(refs, id) <= created && Descendants(refs, id) <= nodes
  {
    ReachesStaysInClosed(refs, created, id);
    if id in nodes {
      assert Closed(refs, nodes);
      ReachesStaysInClosed(refs, nodes, id);
    } else {
      NothingBelowAbsent(nodes, refs, id);
    }
  }

  // ------------------------------------------------------- orderly ledgers complete

  /** Without a cycle through the root, removing what is below it takes exactly that. */
  lemma LossBelowRoot(nodes: set<ServerNodeId>, refs: set<Reference>, id: ServerNodeId, gone: set<ServerNodeId>)
    requires MayLose(nodes, refs, Descendants(refs, id), gone) && Descendants(refs, id) <= nodes
    requires forall d :: d in Descendants(refs, id) ==> !Reaches(refs, d, id)
    ensures gone == Descendants(refs, id)
  {
    var below := Descendants(refs, id);
    forall n | n in gone ensures n in below {
      var d :| d in below && Reaches(refs, d, n);
      ReachesTransitive(refs, id, d, n);
      ReachedIsTarget(refs, id, n);
    }
  }

  /** Deleting a node with nothing below it takes it alone. */
  lemma LossOfLeaf(nodes: set<ServerNodeId>, refs: set<Reference>, id: ServerNodeId, last: set<ServerNodeId>)
    requires id in nodes && MayLose(nodes, refs, {id}, last) && Descendants(refs, id) == {}
    ensures last == {id}
  {
    forall n | n in last ensures n == id {
      var d :| d in {id} && Reaches(refs, d, n);
      ReachedIsTarget(refs, id, n);
    }
  }

  lemma NothingBelowAfterwards(refs: set<Reference>, id: ServerNodeId)
    ensures Descendants(Cut(refs, Descendants(refs, id)), id) == {}
  {
    var rest := Cut(refs, Descendants(refs, id));
    forall r | r in rest && Reaches(rest, id, r.target) ensures r.target == id {
      MoreReferencesReach(rest, refs, id, r.target);
      ReachedIsTarget(refs, id, r.target);
    }
  }

  lemma CutNothing(refs: set<Reference>)
    ensures Cut(refs, {}) == refs
  {
  }

  /** In an orderly ledger a turn has one possible result, and completes. */
  lemma OrderlyTurn(ledger: seq<CreatedNode>, i: nat, s: Progress, t: Progress)
    requires 0 < i <= |ledger| && DistinctLedger(ledger) && Sane(ledger, i, s) && AllAccounted(ledger, i, s)
    requires Orderly(ledger, i, s.nodes, s.refs) && s.complete && MayTurn(Created(ledger), ledger[i - 1], s, t)
    ensures t.complete && Orderly(ledger, i - 1, t.nodes, t.refs) && AllAccounted(ledger, i - 1, t)
  {
    var entry := ledger[i - 1];
    var id, created := entry.id, Created(ledger);
    var gone, last :| TurnWith(created, entry, s, t, gone, last);
    EntryIsCreated(ledger, i - 1);
    BelowIsOwned(s.nodes, s.refs, created, id);
    CutNothing(s.refs);
    hide Descendants, Orderly, TakenBy;
    if id !in s.nodes {
      AbsentTurn(created, entry, s, t);
      OrderlyMeans(ledger, i, s.nodes, s.refs);
    } else {
      OrderlyMeans(ledger, i, s.nodes, s.refs);
      PresentTurn(ledger, i, s, t, gone, last);
    }
  }

  lemma OrderlyMeans(ledger: seq<CreatedNode>, i: nat, nodes: set<ServerNodeId>, refs: set<Reference>)
    requires 0 < i <= |ledger| && Orderly(ledger, i, nodes, refs)
    ensures var entry := ledger[i - 1];
            var below := Descendants(refs, entry.id);
            if entry.id !in nodes then !entry.recursiveRoot && Orderly(ledger, i - 1, nodes, refs)
            else
              && (entry.recursiveRoot ==> forall d :: d in below ==> !Reaches(refs, d, entry.id))
              && (!entry.recursiveRoot ==> below == {})
              && Orderly(ledger, i - 1, nodes - below - {entry.id}, Cut(Cut(refs, below), {entry.id}))
  {
  }

  /** The turn of a node that is gone changes nothing. */
  lemma AbsentTurn(created: set<ServerNodeId>, entry: CreatedNode, s: Progress, t: Progress)
    requires ProperReferences(s.nodes, s.refs) && entry.id !in s.nodes && MayTurn(created, entry, s, t)
    ensures t == s.(complete := s.complete && !entry.recursiveRoot && entry.id in s.removed)
  {
    var gone, last :| TurnWith(created, entry, s, t, gone, last);
    NothingBelowAbsent(s.nodes, s.refs, entry.id);
    assert Below(created, s.refs, entry) == {};
    NothingTakesNothing(s.nodes, s.refs, gone);
    CutNothing(s.refs);
    assert {entry.id} * (s.nodes - gone) == {};
    NothingTakesNothing(s.nodes - gone, Cut(s.refs, gone), last);
  }

  lemma NothingTakesNothing(nodes: set<ServerNodeId>, refs: set<Reference>, gone: set<ServerNodeId>)
    requires MayLose(nodes, refs, {}, gone)
    ensures gone == {}
  {
    assert forall n :: !TakenBy(refs, {}, n);
  }

  lemma PresentTurn(ledger: seq<CreatedNode>, i: nat, s: Progress, t: Progress, gone: set<ServerNodeId>,
                    last: set<ServerNodeId>)
    requires 0 < i <= |ledger| && DistinctLedger(ledger) && AllAccounted(ledger, i, s) && s.complete
    requires TurnWith(Created(ledger), ledger[i - 1], s, t, gone, last) && ledger[i - 1].id in s.nodes
    requires var below := Descendants(s.refs, ledger[i - 1].id);
             && below <= Created(ledger) && below <= s.nodes
             && (if ledger[i - 1].recursiveRoot then forall d :: d in below ==> !Reaches(s.refs, d, ledger[i - 1].id)
                 else below == {})
    ensures var below := Descendants(s.refs, ledger[i - 1].id);
            && t.nodes == s.nodes - below - {ledger[i - 1].id}
            && t.refs == Cut(Cut(s.refs, below), {ledger[i - 1].id})
    ensures t.complete && AllAccounted(ledger, i - 1, t)
  {
    var entry := ledger[i - 1];
    var id := entry.id;
    var below := Descendants(s.refs, id);
    assert Below(Created(ledger), s.refs, entry) == below;
    assert id !in below;
    hide Descendants;
    LossBelowRoot(s.nodes, s.refs, id, gone);
    NothingBelowAfterwards(s.refs, id);
    assert {id} * (s.nodes - gone) == {id};
    LossOfLeaf(s.nodes - gone, Cut(s.refs, gone), id, last);
  }

  lemma {:induction false} OrderlyCompletes(ledger: seq<CreatedNode>, i: nat, start: Progress, t: Progress)
    requires i <= |ledger| && DistinctLedger(ledger) && Sane(ledger, |ledger|, start) && start.complete
    requires AllAccounted(ledger, |ledger|, start) && Orderly(ledger, |ledger|, start.nodes, start.refs)
    requires MayReach(ledger, i, start, t)
    ensures Sane(ledger, i, t) && AllAccounted(ledger, i, t) && Orderly(ledger, i, t.nodes, t.refs) && t.complete
    decreases |ledger| - i
  {
    hide Sane, AllAccounted, Orderly, MayTurn;
    if i < |ledger| {
      var s :| MayReach(ledger, i + 1, start, s) && MayTurn(Created(ledger), ledger[i], s, t);
      OrderlyCompletes(ledger, i + 1, start, s);
      TurnKeepsSane(ledger, i + 1, s, t);
      OrderlyTurn(ledger, i + 1, s, t);
    }
  }

  // ------------------------------------------------- others can be made to fail

  /** A turn without any cascade. */
  ghost function Calm(created: set<ServerNodeId>, entry: CreatedNode, s: Progress): Progress
  {
    var below := Below(created, s.refs, entry);
    var gone := below * s.nodes;
    var last := {entry.id} * (s.nodes - gone);
    Progress(s.nodes - gone - last, Cut(Cut(s.refs, gone), last), s.removed + below,
             && s.complete
             && (entry.recursiveRoot ==> entry.id in s.nodes)
             && (entry.id in s.nodes - gone || entry.id in s.removed + below))
  }

  lemma OwnLoss(nodes: set<ServerNodeId>, refs: set<Reference>, ids: set<ServerNodeId>)
    ensures MayLose(nodes, refs, ids, ids * nodes)
  {
    forall n | n in ids * nodes ensures TakenBy(refs, ids, n) {
      ReachesItself(refs, n);
    }
  }

  lemma CalmIsPossible(created: set<ServerNodeId>, entry: CreatedNode, s: Progress)
    ensures MayTurn(created, entry, s, Calm(created, entry, s))
  {
    hide MayLose;
    var below := Below(created, s.refs, entry);
    var gone := below * s.nodes;
    OwnLoss(s.nodes, s.refs, below);
    var last := {entry.id} * (s.nodes - gone);
    OwnLoss(s.nodes - gone, Cut(s.refs, gone), last);
    assert last * (s.nodes - gone) == last;
    assert TurnWith(created, entry, s, Calm(created, entry, s), gone, last);
  }

  /** From s, with the first i entries to do, some walk ends incomplete. */
  ghost predicate MayFail(ledger: seq<CreatedNode>, i: nat, s: Progress)
    requires i <= |ledger|
  {
    if i == 0 then !s.complete
    else
      var created, entry, rest := Created(ledger), ledger[i - 1], i - 1;
      exists t :: MayTurn(created, entry, s, t) && MayFail(ledger, rest, t)
  }

  lemma FailsAfterTurn(ledger: seq<CreatedNode>, i: nat, s: Progress, t: Progress)
    requires 0 < i <= |ledger| && MayTurn(Created(ledger), ledger[i - 1], s, t) && MayFail(ledger, i - 1, t)
    ensures MayFail(ledger, i, s)
  {
  }

  lemma {:induction false} FailureStays(ledger: seq<CreatedNode>, i: nat, s: Progress)
    requires i <= |ledger| && !s.complete
    ensures MayFail(ledger, i, s)
  {
    if i > 0 {
      var t := Calm(Created(ledger), ledger[i - 1], s);
      CalmIsPossible(Created(ledger), ledger[i - 1], s);
      FailureStays(ledger, i - 1, t);
    }
  }

  /** An entry that a cascade took unasked is missed when its turn comes. */
  lemma {:induction false} LostIsMissed(ledger: seq<CreatedNode>, i: nat, s: Progress, k: nat)
    requires k < i <= |ledger| && Sane(ledger, i, s)
    requires ledger[k].id !in s.nodes && ledger[k].id !in s.removed
    ensures MayFail(ledger, i, s)
  {
    var entry := ledger[i - 1];
    var t := Calm(Created(ledger), entry, s);
    CalmIsPossible(Created(ledger), entry, s);
    if k == i - 1 {
      AbsentTurn(Created(ledger), entry, s, t);
      FailureStays(ledger, i - 1, t);
    } else {
      TurnKeepsSane(ledger, i, s, t);
      EntryIsCreated(ledger, i - 1);
      BelowIsOwned(s.nodes, s.refs, Created(ledger), entry.id);
      LostIsMissed(ledger, i - 1, t, k);
    }
  }

  /** The cascade from below a root on a cycle takes the root itself. */
  lemma CycleMayFail(ledger: seq<CreatedNode>, i: nat, s: Progress, d: ServerNodeId)
    requires 0 < i <= |ledger| && Sane(ledger, i, s)
    requires ledger[i - 1].id in s.nodes && ledger[i - 1].recursiveRoot
    requires d in Descendants(s.refs, ledger[i - 1].id) && Reaches(s.refs, d, ledger[i - 1].id)
    ensures MayFail(ledger, i, s)
  {
    var entry := ledger[i - 1];
    var id, created := entry.id, Created(ledger);
    EntryIsCreated(ledger, i - 1);
    BelowIsOwned(s.nodes, s.refs, created, id);
    var below := Descendants(s.refs, id);
    assert Below(created, s.refs, entry) == below;
    assert id !in below;
    hide Descendants;
    var t := RootTaken(created, entry, s, d);
    FailureStays(ledger, i - 1, t);
    FailsAfterTurn(ledger, i, s, t);
  }

  lemma RootTaken(created: set<ServerNodeId>, entry: CreatedNode, s: Progress, d: ServerNodeId) returns (t: Progress)
    requires entry.id in s.nodes && Below(created, s.refs, entry) <= s.nodes && s.removed !! s.nodes
    requires d in Below(created, s.refs, entry) && Reaches(s.refs, d, entry.id)
    ensures MayTurn(created, entry, s, t) && !t.complete
  {
    var below, id := Below(created, s.refs, entry), entry.id;
    assert id !in below;
    hide Below;
    var gone := below + {id};
    forall n | n in gone ensures TakenBy(s.refs, below, n) {
      if n in below { ReachesItself(s.refs, n); }
    }
    assert {id} * (s.nodes - gone) == {};
    OwnLoss(s.nodes - gone, Cut(s.refs, gone), {});
    assert {} * (s.nodes - gone) == {};
    hide MayLose;
    t := Progress(s.nodes - gone - {}, Cut(Cut(s.refs, gone), {}), s.removed + below, false);
    assert TurnWith(created, entry, s, t, gone, {});
  }

  /** The cascade of a node that is deleted alone takes an earlier one, which is then missed. */
  lemma CascadeMayFail(ledger: seq<CreatedNode>, i: nat, s: Progress, v: ServerNodeId)
    requires 0 < i <= |ledger| && Sane(ledger, i, s)
    requires ledger[i - 1].id in s.nodes && !ledger[i - 1].recursiveRoot && v in Descendants(s.refs, ledger[i - 1].id)
    ensures MayFail(ledger, i, s)
  {
    var entry := ledger[i - 1];
    var id, created := entry.id, Created(ledger);
    EntryIsCreated(ledger, i - 1);
    BelowIsOwned(s.nodes, s.refs, created, id);
    assert v != id && Reaches(s.refs, id, v);
    hide Descendants;
    OwnLoss(s.nodes, s.refs, {});
    assert {} * s.nodes == {};
    CutNothing(s.refs);
    var last := {id, v};
    assert {id} * (s.nodes - {}) == {id};
    ReachesItself(s.refs, id);
    assert MayLose(s.nodes - {}, Cut(s.refs, {}), {id}, last) by {
      forall n | n in last ensures TakenBy(s.refs, {id}, n) { assert id in {id}; }
    }
    var t := Progress(s.nodes - {} - last, Cut(Cut(s.refs, {}), last), s.removed + {}, s.complete);
    assert TurnWith(created, entry, s, t, {}, last);
    TurnKeepsSane(ledger, i, s, t);
    var c :| c in ledger && c.id == v;
    var k :| 0 <= k < |ledger| && ledger[k] == c;
    LostIsMissed(ledger, i - 1, t, k);
    FailsAfterTurn(ledger, i, s, t);
  }

  lemma {:induction false} DisorderMayFail(ledger: seq<CreatedNode>, i: nat, s: Progress)
    requires i <= |ledger| && Sane(ledger, i, s) && !Orderly(ledger, i, s.nodes, s.refs)
    ensures MayFail(ledger, i, s)
  {
    var entry := ledger[i - 1];
    var below := Descendants(s.refs, entry.id);
    if entry.id !in s.nodes && entry.recursiveRoot {
      var t := Calm(Created(ledger), entry, s);
      CalmIsPossible(Created(ledger), entry, s);
      FailureStays(ledger, i - 1, t);
      FailsAfterTurn(ledger, i, s, t);
    } else if entry.id in s.nodes && entry.recursiveRoot && exists d :: d in below && Reaches(s.refs, d, entry.id) {
      var d :| d in below && Reaches(s.refs, d, entry.id);
      CycleMayFail(ledger, i, s, d);
    } else if entry.id in s.nodes && !entry.recursiveRoot && below != {} {
      var v :| v in below;
      CascadeMayFail(ledger, i, s, v);
    } else {
      var t := Calm(Created(ledger), entry, s);
      CalmIsPossible(Created(ledger), entry, s);
      TurnKeepsSane(ledger, i, s, t);
      CalmTurn(ledger, i, s);
      DisorderMayFail(ledger, i - 1, t);
    }
  }

  lemma CalmTurn(ledger: seq<CreatedNode>, i: nat, s: Progress)
    requires 0 < i <= |ledger| && Sane(ledger, i, s)
    requires ledger[i - 1].id in s.nodes && !ledger[i - 1].recursiveRoot ==> Descendants(s.refs, ledger[i - 1].id) == {}
    ensures var entry := ledger[i - 1];
            var t := Calm(Created(ledger), entry, s);
            var below := Descendants(s.refs, entry.id);
            if entry.id in s.nodes
            then t.nodes == s.nodes - below - {entry.id} && t.refs == Cut(Cut(s.refs, below), {entry.id})
            else t.nodes == s.nodes && t.refs == s.refs
  {
    var entry := ledger[i - 1];
    EntryIsCreated(ledger, i - 1);
    BelowIsOwned(s.nodes, s.refs, Created(ledger), entry.id);
    if entry.id in s.nodes {
      var below := Below(Created(ledger), s.refs, entry);
      assert below == Descendants(s.refs, entry.id) && below * s.nodes == below;
      assert entry.id !in below;
      assert {entry.id} * (s.nodes - below) == {entry.id};
    } else {
      CalmIsPossible(Created(ledger), entry, s);
      AbsentTurn(Created(ledger), entry, s, Calm(Created(ledger), entry, s));
    }
  }

  lemma {:induction false} FailureIsReached(ledger: seq<CreatedNode>, i: nat, start: Progress, s: Progress)
    returns (end: Progress)
    requires i <= |ledger| && MayReach(ledger, i, start, s) && MayFail(ledger, i, s)
    ensures MayReach(ledger, 0, start, end) && !end.complete
  {
    hide MayTurn;
    end := s;
    if i > 0 {
      var t :| MayTurn(Created(ledger), ledger[i - 1], s, t) && MayFail(ledger, i - 1, t);
      end := FailureIsReached(ledger, i - 1, start, t);
    }
  }

  // ------------------------------------------------------------------- theorems

  /** Over owned nodes without a way out: every walk completes, however deletions cascade, iff the ledger is orderly. */
  lemma CompletesWhateverCascades(ledger: seq<CreatedNode>, nodes: set<ServerNodeId>, refs: set<Reference>)
    requires DistinctLedger(ledger) && Created(ledger) <= nodes
    requires ProperReferences(nodes, refs) && Closed(refs, Created(ledger))
    ensures (forall t :: MayReach(ledger, 0, Start(nodes, refs), t) ==> t.complete) <==>
            Orderly(ledger, |ledger|, nodes, refs)
  {
    hide Orderly, MayReach;
    var start := Start(nodes, refs);
    var n := |ledger|;
    assert MayReach(ledger, n, start, start) by { AtStart(ledger, start); }
    forall j | 0 <= j < n ensures ledger[j].id in nodes { EntryIsCreated(ledger, j); }
    if Orderly(ledger, n, nodes, refs) {
      forall t | MayReach(ledger, 0, start, t) ensures t.complete {
        OrderlyCompletes(ledger, 0, start, t);
      }
    } else {
      DisorderMayFail(ledger, n, start);
      var end := FailureIsReached(ledger, n, start, start);
    }
  }

  /** A reference back to an earlier entry: deleting the later one may take the earlier one along. */
  lemma BackReferenceMayFail(a: ServerNodeId, b: ServerNodeId)
    requires a != b
    ensures var ledger := [CreatedNode(a, true), CreatedNode(b, false)];
            exists t :: MayReach(ledger, 0, Start({a, b}, {Reference(b, a, HasComponent, true)}), t) && !t.complete
  {
    var ledger := [CreatedNode(a, true), CreatedNode(b, false)];
    var refs := {Reference(b, a, HasComponent, true)};
    assert ledger[0] in ledger && ledger[1] in ledger;
    assert Created(ledger) == {a, b};
    ReachesItself(refs, b);
    ReachesFurther(refs, b, Reference(b, a, HasComponent, true));
    assert a in Descendants(refs, b);
    assert !Orderly(ledger, 2, {a, b}, refs);
    CompletesWhateverCascades(ledger, {a, b}, refs);
  }

  lemma AtStart(ledger: seq<CreatedNode>, start: Progress)
    ensures MayReach(ledger, |ledger|, start, start)
  {
  }

  /** References in the order of creation make an orderly ledger. */
  lemma {:induction false} ForwardIsOrderly(ledger: seq<CreatedNode>, i: nat, nodes: set<ServerNodeId>, refs: set<Reference>)
    requires i <= |ledger| && Forward(refs, ledger) && Closed(refs, Created(ledger)) && ProperReferences(nodes, refs)
    requires DistinctLedger(ledger) && forall j :: 0 <= j < |ledger| ==> (ledger[j].id in nodes <==> j < i)
    ensures Orderly(ledger, i, nodes, refs)
  {
    if i > 0 {
      var id := ledger[i - 1].id;
      EntryIsCreated(ledger, i - 1);
      forall r | r in refs && r.local && r.source == id ensures r.target == id {
        var c :| c in ledger && c.id == r.target;
        var k :| 0 <= k < |ledger| && ledger[k] == c;
      }
      assert Closed(refs, {id});
      ReachesStaysInClosed(refs, {id}, id);
      assert Descendants(refs, id) == {};
      ForwardIsOrderly(ledger, i - 1, nodes - {} - {id}, Cut(Cut(refs, {}), {id}));
    }
  }
}
