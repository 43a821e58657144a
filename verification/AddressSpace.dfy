/**
  The server's address space as a finite graph of nodes and hierarchical references, with
  services that may fail at any call and a deleteNode that may cascade to anything reachable.
  `faults` counts every request that fails and everything others do to a new node, so that
  contracts can say what happens when the environment behaves; a cascade is not a fault.
  `links` counts the references that others add to new nodes.
 */
module AddressSpace {
  import opened Wrappers
  import opened Ordering

  /** A printed path, or an id that the server assigns to a method's argument node. */
  datatype ServerNodeId = PathId(path: Bytes) | AssignedId(number: nat)

  datatype ReferenceKind = HasComponent | HasProperty | Organizes

  /** A hierarchical reference; one that leaves the server is not local. */
  datatype Reference = Reference(source: ServerNodeId, target: ServerNodeId, kind: ReferenceKind, local: bool)

  datatype Status = Good | BadNodeIdUnknown | BadNodeIdExists | BadParentNodeIdInvalid | BadOther

  // ------------------------------------------------------------- reachability

  ghost predicate Edge(refs: set<Reference>, a: ServerNodeId, b: ServerNodeId)
  {
    exists r :: r in refs && r.local && r.source == a && r.target == b
  }

  ghost predicate IsPath(refs: set<Reference>, path: seq<ServerNodeId>)
  {
    path != [] && forall i :: 0 <= i < |path| - 1 ==> Edge(refs, path[i], path[i + 1])
  }

  ghost predicate Reaches(refs: set<Reference>, a: ServerNodeId, b: ServerNodeId)
  {
    exists path :: IsPath(refs, path) && path[0] == a && path[|path| - 1] == b
  }

  /** Everything below a node: reachable over local references, the node itself excluded. */
  ghost function Descendants(refs: set<Reference>, root: ServerNodeId): set<ServerNodeId>
  {
    (set r | r in refs && Reaches(refs, root, r.target) :: r.target) - {root}
  }

  /** The references that are left when the nodes `gone` are deleted. */
  function Cut(refs: set<Reference>, gone: set<ServerNodeId>): set<Reference>
  {
    set r | r in refs && r.source !in gone && r.target !in gone
  }

  ghost predicate Closed(refs: set<Reference>, s: set<ServerNodeId>)
  {
    forall r :: r in refs && r.local && r.source in s ==> r.target in s
  }

  lemma {:induction false} PathStaysInClosed(refs: set<Reference>, s: set<ServerNodeId>, path: seq<ServerNodeId>)
    requires Closed(refs, s) && IsPath(refs, path) && path[0] in s
    ensures path[|path| - 1] in s
    decreases |path|
  {
    if |path| > 1 {
      assert Edge(refs, path[0], path[1]);
      forall i | 0 <= i < |path[1..]| - 1 ensures Edge(refs, path[1..][i], path[1..][i + 1]) {
        assert Edge(refs, path[i + 1], path[i + 2]);
      }
      PathStaysInClosed(refs, s, path[1..]);
    }
  }

  lemma ReachesStaysInClosed(refs: set<Reference>, s: set<ServerNodeId>, root: ServerNodeId)
    requires Closed(refs, s) && root in s
    ensures Descendants(refs, root) <= s
  {
    forall r | r in refs && Reaches(refs, root, r.target) ensures r.target in s {
      var path :| IsPath(refs, path) && path[0] == root && path[|path| - 1] == r.target;
      PathStaysInClosed(refs, s, path);
    }
  }

  lemma MoreReferencesReach(refs: set<Reference>, more: set<Reference>, a: ServerNodeId, b: ServerNodeId)
    requires refs <= more && Reaches(refs, a, b)
    ensures Reaches(more, a, b)
  {
    var path :| IsPath(refs, path) && path[0] == a && path[|path| - 1] == b;
    forall i | 0 <= i < |path| - 1 ensures Edge(more, path[i], path[i + 1]) {
      assert Edge(refs, path[i], path[i + 1]);
    }
    assert IsPath(more, path);
  }

  lemma ReachesTransitive(refs: set<Reference>, a: ServerNodeId, b: ServerNodeId, c: ServerNodeId)
    requires Reaches(refs, a, b) && Reaches(refs, b, c)
    ensures Reaches(refs, a, c)
  {
    var p :| IsPath(refs, p) && p[0] == a && p[|p| - 1] == b;
    var q :| IsPath(refs, q) && q[0] == b && q[|q| - 1] == c;
    var path := p + q[1..];
    forall i | 0 <= i < |path| - 1 ensures Edge(refs, path[i], path[i + 1]) {
      if i < |p| - 1 {
        assert Edge(refs, p[i], p[i + 1]);
      } else {
        assert Edge(refs, q[i - |p| + 1], q[i - |p| + 2]);
      }
    }
    assert IsPath(refs, path);
  }

  /** Whatever is reached, other than the start, is the target of a local reference. */
  lemma ReachedIsTarget(refs: set<Reference>, a: ServerNodeId, b: ServerNodeId)
    requires Reaches(refs, a, b)
    ensures b == a || b in Descendants(refs, a)
  {
    var path :| IsPath(refs, path) && path[0] == a && path[|path| - 1] == b;
    if b != a {
      assert Edge(refs, path[|path| - 2], path[|path| - 1]);
    }
  }

  lemma ReachesItself(refs: set<Reference>, a: ServerNodeId)
    ensures Reaches(refs, a, a)
  {
    assert IsPath(refs, [a]);
  }

  lemma ReachesFurther(refs: set<Reference>, a: ServerNodeId, r: Reference)
    requires Reaches(refs, a, r.source) && r in refs && r.local
    ensures Reaches(refs, a, r.target)
  {
    var path :| IsPath(refs, path) && path[0] == a && path[|path| - 1] == r.source;
    var longer := path + [r.target];
    forall i | 0 <= i < |longer| - 1 ensures Edge(refs, longer[i], longer[i + 1]) {
      if i < |path| - 1 { assert Edge(refs, path[i], path[i + 1]); }
    }
    assert IsPath(refs, longer);
  }

  // ----------------------------------------------------------------- services

  datatype ArgumentKind = InputArguments | OutputArguments

  /** A property reference to one of the argument nodes that the server gives to methods. */
  predicate IsArgument(arguments: map<ServerNodeId, ArgumentKind>, r: Reference)
  {
    r.kind == HasProperty && r.local && r.target in arguments
  }

  ghost function ArgumentsOf(refs: set<Reference>, arguments: map<ServerNodeId, ArgumentKind>, id: ServerNodeId): set<ServerNodeId>
  {
    set r | r in refs && r.source == id && IsArgument(arguments, r) :: r.target
  }

  /** One argument node of each kind that is due, and no other. */
  predicate ArgumentsComplete(arguments: map<ServerNodeId, ArgumentKind>, ids: set<ServerNodeId>, inputs: bool, outputs: bool)
  {
    && (forall a :: a in ids ==> a in arguments && match arguments[a] case InputArguments => inputs case OutputArguments => outputs)
    && (forall a, b :: a in ids && b in ids && a in arguments && b in arguments && arguments[a] == arguments[b] ==> a == b)
    && (inputs ==> exists a :: a in ids && a in arguments && arguments[a] == InputArguments)
    && (outputs ==> exists a :: a in ids && a in arguments && arguments[a] == OutputArguments)
  }

  /** References join nodes that exist. */
  ghost predicate ProperReferences(nodes: set<ServerNodeId>, refs: set<Reference>)
  {
    forall r :: r in refs ==> r.source in nodes && (r.local ==> r.target in nodes)
  }

  class Space {
    var nodes: set<ServerNodeId>
    var refs: set<Reference>
    /** The argument nodes of methods, recognised by their browse names. */
    var arguments: map<ServerNodeId, ArgumentKind>
    ghost var faults: nat
    ghost var links: nat

    constructor (nodes: set<ServerNodeId>)
      ensures this.nodes == nodes && refs == {} && arguments == map[] && faults == 0 && links == 0
    {
      this.nodes, refs, arguments, faults, links := nodes, {}, map[], 0, 0;
    }

    /**
      Adds a node below a parent. While it is being created, others may link it to nodes of
      their own, though not to arguments of methods.
     */
    method AddNode(id: ServerNodeId, parent: ServerNodeId, kind: ReferenceKind) returns (status: Status)
      requires ProperReferences(nodes, refs)
      modifies this
      ensures ProperReferences(nodes, refs)
      ensures status != BadNodeIdUnknown
      ensures status == BadNodeIdExists <==> id in old(nodes)
      ensures status == BadParentNodeIdInvalid ==> parent !in old(nodes)
      ensures status == Good ==>
                && parent in old(nodes) && nodes == old(nodes) + {id}
                && old(refs) <= refs && Reference(parent, id, kind, true) in refs
                && arguments == old(arguments) - {id}
      ensures status != Good ==> nodes == old(nodes) && refs == old(refs) && arguments == old(arguments)
      ensures forall r :: r in refs && r !in old(refs) ==>
                r == Reference(parent, id, kind, true) || (r.source == id && !IsArgument(arguments, r))
      ensures faults >= old(faults) && (status == BadOther ==> faults > old(faults))
      ensures faults == old(faults) ==> links == old(links)
      ensures links >= old(links)
      ensures links == old(links) && status == Good ==> refs == old(refs) + {Reference(parent, id, kind, true)}
    {
      if id in nodes {
        return BadNodeIdExists;
      }
      if parent !in nodes {
        return BadParentNodeIdInvalid;
      }
      var fails: bool := *;
      if fails {
        faults := faults + 1;
        return BadOther;
      }
      nodes := nodes + {id};
      arguments := arguments - {id};
      var link := Reference(parent, id, kind, true);
      refs := refs + {link};
      var steps: int := *;
      while steps > 0
        modifies this`refs, this`faults, this`links
        invariant ProperReferences(nodes, refs) && old(refs) + {link} <= refs
        invariant forall r :: r in refs && r !in old(refs) ==> r == link || (r.source == id && !IsArgument(arguments, r))
        invariant faults >= old(faults) && (faults == old(faults) ==> links == old(links))
        invariant links >= old(links) && (links == old(links) ==> refs == old(refs) + {link})
      {
        var r: Reference := *;
        if r.source == id && (r.local ==> r.target in nodes) && !IsArgument(arguments, r) {
          refs := refs + {r};
          faults, links := faults + 1, links + 1;
        }
        steps := steps - 1;
      }
      return Good;
    }

    /** Anything else in the environment that can go wrong. */
    method Attempt() returns (ok: bool)
      modifies this`faults
      ensures ok <==> faults == old(faults)
      ensures faults >= old(faults)
    {
      ok := *;
      if !ok {
        faults := faults + 1;
      }
    }

    /** Gives a new method its argument nodes; a faulty server may give it others than it should. */
    method AddArguments(id: ServerNodeId, inputs: bool, outputs: bool) returns (ghost added: set<ServerNodeId>)
      requires ProperReferences(nodes, refs) && id in nodes
      requires forall r :: r in refs && r.source == id ==> !IsArgument(arguments, r)
      modifies this
      ensures ProperReferences(nodes, refs)
      ensures faults >= old(faults)
      ensures faults == old(faults) ==>
                ArgumentsComplete(arguments, added, inputs, outputs) && forall n :: n in added ==> n.AssignedId?
      ensures added !! old(nodes) && nodes == old(nodes) + added
      ensures refs == old(refs) + set n | n in added :: Reference(id, n, HasProperty, true)
      ensures arguments.Keys == old(arguments).Keys + added
      ensures forall n :: n in old(arguments) && n !in added ==> arguments[n] == old(arguments)[n]
      ensures ArgumentsOf(refs, arguments, id) == added
      ensures links == old(links)
    {
      added := {};
      ghost var nodes0, refs0, arguments0 := nodes, refs, arguments;
      var steps: int := *;
      var given: set<ServerNodeId> := {};
      while steps > 0
        invariant given == added && faults == old(faults) && links == old(links)
        invariant added !! nodes0 && nodes == nodes0 + added
        invariant refs == refs0 + set n | n in added :: Reference(id, n, HasProperty, true)
        invariant arguments.Keys == arguments0.Keys + added
        invariant forall n :: n in arguments0 && n !in added ==> arguments[n] == arguments0[n]
        invariant forall r :: r in refs0 && r.source == id && r.kind == HasProperty && r.local ==> r.target !in arguments
      {
        var n: ServerNodeId := *;
        var kind: ArgumentKind := *;
        if n !in nodes && Reference(id, n, HasProperty, true) !in refs {
          nodes := nodes + {n};
          refs := refs + {Reference(id, n, HasProperty, true)};
          arguments := arguments[n := kind];
          added := added + {n};
          given := given + {n};
        }
        steps := steps - 1;
      }
      if !ArgumentsComplete(arguments, given, inputs, outputs) || exists n :: n in given && n.PathId? {
        faults := faults + 1;
      }
      assert forall n :: n in added ==> IsArgument(arguments, Reference(id, n, HasProperty, true));
    }

    /** Forward hierarchical browse; a node that does not exist cannot be browsed. */
    method Browse(id: ServerNodeId) returns (found: Option<seq<Reference>>)
      modifies this`faults
      ensures found.Some? ==> Elements(found.value) == set r | r in refs && r.source == id
      ensures found.Some? ==> NoDuplicates(found.value)
      ensures found.Some? ==> faults == old(faults) && id in nodes
      ensures found.None? ==> faults > old(faults) || id !in nodes
      ensures faults >= old(faults)
    {
      if id !in nodes {
        return None;
      }
      var fails: bool := *;
      if fails {
        faults := faults + 1;
        return None;
      }
      var rest := set r | r in refs && r.source == id;
      var list: seq<Reference> := [];
      while rest != {}
        modifies {}
        invariant Elements(list) + rest == set r | r in refs && r.source == id
        invariant NoDuplicates(list) && Elements(list) !! rest
        decreases rest
      {
        var r :| r in rest;
        rest := rest - {r};
        NoDuplicatesGrow(list, r);
        list := list + [r];
      }
      return Some(list);
    }

    method DeleteReference(source: ServerNodeId, target: ServerNodeId, kind: ReferenceKind) returns (status: Status)
      modifies this`refs, this`faults
      ensures status == Good || status == BadOther
      ensures status == Good ==>
                refs == (set r | r in old(refs) && !(r.source == source && r.target == target && r.kind == kind))
                && faults == old(faults)
      ensures status != Good ==> refs == old(refs) && faults > old(faults)
    {
      var fails: bool := *;
      if fails {
        faults := faults + 1;
        return BadOther;
      }
      refs := set r | r in refs && !(r.source == source && r.target == target && r.kind == kind);
      return Good;
    }

    /** Deletes a node and, if it likes, anything reachable from it. */
    method DeleteNode(id: ServerNodeId) returns (status: Status)
      modifies this`nodes, this`refs, this`faults
      ensures ProperReferences(old(nodes), old(refs)) ==> ProperReferences(nodes, refs)
      ensures status == Good || status == BadNodeIdUnknown || status == BadOther
      ensures status == BadNodeIdUnknown ==> id !in old(nodes)
      ensures status == Good ==> id in old(nodes) && id !in nodes
      ensures status != Good ==> nodes == old(nodes) && refs == old(refs)
      ensures nodes <= old(nodes) && refs <= old(refs)
      ensures old(nodes) - nodes <= {id} + Descendants(old(refs), id)
      ensures ProperReferences(old(nodes), old(refs)) ==> refs == Cut(old(refs), old(nodes) - nodes)
      ensures forall r :: r in old(refs) && r !in refs ==>
                r.source in {id} + Descendants(old(refs), id) || r.target in {id} + Descendants(old(refs), id)
      ensures faults >= old(faults)
      ensures faults == old(faults) ==> status != BadOther
    {
      if id !in nodes {
        return BadNodeIdUnknown;
      }
      var fails: bool := *;
      if fails {
        faults := faults + 1;
        return BadOther;
      }
      var gone := {id};
      var steps: int := *;
      ReachesItself(refs, id);
      while steps > 0
        modifies {}
        invariant id in gone
        invariant forall n :: n in gone ==> Reaches(refs, id, n)
        invariant gone <= {id} + Descendants(refs, id)
        invariant ProperReferences(nodes, refs) ==> gone <= nodes
      {
        var r: Reference := *;
        if r in refs && r.local && r.source in gone {
          ReachesFurther(refs, id, r);
          gone := gone + {r.target};
        }
        steps := steps - 1;
      }
      nodes := nodes - gone;
      refs := Cut(refs, gone);
      return Good;
    }
  }
}
