/** Reachability over grant edges: the definition, the depth-first search of the memory adapter, the
    recursive query of the PostgreSQL adapter, and how one more edge changes it. */
module GrantGraph {
  import opened Policy

  datatype EdgeKey = EdgeKey(grantor: SubjectID, grantee: SubjectID, roleID: RoleID)

  // p is a chain of edges that leads from a to b.
  predicate IsPath(edges: set<EdgeKey>, p: seq<EdgeKey>, a: SubjectID, b: SubjectID) {
    if p == [] then a == b
    else p[0] in edges && p[0].grantor == a && IsPath(edges, p[1..], p[0].grantee, b)
  }

  ghost predicate Reach(edges: set<EdgeKey>, a: SubjectID, b: SubjectID) {
    exists p :: IsPath(edges, p, a, b)
  }

  // At least one edge long.
  ghost predicate ReachByEdge(edges: set<EdgeKey>, a: SubjectID, b: SubjectID) {
    exists e | e in edges :: Reach(edges, a, e.grantor) && e.grantee == b
  }

  // No cycle other than a self-loop: two different subjects never reach each other both ways.
  ghost predicate Acyclic(edges: set<EdgeKey>) {
    forall a, b | a != b && Reach(edges, a, b) :: !Reach(edges, b, a)
  }

  lemma ReachSelf(edges: set<EdgeKey>, a: SubjectID)
    ensures Reach(edges, a, a)
  {
    assert IsPath(edges, [], a, a);
  }

  lemma {:induction false} PathConcat(edges: set<EdgeKey>, p: seq<EdgeKey>, q: seq<EdgeKey>, a: SubjectID, b: SubjectID,
                                      c: SubjectID)
    requires IsPath(edges, p, a, b) && IsPath(edges, q, b, c)
    ensures IsPath(edges, p + q, a, c)
  {
    if p == [] {
      assert p + q == q;
    } else {
      PathConcat(edges, p[1..], q, p[0].grantee, b, c);
      assert (p + q)[1..] == p[1..] + q;
    }
  }

  lemma ReachTransitive(edges: set<EdgeKey>, a: SubjectID, b: SubjectID, c: SubjectID)
    requires Reach(edges, a, b) && Reach(edges, b, c)
    ensures Reach(edges, a, c)
  {
    var p :| IsPath(edges, p, a, b);
    var q :| IsPath(edges, q, b, c);
    PathConcat(edges, p, q, a, b, c);
  }

  lemma ReachEdge(edges: set<EdgeKey>, a: SubjectID, e: EdgeKey)
    requires Reach(edges, a, e.grantor) && e in edges
    ensures Reach(edges, a, e.grantee)
  {
    assert IsPath(edges, [e], e.grantor, e.grantee);
    ReachTransitive(edges, a, e.grantor, e.grantee);
  }

  lemma {:induction false} PathMonotone(small: set<EdgeKey>, large: set<EdgeKey>, p: seq<EdgeKey>, a: SubjectID,
                                        b: SubjectID)
    requires small <= large && IsPath(small, p, a, b)
    ensures IsPath(large, p, a, b)
  {
    if p != [] {
      PathMonotone(small, large, p[1..], p[0].grantee, b);
    }
  }

  lemma AcyclicSubset(small: set<EdgeKey>, large: set<EdgeKey>)
    requires small <= large && Acyclic(large)
    ensures Acyclic(small)
  {
    forall a, b | a != b && Reach(small, a, b) ensures !Reach(small, b, a) {
      var p :| IsPath(small, p, a, b);
      PathMonotone(small, large, p, a, b);
      assert Reach(large, a, b);
      if q :| IsPath(small, q, b, a) {
        PathMonotone(small, large, q, b, a);
        assert Reach(large, b, a);
      }
    }
  }

  lemma NoEdgesAcyclic()
    ensures Acyclic({})
  {
    forall a, b, p | a != b ensures !IsPath({}, p, a, b) {
    }
  }

  // A path in the extended graph either avoids the new edge or passes it.
  lemma {:induction false} PathThroughNewEdge(edges: set<EdgeKey>, e: EdgeKey, p: seq<EdgeKey>, a: SubjectID,
                                              b: SubjectID)
    requires IsPath(edges + {e}, p, a, b)
    ensures Reach(edges, a, b) || (Reach(edges, a, e.grantor) && Reach(edges, e.grantee, b))
  {
    if p == [] {
      ReachSelf(edges, a);
    } else {
      var first, mid := p[0], p[0].grantee;
      PathThroughNewEdge(edges, e, p[1..], mid, b);
      if first in edges {
        ReachSelf(edges, a);
        ReachEdge(edges, a, first);
        if Reach(edges, mid, b) {
          ReachTransitive(edges, a, mid, b);
        } else {
          ReachTransitive(edges, a, mid, e.grantor);
        }
      } else {
        ReachSelf(edges, a);
      }
    }
  }

  // The cycle check of AssignRole is exactly what keeps the graph acyclic.
  lemma NewEdgeKeepsAcyclic(edges: set<EdgeKey>, e: EdgeKey)
    requires Acyclic(edges)
    ensures Acyclic(edges + {e}) <==> e.grantor == e.grantee || !Reach(edges, e.grantee, e.grantor)
  {
    var all := edges + {e};
    if e.grantor != e.grantee && Reach(edges, e.grantee, e.grantor) {
      var p :| IsPath(edges, p, e.grantee, e.grantor);
      PathMonotone(edges, all, p, e.grantee, e.grantor);
      assert Reach(all, e.grantee, e.grantor);
      assert IsPath(all, [e], e.grantor, e.grantee);
      assert Reach(all, e.grantor, e.grantee);
    } else {
      forall a, b | a != b && Reach(all, a, b) ensures !Reach(all, b, a) {
        NoReturn(edges, e, a, b);
      }
    }
  }

  lemma NoReturn(edges: set<EdgeKey>, e: EdgeKey, a: SubjectID, b: SubjectID)
    requires Acyclic(edges) && a != b
    requires e.grantor == e.grantee || !Reach(edges, e.grantee, e.grantor)
    requires Reach(edges + {e}, a, b)
    ensures !Reach(edges + {e}, b, a)
  {
    if Reach(edges + {e}, b, a) {
      var p :| IsPath(edges + {e}, p, a, b);
      PathThroughNewEdge(edges, e, p, a, b);
      var q :| IsPath(edges + {e}, q, b, a);
      PathThroughNewEdge(edges, e, q, b, a);
      var g, s := e.grantor, e.grantee;
      // Whichever of the two ways uses the new edge, the old graph already led from s back to g.
      if Reach(edges, a, b) {
        ReachTransitive(edges, s, a, b);
        ReachTransitive(edges, s, b, g);
      } else if Reach(edges, b, a) {
        ReachTransitive(edges, s, b, a);
        ReachTransitive(edges, s, a, g);
      } else {
        ReachTransitive(edges, s, b, g);
      }
      assert Reach(edges, s, g);
      SelfLoopAddsNothing(edges, g, a, b);
      assert false;
    }
  }

  lemma SelfLoopAddsNothing(edges: set<EdgeKey>, g: SubjectID, a: SubjectID, b: SubjectID)
    ensures Reach(edges, a, g) && Reach(edges, g, b) ==> Reach(edges, a, b)
    ensures Reach(edges, b, g) && Reach(edges, g, a) ==> Reach(edges, b, a)
  {
    if Reach(edges, a, g) && Reach(edges, g, b) {
      ReachTransitive(edges, a, g, b);
    }
    if Reach(edges, b, g) && Reach(edges, g, a) {
      ReachTransitive(edges, b, g, a);
    }
  }

  // A set that contains a and is closed under edges contains everything a reaches.
  lemma {:induction false} ClosedContains(edges: set<EdgeKey>, closed: set<SubjectID>, p: seq<EdgeKey>, a: SubjectID,
                                          b: SubjectID)
    requires a in closed && forall e | e in edges && e.grantor in closed :: e.grantee in closed
    requires IsPath(edges, p, a, b)
    ensures b in closed
  {
    if p != [] {
      ClosedContains(edges, closed, p[1..], p[0].grantee, b);
    }
  }

  // memory/memory.go: depth-first search with a stack that may hold a subject several times.
  method HasGrantPath(edges: set<EdgeKey>, from: SubjectID, to: SubjectID) returns (found: bool)
    ensures found <==> Reach(edges, from, to)
  {
    var visited: set<SubjectID> := {};
    var stack := [from];
    ghost var nodes := {from} + set e | e in edges :: e.grantee;
    ReachSelf(edges, from);
    while |stack| > 0
      invariant from in visited || from in stack
      invariant forall s | s in stack :: s in nodes && Reach(edges, from, s)
      invariant visited <= nodes && to !in visited
      invariant forall e | e in edges && e.grantor in visited :: e.grantee in visited || e.grantee in stack
      decreases nodes - visited, |stack|
    {
      var current := stack[|stack| - 1];
      assert current in stack;
      ghost var before := stack;
      stack := stack[..|stack| - 1];
      assert before == stack + [current];
      if current in visited {
        continue;
      }
      ghost var seen := visited;
      visited := visited + {current};
      assert nodes - visited < nodes - seen by {
        assert current in nodes - seen && current !in nodes - visited;
      }
      if current == to {
        return true;
      }
      stack := PushGrantees(edges, stack, current);
      forall s | s in stack ensures s in nodes && Reach(edges, from, s) {
        if e :| e in edges && e.grantor == current && e.grantee == s {
          ReachEdge(edges, from, e);
        }
      }
    }
    if Reach(edges, from, to) {
      var p :| IsPath(edges, p, from, to);
      ClosedContains(edges, visited, p, from, to);
    }
    return false;
  }

  method PushGrantees(edges: set<EdgeKey>, stack: seq<SubjectID>, current: SubjectID) returns (next: seq<SubjectID>)
    ensures forall s :: s in next <==> s in stack || exists e | e in edges :: e.grantor == current && e.grantee == s
  {
    next := stack;
    var rest := edges;
    while rest != {}
      invariant rest <= edges
      invariant forall s ::
        s in next <==> s in stack || exists e | e in edges - rest :: e.grantor == current && e.grantee == s
      decreases rest
    {
      var key :| key in rest;
      ghost var done := edges - rest;
      rest := rest - {key};
      assert edges - rest == done + {key};
      if key.grantor == current {
        next := next + [key.grantee];
      }
    }
    assert edges - rest == edges;
  }

  // postgres/tx.go: WITH RECURSIVE path AS (... UNION ...), evaluated with its working table. A row is
  // (grantor, grantee).
  method HasGrantPathQuery(edges: set<EdgeKey>, from: SubjectID, to: SubjectID) returns (found: bool)
    ensures found <==> ReachByEdge(edges, from, to)
  {
    var all := set e | e in edges :: (e.grantor, e.grantee);
    var path := set row | row in all && row.0 == from;
    var working := path;
    ReachSelf(edges, from);
    while working != {}
      invariant working <= path <= all
      invariant forall row | row in all && row.0 == from :: row in path
      invariant forall row | row in path :: Reach(edges, from, row.0)
      invariant forall p, row | p in path - working && row in all && p.1 == row.0 :: row in path
      decreases all - path, working
    {
      var next := set row, p | p in working && row in all && p.1 == row.0 && row !in path :: row;
      forall row | row in next ensures Reach(edges, from, row.0) {
        var p :| p in working && p.1 == row.0;
        var e :| e in edges && (e.grantor, e.grantee) == p;
        ReachEdge(edges, from, e);
      }
      assert next != {} ==> all - (path + next) < all - path by {
        if next != {} {
          var row :| row in next;
          assert row in all - path && row !in all - (path + next);
        }
      }
      path, working := path + next, next;
    }
    found := exists row | row in path :: row.1 == to;
    forall e | e in edges ensures Reach(edges, from, e.grantor) <==> (e.grantor, e.grantee) in path {
      if Reach(edges, from, e.grantor) {
        var p :| IsPath(edges, p, from, e.grantor);
        ReachInTable(edges, path, p, from, from, e);
      }
    }
    if found {
      var row :| row in path && row.1 == to;
      var e :| e in edges && (e.grantor, e.grantee) == row;
    }
  }

  lemma {:induction false} ReachInTable(edges: set<EdgeKey>, path: set<(SubjectID, SubjectID)>, p: seq<EdgeKey>,
                                        from: SubjectID, a: SubjectID, e: EdgeKey)
    requires forall d | d in edges && d.grantor == from :: (d.grantor, d.grantee) in path
    requires forall row, d | row in path && d in edges && row.1 == d.grantor :: (d.grantor, d.grantee) in path
    requires a == from || exists row | row in path :: row.1 == a
    requires e in edges && IsPath(edges, p, a, e.grantor)
    ensures (e.grantor, e.grantee) in path
  {
    if p != [] {
      assert (p[0].grantor, p[0].grantee) in path;
      ReachInTable(edges, path, p[1..], from, p[0].grantee, e);
    }
  }

  // The two adapters give the same answer unless the two subjects are the same and lie on no cycle.
  lemma AdaptersAgree(edges: set<EdgeKey>, from: SubjectID, to: SubjectID)
    ensures Reach(edges, from, to) == ReachByEdge(edges, from, to)
       <==> from != to || ReachByEdge(edges, from, from)
  {
    if from == to {
      ReachSelf(edges, from);
    } else {
      if p :| IsPath(edges, p, from, to) {
        LastEdge(edges, p, from, to);
      }
      if e :| e in edges && Reach(edges, from, e.grantor) && e.grantee == to {
        ReachEdge(edges, from, e);
      }
    }
  }

  lemma {:induction false} LastEdge(edges: set<EdgeKey>, p: seq<EdgeKey>, a: SubjectID, b: SubjectID)
    requires IsPath(edges, p, a, b) && p != []
    ensures ReachByEdge(edges, a, b)
  {
    ReachSelf(edges, a);
    if |p| > 1 {
      LastEdge(edges, p[1..], p[0].grantee, b);
      var e :| e in edges && Reach(edges, p[0].grantee, e.grantor) && e.grantee == b;
      ReachEdge(edges, a, p[0]);
      ReachTransitive(edges, a, p[0].grantee, e.grantor);
    }
  }
}
