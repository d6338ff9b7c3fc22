/** The dependency graph of queued operations and its depth-first cycle check. */
module PrivateOperationDependencyGraph {
  import opened Wrappers
  import opened PrivateControlOperation

  /** Each operation id with the ids it depends on; ids outside the keys are not followed. */
  type Edges = map<string, set<string>>

  /** A numbering of the operations in which every dependency comes first. */
  ghost predicate TopologicalRank(edges: Edges, rank: map<string, nat>) {
    && rank.Keys == edges.Keys
    && forall id, dependency ::
         id in edges && dependency in edges[id] && dependency in edges
         ==> rank[dependency] < rank[id]
  }

  ghost predicate HasTopologicalOrder(edges: Edges) {
    exists rank :: TopologicalRank(edges, rank)
  }

  /** A walk along dependencies that stays among the operations. */
  ghost predicate Walk(edges: Edges, path: seq<string>) {
    && (forall id :: id in path ==> id in edges)
    && forall i :: 0 <= i < |path| - 1 ==> path[i + 1] in edges[path[i]]
  }

  ghost predicate Cyclic(edges: Edges) {
    exists path :: Walk(edges, path) && |path| > 1 && path[0] == path[|path| - 1]
  }

  lemma {:induction false} WalkDescends(edges: Edges, rank: map<string, nat>, path: seq<string>)
    requires TopologicalRank(edges, rank) && Walk(edges, path) && |path| > 1
    ensures rank[path[|path| - 1]] < rank[path[0]]
  {
    assert path[1] in edges[path[0]];
    assert path[0] in path && path[1] in path;
    if |path| > 2 {
      var rest := path[1..];
      forall i | 0 <= i < |rest| - 1 ensures rest[i + 1] in edges[rest[i]] {
        assert path[i + 2] in edges[path[i + 1]];
      }
      WalkDescends(edges, rank, rest);
    }
  }

  lemma CyclesHaveNoOrder(edges: Edges)
    requires Cyclic(edges)
    ensures !HasTopologicalOrder(edges)
  {
    var path :| Walk(edges, path) && |path| > 1 && path[0] == path[|path| - 1];
    forall rank ensures !TopologicalRank(edges, rank) {
      if TopologicalRank(edges, rank) {
        WalkDescends(edges, rank, path);
      }
    }
  }

  /** The edges the constructor stores for operations with distinct ids. */
  function EdgesOf(operations: seq<Operation>): Edges {
    if operations == [] then map[] else
      var last := operations[|operations| - 1];
      EdgesOf(operations[..|operations| - 1])[last.id := last.Dependencies()]
  }

  /** The edges hold each operation's dependencies under its id, and nothing else. */
  ghost predicate HoldsEach(edges: Edges, operations: seq<Operation>) {
    && edges.Keys == Ids(operations)
    && forall operation :: operation in operations ==>
         operation.id in edges && edges[operation.id] == operation.Dependencies()
  }

  lemma {:induction false} EdgesOfOperations(operations: seq<Operation>)
    requires UniqueIds(operations)
    ensures HoldsEach(EdgesOf(operations), operations)
  {
    if operations != [] {
      var front, last := operations[..|operations| - 1], operations[|operations| - 1];
      assert operations == front + [last];
      EdgesOfOperations(front);
      EdgesOfSnoc(front, last);
      HoldsOneMore(EdgesOf(front), front, last);
    }
  }

  lemma HoldsOneMore(edges: Edges, front: seq<Operation>, last: Operation)
    requires HoldsEach(edges, front) && UniqueIds(front + [last])
    ensures HoldsEach(edges[last.id := last.Dependencies()], front + [last])
  {
    IdsOfSnoc(front, last);
    forall operation | operation in front ensures operation.id != last.id {
      var i :| 0 <= i < |front| && front[i] == operation;
      assert (front + [last])[i].id != (front + [last])[|front|].id;
    }
  }

  lemma EdgesOfSnoc(front: seq<Operation>, last: Operation)
    ensures EdgesOf(front + [last]) == EdgesOf(front)[last.id := last.Dependencies()]
  {
    assert (front + [last])[..|front|] == front;
  }

  lemma IdsOfSnoc(front: seq<Operation>, last: Operation)
    ensures Ids(front + [last]) == Ids(front) + {last.id}
  {
    assert forall operation :: operation in front + [last] <==> operation in front || operation == last;
  }

  /** What `assertAcyclic` accepts, said of the operations themselves. */
  ghost predicate AcyclicQueue(operations: seq<Operation>) {
    UniqueIds(operations) && HasTopologicalOrder(EdgesOf(operations))
  }

  /** Dropping operations cannot create a cycle. */
  lemma AcyclicSubqueue(operations: seq<Operation>, kept: seq<Operation>)
    requires AcyclicQueue(operations) && UniqueIds(kept)
    requires forall operation :: operation in kept ==> operation in operations
    ensures AcyclicQueue(kept)
  {
    var edges, sub := EdgesOf(operations), EdgesOf(kept);
    FewerEdges(operations, kept);
    var rank :| TopologicalRank(edges, rank);
    var restricted := map id | id in sub :: rank[id];
    assert TopologicalRank(sub, restricted);
  }

  lemma FewerEdges(operations: seq<Operation>, kept: seq<Operation>)
    requires UniqueIds(operations) && UniqueIds(kept)
    requires forall operation :: operation in kept ==> operation in operations
    ensures forall id :: id in EdgesOf(kept) ==>
              id in EdgesOf(operations) && EdgesOf(kept)[id] == EdgesOf(operations)[id]
  {
    EdgesOfOperations(operations);
    EdgesOfOperations(kept);
    forall id | id in EdgesOf(kept) ensures id in EdgesOf(operations) && EdgesOf(kept)[id] == EdgesOf(operations)[id] {
      var operation :| operation in kept && operation.id == id;
    }
  }

  /** `visited` is closed under dependencies and numbered dependencies first. */
  ghost predicate Ranked(edges: Edges, visited: set<string>, rank: map<string, nat>) {
    && visited == rank.Keys <= edges.Keys
    && (forall id :: id in rank ==> rank[id] < |rank.Keys|)
    && forall id, dependency ::
         id in visited && dependency in edges[id] && dependency in edges
         ==> dependency in visited && rank[dependency] < rank[id]
  }

  lemma RankNext(edges: Edges, visited: set<string>, rank: map<string, nat>, id: string)
    requires Ranked(edges, visited, rank) && id in edges && id !in visited
    requires forall dependency :: dependency in edges[id] && dependency in edges ==> dependency in visited
    ensures Ranked(edges, visited + {id}, rank[id := |rank.Keys|])
  {
    var next := rank[id := |rank.Keys|];
    assert next.Keys == rank.Keys + {id};
  }

  lemma WalkOn(edges: Edges, path: seq<string>, id: string)
    requires Walk(edges, path) && id in edges
    requires path != [] ==> id in edges[path[|path| - 1]]
    ensures Walk(edges, path + [id])
  {
  }

  lemma WalkBackIsCycle(edges: Edges, stack: seq<string>, id: string)
    requires Walk(edges, stack + [id]) && id in stack
    ensures Cyclic(edges)
  {
    var i :| 0 <= i < |stack| && stack[i] == id;
    var path := stack + [id];
    var cycle := path[i..];
    forall k | 0 <= k < |cycle| - 1 ensures cycle[k + 1] in edges[cycle[k]] {
      assert path[i + k + 1] in edges[path[i + k]];
    }
    assert Walk(edges, cycle);
  }

  /** One turn of the constructor's loop. */
  lemma EdgesOfNext(front: seq<Operation>, operation: Operation)
    requires UniqueIds(front)
    ensures EdgesOf(front + [operation]) == EdgesOf(front)[operation.id := operation.Dependencies()]
    ensures operation.id in EdgesOf(front) <==> exists j :: 0 <= j < |front| && front[j].id == operation.id
  {
    EdgesOfSnoc(front, operation);
    EdgesOfOperations(front);
    IdsByIndex(front, operation.id);
  }

  lemma IdsByIndex(operations: seq<Operation>, id: string)
    ensures id in Ids(operations) <==> exists j :: 0 <= j < |operations| && operations[j].id == id
  {
    if j :| 0 <= j < |operations| && operations[j].id == id {
      assert operations[j] in operations;
    }
  }

  class DependencyGraph {
    var dependencies: Edges

    constructor ()
      ensures dependencies == map[]
    {
      dependencies := map[];
    }

    /** Fills the map; refuses operations that share an id. */
    static method Of(operations: seq<Operation>) returns (result: Result<DependencyGraph, string>)
      ensures result.Success? <==> UniqueIds(operations)
      ensures result.Success? ==>
                fresh(result.value) && result.value.dependencies == EdgesOf(operations)
    {
      var graph := new DependencyGraph();
      for i := 0 to |operations|
        invariant fresh(graph)
        invariant UniqueIds(operations[..i])
        invariant graph.dependencies == EdgesOf(operations[..i])
      {
        var operation := operations[i];
        EdgesOfNext(operations[..i], operation);
        assert operations[..i + 1] == operations[..i] + [operation];
        if operation.id in graph.dependencies {
          assert operations[i].id == operation.id;
          return Failure("InvalidPrivateAuthorizationError");
        }
        graph.dependencies := graph.dependencies[operation.id := operation.Dependencies()];
      }
      assert operations[..|operations|] == operations;
      return Success(graph);
    }

    /** One depth-first visit. `stack` is the walk to `operationId`, whose members are exactly
        `visiting`; `rank` numbers the visited ids, dependencies first. */
    method Visit(operationId: string, visiting: set<string>, visited: set<string>,
                 ghost stack: seq<string>, ghost rank: map<string, nat>)
      returns (ok: bool, visitedAfter: set<string>, ghost rankAfter: map<string, nat>)
      requires operationId in dependencies && visiting <= dependencies.Keys
      requires Walk(dependencies, stack + [operationId])
      requires forall id :: id in visiting <==> id in stack
      requires Ranked(dependencies, visited, rank)
      ensures ok ==> operationId in visitedAfter && visited <= visitedAfter
      ensures ok ==> Ranked(dependencies, visitedAfter, rankAfter)
      ensures !ok ==> Cyclic(dependencies)
      decreases dependencies.Keys - visiting
    {
      visitedAfter, rankAfter := visited, rank;
      if operationId in visited {
        return true, visited, rank;
      }
      if operationId in visiting {
        WalkBackIsCycle(dependencies, stack, operationId);
        return false, visited, rank;
      }
      var remaining := dependencies[operationId];
      while remaining != {}
        invariant remaining <= dependencies[operationId]
        invariant visited <= visitedAfter
        invariant Ranked(dependencies, visitedAfter, rankAfter)
        invariant forall id :: id in dependencies[operationId] - remaining && id in dependencies
                    ==> id in visitedAfter
        decreases remaining
      {
        var dependencyId :| dependencyId in remaining;
        remaining := remaining - {dependencyId};
        if dependencyId in dependencies {
          WalkOn(dependencies, stack + [operationId], dependencyId);
          ok, visitedAfter, rankAfter :=
            Visit(dependencyId, visiting + {operationId}, visitedAfter, stack + [operationId], rankAfter);
          if !ok {
            return;
          }
        }
      }
      if operationId !in visitedAfter {
        RankNext(dependencies, visitedAfter, rankAfter, operationId);
        rankAfter := rankAfter[operationId := |rankAfter.Keys|];
      }
      visitedAfter := visitedAfter + {operationId};
      assert visitedAfter == rankAfter.Keys;
      ok := true;
    }

    /** Accepts exactly the graphs that have a topological order. */
    method AssertAcyclic() returns (ok: bool)
      ensures ok <==> HasTopologicalOrder(dependencies)
    {
      var visited: set<string> := {};
      ghost var rank: map<string, nat> := map[];
      var remaining := dependencies.Keys;
      while remaining != {}
        invariant remaining <= dependencies.Keys
        invariant dependencies.Keys - remaining <= visited
        invariant Ranked(dependencies, visited, rank)
        decreases remaining
      {
        var operationId :| operationId in remaining;
        remaining := remaining - {operationId};
        WalkOn(dependencies, [], operationId);
        ok, visited, rank := Visit(operationId, {}, visited, [], rank);
        if !ok {
          CyclesHaveNoOrder(dependencies);
          return;
        }
      }
      assert TopologicalRank(dependencies, rank);
      ok := true;
    }
  }
}
