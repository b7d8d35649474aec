/** Walks and cycles of a directed relation, and how acyclicity survives relabelling. */
module Digraphs {

  ghost predicate IsWalk<T>(arcs: set<(T, T)>, walk: seq<T>) {
    forall i :: 0 <= i < |walk| - 1 ==> (walk[i], walk[i + 1]) in arcs
  }

  ghost predicate IsCycle<T>(arcs: set<(T, T)>, walk: seq<T>) {
    && |walk| >= 2
    && walk[0] == walk[|walk| - 1]
    && IsWalk(arcs, walk)
  }

  ghost predicate Acyclic<T(!new)>(arcs: set<(T, T)>) {
    forall walk: seq<T> :: !IsCycle(arcs, walk)
  }

  /** A relation that maps arc by arc into an acyclic one is acyclic: this covers both renaming the
      nodes of a graph and keeping only some of them. */
  lemma ImageAcyclicImpliesAcyclic<A(!new), B(!new)>(arcs: set<(A, A)>, images: set<(B, B)>, naming: map<A, B>)
    requires Acyclic(images)
    requires forall a | a in arcs :: a.0 in naming && a.1 in naming && (naming[a.0], naming[a.1]) in images
    ensures Acyclic(arcs)
  {
    forall walk: seq<A> ensures !IsCycle(arcs, walk) {
      if IsCycle(arcs, walk) {
        forall i | 0 <= i < |walk| ensures walk[i] in naming {
          var j := if i == 0 then 0 else i - 1;
          assert (walk[j], walk[j + 1]) in arcs;
        }
        var image := seq(|walk|, i requires 0 <= i < |walk| => naming[walk[i]]);
        forall i | 0 <= i < |image| - 1 ensures (image[i], image[i + 1]) in images {
          assert (walk[i], walk[i + 1]) in arcs;
        }
        assert IsCycle(images, image);
      }
    }
  }

  /** A cycle can be started from its second node. */
  lemma CycleRotates<T>(arcs: set<(T, T)>, walk: seq<T>)
    requires IsCycle(arcs, walk)
    ensures IsCycle(arcs, walk[1..] + [walk[1]])
  {
    var turned := walk[1..] + [walk[1]];
    forall i | 0 <= i < |turned| - 1 ensures (turned[i], turned[i + 1]) in arcs {
      if i + 1 < |walk| - 1 {
        assert (walk[i + 1], walk[i + 2]) in arcs;
      } else {
        assert (walk[0], walk[1]) in arcs;
      }
    }
  }
}
