/** The values that pass through the knowledge-node index pipeline. */
module Knowledge {

  datatype Option<+T> = None | Some(value: T)

  /** The fields of an extracted node that the pipeline reads or merges. */
  datatype Concept = Concept(name: string, description: string, keywords: seq<string>, evidence: seq<int>)

  /** A relation between two positions of a node list. */
  datatype Relation = Relation(source: int, target: int, kind: string, reason: string, strength: real)

  /** A document chunk: its global index, its stripped length, and whether it is an image or caption. */
  datatype Chunk = Chunk(index: int, chars: nat, artifact: bool)

  /** Similarities, row by row. */
  type Matrix = seq<seq<real>>

  // ---------------------------------------------------------------- first occurrence of each key

  /**
    What a loop with a `seen` set keeps: the positions below `bound` that carry a key no earlier
    position carries. A position without a key was rejected before the `seen` test.
  */
  ghost predicate FirstPositions<K(!new)>(keys: seq<Option<K>>, bound: nat, origin: seq<nat>)
    requires bound <= |keys|
  {
    && (forall k :: 0 <= k < |origin| ==> origin[k] < bound && keys[origin[k]].Some?)
    && (forall k, m :: 0 <= k < m < |origin| ==> origin[k] < origin[m])
    && (forall k, m :: 0 <= k < m < |origin| ==> keys[origin[k]] != keys[origin[m]])
    && (forall j {:trigger Seen(keys, origin, j)} :: 0 <= j < bound && keys[j].Some? ==> Seen(keys, origin, j))
  }

  ghost predicate Seen<K(!new)>(keys: seq<Option<K>>, origin: seq<nat>, j: nat)
    requires j < |keys|
  {
    exists k :: 0 <= k < |origin| && origin[k] <= j && origin[k] < |keys| && keys[origin[k]] == keys[j]
  }

  lemma FirstPositionsSkip<K(!new)>(keys: seq<Option<K>>, bound: nat, origin: seq<nat>)
    requires bound < |keys| && FirstPositions(keys, bound, origin)
    requires keys[bound].Some? ==> exists k :: 0 <= k < |origin| && keys[origin[k]] == keys[bound]
    ensures FirstPositions(keys, bound + 1, origin)
  {
    if keys[bound].Some? {
      var k :| 0 <= k < |origin| && keys[origin[k]] == keys[bound];
      assert Seen(keys, origin, bound);
    }
  }

  lemma FirstPositionsTake<K(!new)>(keys: seq<Option<K>>, bound: nat, origin: seq<nat>)
    requires bound < |keys| && FirstPositions(keys, bound, origin)
    requires keys[bound].Some? && forall k :: 0 <= k < |origin| ==> keys[origin[k]] != keys[bound]
    ensures FirstPositions(keys, bound + 1, origin + [bound])
  {
    var more := origin + [bound];
    forall j | 0 <= j < bound + 1 && keys[j].Some? ensures Seen(keys, more, j) {
      if j < bound {
        assert Seen(keys, origin, j);
        var k :| 0 <= k < |origin| && origin[k] <= j && keys[origin[k]] == keys[j];
        assert more[k] == origin[k];
      } else {
        assert more[|origin|] == bound;
      }
    }
  }

  lemma {:induction false} SameIncreasing(p: seq<nat>, q: seq<nat>)
    requires forall k, m :: 0 <= k < m < |p| ==> p[k] < p[m]
    requires forall k, m :: 0 <= k < m < |q| ==> q[k] < q[m]
    requires forall x: nat :: x in p <==> x in q
    ensures p == q
  {
    assert p != [] ==> p[0] in q;
    assert q != [] ==> q[0] in p;
    if p != [] {
      forall x: nat ensures x in p[1..] <==> x in q[1..] {
        assert x in p <==> x == p[0] || x in p[1..];
        assert x in q <==> x == q[0] || x in q[1..];
      }
      SameIncreasing(p[1..], q[1..]);
    }
  }

  /** The kept positions are determined by the keys: no two lists meet the description. */
  lemma FirstPositionsUnique<K(!new)>(keys: seq<Option<K>>, p: seq<nat>, q: seq<nat>)
    requires FirstPositions(keys, |keys|, p) && FirstPositions(keys, |keys|, q)
    ensures p == q
  {
    forall x: nat ensures x in p <==> x in q {
      if x in p { FirstIsKept(keys, p, q, x); }
      if x in q { FirstIsKept(keys, q, p, x); }
    }
    SameIncreasing(p, q);
  }

  lemma FirstIsKept<K(!new)>(keys: seq<Option<K>>, p: seq<nat>, q: seq<nat>, x: nat)
    requires FirstPositions(keys, |keys|, p) && FirstPositions(keys, |keys|, q) && x in p
    ensures x in q
  {
    var i :| 0 <= i < |p| && p[i] == x;
    assert Seen(keys, q, x);
    var k :| 0 <= k < |q| && q[k] <= x && keys[q[k]] == keys[x];
    assert Seen(keys, p, q[k]);
    var m :| 0 <= m < |p| && p[m] <= q[k] && keys[p[m]] == keys[q[k]];
    assert m == i;
  }
}
