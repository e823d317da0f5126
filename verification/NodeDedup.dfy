/**
  The intra-run dedup: near-identical extracted nodes collapse into the one with the longest
  description, which absorbs keywords, description and evidence of the others in place.
*/
module NodeDedup {
  import opened Knowledge
  import opened Ordering
  import opened DisjointSets
  import opened NodeText
  import opened RelationIndex

  // ---------------------------------------------------------------- merging two nodes

  /** What the surviving node holds after absorbing another. */
  function Absorbed(root: Concept, other: Concept): Concept {
    root.(keywords := AppendMissing(root.keywords, other.keywords),
          description := JoinDescriptions(root.description, other.description),
          evidence := SortedDistinct(root.evidence + other.evidence))
  }

  /**
    The same in terms of the two nodes: missing keywords appended in order of first occurrence, the
    description appended unless empty or contained, and the evidence of both, ascending.
  */
  ghost predicate Absorbs(kept: Concept, merged: Concept, r: Concept) {
    && r.name == kept.name
    && KeywordsJoin(kept.keywords, merged.keywords, r.keywords)
    && DescriptionsJoin(kept.description, merged.description, r.description)
    && Increasing(r.evidence) && (forall e :: e in r.evidence <==> e in kept.evidence || e in merged.evidence)
  }

  lemma AbsorbedAbsorbs(kept: Concept, merged: Concept)
    ensures Absorbs(kept, merged, Absorbed(kept, merged))
  {
    AppendMissingAppends(kept.keywords, merged.keywords);
    JoinDescriptionsJoins(kept.description, merged.description);
  }

  class ExtractedNode {
    const name: string
    var description: string
    var keywords: seq<string>
    var evidence: seq<int>

    constructor (c: Concept)
      ensures View() == c
    {
      name, description, keywords, evidence := c.name, c.description, c.keywords, c.evidence;
    }

    function View(): Concept
      reads this
    {
      Concept(name, description, keywords, evidence)
    }

    method Absorb(other: ExtractedNode)
      requires other != this
      modifies this
      ensures View() == Absorbed(old(View()), old(other.View()))
      ensures Absorbs(old(View()), old(other.View()), View())
    {
      AddKeywords(other.keywords);
      description := JoinDescriptions(description, other.description);
      evidence := SortedDistinct(evidence + other.evidence);
      AbsorbedAbsorbs(old(View()), old(other.View()));
    }

    /** The loop over the keywords of the absorbed node. */
    method AddKeywords(more: seq<string>)
      modifies this`keywords
      ensures keywords == AppendMissing(old(keywords), more)
    {
      for i := 0 to |more|
        invariant keywords == AppendMissing(old(keywords), more[..i])
      {
        assert more[..i + 1][..i] == more[..i];
        if more[i] !in keywords {
          keywords := keywords + [more[i]];
        }
      }
      assert more[..|more|] == more;
    }
  }

  // ---------------------------------------------------------------- folding a class into its root

  /** Node r after absorbing, in order, the members of its class among the first i nodes. */
  ghost function Folded(before: seq<Concept>, root: seq<nat>, r: nat, i: nat): Concept
    requires |root| == |before| && r < |before| && i <= |before|
  {
    if i == 0 then before[r]
    else
      var c := Folded(before, root, r, i - 1);
      if root[i - 1] == r && i - 1 != r then Absorbed(c, before[i - 1]) else c
  }

  /** j belongs to the class of r and has been folded into it by step i. */
  ghost predicate Folding(root: seq<nat>, r: nat, i: nat, j: nat)
    requires i <= |root|
  {
    j == r || (j < i && root[j] == r)
  }

  ghost predicate KeywordOf(before: seq<Concept>, root: seq<nat>, r: nat, i: nat, w: string)
    requires |root| == |before| && i <= |before|
  {
    exists j: nat :: j < |before| && Folding(root, r, i, j) && w in before[j].keywords
  }

  ghost predicate EvidenceOf(before: seq<Concept>, root: seq<nat>, r: nat, i: nat, e: int)
    requires |root| == |before| && i <= |before|
  {
    exists j: nat :: j < |before| && Folding(root, r, i, j) && e in before[j].evidence
  }

  lemma KeywordsNext(before: seq<Concept>, root: seq<nat>, r: nat, i: nat, w: string)
    requires |root| == |before| && i < |before|
    ensures KeywordOf(before, root, r, i + 1, w) <==>
            KeywordOf(before, root, r, i, w) || (root[i] == r && w in before[i].keywords)
  {
    if KeywordOf(before, root, r, i + 1, w) {
      var j: nat :| j < |before| && Folding(root, r, i + 1, j) && w in before[j].keywords;
      assert j == i || Folding(root, r, i, j);
    }
    if KeywordOf(before, root, r, i, w) {
      var j: nat :| j < |before| && Folding(root, r, i, j) && w in before[j].keywords;
      assert Folding(root, r, i + 1, j);
    }
    if root[i] == r {
      assert Folding(root, r, i + 1, i);
    }
  }

  /** The same set, member by member. */
  ghost predicate KeywordHeld(before: seq<Concept>, root: seq<nat>, r: nat, i: nat, w: string)
    requires |root| == |before| && r < |before| && i <= |before|
  {
    if i == 0 then w in before[r].keywords
    else KeywordHeld(before, root, r, i - 1, w) || (root[i - 1] == r && w in before[i - 1].keywords)
  }

  lemma {:induction false} HeldKeywords(before: seq<Concept>, root: seq<nat>, r: nat, i: nat, w: string)
    requires |root| == |before| && r < |before| && i <= |before|
    ensures KeywordHeld(before, root, r, i, w) <==> KeywordOf(before, root, r, i, w)
    decreases i
  {
    if i == 0 {
      assert Folding(root, r, 0, r);
    } else {
      HeldKeywords(before, root, r, i - 1, w);
      KeywordsNext(before, root, r, i - 1, w);
    }
  }

  lemma {:induction false} OwnKeywordHeld(before: seq<Concept>, root: seq<nat>, r: nat, i: nat, w: string)
    requires |root| == |before| && r < |before| && i <= |before| && w in before[r].keywords
    ensures KeywordHeld(before, root, r, i, w)
    decreases i
  {
    if i > 0 {
      OwnKeywordHeld(before, root, r, i - 1, w);
    }
  }

  /** Keywords are conserved: the survivor has exactly what the members had. */
  lemma {:induction false} FoldedKeywords(before: seq<Concept>, root: seq<nat>, r: nat, i: nat, w: string)
    requires |root| == |before| && r < |before| && i <= |before|
    ensures w in Folded(before, root, r, i).keywords <==> KeywordHeld(before, root, r, i, w)
    decreases i
  {
    if i > 0 {
      FoldedKeywords(before, root, r, i - 1, w);
      if i - 1 == r && w in before[r].keywords {
        OwnKeywordHeld(before, root, r, i - 1, w);
      }
    }
  }

  lemma EvidenceNext(before: seq<Concept>, root: seq<nat>, r: nat, i: nat, e: int)
    requires |root| == |before| && i < |before|
    ensures EvidenceOf(before, root, r, i + 1, e) <==>
            EvidenceOf(before, root, r, i, e) || (root[i] == r && e in before[i].evidence)
  {
    if EvidenceOf(before, root, r, i + 1, e) {
      var j: nat :| j < |before| && Folding(root, r, i + 1, j) && e in before[j].evidence;
      assert j == i || Folding(root, r, i, j);
    }
    if EvidenceOf(before, root, r, i, e) {
      var j: nat :| j < |before| && Folding(root, r, i, j) && e in before[j].evidence;
      assert Folding(root, r, i + 1, j);
    }
    if root[i] == r {
      assert Folding(root, r, i + 1, i);
    }
  }

  ghost predicate EvidenceHeld(before: seq<Concept>, root: seq<nat>, r: nat, i: nat, e: int)
    requires |root| == |before| && r < |before| && i <= |before|
  {
    if i == 0 then e in before[r].evidence
    else EvidenceHeld(before, root, r, i - 1, e) || (root[i - 1] == r && e in before[i - 1].evidence)
  }

  lemma {:induction false} HeldEvidence(before: seq<Concept>, root: seq<nat>, r: nat, i: nat, e: int)
    requires |root| == |before| && r < |before| && i <= |before|
    ensures EvidenceHeld(before, root, r, i, e) <==> EvidenceOf(before, root, r, i, e)
    decreases i
  {
    if i == 0 {
      assert Folding(root, r, 0, r);
    } else {
      HeldEvidence(before, root, r, i - 1, e);
      EvidenceNext(before, root, r, i - 1, e);
    }
  }

  lemma {:induction false} OwnEvidenceHeld(before: seq<Concept>, root: seq<nat>, r: nat, i: nat, e: int)
    requires |root| == |before| && r < |before| && i <= |before| && e in before[r].evidence
    ensures EvidenceHeld(before, root, r, i, e)
    decreases i
  {
    if i > 0 {
      OwnEvidenceHeld(before, root, r, i - 1, e);
    }
  }

  /** Evidence indexes are conserved, too. */
  lemma {:induction false} FoldedEvidence(before: seq<Concept>, root: seq<nat>, r: nat, i: nat, e: int)
    requires |root| == |before| && r < |before| && i <= |before|
    ensures e in Folded(before, root, r, i).evidence <==> EvidenceHeld(before, root, r, i, e)
    decreases i
  {
    if i > 0 {
      FoldedEvidence(before, root, r, i - 1, e);
      if i - 1 == r && e in before[r].evidence {
        OwnEvidenceHeld(before, root, r, i - 1, e);
      }
    }
  }

  /** c grew out of own: keywords appended, description own or cut, evidence own or sorted. */
  ghost predicate GrownFrom(own: Concept, c: Concept) {
    && own.keywords <= c.keywords
    && (c.description == own.description || |c.description| <= MAX_DESCRIPTION)
    && (c.evidence == own.evidence || Increasing(c.evidence))
  }

  lemma AbsorbedGrows(own: Concept, c: Concept, other: Concept)
    requires GrownFrom(own, c)
    ensures GrownFrom(own, Absorbed(c, other))
  {
  }

  lemma {:induction false} FoldedShape(before: seq<Concept>, root: seq<nat>, r: nat, i: nat)
    requires |root| == |before| && r < |before| && i <= |before|
    ensures GrownFrom(before[r], Folded(before, root, r, i))
    decreases i
  {
    if i > 0 {
      FoldedShape(before, root, r, i - 1);
      AbsorbedGrows(before[r], Folded(before, root, r, i - 1), before[i - 1]);
    }
  }

  lemma SurvivorKeyword(before: seq<Concept>, root: seq<nat>, r: nat, w: string)
    requires |root| == |before| && r < |before| && root[r] == r
    ensures w in Folded(before, root, r, |before|).keywords
            <==> exists j: nat :: j < |before| && root[j] == r && w in before[j].keywords
  {
    FoldedKeywords(before, root, r, |before|, w);
    HeldKeywords(before, root, r, |before|, w);
    assert forall j: nat :: j < |before| ==> (Folding(root, r, |before|, j) <==> root[j] == r);
  }

  lemma SurvivorEvidence(before: seq<Concept>, root: seq<nat>, r: nat, e: int)
    requires |root| == |before| && r < |before| && root[r] == r
    ensures e in Folded(before, root, r, |before|).evidence
            <==> exists j: nat :: j < |before| && root[j] == r && e in before[j].evidence
  {
    FoldedEvidence(before, root, r, |before|, e);
    HeldEvidence(before, root, r, |before|, e);
    assert forall j: nat :: j < |before| ==> (Folding(root, r, |before|, j) <==> root[j] == r);
  }

  /**
    The survivor of a class holds exactly the keywords and the evidence of the class, its own
    keywords first; its description is its own or at most 800 characters; merged evidence is sorted.
  */
  lemma SurvivorHoldsItsClass(before: seq<Concept>, root: seq<nat>, r: nat)
    requires |root| == |before| && r < |before| && root[r] == r
    ensures var c := Folded(before, root, r, |before|);
            && (forall w :: w in c.keywords <==>
                  exists j: nat :: j < |before| && root[j] == r && w in before[j].keywords)
            && (forall e :: e in c.evidence <==>
                  exists j: nat :: j < |before| && root[j] == r && e in before[j].evidence)
            && GrownFrom(before[r], c)
  {
    FoldedShape(before, root, r, |before|);
    forall w: string { SurvivorKeyword(before, root, r, w); }
    forall e: int { SurvivorEvidence(before, root, r, e); }
  }

  // ---------------------------------------------------------------- the whole pass

  function Views(nodes: seq<ExtractedNode>): (views: seq<Concept>)
    reads nodes
    ensures |views| == |nodes|
    ensures forall i :: 0 <= i < |nodes| ==> views[i] == nodes[i].View()
  {
    seq(|nodes|, i requires 0 <= i < |nodes| reads nodes => nodes[i].View())
  }

  /**
    The new numbering is constant on classes and different across them, takes the values
    0, 1, 2, ... and numbers the classes by their smallest members, which firsts lists.
  */
  ghost predicate NumbersClasses(root: seq<nat>, newIndex: map<int, nat>, firsts: seq<nat>) {
    && (forall x: int :: x in newIndex <==> 0 <= x < |root|)
    && (forall c :: 0 <= c < |firsts| ==> firsts[c] < |root| && newIndex[firsts[c]] == c)
    && (forall c, d :: 0 <= c < d < |firsts| ==> firsts[c] < firsts[d])
    && (forall x :: 0 <= x < |root| ==> newIndex[x] < |firsts| && firsts[newIndex[x]] <= x)
    && (forall x, y :: 0 <= x < |root| && 0 <= y < |root| ==> (newIndex[x] == newIndex[y] <==> root[x] == root[y]))
  }

  /** The numbering of the roots met so far; firsts are the positions where they were met first. */
  ghost predicate Numbering(root: seq<nat>, i: nat, numberOf: map<nat, nat>, firsts: seq<nat>)
    requires i <= |root|
  {
    && (forall c :: 0 <= c < |firsts| ==> NumberedAt(root, i, numberOf, firsts, c))
    && (forall c, d :: 0 <= c < d < |firsts| ==> firsts[c] < firsts[d])
    && (forall r :: r in numberOf ==>
          numberOf[r] < |firsts| && firsts[numberOf[r]] < |root| && root[firsts[numberOf[r]]] == r)
    && (forall x :: 0 <= x < i ==> root[x] in numberOf && firsts[numberOf[root[x]]] <= x)
  }

  ghost predicate NumberedAt(root: seq<nat>, i: nat, numberOf: map<nat, nat>, firsts: seq<nat>, c: int)
    requires i <= |root| && 0 <= c < |firsts|
  {
    firsts[c] < i && root[firsts[c]] in numberOf && numberOf[root[firsts[c]]] == c
  }

  lemma NumberNext(root: seq<nat>, i: nat, numberOf: map<nat, nat>, firsts: seq<nat>)
    requires i < |root| && Numbering(root, i, numberOf, firsts)
    ensures root[i] in numberOf ==> Numbering(root, i + 1, numberOf, firsts)
    ensures root[i] !in numberOf ==> Numbering(root, i + 1, numberOf[root[i] := |firsts|], firsts + [i])
  {
    var next := i + 1;
    if root[i] in numberOf {
      var c := numberOf[root[i]];
      assert NumberedAt(root, i, numberOf, firsts, c);
      forall d | 0 <= d < |firsts| ensures NumberedAt(root, next, numberOf, firsts, d) {
        assert NumberedAt(root, i, numberOf, firsts, d);
      }
    } else {
      var numberOf', firsts' := numberOf[root[i] := |firsts|], firsts + [i];
      forall d | 0 <= d < |firsts'| ensures NumberedAt(root, next, numberOf', firsts', d) {
        if d < |firsts| { assert NumberedAt(root, i, numberOf, firsts, d); }
      }
      forall c, d | 0 <= c < d < |firsts'| ensures firsts'[c] < firsts'[d] {
        assert NumberedAt(root, i, numberOf, firsts, c);
      }
    }
  }

  lemma NumberingNumbersClasses(root: seq<nat>, numberOf: map<nat, nat>, firsts: seq<nat>, newIndex: map<int, nat>)
    requires Numbering(root, |root|, numberOf, firsts)
    requires forall x: int :: x in newIndex <==> 0 <= x < |root|
    requires forall x :: 0 <= x < |root| ==> root[x] in numberOf && newIndex[x] == numberOf[root[x]]
    ensures NumbersClasses(root, newIndex, firsts)
  {
    forall c | 0 <= c < |firsts| ensures firsts[c] < |root| && newIndex[firsts[c]] == c {
      assert NumberedAt(root, |root|, numberOf, firsts, c);
    }
  }

  ghost predicate RootsOwn(root: seq<nat>) {
    forall x {:trigger root[x]} :: 0 <= x < |root| ==> root[x] < |root| && OwnRoot(root, root[x])
  }

  ghost predicate OwnRoot(root: seq<nat>, r: nat)
    requires r < |root|
  {
    root[r] == r
  }

  ghost predicate AllFolded(nodes: seq<ExtractedNode>, before: seq<Concept>, root: seq<nat>, i: nat)
    requires |root| == |before| == |nodes| && i <= |nodes|
    reads nodes
  {
    forall r :: 0 <= r < |nodes| ==> nodes[r].View() == Folded(before, root, r, i)
  }

  /** Node i, if it is not its own root, is absorbed by its root; no other node changes. */
  method FoldNode(nodes: seq<ExtractedNode>, i: nat, r: nat, ghost before: seq<Concept>, ghost root: seq<nat>)
    requires |root| == |before| == |nodes| && i < |nodes| && r == root[i] < |nodes|
    requires forall a, b :: 0 <= a < b < |nodes| ==> nodes[a] != nodes[b]
    requires RootsOwn(root) && AllFolded(nodes, before, root, i)
    modifies nodes
    ensures AllFolded(nodes, before, root, i + 1)
  {
    if i != r {
      assert nodes[i] != nodes[r];
      NotARoot(before, root, i, i);
      nodes[r].Absorb(nodes[i]);
    }
  }

  /** Only roots absorb: a node that is not its own root keeps its fields. */
  lemma {:induction false} NotARoot(before: seq<Concept>, root: seq<nat>, x: nat, i: nat)
    requires |root| == |before| && x < |before| && i <= |before| && root[x] != x
    requires RootsOwn(root)
    ensures Folded(before, root, x, i) == before[x]
    decreases i
  {
    if i > 0 {
      NotARoot(before, root, x, i - 1);
      assert OwnRoot(root, root[i - 1]);
    }
  }

  /** survivors[c] is the root of the class with number c. */
  ghost predicate SurvivorsAreRoots(nodes: seq<ExtractedNode>, numberOf: map<nat, nat>, survivors: seq<ExtractedNode>) {
    forall r :: r in numberOf ==> r < |nodes| && numberOf[r] < |survivors| && survivors[numberOf[r]] == nodes[r]
  }

  /** Finds the root of node i and, when it is met for the first time, appends it to the survivors. */
  method VisitNode(nodes: seq<ExtractedNode>, classes: Partition, i: nat, seen: map<nat, nat>,
                   found: seq<ExtractedNode>, ghost starts: seq<nat>)
    returns (r: nat, numberOf: map<nat, nat>, survivors: seq<ExtractedNode>, ghost firsts: seq<nat>)
    requires classes.Valid() && |classes.size| == |nodes| && i < |nodes|
    requires Numbering(classes.root, i, seen, starts) && |found| == |starts| && SurvivorsAreRoots(nodes, seen, found)
    modifies classes.parent
    ensures classes.Valid() && r == classes.root[i] < |nodes|
    ensures Numbering(classes.root, i + 1, numberOf, firsts) && |survivors| == |firsts|
    ensures SurvivorsAreRoots(nodes, numberOf, survivors)
  {
    numberOf, survivors, firsts := seen, found, starts;
    NumberNext(classes.root, i, numberOf, firsts);
    r := classes.Find(i);
    if r !in numberOf {
      numberOf := numberOf[r := |survivors|];
      survivors, firsts := survivors + [nodes[r]], firsts + [i];
    }
  }

  /** State of the walk after i nodes. */
  ghost predicate Collected(nodes: seq<ExtractedNode>, before: seq<Concept>, root: seq<nat>, i: nat,
                            numberOf: map<nat, nat>, survivors: seq<ExtractedNode>, firsts: seq<nat>)
    requires |root| == |before| == |nodes| && i <= |nodes|
    reads nodes
  {
    && Numbering(root, i, numberOf, firsts) && |survivors| == |firsts|
    && SurvivorsAreRoots(nodes, numberOf, survivors)
    && AllFolded(nodes, before, root, i)
  }

  method CollectSurvivors(nodes: seq<ExtractedNode>, classes: Partition)
    returns (survivors: seq<ExtractedNode>, numberOf: map<nat, nat>, ghost firsts: seq<nat>)
    requires classes.Valid() && |classes.size| == |nodes|
    requires forall a, b :: 0 <= a < b < |nodes| ==> nodes[a] != nodes[b]
    modifies nodes, classes.parent
    ensures classes.Valid()
    ensures Collected(nodes, old(Views(nodes)), classes.root, |nodes|, numberOf, survivors, firsts)
  {
    ghost var before := Views(nodes);
    survivors, numberOf, firsts := [], map[], [];
    for i := 0 to |nodes|
      invariant classes.Valid()
      invariant Collected(nodes, before, classes.root, i, numberOf, survivors, firsts)
    {
      numberOf, survivors, firsts := CollectNode(nodes, classes, i, numberOf, survivors, before, firsts);
    }
  }

  method CollectNode(nodes: seq<ExtractedNode>, classes: Partition, i: nat, seen: map<nat, nat>,
                     found: seq<ExtractedNode>, ghost before: seq<Concept>, ghost starts: seq<nat>)
    returns (numberOf: map<nat, nat>, survivors: seq<ExtractedNode>, ghost firsts: seq<nat>)
    requires classes.Valid() && |classes.size| == |nodes| == |before| && i < |nodes|
    requires forall a, b :: 0 <= a < b < |nodes| ==> nodes[a] != nodes[b]
    requires Collected(nodes, before, classes.root, i, seen, found, starts)
    modifies nodes, classes.parent
    ensures classes.Valid()
    ensures Collected(nodes, before, classes.root, i + 1, numberOf, survivors, firsts)
  {
    RootsOwnThemselves(classes);
    var r;
    r, numberOf, survivors, firsts := VisitNode(nodes, classes, i, seen, found, starts);
    FoldNode(nodes, i, r, before, classes.root);
  }

  lemma RootsOwnThemselves(classes: Partition)
    requires classes.Valid()
    ensures RootsOwn(classes.root) && |classes.root| == |classes.size|
  {
    forall x | 0 <= x < |classes.size|
      ensures classes.root[x] < |classes.size| && OwnRoot(classes.root, classes.root[x])
    {
      RootOfRoot(classes, x);
    }
  }

  method NumberNodes(classes: Partition, numberOf: map<nat, nat>, ghost firsts: seq<nat>)
    returns (oldToNew: map<int, nat>)
    requires classes.Valid() && Numbering(classes.root, |classes.size|, numberOf, firsts)
    modifies classes.parent
    ensures classes.Valid() && NumbersClasses(classes.root, oldToNew, firsts)
    ensures forall x :: 0 <= x < |classes.size| ==>
              x in oldToNew && classes.root[x] in numberOf && oldToNew[x] == numberOf[classes.root[x]]
  {
    ghost var root := classes.root;
    oldToNew := map[];
    for i := 0 to |classes.size|
      invariant classes.Valid() && classes.root == root
      invariant forall x: int :: x in oldToNew <==> 0 <= x < i
      invariant forall x :: 0 <= x < i ==> root[x] in numberOf && oldToNew[x] == numberOf[root[x]]
    {
      var r := classes.Find(i);
      oldToNew := oldToNew[i := numberOf[r]];
    }
    NumberingNumbersClasses(root, numberOf, firsts, oldToNew);
  }

  function Sizes(nodes: seq<ExtractedNode>): (sizes: seq<nat>)
    reads nodes
    ensures |sizes| == |nodes|
    ensures forall i :: 0 <= i < |nodes| ==> sizes[i] == |nodes[i].description|
  {
    seq(|nodes|, i requires 0 <= i < |nodes| reads nodes => |nodes[i].description|)
  }

  /** root names the connected components of the similarity graph, each by a member with a longest description. */
  ghost predicate IsClustering(before: seq<Concept>, sims: Matrix, root: seq<nat>)
    requires Square(sims, |before|)
  {
    && |root| == |before| && RootsOwn(root)
    && (forall x, y :: 0 <= x < |root| && 0 <= y < |root| ==> (root[x] == root[y] <==> Connected(sims, |before|, x, y)))
    && (forall x :: 0 <= x < |root| ==> |before[x].description| <= |before[root[x]].description|)
  }

  /** Survivor c is the root of class c. */
  ghost predicate SurvivorPerClass(nodes: seq<ExtractedNode>, root: seq<nat>, newIndex: map<int, nat>,
                                   survivors: seq<ExtractedNode>)
    requires |root| == |nodes|
  {
    forall x :: 0 <= x < |root| ==>
      x in newIndex && newIndex[x] < |survivors| && root[x] < |nodes| && survivors[newIndex[x]] == nodes[root[x]]
  }

  /** c has exactly the keywords and the evidence of the nodes connected with x. */
  ghost predicate HoldsComponent(before: seq<Concept>, sims: Matrix, x: nat, c: Concept)
    requires Square(sims, |before|)
  {
    && (forall w :: w in c.keywords <==> KeywordNear(before, sims, x, w))
    && (forall e :: e in c.evidence <==> EvidenceNear(before, sims, x, e))
  }

  ghost predicate KeywordNear(before: seq<Concept>, sims: Matrix, x: nat, w: string)
    requires Square(sims, |before|)
  {
    exists j: nat :: j < |before| && Connected(sims, |before|, x, j) && w in before[j].keywords
  }

  ghost predicate EvidenceNear(before: seq<Concept>, sims: Matrix, x: nat, e: int)
    requires Square(sims, |before|)
  {
    exists j: nat :: j < |before| && Connected(sims, |before|, x, j) && e in before[j].evidence
  }

  /** m is connected with x and no node connected with x has a longer description. */
  ghost predicate IsLongestNear(before: seq<Concept>, sims: Matrix, x: nat, m: nat)
    requires Square(sims, |before|)
  {
    && m < |before| && Connected(sims, |before|, x, m)
    && forall j: nat :: j < |before| && Connected(sims, |before|, x, j) ==>
         |before[j].description| <= |before[m].description|
  }

  /** What node j makes of the survivor m: absorbed if it is another node of the component. */
  ghost predicate StoryStep(before: seq<Concept>, sims: Matrix, m: nat, j: nat, kept: Concept, r: Concept)
    requires Square(sims, |before|) && j < |before|
  {
    if j != m && Connected(sims, |before|, m, j) then Absorbs(kept, before[j], r) else r == kept
  }

  /** The survivor m from what it was to what it is, absorbing its component in node order. */
  ghost predicate Story(before: seq<Concept>, sims: Matrix, m: nat, story: seq<Concept>)
    requires Square(sims, |before|) && m < |before|
  {
    && |story| == |before| + 1 && story[0] == before[m]
    && forall j :: 0 <= j < |before| ==> StoryStep(before, sims, m, j, story[j], story[j + 1])
  }

  /** r is what the survivor m of its component comes to. */
  ghost predicate Becomes(before: seq<Concept>, sims: Matrix, m: nat, r: Concept)
    requires Square(sims, |before|) && m < |before|
  {
    exists story :: Story(before, sims, m, story) && story[|before|] == r
  }

  /** The node s is a longest-description member of the component of x and holds all that the component held. */
  ghost predicate StandsFor(nodes: seq<ExtractedNode>, before: seq<Concept>, sims: Matrix, x: nat, s: ExtractedNode)
    requires Square(sims, |before|) && |nodes| == |before|
    reads s
  {
    && (exists m: nat :: IsLongestNear(before, sims, x, m) && s == nodes[m] && Becomes(before, sims, m, s.View()))
    && HoldsComponent(before, sims, x, s.View())
  }

  /** Two nodes get one new index exactly if they are connected, and the survivor there represents them. */
  ghost predicate Conserves(nodes: seq<ExtractedNode>, before: seq<Concept>, sims: Matrix, newIndex: map<int, nat>,
                            survivors: seq<ExtractedNode>)
    requires Square(sims, |before|) && |nodes| == |before|
    reads survivors
  {
    && (forall x: int :: x in newIndex <==> 0 <= x < |before|)
    && (forall x, y :: 0 <= x < |before| && 0 <= y < |before| ==>
          (newIndex[x] == newIndex[y] <==> Connected(sims, |before|, x, y)))
    && (forall x :: 0 <= x < |before| ==>
          newIndex[x] < |survivors| && StandsFor(nodes, before, sims, x, survivors[newIndex[x]]))
  }

  lemma ClassIsComponent(before: seq<Concept>, sims: Matrix, root: seq<nat>, x: nat, w: string, e: int)
    requires Square(sims, |before|) && IsClustering(before, sims, root) && x < |before|
    ensures var c := Folded(before, root, root[x], |before|);
            && (w in c.keywords <==> KeywordNear(before, sims, x, w))
            && (e in c.evidence <==> EvidenceNear(before, sims, x, e))
  {
    var r := root[x];
    assert OwnRoot(root, r);
    SurvivorKeyword(before, root, r, w);
    SurvivorEvidence(before, root, r, e);
    assert forall j: nat :: j < |before| ==> (root[j] == r <==> Connected(sims, |before|, x, j));
  }

  lemma RootIsLongest(before: seq<Concept>, sims: Matrix, root: seq<nat>, x: nat)
    requires Square(sims, |before|) && IsClustering(before, sims, root) && x < |before|
    ensures root[x] < |before| && IsLongestNear(before, sims, x, root[x])
  {
    assert OwnRoot(root, root[x]);
  }

  lemma FoldHoldsComponent(before: seq<Concept>, sims: Matrix, root: seq<nat>, x: nat)
    requires Square(sims, |before|) && IsClustering(before, sims, root) && x < |before|
    ensures HoldsComponent(before, sims, x, Folded(before, root, root[x], |before|))
  {
    forall w: string { ClassIsComponent(before, sims, root, x, w, 0); }
    forall e: int { ClassIsComponent(before, sims, root, x, "", e); }
  }

  ghost function FoldedStory(before: seq<Concept>, root: seq<nat>, r: nat): (story: seq<Concept>)
    requires |root| == |before| && r < |before|
    ensures |story| == |before| + 1
    ensures forall i :: 0 <= i <= |before| ==> story[i] == Folded(before, root, r, i)
  {
    seq(|before| + 1, i requires 0 <= i <= |before| => Folded(before, root, r, i))
  }

  lemma FoldStep(before: seq<Concept>, sims: Matrix, root: seq<nat>, r: nat, j: nat)
    requires Square(sims, |before|) && IsClustering(before, sims, root)
    requires r < |before| && root[r] == r && j < |before|
    ensures StoryStep(before, sims, r, j, Folded(before, root, r, j), Folded(before, root, r, j + 1))
  {
    assert root[j] == root[r] <==> Connected(sims, |before|, r, j);
    AbsorbedAbsorbs(Folded(before, root, r, j), before[j]);
  }

  lemma FoldTells(before: seq<Concept>, sims: Matrix, root: seq<nat>, r: nat)
    requires Square(sims, |before|) && IsClustering(before, sims, root) && r < |before| && root[r] == r
    ensures Becomes(before, sims, r, Folded(before, root, r, |before|))
  {
    var story := FoldedStory(before, root, r);
    forall j | 0 <= j < |before| ensures StoryStep(before, sims, r, j, story[j], story[j + 1]) {
      FoldStep(before, sims, root, r, j);
    }
    assert Story(before, sims, r, story);
  }

  lemma RootStandsFor(nodes: seq<ExtractedNode>, before: seq<Concept>, sims: Matrix, root: seq<nat>, x: nat)
    requires Square(sims, |before|) && |nodes| == |before| && IsClustering(before, sims, root) && x < |before|
    requires root[x] < |nodes| && nodes[root[x]].View() == Folded(before, root, root[x], |before|)
    ensures StandsFor(nodes, before, sims, x, nodes[root[x]])
  {
    RootIsLongest(before, sims, root, x);
    FoldHoldsComponent(before, sims, root, x);
    assert OwnRoot(root, root[x]);
    FoldTells(before, sims, root, root[x]);
  }

  // ---------------------------------------------------------------- which descriptions survive

  /** All descriptions of the component of m are free of padding at their ends. */
  ghost predicate TrimmedNear(before: seq<Concept>, sims: Matrix, m: nat)
    requires Square(sims, |before|) && m < |before|
  {
    Trimmed(before[m].description)
    && forall j: nat :: j < |before| && Connected(sims, |before|, m, j) ==> Trimmed(before[j].description)
  }

  /** The descriptions of the survivor and of some absorbed nodes, in the order given. */
  ghost function Texts(before: seq<Concept>, m: nat, parts: seq<nat>): (texts: seq<string>)
    requires m < |before| && forall k :: 0 <= k < |parts| ==> parts[k] < |before|
    ensures |texts| == |parts| + 1 && texts[0] == before[m].description
    ensures forall k :: 0 <= k < |parts| ==> texts[k + 1] == before[parts[k]].description
  {
    [before[m].description] + seq(|parts|, k requires 0 <= k < |parts| => before[parts[k]].description)
  }

  /**
    The text after the first i nodes: the survivor's own description and, in node order and with a bar
    between them, descriptions of its component, cut to 800 characters; and none of those read so far
    is lost unless the text is full.
  */
  ghost predicate TextSoFar(before: seq<Concept>, sims: Matrix, m: nat, i: nat, parts: seq<nat>, text: string)
    requires Square(sims, |before|) && m < |before| && i <= |before|
  {
    && AreParts(before, sims, m, i, parts) && IsGlued(Texts(before, m, parts), text)
    && forall j: nat :: Due(before, sims, m, i, j) ==> Survives(before[j].description, text)
  }

  /** Ascending positions of other nodes of the component. */
  ghost predicate AreParts(before: seq<Concept>, sims: Matrix, m: nat, i: nat, parts: seq<nat>)
    requires Square(sims, |before|) && i <= |before|
  {
    KeptOf(parts, i) && forall k :: 0 <= k < |parts| ==> IsPart(before, sims, m, parts[k])
  }

  ghost predicate IsPart(before: seq<Concept>, sims: Matrix, m: nat, j: nat)
    requires Square(sims, |before|)
  {
    j != m && Connected(sims, |before|, m, j)
  }

  /** Node j is the survivor, or one of its component and read. */
  ghost predicate Due(before: seq<Concept>, sims: Matrix, m: nat, i: nat, j: nat)
    requires Square(sims, |before|)
  {
    j < |before| && (j == m || (j < i && Connected(sims, |before|, m, j)))
  }

  ghost predicate Survives(description: string, text: string) {
    Contains(text, description) || |text| == 800
  }

  lemma ContainsItself(text: string)
    ensures Contains(text, text)
  {
    assert text == "" + text + "";
  }

  lemma ContainsNothing(text: string)
    ensures Contains(text, "")
  {
    assert text == "" + "" + text;
  }

  lemma LongerContains(text: string, longer: string, needle: string)
    requires Contains(text, needle) && text <= longer
    ensures Contains(longer, needle)
  {
    var before, after :| text == before + needle + after;
    assert longer == before + needle + (after + longer[|text|..]);
  }

  lemma TextUnchanged(before: seq<Concept>, sims: Matrix, m: nat, i: nat, parts: seq<nat>, text: string)
    requires Square(sims, |before|) && m < |before| && i < |before| && TextSoFar(before, sims, m, i, parts, text)
    requires i == m || !Connected(sims, |before|, m, i) || Survives(before[i].description, text)
    ensures TextSoFar(before, sims, m, i + 1, parts, text)
  {
    forall j: nat | Due(before, sims, m, i + 1, j) ensures Survives(before[j].description, text) {
      assert j != i || i == m ==> Due(before, sims, m, i, j);
    }
  }

  lemma PartsExtended(before: seq<Concept>, sims: Matrix, m: nat, i: nat, parts: seq<nat>)
    requires Square(sims, |before|) && i < |before| && AreParts(before, sims, m, i, parts)
    requires IsPart(before, sims, m, i)
    ensures AreParts(before, sims, m, i + 1, parts + [i])
  {
    var more := parts + [i];
    forall k | 0 <= k < |more| ensures IsPart(before, sims, m, more[k]) {
      assert more[k] == if k < |parts| then parts[k] else i;
    }
  }

  lemma TextsExtended(before: seq<Concept>, m: nat, parts: seq<nat>, i: nat)
    requires m < |before| && i < |before| && forall k :: 0 <= k < |parts| ==> parts[k] < |before|
    ensures Texts(before, m, parts + [i]) == Texts(before, m, parts) + [before[i].description]
  {
  }

  lemma TextExtended(before: seq<Concept>, sims: Matrix, m: nat, i: nat, parts: seq<nat>, text: string, r: string)
    requires Square(sims, |before|) && m < |before| && i < |before| && TextSoFar(before, sims, m, i, parts, text)
    requires IsPart(before, sims, m, i)
    requires IsGlued(Texts(before, m, parts) + [before[i].description], r)
    requires Grows(text, before[i].description, r)
    ensures TextSoFar(before, sims, m, i + 1, parts + [i], r)
  {
    PartsExtended(before, sims, m, i, parts);
    TextsExtended(before, m, parts, i);
    forall j: nat | Due(before, sims, m, i + 1, j) ensures Survives(before[j].description, r) {
      if j != i {
        assert Due(before, sims, m, i, j);
        StillSurvives(before[j].description, text, before[i].description, r);
      }
    }
  }

  /** r continues the text with one more description, or is full. */
  ghost predicate Grows(text: string, merged: string, r: string) {
    && (text <= r || |r| == 800) && (|text| == 800 ==> |r| == 800)
    && Survives(merged, r)
  }

  lemma StillSurvives(description: string, text: string, merged: string, r: string)
    requires Survives(description, text) && Grows(text, merged, r)
    ensures Survives(description, r)
  {
    if |r| != 800 {
      LongerContains(text, r, description);
    }
  }

  lemma TextJoined(before: seq<Concept>, sims: Matrix, m: nat, i: nat, parts: seq<nat>, text: string, r: string)
    requires Square(sims, |before|) && m < |before| && i < |before| && TextSoFar(before, sims, m, i, parts, text)
    requires Connected(sims, |before|, m, i) && IsLongestNear(before, sims, m, m) && TrimmedNear(before, sims, m)
    requires before[i].description != "" && IsJoined(text, before[i].description, r)
    ensures IsGlued(Texts(before, m, parts) + [before[i].description], r)
    ensures Grows(text, before[i].description, r)
  {
    assert |before[i].description| <= |before[m].description|;
    GluedGrows(Texts(before, m, parts), text, before[i].description, r);
  }

  lemma TextStep(before: seq<Concept>, sims: Matrix, m: nat, i: nat, parts: seq<nat>, kept: Concept, r: Concept)
    returns (more: seq<nat>)
    requires Square(sims, |before|) && m < |before| && i < |before| && StoryStep(before, sims, m, i, kept, r)
    requires TextSoFar(before, sims, m, i, parts, kept.description)
    requires IsLongestNear(before, sims, m, m) && TrimmedNear(before, sims, m)
    ensures TextSoFar(before, sims, m, i + 1, more, r.description)
  {
    var text, merged := kept.description, before[i].description;
    more := parts;
    ContainsNothing(text);
    if !IsPart(before, sims, m, i) || merged == "" || Contains(text, merged) {
      TextUnchanged(before, sims, m, i, parts, text);
    } else {
      TextJoined(before, sims, m, i, parts, text, r.description);
      TextExtended(before, sims, m, i, parts, text, r.description);
      more := parts + [i];
    }
  }

  lemma {:induction false} StoryText(before: seq<Concept>, sims: Matrix, m: nat, story: seq<Concept>, i: nat)
    returns (parts: seq<nat>)
    requires Square(sims, |before|) && m < |before| && Story(before, sims, m, story) && i <= |before|
    requires IsLongestNear(before, sims, m, m) && TrimmedNear(before, sims, m)
    ensures TextSoFar(before, sims, m, i, parts, story[i].description)
    decreases i
  {
    if i == 0 {
      parts := [];
      ContainsItself(before[m].description);
    } else {
      var fewer := StoryText(before, sims, m, story, i - 1);
      assert StoryStep(before, sims, m, i - 1, story[i - 1], story[i - 1 + 1]);
      parts := TextStep(before, sims, m, i - 1, fewer, story[i - 1], story[i]);
    }
  }

  /**
    The survivor's description, for descriptions without padding at their ends: its own first, then
    descriptions of its component in node order with a bar between them, the first 800 characters of
    that; every description of the component occurs in it unless it has 800 characters.
  */
  lemma DescriptionsSurvive(before: seq<Concept>, sims: Matrix, m: nat, r: Concept) returns (parts: seq<nat>)
    requires Square(sims, |before|) && m < |before| && Becomes(before, sims, m, r)
    requires IsLongestNear(before, sims, m, m) && TrimmedNear(before, sims, m)
    ensures TextSoFar(before, sims, m, |before|, parts, r.description)
  {
    var story :| Story(before, sims, m, story) && story[|before|] == r;
    parts := StoryText(before, sims, m, story, |before|);
  }

  lemma IndexesFollow(before: seq<Concept>, sims: Matrix, root: seq<nat>, newIndex: map<int, nat>, firsts: seq<nat>)
    requires Square(sims, |before|) && IsClustering(before, sims, root) && NumbersClasses(root, newIndex, firsts)
    ensures forall x: int :: x in newIndex <==> 0 <= x < |before|
    ensures forall x, y :: 0 <= x < |before| && 0 <= y < |before| ==>
              (newIndex[x] == newIndex[y] <==> Connected(sims, |before|, x, y))
  {
  }

  lemma SurvivorStands(nodes: seq<ExtractedNode>, before: seq<Concept>, sims: Matrix, root: seq<nat>,
                       newIndex: map<int, nat>, survivors: seq<ExtractedNode>, x: nat)
    requires Square(sims, |before|) && |nodes| == |before| && IsClustering(before, sims, root) && x < |before|
    requires SurvivorPerClass(nodes, root, newIndex, survivors) && AllFolded(nodes, before, root, |nodes|)
    ensures x in newIndex && newIndex[x] < |survivors|
    ensures StandsFor(nodes, before, sims, x, survivors[newIndex[x]])
  {
    assert survivors[newIndex[x]] == nodes[root[x]];
    RootStandsFor(nodes, before, sims, root, x);
  }

  /** What the merge leaves, in terms of the similarity graph alone. */
  lemma MergeConserves(nodes: seq<ExtractedNode>, before: seq<Concept>, sims: Matrix, root: seq<nat>,
                       newIndex: map<int, nat>, firsts: seq<nat>, survivors: seq<ExtractedNode>)
    requires Square(sims, |before|) && |nodes| == |before| && IsClustering(before, sims, root)
    requires NumbersClasses(root, newIndex, firsts) && SurvivorPerClass(nodes, root, newIndex, survivors)
    requires AllFolded(nodes, before, root, |nodes|)
    ensures Conserves(nodes, before, sims, newIndex, survivors)
  {
    IndexesFollow(before, sims, root, newIndex, firsts);
    forall x | 0 <= x < |before|
      ensures newIndex[x] < |survivors| && StandsFor(nodes, before, sims, x, survivors[newIndex[x]])
    {
      SurvivorStands(nodes, before, sims, root, newIndex, survivors, x);
    }
  }

  method ClusterNodes(nodes: seq<ExtractedNode>, sims: Matrix) returns (classes: Partition)
    requires Square(sims, |nodes|)
    ensures fresh(classes) && fresh(classes.parent) && classes.Valid() && |classes.size| == |nodes|
    ensures IsClustering(Views(nodes), sims, classes.root)
  {
    classes := new Partition(Sizes(nodes));
    classes.Cluster(sims);
    RootsOwnThemselves(classes);
  }

  method NumberSurvivors(nodes: seq<ExtractedNode>, classes: Partition)
    returns (survivors: seq<ExtractedNode>, newIndex: map<int, nat>, ghost firsts: seq<nat>)
    requires classes.Valid() && |classes.size| == |nodes|
    requires forall i, j :: 0 <= i < j < |nodes| ==> nodes[i] != nodes[j]
    modifies nodes, classes.parent
    ensures NumbersClasses(classes.root, newIndex, firsts) && |survivors| == |firsts|
    ensures |classes.root| == |nodes| && SurvivorPerClass(nodes, classes.root, newIndex, survivors)
    ensures AllFolded(nodes, old(Views(nodes)), classes.root, |nodes|)
  {
    var numberOf;
    survivors, numberOf, firsts := CollectSurvivors(nodes, classes);
    newIndex := NumberNodes(classes, numberOf, firsts);
  }

  /** Fields of the surviving nodes change in place; see AllFolded for what they hold afterwards. */
  method MergeNodes(nodes: seq<ExtractedNode>, sims: Matrix)
    returns (survivors: seq<ExtractedNode>, newIndex: map<int, nat>, ghost root: seq<nat>, ghost firsts: seq<nat>)
    requires Square(sims, |nodes|)
    requires forall i, j :: 0 <= i < j < |nodes| ==> nodes[i] != nodes[j]
    modifies nodes
    ensures IsClustering(old(Views(nodes)), sims, root)
    ensures NumbersClasses(root, newIndex, firsts) && |survivors| == |firsts|
    ensures SurvivorPerClass(nodes, root, newIndex, survivors)
    ensures AllFolded(nodes, old(Views(nodes)), root, |nodes|)
    ensures Conserves(nodes, old(Views(nodes)), sims, newIndex, survivors)
  {
    ghost var before := Views(nodes);
    var classes := ClusterNodes(nodes, sims);
    root := classes.root;
    survivors, newIndex, firsts := NumberSurvivors(nodes, classes);
    MergeConserves(nodes, before, sims, root, newIndex, firsts, survivors);
  }

  method IntraRunDedup(nodes: seq<ExtractedNode>, relations: seq<Relation>, sims: Matrix)
    returns (survivors: seq<ExtractedNode>, remapped: seq<Relation>, ghost root: seq<nat>,
             ghost newIndex: map<int, nat>, ghost firsts: seq<nat>, ghost origin: seq<nat>)
    requires Square(sims, |nodes|)
    requires forall i, j :: 0 <= i < j < |nodes| ==> nodes[i] != nodes[j]
    modifies nodes
    ensures |nodes| <= 1 ==> survivors == nodes && remapped == relations && Views(nodes) == old(Views(nodes))
    ensures |nodes| > 1 ==> IsClustering(old(Views(nodes)), sims, root)
    ensures |nodes| > 1 ==> NumbersClasses(root, newIndex, firsts) && |survivors| == |firsts|
    ensures |nodes| > 1 ==> SurvivorPerClass(nodes, root, newIndex, survivors)
    ensures |nodes| > 1 ==> AllFolded(nodes, old(Views(nodes)), root, |nodes|)
    ensures |nodes| > 1 ==> Conserves(nodes, old(Views(nodes)), sims, newIndex, survivors)
    ensures |nodes| > 1 ==> IsRemap(newIndex, relations, remapped, origin)
  {
    if |nodes| <= 1 {
      return nodes, relations, [], map[], [], [];
    }
    var oldToNew;
    survivors, oldToNew, root, firsts := MergeNodes(nodes, sims);
    newIndex := oldToNew;
    remapped, origin := RemapRelations(oldToNew, relations);
  }
}
