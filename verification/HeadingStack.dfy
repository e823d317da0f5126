/**
  The heading stack of the markdown splitter. A part is what the split at heading lines yields: blank,
  plain text, or a heading line with the text below it. Splitting a section into pieces and dropping
  short or boilerplate pieces is an arbitrary function of the section.
*/
module HeadingStack {
  import opened Ordering

  datatype Part = Blank | Text(body: string) | Heading(level: nat, title: string, body: string)

  datatype Entry = Entry(level: nat, title: string)

  datatype Section = Section(breadcrumb: seq<Entry>, body: string)

  datatype Piece = Piece(text: string, index: nat)

  // ---------------------------------------------------------------- the stack as the code builds it

  predicate HeadingAt(parts: seq<Part>, j: nat) {
    j < |parts| && parts[j].Heading?
  }

  predicate AllHeadings(parts: seq<Part>, stack: seq<nat>) {
    forall k :: 0 <= k < |stack| ==> HeadingAt(parts, stack[k])
  }

  /** The entries of the stack that are shallower than a level, as positions of headings. */
  function Shallower(parts: seq<Part>, stack: seq<nat>, level: nat): (r: seq<nat>)
    requires AllHeadings(parts, stack)
    ensures AllHeadings(parts, r)
  {
    if stack == [] then []
    else
      var last := stack[|stack| - 1];
      Shallower(parts, stack[..|stack| - 1], level) + if parts[last].level < level then [last] else []
  }

  lemma {:induction false} ShallowerMembers(parts: seq<Part>, stack: seq<nat>, level: nat, j: nat)
    requires AllHeadings(parts, stack)
    ensures j in Shallower(parts, stack, level) <==> j in stack && parts[j].level < level
    decreases |stack|
  {
    if stack != [] {
      var before, last := stack[..|stack| - 1], stack[|stack| - 1];
      ShallowerMembers(parts, before, level, j);
      assert j in stack <==> j in before || j == last;
    }
  }

  /** The positions of the headings on the stack once the first i parts are read. */
  function OpenAt(parts: seq<Part>, i: nat): (stack: seq<nat>)
    requires i <= |parts|
    ensures AllHeadings(parts, stack)
  {
    if i == 0 then []
    else if parts[i - 1].Heading? then Shallower(parts, OpenAt(parts, i - 1), parts[i - 1].level) + [i - 1]
    else OpenAt(parts, i - 1)
  }

  // ---------------------------------------------------------------- what the stack means

  /** j is a heading read so far, and every heading read after it is deeper. */
  ghost predicate Encloses(parts: seq<Part>, i: nat, j: nat)
    requires i <= |parts|
  {
    && j < i && parts[j].Heading?
    && forall k :: j < k < i && parts[k].Heading? ==> parts[k].level > parts[j].level
  }

  predicate Under(parts: seq<Part>, a: nat, b: nat)
    requires HeadingAt(parts, a) && HeadingAt(parts, b)
  {
    a < b && parts[a].level < parts[b].level
  }

  /** Positions and levels both increase along the stack. */
  ghost predicate Nested(parts: seq<Part>, stack: seq<nat>)
    requires AllHeadings(parts, stack)
  {
    forall k, m {:trigger Under(parts, stack[k], stack[m])} :: 0 <= k < m < |stack| ==> Under(parts, stack[k], stack[m])
  }

  lemma PushNested(parts: seq<Part>, stack: seq<nat>, j: nat)
    requires AllHeadings(parts, stack) && Nested(parts, stack) && HeadingAt(parts, j)
    requires forall k :: 0 <= k < |stack| ==> Under(parts, stack[k], j)
    ensures AllHeadings(parts, stack + [j]) && Nested(parts, stack + [j])
  {
    var more := stack + [j];
    forall k, m | 0 <= k < m < |more| ensures Under(parts, more[k], more[m]) {
      assert m < |stack| ==> Under(parts, stack[k], stack[m]);
    }
  }

  lemma PopNested(parts: seq<Part>, stack: seq<nat>, n: nat)
    requires AllHeadings(parts, stack) && Nested(parts, stack) && n <= |stack|
    ensures Nested(parts, stack[..n])
  {
    forall k, m | 0 <= k < m < n ensures Under(parts, stack[..n][k], stack[..n][m]) {
      assert Under(parts, stack[k], stack[m]);
    }
  }

  /** On a nested stack the filter pops: it keeps the bottom of the stack. */
  lemma {:induction false} FilterPops(parts: seq<Part>, stack: seq<nat>, level: nat)
    requires AllHeadings(parts, stack) && Nested(parts, stack)
    ensures |Shallower(parts, stack, level)| <= |stack|
    ensures Shallower(parts, stack, level) == stack[..|Shallower(parts, stack, level)|]
    decreases |stack|
  {
    if stack != [] {
      var n := |stack| - 1;
      PopNested(parts, stack, n);
      FilterPops(parts, stack[..n], level);
      if parts[stack[n]].level < level {
        TopShallower(parts, stack, level);
      } else {
        var kept := |Shallower(parts, stack[..n], level)|;
        assert stack[..n][..kept] == stack[..kept];
      }
    }
  }

  lemma {:induction false} TopShallower(parts: seq<Part>, stack: seq<nat>, level: nat)
    requires AllHeadings(parts, stack) && Nested(parts, stack)
    requires stack != [] ==> parts[stack[|stack| - 1]].level < level
    ensures Shallower(parts, stack, level) == stack
    decreases |stack|
  {
    if stack != [] {
      var n := |stack| - 1;
      assert n > 0 ==> Under(parts, stack[n - 1], stack[n]);
      PopNested(parts, stack, n);
      TopShallower(parts, stack[..n], level);
      assert stack == stack[..n] + [stack[n]];
    }
  }

  lemma {:induction false} OpenBefore(parts: seq<Part>, i: nat, j: nat)
    requires i <= |parts| && j in OpenAt(parts, i)
    ensures j < i
    decreases i
  {
    if i > 0 && j != i - 1 {
      if parts[i - 1].Heading? {
        ShallowerMembers(parts, OpenAt(parts, i - 1), parts[i - 1].level, j);
      }
      OpenBefore(parts, i - 1, j);
    }
  }

  /** At every point the levels on the stack are strictly increasing. */
  lemma {:induction false} LevelsIncrease(parts: seq<Part>, i: nat)
    requires i <= |parts|
    ensures Nested(parts, OpenAt(parts, i))
    decreases i
  {
    if i > 0 {
      LevelsIncrease(parts, i - 1);
      if parts[i - 1].Heading? {
        var open, level := OpenAt(parts, i - 1), parts[i - 1].level;
        var rest := Shallower(parts, open, level);
        FilterPops(parts, open, level);
        PopNested(parts, open, |rest|);
        forall k | 0 <= k < |rest| ensures Under(parts, rest[k], i - 1) {
          ShallowerMembers(parts, open, level, rest[k]);
          OpenBefore(parts, i - 1, rest[k]);
        }
        PushNested(parts, rest, i - 1);
      }
    }
  }

  /** A heading is on the stack exactly when no later heading has an equal or shallower level. */
  lemma {:induction false} OnStackIffEncloses(parts: seq<Part>, i: nat, j: nat)
    requires i <= |parts|
    ensures j in OpenAt(parts, i) <==> Encloses(parts, i, j)
    decreases i
  {
    if i > 0 {
      OnStackIffEncloses(parts, i - 1, j);
      if parts[i - 1].Heading? {
        ShallowerMembers(parts, OpenAt(parts, i - 1), parts[i - 1].level, j);
      }
    }
  }

  /** The entry below b on the stack is the nearest heading before b with a shallower level than b. */
  lemma EnclosedByNearest(parts: seq<Part>, i: nat, p: nat)
    requires i <= |parts| && p + 1 < |OpenAt(parts, i)|
    ensures var a, b := OpenAt(parts, i)[p], OpenAt(parts, i)[p + 1];
            a < b && parts[a].level < parts[b].level
            && forall k :: a < k < b && parts[k].Heading? ==> parts[k].level >= parts[b].level
  {
    var stack := OpenAt(parts, i);
    LevelsIncrease(parts, i);
    var a, b := stack[p], stack[p + 1];
    assert Under(parts, a, b);
    OnStackIffEncloses(parts, i, b);
    NoneBetween(parts, i, p, b);
  }

  /** The headings of positions b down to lo are no shallower than b. */
  lemma {:induction false} NoneBetween(parts: seq<Part>, i: nat, p: nat, lo: nat)
    requires i <= |parts| && p + 1 < |OpenAt(parts, i)|
    requires OpenAt(parts, i)[p] < lo <= OpenAt(parts, i)[p + 1]
    requires Nested(parts, OpenAt(parts, i))
    requires Encloses(parts, i, OpenAt(parts, i)[p + 1])
    requires forall k :: lo <= k < OpenAt(parts, i)[p + 1] && parts[k].Heading? ==>
               parts[k].level >= parts[OpenAt(parts, i)[p + 1]].level
    ensures forall k :: OpenAt(parts, i)[p] < k < OpenAt(parts, i)[p + 1] && parts[k].Heading? ==>
               parts[k].level >= parts[OpenAt(parts, i)[p + 1]].level
    decreases lo
  {
    var stack := OpenAt(parts, i);
    if stack[p] < lo - 1 {
      if parts[lo - 1].Heading? && parts[lo - 1].level < parts[stack[p + 1]].level {
        OnStackIffEncloses(parts, i, lo - 1);
        NotBetween(parts, stack, p, lo - 1);
        assert false;
      }
      NoneBetween(parts, i, p, lo - 1);
    }
  }

  lemma NotBetween(parts: seq<Part>, stack: seq<nat>, p: nat, j: nat)
    requires AllHeadings(parts, stack) && Nested(parts, stack) && p + 1 < |stack|
    ensures stack[p] < j < stack[p + 1] ==> j !in stack
  {
    if j in stack {
      var m :| 0 <= m < |stack| && stack[m] == j;
      assert m < p ==> Under(parts, stack[m], stack[p]);
      assert m > p + 1 ==> Under(parts, stack[p + 1], stack[m]);
    }
  }

  /** A breadcrumb names at most as many headings as there are levels, six in markdown. */
  lemma BreadcrumbDepth(parts: seq<Part>, i: nat, levels: nat)
    requires i <= |parts| && forall k :: 0 <= k < |parts| && parts[k].Heading? ==> 1 <= parts[k].level <= levels
    ensures |OpenAt(parts, i)| <= levels
  {
    LevelsIncrease(parts, i);
    var stack := OpenAt(parts, i);
    if stack != [] {
      LevelAtLeast(parts, stack, |stack| - 1);
    }
  }

  lemma {:induction false} LevelAtLeast(parts: seq<Part>, stack: seq<nat>, k: nat)
    requires AllHeadings(parts, stack) && Nested(parts, stack) && k < |stack|
    requires forall h :: 0 <= h < |parts| && parts[h].Heading? ==> 1 <= parts[h].level
    ensures parts[stack[k]].level >= k + 1
  {
    assert HeadingAt(parts, stack[k]);
    if k > 0 {
      assert Under(parts, stack[k - 1], stack[k]);
      LevelAtLeast(parts, stack, k - 1);
    }
  }

  // ---------------------------------------------------------------- the loop

  function Entries(parts: seq<Part>, stack: seq<nat>): (r: seq<Entry>)
    requires AllHeadings(parts, stack)
    ensures |r| == |stack|
    ensures forall k :: 0 <= k < |r| ==> r[k] == Entry(parts[stack[k]].level, parts[stack[k]].title)
  {
    seq(|stack|, k requires 0 <= k < |stack| => Entry(parts[stack[k]].level, parts[stack[k]].title))
  }

  function Below(stack: seq<Entry>, level: nat): (r: seq<Entry>) {
    if stack == [] then []
    else
      var last := stack[|stack| - 1];
      Below(stack[..|stack| - 1], level) + if last.level < level then [last] else []
  }

  lemma {:induction false} BelowIsShallower(parts: seq<Part>, stack: seq<nat>, level: nat)
    requires AllHeadings(parts, stack)
    ensures Below(Entries(parts, stack), level) == Entries(parts, Shallower(parts, stack, level))
    decreases |stack|
  {
    if stack != [] {
      var before := stack[..|stack| - 1];
      BelowIsShallower(parts, before, level);
      assert Entries(parts, stack)[..|stack| - 1] == Entries(parts, before);
    }
  }

  predicate HasBody(part: Part) {
    !part.Blank? && part.body != ""
  }

  /** The section that part i opens: its body under the headings that enclose it. */
  function SectionOf(parts: seq<Part>, i: nat): Section
    requires i < |parts| && HasBody(parts[i])
  {
    Section(Entries(parts, OpenAt(parts, i + 1)), parts[i].body)
  }

  /** The sections of the first i parts, in document order. */
  function Sections(parts: seq<Part>, i: nat): seq<Section>
    requires i <= |parts|
  {
    if i == 0 then []
    else Sections(parts, i - 1) + if HasBody(parts[i - 1]) then [SectionOf(parts, i - 1)] else []
  }

  /** The pieces of all sections, in order. */
  function AllPieces(sections: seq<Section>, pieces: Section -> seq<string>): seq<string> {
    if sections == [] then []
    else AllPieces(sections[..|sections| - 1], pieces) + pieces(sections[|sections| - 1])
  }

  ghost predicate Numbered(chunks: seq<Piece>, texts: seq<string>) {
    |chunks| == |texts| && forall k :: 0 <= k < |chunks| ==> chunks[k] == Piece(texts[k], k)
  }

  lemma StackStep(parts: seq<Part>, i: nat)
    requires i < |parts|
    ensures Entries(parts, OpenAt(parts, i + 1))
            == if parts[i].Heading?
               then Below(Entries(parts, OpenAt(parts, i)), parts[i].level) + [Entry(parts[i].level, parts[i].title)]
               else Entries(parts, OpenAt(parts, i))
  {
    if parts[i].Heading? {
      BelowIsShallower(parts, OpenAt(parts, i), parts[i].level);
    }
  }

  lemma SectionsStep(parts: seq<Part>, i: nat, pieces: Section -> seq<string>)
    requires i < |parts|
    ensures AllPieces(Sections(parts, i + 1), pieces)
            == AllPieces(Sections(parts, i), pieces) + if HasBody(parts[i]) then pieces(SectionOf(parts, i)) else []
  {
    if HasBody(parts[i]) {
      assert Sections(parts, i + 1)[..|Sections(parts, i)|] == Sections(parts, i);
    } else {
      assert Sections(parts, i + 1) == Sections(parts, i);
    }
  }

  // ---------------------------------------------------------------- the sections, on the parts themselves

  /** path lists, in document order, the headings that enclose the text of part i, its own included. */
  ghost predicate IsPath(parts: seq<Part>, i: nat, path: seq<nat>)
    requires i < |parts|
  {
    KeptOf(path, i + 1) && forall j: nat :: j in path <==> Encloses(parts, i + 1, j)
  }

  ghost predicate NamesPath(parts: seq<Part>, path: seq<nat>, breadcrumb: seq<Entry>) {
    |breadcrumb| == |path| && forall k :: 0 <= k < |path| ==>
      HeadingAt(parts, path[k]) && breadcrumb[k] == Entry(parts[path[k]].level, parts[path[k]].title)
  }

  /** The section holds the text of part i under the enclosing headings, outermost first. */
  ghost predicate IsSection(parts: seq<Part>, i: nat, s: Section)
    requires i < |parts|
  {
    && !parts[i].Blank? && s.body == parts[i].body
    && exists path :: IsPath(parts, i, path) && NamesPath(parts, path, s.breadcrumb)
  }

  /** One section for each of the first n parts with text, in order. */
  ghost predicate AreSections(parts: seq<Part>, n: nat, origin: seq<nat>, sections: seq<Section>)
    requires n <= |parts|
  {
    && KeptOf(origin, n) && |sections| == |origin|
    && (forall i: nat :: i in origin <==> i < n && !parts[i].Blank? && parts[i].body != "")
    && (forall k :: 0 <= k < |origin| ==> IsSection(parts, origin[k], sections[k]))
  }

  lemma AscendingStack(parts: seq<Part>, i: nat)
    requires i < |parts|
    ensures IsPath(parts, i, OpenAt(parts, i + 1))
  {
    var stack := OpenAt(parts, i + 1);
    LevelsIncrease(parts, i + 1);
    forall j: nat ensures j in stack <==> Encloses(parts, i + 1, j) {
      OnStackIffEncloses(parts, i + 1, j);
    }
    forall k, m | 0 <= k < m < |stack| ensures stack[k] < stack[m] {
      assert Under(parts, stack[k], stack[m]);
    }
    forall k | 0 <= k < |stack| ensures stack[k] < i + 1 {
      assert stack[k] in stack;
    }
  }

  lemma SectionOfIsSection(parts: seq<Part>, i: nat)
    requires i < |parts| && HasBody(parts[i])
    ensures IsSection(parts, i, SectionOf(parts, i))
  {
    AscendingStack(parts, i);
    assert NamesPath(parts, OpenAt(parts, i + 1), SectionOf(parts, i).breadcrumb);
  }

  lemma {:induction false} SectionsAreSections(parts: seq<Part>, n: nat) returns (origin: seq<nat>)
    requires n <= |parts|
    ensures AreSections(parts, n, origin, Sections(parts, n))
    decreases n
  {
    origin := [];
    if n > 0 {
      origin := SectionsAreSections(parts, n - 1);
      if HasBody(parts[n - 1]) {
        SectionOfIsSection(parts, n - 1);
        OneMoreSection(parts, n - 1, origin, Sections(parts, n - 1), SectionOf(parts, n - 1));
        origin := origin + [n - 1];
      } else {
        NoMoreSection(parts, n - 1, origin, Sections(parts, n - 1));
      }
    }
  }

  lemma OneMoreSection(parts: seq<Part>, n: nat, origin: seq<nat>, sections: seq<Section>, s: Section)
    requires n < |parts| && AreSections(parts, n, origin, sections)
    requires IsSection(parts, n, s) && parts[n].body != ""
    ensures AreSections(parts, n + 1, origin + [n], sections + [s])
  {
    var more, all := origin + [n], sections + [s];
    forall i: nat ensures i in more <==> i in origin || i == n {
    }
    forall k | 0 <= k < |more| ensures IsSection(parts, more[k], all[k]) {
      if k < |origin| {
        assert more[k] == origin[k] && all[k] == sections[k];
      }
    }
  }

  lemma NoMoreSection(parts: seq<Part>, n: nat, origin: seq<nat>, sections: seq<Section>)
    requires n < |parts| && AreSections(parts, n, origin, sections) && !HasBody(parts[n])
    ensures AreSections(parts, n + 1, origin, sections)
  {
  }

  function PiecesOf(sections: seq<Section>, pieces: Section -> seq<string>): (lists: seq<seq<string>>)
    ensures |lists| == |sections| && forall k :: 0 <= k < |sections| ==> lists[k] == pieces(sections[k])
  {
    seq(|sections|, k requires 0 <= k < |sections| => pieces(sections[k]))
  }

  lemma {:induction false} AllPiecesFlatten(sections: seq<Section>, pieces: Section -> seq<string>)
    ensures AllPieces(sections, pieces) == Flatten(PiecesOf(sections, pieces))
    decreases |sections|
  {
    if sections != [] {
      var last := |sections| - 1;
      AllPiecesFlatten(sections[..last], pieces);
      assert PiecesOf(sections, pieces)[..last] == PiecesOf(sections[..last], pieces);
    }
  }

  /** The chunks are the pieces of the sections of all parts with text, numbered in document order. */
  ghost predicate SplitsDocument(parts: seq<Part>, pieces: Section -> seq<string>, chunks: seq<Piece>) {
    exists origin, sections :: AreSections(parts, |parts|, origin, sections)
      && Numbered(chunks, Flatten(PiecesOf(sections, pieces)))
  }

  lemma NumberedSplits(parts: seq<Part>, pieces: Section -> seq<string>, chunks: seq<Piece>)
    requires Numbered(chunks, AllPieces(Sections(parts, |parts|), pieces))
    ensures SplitsDocument(parts, pieces, chunks)
  {
    var origin := SectionsAreSections(parts, |parts|);
    AllPiecesFlatten(Sections(parts, |parts|), pieces);
  }

  /** The inner loop: every piece becomes a chunk with the next index. */
  method AppendPieces(chunks: seq<Piece>, chunkIdx: nat, subs: seq<string>, ghost texts: seq<string>)
    returns (more: seq<Piece>, nextIdx: nat)
    requires Numbered(chunks, texts) && chunkIdx == |chunks|
    ensures Numbered(more, texts + subs) && nextIdx == |more|
  {
    more, nextIdx := chunks, chunkIdx;
    for s := 0 to |subs|
      invariant nextIdx == |more| && Numbered(more, texts + subs[..s])
    {
      more := more + [Piece(subs[s], nextIdx)];
      nextIdx := nextIdx + 1;
      assert subs[..s + 1] == subs[..s] + [subs[s]];
    }
    assert subs[..|subs|] == subs;
  }

  /** The pieces of every section with text, each section under its enclosing headings, numbered from 0. */
  method HeadingSplit(parts: seq<Part>, pieces: Section -> seq<string>) returns (chunks: seq<Piece>)
    ensures Numbered(chunks, AllPieces(Sections(parts, |parts|), pieces))
    ensures SplitsDocument(parts, pieces, chunks)
  {
    chunks := [];
    var chunkIdx := 0;
    var headingStack: seq<Entry> := [];
    for i := 0 to |parts|
      invariant headingStack == Entries(parts, OpenAt(parts, i))
      invariant chunkIdx == |chunks|
      invariant Numbered(chunks, AllPieces(Sections(parts, i), pieces))
    {
      var part := parts[i];
      StackStep(parts, i);
      SectionsStep(parts, i, pieces);
      if part.Heading? {
        headingStack := Below(headingStack, part.level);
        headingStack := headingStack + [Entry(part.level, part.title)];
      }
      if HasBody(part) {
        var subs := pieces(Section(headingStack, part.body));
        chunks, chunkIdx := AppendPieces(chunks, chunkIdx, subs, AllPieces(Sections(parts, i), pieces));
      }
    }
    NumberedSplits(parts, pieces, chunks);
  }
}
