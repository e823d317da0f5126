/**
  The evidence part of `draft`: one ledger per document, compacted; then compacted per source; then
  compacted as a whole. Every record that reaches the planner belongs to a supplied document.
*/
module CourseDraft {
  import opened Knowledge
  import opened Ordering
  import opened EvidenceReduction
  import opened EvidenceTasks

  // ---------------------------------------------------------------- grouping by source

  /** Sources in order of first appearance, as the keys of `by_source`. */
  function Keys(ledger: seq<Evidence>): seq<string> {
    if ledger == [] then []
    else
      var before, s := Keys(ledger[..|ledger| - 1]), ledger[|ledger| - 1].source;
      before + if s in before then [] else [s]
  }

  function Group(ledger: seq<Evidence>, s: string): (r: seq<Evidence>) {
    if ledger == [] then []
    else
      var e := ledger[|ledger| - 1];
      Group(ledger[..|ledger| - 1], s) + if e.source == s then [e] else []
  }

  lemma {:induction false} GroupMembers(ledger: seq<Evidence>, s: string)
    ensures forall e :: e in Group(ledger, s) <==> e in ledger && e.source == s
    ensures s in Keys(ledger) <==> s in Sources(ledger)
    decreases |ledger|
  {
    if ledger != [] {
      var init, last := ledger[..|ledger| - 1], ledger[|ledger| - 1];
      GroupMembers(init, s);
      assert forall e :: e in ledger <==> e in init || e == last;
    }
  }

  function SourceKeys(ledger: seq<Evidence>): (keys: seq<Option<string>>)
    ensures |keys| == |ledger| && forall i :: 0 <= i < |ledger| ==> keys[i] == Some(ledger[i].source)
  {
    seq(|ledger|, i requires 0 <= i < |ledger| => Some(ledger[i].source))
  }

  /** keys lists the sources of the first n records in the order of their first occurrences. */
  ghost predicate FirstSeenKeys(ledger: seq<Evidence>, n: nat, keys: seq<string>, origin: seq<nat>)
    requires n <= |ledger|
  {
    && FirstPositions(SourceKeys(ledger), n, origin) && |keys| == |origin|
    && forall k :: 0 <= k < |origin| ==> keys[k] == ledger[origin[k]].source
  }

  lemma KeyRepeats(ledger: seq<Evidence>, n: nat, keys: seq<string>, origin: seq<nat>)
    requires n < |ledger| && FirstSeenKeys(ledger, n, keys, origin) && ledger[n].source in keys
    ensures FirstSeenKeys(ledger, n + 1, keys, origin)
  {
    var k :| 0 <= k < |keys| && keys[k] == ledger[n].source;
    assert SourceKeys(ledger)[origin[k]] == SourceKeys(ledger)[n];
    FirstPositionsSkip(SourceKeys(ledger), n, origin);
  }

  lemma KeyIsNew(ledger: seq<Evidence>, n: nat, keys: seq<string>, origin: seq<nat>)
    requires n < |ledger| && FirstSeenKeys(ledger, n, keys, origin) && ledger[n].source !in keys
    ensures FirstSeenKeys(ledger, n + 1, keys + [ledger[n].source], origin + [n])
  {
    forall k | 0 <= k < |origin| ensures SourceKeys(ledger)[origin[k]] != SourceKeys(ledger)[n] {
      assert keys[k] in keys;
    }
    FirstPositionsTake(SourceKeys(ledger), n, origin);
  }

  lemma KeysNext(ledger: seq<Evidence>, n: nat)
    requires n < |ledger|
    ensures Keys(ledger[..n + 1])
         == Keys(ledger[..n]) + if ledger[n].source in Keys(ledger[..n]) then [] else [ledger[n].source]
  {
    assert ledger[..n + 1][..n] == ledger[..n];
  }

  /** The sources come in the order of their first records. */
  lemma {:induction false} KeysAreFirstSeen(ledger: seq<Evidence>, n: nat) returns (origin: seq<nat>)
    requires n <= |ledger|
    ensures FirstSeenKeys(ledger, n, Keys(ledger[..n]), origin)
    decreases n
  {
    origin := [];
    if n > 0 {
      var m: nat := n - 1;
      origin := KeysAreFirstSeen(ledger, m);
      KeysNext(ledger, m);
      if ledger[m].source in Keys(ledger[..m]) {
        KeyRepeats(ledger, m, Keys(ledger[..m]), origin);
      } else {
        KeyIsNew(ledger, m, Keys(ledger[..m]), origin);
        origin := origin + [m];
      }
    }
  }

  /** origin lists, in order, the records of the first n that have the source. */
  ghost predicate Picks(ledger: seq<Evidence>, s: string, n: nat, origin: seq<nat>)
    requires n <= |ledger|
  {
    KeptOf(origin, n) && forall i: nat :: i in origin <==> i < n && ledger[i].source == s
  }

  lemma PicksNext(ledger: seq<Evidence>, s: string, n: nat, origin: seq<nat>)
    requires n < |ledger| && Picks(ledger, s, n, origin)
    ensures Picks(ledger, s, n + 1, if ledger[n].source == s then origin + [n] else origin)
  {
    forall i: nat ensures i in origin + [n] <==> i in origin || i == n {
    }
  }

  lemma SelectNext(ledger: seq<Evidence>, n: nat, origin: seq<nat>)
    requires n < |ledger| && KeptOf(origin, n)
    ensures KeptOf(origin, |ledger|) && KeptOf(origin + [n], |ledger|)
    ensures Select(origin + [n], ledger) == Select(origin, ledger) + [ledger[n]]
  {
  }

  lemma GroupNext(ledger: seq<Evidence>, s: string, n: nat)
    requires n < |ledger|
    ensures Group(ledger[..n + 1], s) == Group(ledger[..n], s) + if ledger[n].source == s then [ledger[n]] else []
  {
    assert ledger[..n + 1][..n] == ledger[..n];
  }

  /** A group holds, in order, the records of its source. */
  lemma {:induction false} GroupIsInOrder(ledger: seq<Evidence>, s: string, n: nat) returns (origin: seq<nat>)
    requires n <= |ledger|
    ensures Picks(ledger, s, n, origin) && KeptOf(origin, |ledger|)
    ensures Group(ledger[..n], s) == Select(origin, ledger)
    decreases n
  {
    origin := [];
    if n > 0 {
      var m: nat := n - 1;
      origin := GroupIsInOrder(ledger, s, m);
      PicksNext(ledger, s, m, origin);
      SelectNext(ledger, m, origin);
      GroupNext(ledger, s, m);
      origin := if ledger[m].source == s then origin + [m] else origin;
    }
  }

  /** One ledger per document, each nonempty, about its own document, and within the source budget. */
  ghost predicate Segmented(segments: seq<seq<Evidence>>, ids: seq<string>, gateway: Gateway) {
    && |segments| == |ids|
    && forall i :: 0 <= i < |segments| ==>
         segments[i] != [] && AllFrom(segments[i], ids[i]) && gateway.estimate(segments[i]) <= SOURCE_LEDGER_BUDGET
  }

  lemma {:induction false} KeysOfConcat(ledger: seq<Evidence>, more: seq<Evidence>, id: string)
    requires AllFrom(more, id) && more != [] && id !in Sources(ledger)
    ensures Keys(ledger + more) == Keys(ledger) + [id]
    decreases |more|
  {
    var init, last := more[..|more| - 1], more[|more| - 1];
    assert last in more;
    assert (ledger + more)[..|ledger + more| - 1] == ledger + init;
    if init == [] {
      assert ledger + init == ledger;
      GroupMembers(ledger, id);
    } else {
      KeysOfConcat(ledger, init, id);
    }
  }

  lemma {:induction false} GroupOfConcat(ledger: seq<Evidence>, more: seq<Evidence>, s: string)
    ensures Group(ledger + more, s) == Group(ledger, s) + Group(more, s)
    decreases |more|
  {
    if more == [] {
      assert ledger + more == ledger;
    } else {
      assert (ledger + more)[..|ledger + more| - 1] == ledger + more[..|more| - 1];
      GroupOfConcat(ledger, more[..|more| - 1], s);
    }
  }

  lemma {:induction false} GroupOfOneSource(ledger: seq<Evidence>, id: string, s: string)
    requires AllFrom(ledger, id)
    ensures Group(ledger, s) == if s == id then ledger else []
    decreases |ledger|
  {
    if ledger != [] {
      assert ledger[|ledger| - 1] in ledger;
      GroupOfOneSource(ledger[..|ledger| - 1], id, s);
    }
  }

  /** The ledgers of the documents are found back, in document order, by grouping. */
  ghost predicate GroupsAre(ledger: seq<Evidence>, segments: seq<seq<Evidence>>, ids: seq<string>) {
    && Keys(ledger) == ids && |segments| == |ids|
    && (forall i :: 0 <= i < |ids| ==> Group(ledger, ids[i]) == segments[i])
    && (forall s :: s in Sources(ledger) ==> s in ids)
  }

  lemma GroupGrows(ledger: seq<Evidence>, more: seq<Evidence>, id: string, s: string)
    requires more != [] && AllFrom(more, id) && id !in Sources(ledger)
    ensures Group(ledger + more, s) == if s == id then more else Group(ledger, s)
  {
    GroupOfConcat(ledger, more, s);
    GroupOfOneSource(more, id, s);
    GroupMembers(ledger, id);
    NoElements(Group(ledger, id));
  }

  lemma SourcesGrow(ledger: seq<Evidence>, more: seq<Evidence>, ids: seq<string>, id: string)
    requires AllFrom(more, id) && forall s :: s in Sources(ledger) ==> s in ids
    ensures forall s :: s in Sources(ledger + more) ==> s in ids + [id]
  {
    forall s | s in Sources(ledger + more) ensures s in ids + [id] {
      var e :| e in ledger + more && e.source == s;
      assert e in ledger ==> s in Sources(ledger);
    }
  }

  lemma GroupsGrow(ledger: seq<Evidence>, segments: seq<seq<Evidence>>, ids: seq<string>, more: seq<Evidence>,
                   id: string)
    requires GroupsAre(ledger, segments, ids) && id !in ids && more != [] && AllFrom(more, id)
    ensures GroupsAre(ledger + more, segments + [more], ids + [id])
  {
    KeysOfConcat(ledger, more, id);
    SourcesGrow(ledger, more, ids, id);
    forall i | 0 <= i < |ids| + 1 ensures Group(ledger + more, (ids + [id])[i]) == (segments + [more])[i] {
      GroupGrows(ledger, more, id, (ids + [id])[i]);
      assert i < |ids| ==> ids[i] in ids;
    }
  }

  /** With one document per id the groups are the documents' own ledgers, in document order. */
  lemma {:induction false} GroupsAreSegments(segments: seq<seq<Evidence>>, ids: seq<string>, gateway: Gateway)
    requires Segmented(segments, ids, gateway) && Distinct(ids)
    ensures GroupsAre(Flatten(segments), segments, ids)
    decreases |segments|
  {
    if segments != [] {
      var last := |segments| - 1;
      GroupsAreSegments(segments[..last], ids[..last], gateway);
      assert forall s :: s in ids[..last] ==> s != ids[last];
      GroupsGrow(Flatten(segments[..last]), segments[..last], ids[..last], segments[last], ids[last]);
      assert segments == segments[..last] + [segments[last]] && ids == ids[..last] + [ids[last]];
    }
  }

  // ---------------------------------------------------------------- the ledgers of the documents

  function DocumentIds(documents: seq<Document>): (ids: seq<string>)
    ensures |ids| == |documents| && forall i :: 0 <= i < |documents| ==> ids[i] == documents[i].id
  {
    seq(|documents|, i requires 0 <= i < |documents| => documents[i].id)
  }

  function DocumentTasks(documents: seq<Document>): (tasks: seq<Task>)
    ensures |tasks| == |documents|
    ensures forall i :: 0 <= i < |documents| ==> tasks[i] == ForDocument(documents[i])
  {
    seq(|documents|, i requires 0 <= i < |documents| => ForDocument(documents[i]))
  }

  method CollectLedgers(documents: seq<Document>, gateway: Gateway, first: nat)
    returns (outcome: Outcome<seq<Evidence>>, next: nat)
    ensures PassOutcome(DocumentTasks(documents), gateway, first, outcome, next)
  {
    next := first;
    var ledger: seq<Evidence> := [];
    ghost var tasks, parts, starts := DocumentTasks(documents), [], [first];
    for i := 0 to |documents|
      invariant |parts| == i && InTurn(tasks, gateway, first, parts, starts)
      invariant ledger == Flatten(parts) && next == starts[i]
    {
      var part;
      part, next := EvidenceForDocument(documents[i], gateway, next);
      if part.Raised? {
        assert PassEnds(tasks, gateway, first, parts, starts, part, next);
        return part, next;
      }
      InTurnNext(tasks, gateway, first, parts, starts, part.value, next);
      parts, starts := parts + [part.value], starts + [next];
      ledger := ledger + part.value;
    }
    outcome := Ok(ledger);
    assert PassEnds(tasks, gateway, first, parts, starts, outcome, next);
  }

  /** The nonempty ledgers and the ids of their documents. */
  function Segments(documents: seq<Document>, parts: seq<seq<Evidence>>): seq<seq<Evidence>>
    requires |parts| <= |documents|
  {
    if parts == [] then []
    else
      var n := |parts| - 1;
      Segments(documents, parts[..n]) + if parts[n] == [] then [] else [parts[n]]
  }

  function SegmentIds(documents: seq<Document>, parts: seq<seq<Evidence>>): seq<string>
    requires |parts| <= |documents|
  {
    if parts == [] then []
    else
      var n := |parts| - 1;
      SegmentIds(documents, parts[..n]) + if parts[n] == [] then [] else [documents[n].id]
  }

  lemma {:induction false} SegmentsOfParts(documents: seq<Document>, gateway: Gateway, first: nat,
                                           parts: seq<seq<Evidence>>, starts: seq<nat>)
    requires InTurn(DocumentTasks(documents), gateway, first, parts, starts)
    ensures Segmented(Segments(documents, parts), SegmentIds(documents, parts), gateway)
    decreases |parts|
  {
    if parts != [] {
      var n := |parts| - 1;
      InTurnPrefix(DocumentTasks(documents), gateway, first, parts, starts);
      SegmentsOfParts(documents, gateway, first, parts[..n], starts[..n + 1]);
      OwnLedger(documents[n], gateway, starts[n], parts[n], starts[n + 1]);
    }
  }

  lemma OwnLedger(document: Document, gateway: Gateway, first: nat, ledger: seq<Evidence>, next: nat)
    requires DocumentOutcome(document, gateway, first, Ok(ledger), next)
    ensures AllFrom(ledger, document.id)
    ensures ledger != [] ==> gateway.estimate(ledger) <= SOURCE_LEDGER_BUDGET
  {
    TaskIsSafe(ForDocument(document), gateway, first, ledger, next);
    forall e | e in ledger ensures e.source == document.id {
      assert e.source in Sources(ledger);
    }
  }

  lemma {:induction false} SegmentsFlatten(documents: seq<Document>, parts: seq<seq<Evidence>>)
    requires |parts| <= |documents|
    ensures Flatten(Segments(documents, parts)) == Flatten(parts)
    decreases |parts|
  {
    if parts != [] {
      var n := |parts| - 1;
      SegmentsFlatten(documents, parts[..n]);
      FlattenMaybe(Segments(documents, parts[..n]), parts[n], Segments(documents, parts));
    }
  }

  lemma FlattenMaybe(before: seq<seq<Evidence>>, more: seq<Evidence>, all: seq<seq<Evidence>>)
    requires all == before + if more == [] then [] else [more]
    ensures Flatten(all) == Flatten(before) + more
  {
    if more == [] {
      assert all == before;
    } else {
      FlattenAppend(before, more);
    }
  }

  lemma {:induction false} SegmentIdsKnown(documents: seq<Document>, parts: seq<seq<Evidence>>, id: string)
    requires |parts| <= |documents| && id in SegmentIds(documents, parts)
    ensures exists i :: 0 <= i < |parts| && documents[i].id == id
    decreases |parts|
  {
    var n := |parts| - 1;
    if parts[n] == [] || documents[n].id != id {
      SegmentIdsKnown(documents, parts[..n], id);
    }
  }

  lemma {:induction false} SegmentIdsDistinct(documents: seq<Document>, parts: seq<seq<Evidence>>)
    requires |parts| <= |documents| && Distinct(DocumentIds(documents))
    ensures Distinct(SegmentIds(documents, parts))
    decreases |parts|
  {
    if parts != [] {
      var n := |parts| - 1;
      SegmentIdsDistinct(documents, parts[..n]);
      var before := SegmentIds(documents, parts[..n]);
      forall k | 0 <= k < |before| ensures before[k] != documents[n].id {
        SegmentIdsKnown(documents, parts[..n], before[k]);
        var i :| 0 <= i < n && documents[i].id == before[k];
        assert DocumentIds(documents)[i] != DocumentIds(documents)[n];
      }
    }
  }

  // ---------------------------------------------------------------- the ledgers of the sources

  function SourceTasks(ledger: seq<Evidence>): (tasks: seq<Task>)
    ensures |tasks| == |Keys(ledger)|
    ensures forall i :: 0 <= i < |tasks| ==> tasks[i] == ForSource(Group(ledger, Keys(ledger)[i]))
  {
    var sources := Keys(ledger);
    seq(|sources|, i requires 0 <= i < |sources| => ForSource(Group(ledger, sources[i])))
  }

  /** The second pass: every source of the ledger compacted on its own. */
  method CompactPerSource(ledger: seq<Evidence>, gateway: Gateway, first: nat)
    returns (outcome: Outcome<seq<Evidence>>, next: nat)
    ensures PassOutcome(SourceTasks(ledger), gateway, first, outcome, next)
  {
    next := first;
    var sources := Keys(ledger);
    var compacted: seq<Evidence> := [];
    ghost var tasks, parts, starts := SourceTasks(ledger), [], [first];
    for i := 0 to |sources|
      invariant |parts| == i && InTurn(tasks, gateway, first, parts, starts)
      invariant compacted == Flatten(parts) && next == starts[i]
    {
      var part;
      part, next := Compact(Group(ledger, sources[i]), SOURCE_LEDGER_BUDGET, gateway, next);
      if part.Raised? {
        assert PassEnds(tasks, gateway, first, parts, starts, part, next);
        return part, next;
      }
      InTurnNext(tasks, gateway, first, parts, starts, part.value, next);
      parts, starts := parts + [part.value], starts + [next];
      compacted := compacted + part.value;
    }
    outcome := Ok(compacted);
    assert PassEnds(tasks, gateway, first, parts, starts, outcome, next);
  }

  lemma SourceTaskCites(ledger: seq<Evidence>, i: nat, s: string)
    requires i < |SourceTasks(ledger)| && s in TaskSources(SourceTasks(ledger)[i])
    ensures s in Sources(ledger)
  {
    var group := Group(ledger, Keys(ledger)[i]);
    GroupMembers(ledger, Keys(ledger)[i]);
    var e :| e in group && e.source == s;
    assert e in ledger;
  }

  lemma CompactCites(ledger: seq<Evidence>, gateway: Gateway, first: nat, compacted: seq<Evidence>, next: nat)
    requires PassOutcome(SourceTasks(ledger), gateway, first, Ok(compacted), next)
    ensures Sources(compacted) <= Sources(ledger)
  {
    var parts, starts :| PassEnds(SourceTasks(ledger), gateway, first, parts, starts, Ok(compacted), next);
    forall s | s in Sources(compacted) ensures s in Sources(ledger) {
      TurnCites(SourceTasks(ledger), gateway, first, parts, starts, s);
      var i :| 0 <= i < |SourceTasks(ledger)| && s in TaskSources(SourceTasks(ledger)[i]);
      SourceTaskCites(ledger, i, s);
    }
  }

  lemma IdleTask(tasks: seq<Task>, gateway: Gateway, call: nat, items: seq<Evidence>, i: nat)
    requires i < |tasks| && tasks[i] == ForSource(items) && gateway.estimate(items) <= SOURCE_LEDGER_BUDGET
    ensures TaskOutcome(tasks[i], gateway, call, Ok(items), call)
  {
    AlreadyCompact(items, gateway, call);
  }

  lemma {:induction false} IdleTurns(tasks: seq<Task>, gateway: Gateway, call: nat, segments: seq<seq<Evidence>>,
                                     n: nat)
    requires |tasks| == |segments| && n <= |segments|
    requires forall i :: 0 <= i < |segments| ==> tasks[i] == ForSource(segments[i])
    requires forall i :: 0 <= i < |segments| ==> gateway.estimate(segments[i]) <= SOURCE_LEDGER_BUDGET
    ensures InTurn(tasks, gateway, call, segments[..n], Still(call, n + 1))
    decreases n
  {
    if n == 0 {
      NoneDone(tasks, gateway, call);
      assert segments[..0] == [] && Still(call, 1) == [call];
    } else {
      var m: nat := n - 1;
      IdleTurns(tasks, gateway, call, segments, m);
      IdleTask(tasks, gateway, call, segments[m], m);
      InTurnNext(tasks, gateway, call, segments[..m], Still(call, m + 1), segments[m], call);
      StillNext(call, m + 1);
      assert segments[..m] + [segments[m]] == segments[..n];
    }
  }

  lemma AlreadyCompact(items: seq<Evidence>, gateway: Gateway, call: nat)
    requires gateway.estimate(items) <= SOURCE_LEDGER_BUDGET
    ensures ReducedTo(items, SOURCE_LEDGER_BUDGET, gateway, call, Ok(items), call)
  {
    assert IsReduction(items, SOURCE_LEDGER_BUDGET, gateway, call, [items], [call], Ok(items), call);
  }

  /**
    With distinct document ids the second pass is idle: every group is a document's own compact
    ledger, so it returns the collected ledger unchanged without a call, and can do nothing else.
  */
  lemma SecondPassIsIdle(documents: seq<Document>, gateway: Gateway, first: nat, ledger: seq<Evidence>, call: nat,
                         outcome: Outcome<seq<Evidence>>, next: nat)
    requires Distinct(DocumentIds(documents))
    requires PassOutcome(DocumentTasks(documents), gateway, first, Ok(ledger), call)
    requires PassOutcome(SourceTasks(ledger), gateway, call, outcome, next)
    ensures outcome == Ok(ledger) && next == call
  {
    var parts, starts :| PassEnds(DocumentTasks(documents), gateway, first, parts, starts, Ok(ledger), call);
    var segments, ids := Segments(documents, parts), SegmentIds(documents, parts);
    SegmentsOfParts(documents, gateway, first, parts, starts);
    SegmentsFlatten(documents, parts);
    SegmentIdsDistinct(documents, parts);
    GroupsAreSegments(segments, ids, gateway);
    IdlePass(ledger, segments, gateway, call);
    PassUnique(SourceTasks(ledger), gateway, call, outcome, next, Ok(ledger), call);
  }

  lemma IdlePass(ledger: seq<Evidence>, segments: seq<seq<Evidence>>, gateway: Gateway, call: nat)
    requires GroupsAre(ledger, segments, Keys(ledger)) && ledger == Flatten(segments)
    requires forall i :: 0 <= i < |segments| ==> gateway.estimate(segments[i]) <= SOURCE_LEDGER_BUDGET
    ensures PassOutcome(SourceTasks(ledger), gateway, call, Ok(ledger), call)
  {
    IdleTurns(SourceTasks(ledger), gateway, call, segments, |segments|);
    assert segments[..|segments|] == segments;
    PassDone(SourceTasks(ledger), gateway, call, segments, Still(call, |segments| + 1));
  }

  // ---------------------------------------------------------------- the draft

  ghost predicate FromDocuments(ledger: seq<Evidence>, documents: seq<Document>) {
    forall e :: e in ledger ==> exists d :: d in documents && d.id == e.source
  }

  lemma CollectedFromDocuments(documents: seq<Document>, gateway: Gateway, first: nat, ledger: seq<Evidence>, next: nat)
    requires PassOutcome(DocumentTasks(documents), gateway, first, Ok(ledger), next)
    ensures FromDocuments(ledger, documents)
  {
    var tasks := DocumentTasks(documents);
    var parts, starts :| PassEnds(tasks, gateway, first, parts, starts, Ok(ledger), next);
    forall e | e in ledger ensures exists d :: d in documents && d.id == e.source {
      assert e.source in Sources(ledger);
      TurnCites(tasks, gateway, first, parts, starts, e.source);
      var i :| 0 <= i < |tasks| && e.source in TaskSources(tasks[i]);
      assert documents[i] in documents;
    }
  }

  lemma CitedSources(ledger: seq<Evidence>, reduced: seq<Evidence>, documents: seq<Document>)
    requires FromDocuments(ledger, documents) && Sources(reduced) <= Sources(ledger)
    ensures FromDocuments(reduced, documents)
  {
    forall e | e in reduced ensures exists d :: d in documents && d.id == e.source {
      assert e.source in Sources(reduced);
      var g :| g in ledger && g.source == e.source;
    }
  }

  /** The second and third compaction of what the first pass collected. */
  ghost predicate CompactedTo(ledger: seq<Evidence>, gateway: Gateway, first: nat, outcome: Outcome<seq<Evidence>>,
                              next: nat)
  {
    exists compacted, call :: PassOutcome(SourceTasks(ledger), gateway, first, compacted, call)
      && if compacted.Raised? then outcome == compacted && next == call
         else ReducedTo(compacted.value, PLAN_LEDGER_BUDGET, gateway, call, outcome, next)
  }

  /** The draft's evidence, exactly: an error of the first pass, no evidence at all, or the compacted ledger. */
  ghost predicate DraftOutcome(documents: seq<Document>, gateway: Gateway, first: nat,
                               outcome: Outcome<seq<Evidence>>, next: nat)
  {
    exists collected, call :: PassOutcome(DocumentTasks(documents), gateway, first, collected, call)
      && if collected.Raised? then outcome == collected && next == call
         else if collected.value == [] then outcome == Raised(NoEvidence) && next == call
         else CompactedTo(collected.value, gateway, call, outcome, next)
  }

  method DraftLedger(documents: seq<Document>, gateway: Gateway, first: nat)
    returns (outcome: Outcome<seq<Evidence>>, next: nat)
    ensures DraftOutcome(documents, gateway, first, outcome, next)
  {
    var collected;
    collected, next := CollectLedgers(documents, gateway, first);
    if collected.Raised? {
      return collected, next;
    }
    if collected.value == [] {
      return Raised(NoEvidence), next;
    }
    var compacted;
    ghost var call := next;
    compacted, next := CompactPerSource(collected.value, gateway, next);
    if compacted.Raised? {
      assert CompactedTo(collected.value, gateway, call, compacted, next);
      return compacted, next;
    }
    outcome, next := Compact(compacted.value, PLAN_LEDGER_BUDGET, gateway, next);
    assert CompactedTo(collected.value, gateway, call, outcome, next);
  }

  /** The documents and the replies determine what the draft gets or raises. */
  lemma DraftUnique(documents: seq<Document>, gateway: Gateway, first: nat,
                    o: Outcome<seq<Evidence>>, m: nat, p: Outcome<seq<Evidence>>, n: nat)
    requires DraftOutcome(documents, gateway, first, o, m) && DraftOutcome(documents, gateway, first, p, n)
    ensures o == p && m == n
  {
    var a, j :| PassOutcome(DocumentTasks(documents), gateway, first, a, j)
      && if a.Raised? then o == a && m == j
         else if a.value == [] then o == Raised(NoEvidence) && m == j
         else CompactedTo(a.value, gateway, j, o, m);
    var b, k :| PassOutcome(DocumentTasks(documents), gateway, first, b, k)
      && if b.Raised? then p == b && n == k
         else if b.value == [] then p == Raised(NoEvidence) && n == k
         else CompactedTo(b.value, gateway, k, p, n);
    PassUnique(DocumentTasks(documents), gateway, first, a, j, b, k);
    if a.Ok? && a.value != [] {
      CompactedUnique(a.value, gateway, j, o, m, p, n);
    }
  }

  /** With distinct document ids the draft is the reduction of all document ledgers, one after the other. */
  lemma DistinctDocumentsReduceOnce(documents: seq<Document>, gateway: Gateway, first: nat,
                                    collected: seq<Evidence>, call: nat, outcome: Outcome<seq<Evidence>>, next: nat)
    requires Distinct(DocumentIds(documents)) && collected != []
    requires PassOutcome(DocumentTasks(documents), gateway, first, Ok(collected), call)
    requires DraftOutcome(documents, gateway, first, outcome, next)
    ensures ReducedTo(collected, 3600, gateway, call, outcome, next)
  {
    var c, j :| PassOutcome(DocumentTasks(documents), gateway, first, c, j)
      && if c.Raised? then outcome == c && next == j
         else if c.value == [] then outcome == Raised(NoEvidence) && next == j
         else CompactedTo(c.value, gateway, j, outcome, next);
    PassUnique(DocumentTasks(documents), gateway, first, c, j, Ok(collected), call);
    DistinctCompact(documents, gateway, first, collected, call, outcome, next);
  }

  lemma DistinctCompact(documents: seq<Document>, gateway: Gateway, first: nat,
                        collected: seq<Evidence>, call: nat, outcome: Outcome<seq<Evidence>>, next: nat)
    requires Distinct(DocumentIds(documents))
    requires PassOutcome(DocumentTasks(documents), gateway, first, Ok(collected), call)
    requires CompactedTo(collected, gateway, call, outcome, next)
    ensures ReducedTo(collected, PLAN_LEDGER_BUDGET, gateway, call, outcome, next)
  {
    var compacted, middle :| PassOutcome(SourceTasks(collected), gateway, call, compacted, middle)
      && if compacted.Raised? then outcome == compacted && next == middle
         else ReducedTo(compacted.value, PLAN_LEDGER_BUDGET, gateway, middle, outcome, next);
    SecondPassIsIdle(documents, gateway, first, collected, call, compacted, middle);
  }

  lemma CompactedUnique(ledger: seq<Evidence>, gateway: Gateway, first: nat,
                        o: Outcome<seq<Evidence>>, m: nat, p: Outcome<seq<Evidence>>, n: nat)
    requires CompactedTo(ledger, gateway, first, o, m) && CompactedTo(ledger, gateway, first, p, n)
    ensures o == p && m == n
  {
    var a, j :| PassOutcome(SourceTasks(ledger), gateway, first, a, j)
      && if a.Raised? then o == a && m == j else ReducedTo(a.value, PLAN_LEDGER_BUDGET, gateway, j, o, m);
    var b, k :| PassOutcome(SourceTasks(ledger), gateway, first, b, k)
      && if b.Raised? then p == b && n == k else ReducedTo(b.value, PLAN_LEDGER_BUDGET, gateway, k, p, n);
    PassUnique(SourceTasks(ledger), gateway, first, a, j, b, k);
    if a.Ok? {
      ReductionUnique(a.value, PLAN_LEDGER_BUDGET, gateway, j, o, m, p, n);
    }
  }

  lemma CompactedIsSafe(documents: seq<Document>, ledger: seq<Evidence>, gateway: Gateway, first: nat,
                        outcome: Outcome<seq<Evidence>>, next: nat)
    requires CompactedTo(ledger, gateway, first, outcome, next) && FromDocuments(ledger, documents)
    ensures outcome.Ok? ==> FromDocuments(outcome.value, documents)
    ensures outcome.Ok? ==> gateway.estimate(outcome.value) <= PLAN_LEDGER_BUDGET
  {
    var compacted, call :| PassOutcome(SourceTasks(ledger), gateway, first, compacted, call)
      && if compacted.Raised? then outcome == compacted && next == call
         else ReducedTo(compacted.value, PLAN_LEDGER_BUDGET, gateway, call, outcome, next);
    if outcome.Ok? {
      CompactCites(ledger, gateway, first, compacted.value, call);
      ReducedIsSafe(compacted.value, PLAN_LEDGER_BUDGET, gateway, call, outcome, next);
      CitedSources(ledger, outcome.value, documents);
    }
  }

  /** For any model: the ledger handed to the planner is inside its budget, and about supplied documents only. */
  lemma DraftIsSafe(documents: seq<Document>, gateway: Gateway, first: nat, outcome: Outcome<seq<Evidence>>, next: nat)
    requires DraftOutcome(documents, gateway, first, outcome, next)
    ensures outcome.Ok? ==> FromDocuments(outcome.value, documents)
    ensures outcome.Ok? ==> gateway.estimate(outcome.value) <= PLAN_LEDGER_BUDGET
  {
    var collected, call :| PassOutcome(DocumentTasks(documents), gateway, first, collected, call)
      && if collected.Raised? then outcome == collected && next == call
         else if collected.value == [] then outcome == Raised(NoEvidence) && next == call
         else CompactedTo(collected.value, gateway, call, outcome, next);
    if collected.Ok? && collected.value != [] {
      CollectedFromDocuments(documents, gateway, first, collected.value, call);
      CompactedIsSafe(documents, collected.value, gateway, call, outcome, next);
    }
  }

  function Blanks(n: nat): (parts: seq<seq<Evidence>>)
    ensures |parts| == n && forall i :: 0 <= i < n ==> parts[i] == []
  {
    seq(n, i => [])
  }

  lemma BlankTask(documents: seq<Document>, gateway: Gateway, first: nat, i: nat)
    requires i < |documents| && documents[i].parts == Some(0)
    ensures TaskOutcome(DocumentTasks(documents)[i], gateway, first, Ok([]), first)
  {
    assert AllAnswered(gateway, first, 0) && Extraction(documents[i].id, gateway, first, 0) == [];
  }

  lemma {:induction false} BlankTurns(documents: seq<Document>, gateway: Gateway, first: nat, n: nat)
    requires n <= |documents| && forall i :: 0 <= i < |documents| ==> documents[i].parts == Some(0)
    ensures InTurn(DocumentTasks(documents), gateway, first, Blanks(n), Still(first, n + 1))
    ensures Flatten(Blanks(n)) == []
    decreases n
  {
    if n == 0 {
      NoneDone(DocumentTasks(documents), gateway, first);
      assert Blanks(0) == [] && Still(first, 1) == [first];
    } else {
      var m: nat := n - 1;
      BlankTurns(documents, gateway, first, m);
      BlankTask(documents, gateway, first, m);
      InTurnNext(DocumentTasks(documents), gateway, first, Blanks(m), Still(first, m + 1), [], first);
      StillNext(first, m + 1);
      assert Blanks(m) + [[]] == Blanks(n);
    }
  }

  /** Documents with blank text only raise, without any call. */
  lemma BlankDocumentsRaise(documents: seq<Document>, gateway: Gateway, first: nat, outcome: Outcome<seq<Evidence>>,
                            next: nat)
    requires forall i :: 0 <= i < |documents| ==> documents[i].parts == Some(0)
    requires DraftOutcome(documents, gateway, first, outcome, next)
    ensures outcome == Raised(NoEvidence) && next == first
  {
    var n, tasks := |documents|, DocumentTasks(documents);
    BlankTurns(documents, gateway, first, n);
    PassDone(tasks, gateway, first, Blanks(n), Still(first, n + 1));
    var collected, call :| PassOutcome(tasks, gateway, first, collected, call)
      && if collected.Raised? then outcome == collected && next == call
         else if collected.value == [] then outcome == Raised(NoEvidence) && next == call
         else CompactedTo(collected.value, gateway, call, outcome, next);
    PassUnique(tasks, gateway, first, collected, call, Ok([]), first);
  }
}
