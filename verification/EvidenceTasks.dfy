/**
  Ledgers made one after the other: one for each document, from the model's answers to its parts, or
  one for each source, by compaction. The first one that fails ends the pass. What a pass returns or
  raises is determined by the model's replies.
*/
module EvidenceTasks {
  import opened Knowledge
  import opened Ordering
  import opened EvidenceReduction

  /**
    A document and the number of batches its text makes: None if no text can be obtained, Some(0) if
    the text is blank.
  */
  datatype Document = Document(id: string, parts: Option<nat>)

  datatype Task = ForDocument(document: Document) | ForSource(items: seq<Evidence>)

  // ---------------------------------------------------------------- one document

  /** The record the service makes of one extracted item; the document is never taken from the model. */
  function Extracted(id: string, item: Evidence): Evidence {
    Evidence(id, item.excerpt, "",
             if item.topics != [] then item.topics else if item.topic != "" then [item.topic] else [])
  }

  function ExtractedAll(id: string, items: seq<Evidence>): (r: seq<Evidence>)
    ensures |r| == |items| && forall i :: 0 <= i < |items| ==> r[i] == Extracted(id, items[i])
  {
    seq(|items|, i requires 0 <= i < |items| => Extracted(id, items[i]))
  }

  ghost predicate AllFrom(ledger: seq<Evidence>, id: string) {
    forall e :: e in ledger ==> e.source == id
  }

  ghost predicate AllAnswered(gateway: Gateway, first: nat, n: nat) {
    forall call: nat :: first <= call < first + n ==> gateway.reply(call).Some?
  }

  /** Call next - 1 is the first of n calls that failed. */
  ghost predicate FailsBefore(gateway: Gateway, first: nat, n: nat, next: nat) {
    first < next <= first + n && AllAnswered(gateway, first, next - 1 - first) && gateway.reply(next - 1).None?
  }

  /** What the replies to the first n parts of the text amount to. */
  function Extraction(id: string, gateway: Gateway, first: nat, n: nat): seq<Evidence>
    requires AllAnswered(gateway, first, n)
  {
    if n == 0 then []
    else Extraction(id, gateway, first, n - 1) + ExtractedAll(id, Capped(gateway.reply(first + n - 1).value))
  }

  lemma {:induction false} ExtractionIsOwn(id: string, gateway: Gateway, first: nat, n: nat)
    requires AllAnswered(gateway, first, n)
    ensures AllFrom(Extraction(id, gateway, first, n), id)
    decreases n
  {
    if n > 0 {
      ExtractionIsOwn(id, gateway, first, n - 1);
    }
  }

  /** The document's id and the item's excerpt; its topics, or its single topic if it has none. */
  ghost predicate IsExtracted(id: string, item: Evidence, e: Evidence) {
    && e.source == id && e.excerpt == item.excerpt && e.topic == ""
    && (item.topics != [] ==> e.topics == item.topics)
    && (item.topics == [] && item.topic != "" ==> e.topics == [item.topic])
    && (item.topics == [] && item.topic == "" ==> e.topics == [])
  }

  /** out holds, in order, the first four items of the reply. */
  ghost predicate CallExtracts(id: string, reply: Option<seq<Evidence>>, out: seq<Evidence>) {
    && reply.Some? && |out| == (if |reply.value| <= 4 then |reply.value| else 4)
    && forall k :: 0 <= k < |out| ==> IsExtracted(id, reply.value[k], out[k])
  }

  /** raw is what the replies to the n parts of the text say, part after part. */
  ghost predicate IsExtraction(id: string, gateway: Gateway, first: nat, n: nat, raw: seq<Evidence>) {
    exists parts :: PartsExtract(id, gateway, first, parts) && |parts| == n && raw == Flatten(parts)
  }

  ghost predicate PartsExtract(id: string, gateway: Gateway, first: nat, parts: seq<seq<Evidence>>) {
    forall c :: 0 <= c < |parts| ==> CallExtracts(id, gateway.reply(first + c), parts[c])
  }

  lemma CallIsExtracted(id: string, gateway: Gateway, call: nat)
    requires gateway.reply(call).Some?
    ensures CallExtracts(id, gateway.reply(call), ExtractedAll(id, Capped(gateway.reply(call).value)))
  {
  }

  /** What the reply to part c is turned into. */
  function ExtractedPart(id: string, gateway: Gateway, first: nat, c: nat): seq<Evidence>
    requires RepliedAt(gateway, first, c)
  {
    ExtractedAll(id, Capped(gateway.reply(first + c).value))
  }

  ghost function ExtractedParts(id: string, gateway: Gateway, first: nat, n: nat): (parts: seq<seq<Evidence>>)
    requires forall c :: 0 <= c < n ==> RepliedAt(gateway, first, c)
    ensures |parts| == n && forall c :: 0 <= c < n ==> parts[c] == ExtractedPart(id, gateway, first, c)
  {
    seq(n, c requires 0 <= c < n => ExtractedPart(id, gateway, first, c))
  }

  lemma ExtractedNext(id: string, gateway: Gateway, first: nat, n: nat)
    requires forall c :: 0 <= c < n + 1 ==> RepliedAt(gateway, first, c)
    ensures Flatten(ExtractedParts(id, gateway, first, n + 1))
         == Flatten(ExtractedParts(id, gateway, first, n)) + ExtractedPart(id, gateway, first, n)
  {
    var parts, part := ExtractedParts(id, gateway, first, n), ExtractedPart(id, gateway, first, n);
    assert ExtractedParts(id, gateway, first, n + 1) == parts + [part];
    FlattenAppend(parts, part);
  }

  lemma {:induction false} ExtractionFlattens(id: string, gateway: Gateway, first: nat, n: nat)
    requires AllAnswered(gateway, first, n) && forall c :: 0 <= c < n ==> RepliedAt(gateway, first, c)
    ensures Extraction(id, gateway, first, n) == Flatten(ExtractedParts(id, gateway, first, n))
    decreases n
  {
    if n == 0 {
      assert ExtractedParts(id, gateway, first, 0) == [];
    } else {
      ExtractionFlattens(id, gateway, first, n - 1);
      ExtractedNext(id, gateway, first, n - 1);
    }
  }

  lemma ExtractionMeaning(id: string, gateway: Gateway, first: nat, n: nat)
    requires AllAnswered(gateway, first, n)
    ensures IsExtraction(id, gateway, first, n, Extraction(id, gateway, first, n))
  {
    forall c | 0 <= c < n ensures RepliedAt(gateway, first, c) {
    }
    var parts := ExtractedParts(id, gateway, first, n);
    ExtractionFlattens(id, gateway, first, n);
    forall c | 0 <= c < n ensures CallExtracts(id, gateway.reply(first + c), parts[c]) {
      CallIsExtracted(id, gateway, first + c);
    }
    assert PartsExtract(id, gateway, first, parts);
  }

  /** The evidence of one document, exactly, errors included: every part answered, and the extraction reduced. */
  ghost predicate DocumentOutcome(document: Document, gateway: Gateway, first: nat,
                                  outcome: Outcome<seq<Evidence>>, next: nat)
  {
    if document.parts.None? then outcome == Raised(NoSourceText) && next == first
    else if !AllAnswered(gateway, first, document.parts.value) then
      outcome == Raised(ModelFailed) && FailsBefore(gateway, first, document.parts.value, next)
    else
      var raw, after := Extraction(document.id, gateway, first, document.parts.value), first + document.parts.value;
      if raw == [] then outcome == Ok([]) && next == after
      else ReducedTo(raw, SOURCE_LEDGER_BUDGET, gateway, after, outcome, next)
  }

  /** If every part is answered, a document gives the reduction of what the replies say to 900 tokens, or nothing. */
  lemma AnsweredDocument(document: Document, gateway: Gateway, first: nat, outcome: Outcome<seq<Evidence>>, next: nat)
    returns (raw: seq<Evidence>)
    requires DocumentOutcome(document, gateway, first, outcome, next)
    requires document.parts.Some? && AllAnswered(gateway, first, document.parts.value)
    ensures IsExtraction(document.id, gateway, first, document.parts.value, raw)
    ensures raw == [] ==> outcome == Ok([]) && next == first + document.parts.value
    ensures raw != [] ==> ReducedTo(raw, 900, gateway, first + document.parts.value, outcome, next)
  {
    raw := Extraction(document.id, gateway, first, document.parts.value);
    ExtractionMeaning(document.id, gateway, first, document.parts.value);
  }

  /** A reduction, as far as its callers need it. */
  method Compact(evidence: seq<Evidence>, target: nat, gateway: Gateway, first: nat)
    returns (outcome: Outcome<seq<Evidence>>, next: nat)
    ensures ReducedTo(evidence, target, gateway, first, outcome, next)
  {
    var rounds;
    outcome, rounds, next := ReduceEvidence(evidence, target, gateway, first);
  }

  /** The loop over the batches of the text: None for the first failed call. */
  method ExtractEvidence(id: string, n: nat, gateway: Gateway, first: nat)
    returns (ledger: Option<seq<Evidence>>, next: nat)
    ensures ledger.Some? ==> AllAnswered(gateway, first, n) && next == first + n
                             && ledger.value == Extraction(id, gateway, first, n)
    ensures ledger.None? ==> FailsBefore(gateway, first, n, next)
  {
    next := first;
    var extracted: seq<Evidence> := [];
    for part := 0 to n
      invariant next == first + part && AllAnswered(gateway, first, part)
      invariant extracted == Extraction(id, gateway, first, part)
    {
      var reply := gateway.reply(next);
      next := next + 1;
      if reply.None? {
        return None, next;
      }
      extracted := extracted + ExtractedAll(id, Capped(reply.value));
    }
    ledger := Some(extracted);
  }

  lemma FailedBefore(gateway: Gateway, first: nat, n: nat, next: nat)
    requires FailsBefore(gateway, first, n, next)
    ensures !AllAnswered(gateway, first, n)
  {
  }

  method EvidenceForDocument(document: Document, gateway: Gateway, first: nat)
    returns (outcome: Outcome<seq<Evidence>>, next: nat)
    ensures DocumentOutcome(document, gateway, first, outcome, next)
  {
    if document.parts.None? {
      return Raised(NoSourceText), first;
    }
    var ledger;
    ledger, next := ExtractEvidence(document.id, document.parts.value, gateway, first);
    if ledger.None? {
      FailedBefore(gateway, first, document.parts.value, next);
      return Raised(ModelFailed), next;
    }
    if ledger.value == [] {
      return Ok([]), next;
    }
    outcome, next := Compact(ledger.value, SOURCE_LEDGER_BUDGET, gateway, next);
  }

  lemma SourcesOfOne(ledger: seq<Evidence>, reduced: seq<Evidence>, id: string)
    requires AllFrom(ledger, id) && Sources(reduced) <= Sources(ledger)
    ensures AllFrom(reduced, id)
  {
    forall e | e in reduced ensures e.source == id {
      assert e.source in Sources(reduced);
    }
  }

  // ---------------------------------------------------------------- one task

  ghost predicate TaskOutcome(task: Task, gateway: Gateway, first: nat, outcome: Outcome<seq<Evidence>>, next: nat) {
    match task
    case ForDocument(document) => DocumentOutcome(document, gateway, first, outcome, next)
    case ForSource(items) => ReducedTo(items, SOURCE_LEDGER_BUDGET, gateway, first, outcome, next)
  }

  function TaskSources(task: Task): set<string> {
    match task
    case ForDocument(document) => {document.id}
    case ForSource(items) => Sources(items)
  }

  lemma ReducedIsSafe(evidence: seq<Evidence>, target: nat, gateway: Gateway, first: nat,
                      outcome: Outcome<seq<Evidence>>, next: nat)
    requires ReducedTo(evidence, target, gateway, first, outcome, next)
    ensures outcome.Ok? ==> gateway.estimate(outcome.value) <= target && Sources(outcome.value) <= Sources(evidence)
    ensures gateway.estimate(evidence) <= target ==> outcome == Ok(evidence) && next == first
  {
    var ledgers, calls :| IsReduction(evidence, target, gateway, first, ledgers, calls, outcome, next);
    ReductionIsSafe(evidence, target, gateway, first, ledgers, calls, outcome, next);
  }

  /** For any model: the ledger of a task cites only its sources, and is inside the source budget. */
  lemma TaskIsSafe(task: Task, gateway: Gateway, first: nat, ledger: seq<Evidence>, next: nat)
    requires TaskOutcome(task, gateway, first, Ok(ledger), next)
    ensures Sources(ledger) <= TaskSources(task)
    ensures ledger != [] ==> gateway.estimate(ledger) <= SOURCE_LEDGER_BUDGET
  {
    match task
    case ForSource(items) => ReducedIsSafe(items, SOURCE_LEDGER_BUDGET, gateway, first, Ok(ledger), next);
    case ForDocument(document) =>
      var n := document.parts.value;
      var raw := Extraction(document.id, gateway, first, n);
      ExtractionIsOwn(document.id, gateway, first, n);
      if raw != [] {
        ReducedIsSafe(raw, SOURCE_LEDGER_BUDGET, gateway, first + n, Ok(ledger), next);
        SourcesOfOne(raw, ledger, document.id);
      }
  }

  lemma FirstFailure(gateway: Gateway, first: nat, n: nat, m: nat, k: nat)
    requires FailsBefore(gateway, first, n, m) && FailsBefore(gateway, first, n, k)
    ensures m == k
  {
  }

  lemma TaskUnique(task: Task, gateway: Gateway, first: nat,
                   o: Outcome<seq<Evidence>>, m: nat, p: Outcome<seq<Evidence>>, n: nat)
    requires TaskOutcome(task, gateway, first, o, m) && TaskOutcome(task, gateway, first, p, n)
    ensures o == p && m == n
  {
    match task
    case ForSource(items) => ReductionUnique(items, SOURCE_LEDGER_BUDGET, gateway, first, o, m, p, n);
    case ForDocument(document) => DocumentUnique(document, gateway, first, o, m, p, n);
  }

  lemma DocumentReduces(document: Document, gateway: Gateway, first: nat, n: nat, raw: seq<Evidence>,
                        o: Outcome<seq<Evidence>>, m: nat)
    requires DocumentOutcome(document, gateway, first, o, m) && document.parts == Some(n)
    requires AllAnswered(gateway, first, n) && raw == Extraction(document.id, gateway, first, n)
    ensures if raw == [] then o == Ok([]) && m == first + n
            else ReducedTo(raw, SOURCE_LEDGER_BUDGET, gateway, first + n, o, m)
  {
  }

  lemma DocumentFails(document: Document, gateway: Gateway, first: nat, n: nat, o: Outcome<seq<Evidence>>, m: nat)
    requires DocumentOutcome(document, gateway, first, o, m) && document.parts == Some(n)
    requires !AllAnswered(gateway, first, n)
    ensures o == Raised(ModelFailed) && FailsBefore(gateway, first, n, m)
  {
  }

  lemma DocumentUnique(document: Document, gateway: Gateway, first: nat,
                       o: Outcome<seq<Evidence>>, m: nat, p: Outcome<seq<Evidence>>, n: nat)
    requires DocumentOutcome(document, gateway, first, o, m) && DocumentOutcome(document, gateway, first, p, n)
    ensures o == p && m == n
  {
    if document.parts.Some? {
      var parts := document.parts.value;
      if AllAnswered(gateway, first, parts) {
        var raw := Extraction(document.id, gateway, first, parts);
        DocumentReduces(document, gateway, first, parts, raw, o, m);
        DocumentReduces(document, gateway, first, parts, raw, p, n);
        if raw != [] {
          ReductionUnique(raw, SOURCE_LEDGER_BUDGET, gateway, first + parts, o, m, p, n);
        }
      } else {
        DocumentFails(document, gateway, first, parts, o, m);
        DocumentFails(document, gateway, first, parts, p, n);
        FirstFailure(gateway, first, parts, m, n);
      }
    }
  }

  // ---------------------------------------------------------------- all tasks

  ghost predicate DoneAt(tasks: seq<Task>, gateway: Gateway, parts: seq<seq<Evidence>>, starts: seq<nat>, i: nat)
    requires i < |tasks| && i < |parts| && i + 1 < |starts|
  {
    TaskOutcome(tasks[i], gateway, starts[i], Ok(parts[i]), starts[i + 1])
  }

  /** The ledgers of the first tasks, and the numbers of the calls before and after each of them. */
  ghost predicate InTurn(tasks: seq<Task>, gateway: Gateway, first: nat, parts: seq<seq<Evidence>>, starts: seq<nat>) {
    && |parts| <= |tasks| && |starts| == |parts| + 1 && starts[0] == first
    && forall i :: 0 <= i < |parts| ==> DoneAt(tasks, gateway, parts, starts, i)
  }

  ghost predicate PassEnds(tasks: seq<Task>, gateway: Gateway, first: nat, parts: seq<seq<Evidence>>, starts: seq<nat>,
                           outcome: Outcome<seq<Evidence>>, next: nat)
  {
    && InTurn(tasks, gateway, first, parts, starts)
    && match outcome
       case Ok(ledger) => |parts| == |tasks| && ledger == Flatten(parts) && next == starts[|parts|]
       case Raised(_) => |parts| < |tasks| && TaskOutcome(tasks[|parts|], gateway, starts[|parts|], outcome, next)
  }

  /** A pass over the tasks, exactly: all ledgers, one after the other, or the error of the first task that raises. */
  ghost predicate PassOutcome(tasks: seq<Task>, gateway: Gateway, first: nat, outcome: Outcome<seq<Evidence>>,
                              next: nat)
  {
    exists parts, starts :: PassEnds(tasks, gateway, first, parts, starts, outcome, next)
  }

  lemma DoneMeans(tasks: seq<Task>, gateway: Gateway, parts: seq<seq<Evidence>>, starts: seq<nat>, i: nat,
                  part: seq<Evidence>, start: nat, next: nat)
    requires i < |tasks| && i < |parts| && i + 1 < |starts|
    requires parts[i] == part && starts[i] == start && starts[i + 1] == next
    ensures DoneAt(tasks, gateway, parts, starts, i) <==> TaskOutcome(tasks[i], gateway, start, Ok(part), next)
  {
  }

  lemma StillDone(tasks: seq<Task>, gateway: Gateway, parts: seq<seq<Evidence>>, starts: seq<nat>,
                  part: seq<Evidence>, next: nat, i: nat)
    requires i < |parts| <= |tasks| && |starts| == |parts| + 1
    requires DoneAt(tasks, gateway, parts, starts, i)
    ensures DoneAt(tasks, gateway, parts + [part], starts + [next], i)
  {
    DoneMeans(tasks, gateway, parts, starts, i, parts[i], starts[i], starts[i + 1]);
    DoneMeans(tasks, gateway, parts + [part], starts + [next], i, parts[i], starts[i], starts[i + 1]);
  }

  lemma NowDone(tasks: seq<Task>, gateway: Gateway, parts: seq<seq<Evidence>>, starts: seq<nat>,
                part: seq<Evidence>, next: nat)
    requires |parts| < |tasks| && |starts| == |parts| + 1
    requires TaskOutcome(tasks[|parts|], gateway, starts[|parts|], Ok(part), next)
    ensures DoneAt(tasks, gateway, parts + [part], starts + [next], |parts|)
  {
    DoneMeans(tasks, gateway, parts + [part], starts + [next], |parts|, part, starts[|parts|], next);
  }

  lemma InTurnExtended(tasks: seq<Task>, gateway: Gateway, first: nat, parts: seq<seq<Evidence>>, starts: seq<nat>,
                       part: seq<Evidence>, next: nat)
    requires InTurn(tasks, gateway, first, parts, starts) && |parts| < |tasks|
    requires DoneAt(tasks, gateway, parts + [part], starts + [next], |parts|)
    ensures InTurn(tasks, gateway, first, parts + [part], starts + [next])
  {
    forall i | 0 <= i < |parts| ensures DoneAt(tasks, gateway, parts + [part], starts + [next], i) {
      StillDone(tasks, gateway, parts, starts, part, next, i);
    }
  }

  lemma InTurnNext(tasks: seq<Task>, gateway: Gateway, first: nat, parts: seq<seq<Evidence>>, starts: seq<nat>,
                   part: seq<Evidence>, next: nat)
    requires InTurn(tasks, gateway, first, parts, starts) && |parts| < |tasks|
    requires TaskOutcome(tasks[|parts|], gateway, starts[|parts|], Ok(part), next)
    ensures InTurn(tasks, gateway, first, parts + [part], starts + [next])
    ensures Flatten(parts + [part]) == Flatten(parts) + part
  {
    FlattenAppend(parts, part);
    NowDone(tasks, gateway, parts, starts, part, next);
    InTurnExtended(tasks, gateway, first, parts, starts, part, next);
  }

  lemma PassDone(tasks: seq<Task>, gateway: Gateway, first: nat, parts: seq<seq<Evidence>>, starts: seq<nat>)
    requires InTurn(tasks, gateway, first, parts, starts) && |parts| == |tasks|
    ensures PassOutcome(tasks, gateway, first, Ok(Flatten(parts)), starts[|parts|])
  {
    assert PassEnds(tasks, gateway, first, parts, starts, Ok(Flatten(parts)), starts[|parts|]);
  }

  lemma NoneDone(tasks: seq<Task>, gateway: Gateway, first: nat)
    ensures InTurn(tasks, gateway, first, [], [first])
  {
  }

  /** The same call number n times, for tasks that make no call. */
  function Still(call: nat, n: nat): (starts: seq<nat>)
    ensures |starts| == n && forall i :: 0 <= i < n ==> starts[i] == call
  {
    seq(n, i => call)
  }

  lemma StillNext(call: nat, n: nat)
    ensures Still(call, n + 1) == Still(call, n) + [call]
  {
  }

  lemma InTurnPrefix(tasks: seq<Task>, gateway: Gateway, first: nat, parts: seq<seq<Evidence>>, starts: seq<nat>)
    requires InTurn(tasks, gateway, first, parts, starts) && parts != []
    ensures var n := |parts| - 1;
            InTurn(tasks, gateway, first, parts[..n], starts[..n + 1]) && DoneAt(tasks, gateway, parts, starts, n)
  {
    var n := |parts| - 1;
    var fewer, begins := parts[..n], starts[..n + 1];
    forall i | 0 <= i < n ensures DoneAt(tasks, gateway, fewer, begins, i) {
      assert DoneAt(tasks, gateway, parts, starts, i);
    }
  }

  lemma {:induction false} SameTurn(tasks: seq<Task>, gateway: Gateway, first: nat,
                                    p: seq<seq<Evidence>>, c: seq<nat>, q: seq<seq<Evidence>>, d: seq<nat>, k: nat)
    requires InTurn(tasks, gateway, first, p, c) && InTurn(tasks, gateway, first, q, d)
    requires k <= |p| && k <= |q|
    ensures p[..k] == q[..k] && c[k] == d[k]
    decreases k
  {
    if k > 0 {
      SameTurn(tasks, gateway, first, p, c, q, d, k - 1);
      assert DoneAt(tasks, gateway, p, c, k - 1) && DoneAt(tasks, gateway, q, d, k - 1);
      TaskUnique(tasks[k - 1], gateway, c[k - 1], Ok(p[k - 1]), c[k], Ok(q[k - 1]), d[k]);
      assert p[..k] == p[..k - 1] + [p[k - 1]] && q[..k] == q[..k - 1] + [q[k - 1]];
    }
  }

  lemma EndsNoSooner(tasks: seq<Task>, gateway: Gateway, first: nat, p: seq<seq<Evidence>>, c: seq<nat>,
                     o: Outcome<seq<Evidence>>, m: nat, q: seq<seq<Evidence>>, d: seq<nat>)
    requires PassEnds(tasks, gateway, first, p, c, o, m) && InTurn(tasks, gateway, first, q, d)
    ensures |p| >= |q|
  {
    var k := |p|;
    if k < |q| {
      SameTurn(tasks, gateway, first, p, c, q, d, k);
      assert DoneAt(tasks, gateway, q, d, k);
      TaskUnique(tasks[k], gateway, c[k], o, m, Ok(q[k]), d[k + 1]);
      assert false;
    }
  }

  /** The tasks and the replies determine what a pass returns or raises, and after how many calls. */
  lemma PassUnique(tasks: seq<Task>, gateway: Gateway, first: nat,
                   o: Outcome<seq<Evidence>>, m: nat, p: Outcome<seq<Evidence>>, n: nat)
    requires PassOutcome(tasks, gateway, first, o, m) && PassOutcome(tasks, gateway, first, p, n)
    ensures o == p && m == n
  {
    var parts, starts :| PassEnds(tasks, gateway, first, parts, starts, o, m);
    var others, begins :| PassEnds(tasks, gateway, first, others, begins, p, n);
    EndsNoSooner(tasks, gateway, first, parts, starts, o, m, others, begins);
    EndsNoSooner(tasks, gateway, first, others, begins, p, n, parts, starts);
    SamePass(tasks, gateway, first, parts, starts, o, m, others, begins, p, n);
  }

  lemma SamePass(tasks: seq<Task>, gateway: Gateway, first: nat,
                 parts: seq<seq<Evidence>>, starts: seq<nat>, o: Outcome<seq<Evidence>>, m: nat,
                 others: seq<seq<Evidence>>, begins: seq<nat>, p: Outcome<seq<Evidence>>, n: nat)
    requires PassEnds(tasks, gateway, first, parts, starts, o, m)
    requires PassEnds(tasks, gateway, first, others, begins, p, n)
    requires |parts| == |others|
    ensures o == p && m == n
  {
    var k := |parts|;
    SameTurn(tasks, gateway, first, parts, starts, others, begins, k);
    assert parts[..k] == parts && others[..k] == others;
    if k < |tasks| {
      TaskUnique(tasks[k], gateway, starts[k], o, m, p, n);
    }
  }

  /** Every record of a pass belongs to one of its tasks. */
  lemma {:induction false} TurnCites(tasks: seq<Task>, gateway: Gateway, first: nat, parts: seq<seq<Evidence>>,
                                     starts: seq<nat>, s: string)
    requires InTurn(tasks, gateway, first, parts, starts) && s in Sources(Flatten(parts))
    ensures exists i :: 0 <= i < |tasks| && s in TaskSources(tasks[i])
    decreases |parts|
  {
    assert parts != [];
    var n := |parts| - 1;
    InTurnPrefix(tasks, gateway, first, parts, starts);
    if s in Sources(parts[n]) {
      TaskIsSafe(tasks[n], gateway, starts[n], parts[n], starts[n + 1]);
    } else {
      var e :| e in Flatten(parts) && e.source == s;
      assert e in Flatten(parts[..n]);
      TurnCites(tasks, gateway, first, parts[..n], starts[..n + 1], s);
    }
  }
}
