/**
  Compacting an evidence ledger by repeated model calls. The model is an arbitrary function from the
  number of the call to its reply, and so are the token estimates, the JSON encoding, the splitting of
  oversized text and the test whether a text is JSON: nothing is assumed about them.
*/
module EvidenceReduction {
  import opened Knowledge
  import opened Ordering
  import opened Segmentation

  datatype Evidence = Evidence(source: string, excerpt: string, topic: string, topics: seq<string>)

  datatype DraftError =
    | NoGroundedRecords | NoProgress | NotCompactedSafely | UnreadableBatch | ModelFailed | NoSourceText | NoEvidence

  datatype Outcome<T> = Ok(value: T) | Raised(error: DraftError)

  /** reply is None for a failed call; the other fields are the service's own functions on texts. */
  datatype Gateway = Gateway(
    reply: nat -> Option<seq<Evidence>>,
    estimate: seq<Evidence> -> nat,
    encode: Evidence -> string,
    cost: string -> nat,
    split: string -> seq<string>,
    readable: string -> bool)

  const MAX_ROUNDS := 8
  const MAX_RECORDS_PER_REPLY := 4
  const REDUCTION_BATCH_BUDGET := 3200
  const SOURCE_LEDGER_BUDGET := 900
  const PLAN_LEDGER_BUDGET := 3600

  function Sources(ledger: seq<Evidence>): set<string> {
    set e | e in ledger :: e.source
  }

  // ---------------------------------------------------------------- batches

  function TotalCost(batch: seq<string>, cost: string -> nat): nat {
    if batch == [] then 0 else TotalCost(batch[..|batch| - 1], cost) + cost(batch[|batch| - 1])
  }

  /** A batch is closed only because the next text does not fit. */
  function Overflows(cost: string -> nat, budget: nat): (seq<string>, string) -> bool {
    (batch, text) => batch != [] && TotalCost(batch, cost) + cost(text) > budget
  }

  /** The texts to pack: those that exceed the budget are replaced by their pieces. */
  function Expanded(items: seq<string>, gateway: Gateway, budget: nat): seq<string> {
    if items == [] then []
    else
      var item := items[|items| - 1];
      Expanded(items[..|items| - 1], gateway, budget)
      + if gateway.cost(item) > budget then gateway.split(item) else [item]
  }

  lemma ExpandedNext(items: seq<string>, gateway: Gateway, budget: nat, i: nat)
    requires i < |items|
    ensures Expanded(items[..i + 1], gateway, budget) == Expanded(items[..i], gateway, budget)
              + if gateway.cost(items[i]) > budget then gateway.split(items[i]) else [items[i]]
  {
    assert items[..i + 1][..i] == items[..i];
  }

  ghost predicate IsPacking(items: seq<string>, gateway: Gateway, budget: nat, batches: seq<seq<string>>) {
    Flatten(batches) == Expanded(items, gateway, budget) && Grouped(Overflows(gateway.cost, budget), batches)
  }

  /** Items that fit are not split, so their packing holds exactly them. */
  lemma {:induction false} FittingItemsStay(items: seq<string>, gateway: Gateway, budget: nat)
    requires forall i :: 0 <= i < |items| ==> gateway.cost(items[i]) <= budget
    ensures Expanded(items, gateway, budget) == items
    decreases |items|
  {
    if items != [] {
      FittingItemsStay(items[..|items| - 1], gateway, budget);
      assert items == items[..|items| - 1] + [items[|items| - 1]];
    }
  }

  /** The packing is determined and greedy: a batch ends where the next text exceeds the budget, and only there. */
  lemma PackingIsTight(items: seq<string>, gateway: Gateway, budget: nat, p: seq<seq<string>>, q: seq<seq<string>>)
    requires IsPacking(items, gateway, budget, p) && IsPacking(items, gateway, budget, q)
    ensures p == q
    ensures forall b :: 0 <= b < |p| ==> p[b] != [] && (|p[b]| > 1 ==> TotalCost(p[b], gateway.cost) <= budget)
    ensures forall b :: 0 < b < |p| ==> TotalCost(p[b - 1], gateway.cost) + gateway.cost(p[b][0]) > budget
  {
    GroupingUnique(Overflows(gateway.cost, budget), p, q);
    forall b | 0 < b < |p| ensures TotalCost(p[b - 1], gateway.cost) + gateway.cost(p[b][0]) > budget {
      assert Broken(Overflows(gateway.cost, budget), p[b - 1], p[b]);
    }
    forall b | 0 <= b < |p| && |p[b]| > 1 ensures TotalCost(p[b], gateway.cost) <= budget {
      assert StaysOpen(Overflows(gateway.cost, budget), p[b], |p[b]| - 1);
    }
  }

  lemma TotalLast(batch: seq<string>, item: string, cost: string -> nat)
    ensures TotalCost(batch + [item], cost) == TotalCost(batch, cost) + cost(item)
  {
    assert (batch + [item])[..|batch|] == batch;
  }

  lemma TotalOne(item: string, cost: string -> nat)
    ensures TotalCost([item], cost) == cost(item)
  {
    assert [item][..0] == [];
  }

  lemma TextCloses(cost: string -> nat, budget: nat, read: seq<string>, batches: seq<seq<string>>, current: seq<string>,
                   text: string)
    requires Reading(Overflows(cost, budget), read, batches, current)
    requires current != [] && TotalCost(current, cost) + cost(text) > budget
    ensures Reading(Overflows(cost, budget), read + [text], batches + [current], [text])
    ensures TotalCost([text], cost) == cost(text)
  {
    GroupCloses(Overflows(cost, budget), read, batches, current, text);
    TotalOne(text, cost);
  }

  lemma TextJoins(cost: string -> nat, budget: nat, read: seq<string>, batches: seq<seq<string>>, current: seq<string>,
                  text: string)
    requires Reading(Overflows(cost, budget), read, batches, current)
    requires current == [] || TotalCost(current, cost) + cost(text) <= budget
    ensures Reading(Overflows(cost, budget), read + [text], batches, current + [text])
    ensures TotalCost(current + [text], cost) == TotalCost(current, cost) + cost(text)
  {
    ItemJoins(Overflows(cost, budget), read, batches, current, text);
    TotalLast(current, text, cost);
  }

  /** One turn of the inner loop: the text joins the batch being filled, or starts the next one. */
  method PackText(batches0: seq<seq<string>>, current0: seq<string>, tokens0: nat, text: string,
                  cost: string -> nat, budget: nat, ghost read: seq<string>)
    returns (batches: seq<seq<string>>, current: seq<string>, tokens: nat)
    requires Reading(Overflows(cost, budget), read, batches0, current0) && tokens0 == TotalCost(current0, cost)
    ensures Reading(Overflows(cost, budget), read + [text], batches, current) && tokens == TotalCost(current, cost)
  {
    if current0 != [] && tokens0 + cost(text) > budget {
      TextCloses(cost, budget, read, batches0, current0, text);
      return batches0 + [current0], [text], cost(text);
    }
    TextJoins(cost, budget, read, batches0, current0, text);
    return batches0, current0 + [text], tokens0 + cost(text);
  }

  /** The inner loop over the pieces of one item. */
  method PackPieces(batches0: seq<seq<string>>, current0: seq<string>, tokens0: nat, pieces: seq<string>,
                    cost: string -> nat, budget: nat, ghost read: seq<string>)
    returns (batches: seq<seq<string>>, current: seq<string>, tokens: nat)
    requires Reading(Overflows(cost, budget), read, batches0, current0) && tokens0 == TotalCost(current0, cost)
    ensures Reading(Overflows(cost, budget), read + pieces, batches, current) && tokens == TotalCost(current, cost)
  {
    batches, current, tokens := batches0, current0, tokens0;
    ghost var done := read;
    for i := 0 to |pieces|
      invariant done == read + pieces[..i]
      invariant Reading(Overflows(cost, budget), done, batches, current) && tokens == TotalCost(current, cost)
    {
      OneMore(pieces, i);
      batches, current, tokens := PackText(batches, current, tokens, pieces[i], cost, budget, done);
      done := done + [pieces[i]];
    }
    OneMore(pieces, |pieces|);
  }

  /** Greedy packing in order; an item that exceeds the budget is split first. None if the budget is not positive. */
  method PackByTokenBudget(items: seq<string>, gateway: Gateway, budget: int)
    returns (packing: Option<seq<seq<string>>>)
    ensures packing.None? <==> budget <= 0
    ensures packing.Some? ==> IsPacking(items, gateway, budget, packing.value)
  {
    if budget <= 0 {
      return None;
    }
    var batches: seq<seq<string>> := [];
    var current: seq<string>, tokens := [], 0;
    for i := 0 to |items|
      invariant Reading(Overflows(gateway.cost, budget), Expanded(items[..i], gateway, budget), batches, current)
      invariant tokens == TotalCost(current, gateway.cost)
    {
      var expanded := if gateway.cost(items[i]) > budget then gateway.split(items[i]) else [items[i]];
      ExpandedNext(items, gateway, budget, i);
      batches, current, tokens :=
        PackPieces(batches, current, tokens, expanded, gateway.cost, budget, Expanded(items[..i], gateway, budget));
    }
    OneMore(items, |items|);
    ReadAll(Overflows(gateway.cost, budget), Expanded(items, gateway, budget), batches, current);
    if current != [] {
      batches := batches + [current];
    }
    packing := Some(batches);
  }

  // ---------------------------------------------------------------- one reply

  /** The schema keeps the first four records of a reply. */
  function Capped(reply: seq<Evidence>): seq<Evidence> {
    if |reply| <= MAX_RECORDS_PER_REPLY then reply else reply[..MAX_RECORDS_PER_REPLY]
  }

  function TheOnly(allowed: set<string>): (s: string)
    requires |allowed| == 1
    ensures allowed == {s}
  {
    assert exists x :: allowed == {x} by {
      var x :| x in allowed;
      assert |allowed - {x}| == 0;
      assert allowed == {x};
    }
    var s :| s in allowed && allowed == {s};
    s
  }

  /** A missing source is filled in when the batch has just one. */
  function Bound(e: Evidence, allowed: set<string>): Evidence {
    if e.source == "" && |allowed| == 1 then e.(source := TheOnly(allowed)) else e
  }

  function Accepted(reply: seq<Evidence>, allowed: set<string>): (r: seq<Evidence>)
    ensures |r| <= |reply|
  {
    if reply == [] then []
    else
      var e := Bound(reply[|reply| - 1], allowed);
      Accepted(reply[..|reply| - 1], allowed) + if e.source in allowed then [e] else []
  }

  /** The record can be kept: it cites a source of the batch, or none while the batch has just one. */
  ghost predicate Keepable(e: Evidence, allowed: set<string>) {
    e.source in allowed || (e.source == "" && exists s :: allowed == {s})
  }

  /** The record as it is kept: unchanged, or with the only source of the batch filled in. */
  ghost predicate KeptAs(e: Evidence, allowed: set<string>, kept: Evidence) {
    if e.source in allowed then kept == e
    else e.source == "" && allowed == {kept.source} && kept == e.(source := kept.source)
  }

  /** out holds, in order and each once, exactly the records of the reply that can be kept. */
  ghost predicate Keeps(reply: seq<Evidence>, allowed: set<string>, origin: seq<nat>, out: seq<Evidence>) {
    && |origin| == |out| && KeptOf(origin, |reply|)
    && (forall i: nat :: i in origin <==> i < |reply| && Keepable(reply[i], allowed))
    && (forall k :: 0 <= k < |out| ==> KeptAs(reply[origin[k]], allowed, out[k]))
  }

  lemma BoundKeeps(e: Evidence, allowed: set<string>)
    ensures Bound(e, allowed).source in allowed <==> Keepable(e, allowed)
    ensures Keepable(e, allowed) ==> KeptAs(e, allowed, Bound(e, allowed))
  {
    if e.source !in allowed && e.source == "" {
      if s :| allowed == {s} {
        assert |allowed| == 1;
      }
    }
  }

  lemma {:induction false} AcceptedKeeps(reply: seq<Evidence>, allowed: set<string>) returns (origin: seq<nat>)
    ensures Keeps(reply, allowed, origin, Accepted(reply, allowed))
    decreases |reply|
  {
    if reply == [] {
      origin := [];
    } else {
      var last := |reply| - 1;
      var before := AcceptedKeeps(reply[..last], allowed);
      BoundKeeps(reply[last], allowed);
      origin := before + if Keepable(reply[last], allowed) then [last] else [];
      KeepsNext(reply, allowed, before, Accepted(reply[..last], allowed));
    }
  }

  lemma KeepsNext(reply: seq<Evidence>, allowed: set<string>, origin: seq<nat>, out: seq<Evidence>)
    requires reply != [] && Keeps(reply[..|reply| - 1], allowed, origin, out)
    ensures var last := |reply| - 1;
            if Keepable(reply[last], allowed)
            then forall kept :: KeptAs(reply[last], allowed, kept) ==>
                   Keeps(reply, allowed, origin + [last], out + [kept])
            else Keeps(reply, allowed, origin, out)
  {
    var last := |reply| - 1;
    forall k | 0 <= k < |origin| ensures origin[k] < last {
      assert origin[k] in origin;
    }
    forall i: nat ensures i in origin + [last] <==> i in origin || i == last {
    }
  }

  /** The record is one of the reply's, as it is kept. */
  ghost predicate Grounded(e: Evidence, reply: seq<Evidence>, allowed: set<string>) {
    e.source in allowed && exists r :: r in reply && KeptAs(r, allowed, e)
  }

  ghost predicate IsKept(r: Evidence, allowed: set<string>, out: seq<Evidence>) {
    exists e :: e in out && KeptAs(r, allowed, e)
  }

  lemma AcceptedAreGrounded(reply: seq<Evidence>, allowed: set<string>)
    ensures forall e :: e in Accepted(reply, allowed) ==> Grounded(e, reply, allowed)
    ensures forall r :: r in reply && Keepable(r, allowed) ==> IsKept(r, allowed, Accepted(reply, allowed))
  {
    var out := Accepted(reply, allowed);
    var origin := AcceptedKeeps(reply, allowed);
    forall e | e in out ensures Grounded(e, reply, allowed) {
      var k :| 0 <= k < |out| && out[k] == e;
      assert KeptAs(reply[origin[k]], allowed, e);
    }
    forall r | r in reply && Keepable(r, allowed) ensures IsKept(r, allowed, out) {
      var i: nat :| i < |reply| && reply[i] == r;
      assert i in origin;
      var k :| 0 <= k < |origin| && origin[k] == i;
      assert KeptAs(reply[origin[k]], allowed, out[k]);
    }
  }

  // ---------------------------------------------------------------- one round

  function Encoded(ledger: seq<Evidence>, encode: Evidence -> string): (items: seq<string>)
    ensures |items| == |ledger| && forall i :: 0 <= i < |ledger| ==> items[i] == encode(ledger[i])
  {
    seq(|ledger|, i requires 0 <= i < |ledger| => encode(ledger[i]))
  }

  /** The sources a batch may cite. */
  function Allowed(ledger: seq<Evidence>, batch: seq<string>, encode: Evidence -> string): set<string> {
    set e | e in ledger && encode(e) in batch :: e.source
  }

  /** Every record answers one of the calls and cites a source that was in the ledger. */
  ghost predicate FromCalls(ledger: seq<Evidence>, gateway: Gateway, first: nat, next: nat, reduced: seq<Evidence>) {
    forall e :: e in reduced ==> Answers(ledger, gateway, first, next, e)
  }

  ghost predicate Answers(ledger: seq<Evidence>, gateway: Gateway, first: nat, next: nat, e: Evidence) {
    exists call: nat, allowed :: first <= call < next && allowed <= Sources(ledger)
      && gateway.reply(call).Some? && Grounded(e, Capped(gateway.reply(call).value), allowed)
  }

  predicate Readable(batch: seq<string>, gateway: Gateway) {
    forall i :: 0 <= i < |batch| ==> gateway.readable(batch[i])
  }

  /** The first n batches are JSON and their calls were answered. */
  ghost predicate Served(batches: seq<seq<string>>, gateway: Gateway, first: nat, n: nat)
    requires n <= |batches|
  {
    forall b :: 0 <= b < n ==> ServedAt(batches, gateway, first, b)
  }

  ghost predicate ServedAt(batches: seq<seq<string>>, gateway: Gateway, first: nat, b: nat)
    requires b < |batches|
  {
    Readable(batches[b], gateway) && gateway.reply(first + b).Some?
  }

  predicate RepliedAt(gateway: Gateway, first: nat, b: nat) {
    gateway.reply(first + b).Some?
  }

  /** What is accepted of the reply to batch b. */
  function PartOf(ledger: seq<Evidence>, batches: seq<seq<string>>, gateway: Gateway, first: nat, b: nat): seq<Evidence>
    requires b < |batches| && RepliedAt(gateway, first, b)
  {
    Accepted(Capped(gateway.reply(first + b).value), Allowed(ledger, batches[b], gateway.encode))
  }

  /** The same for the first n batches, batch after batch. */
  ghost function Parts(ledger: seq<Evidence>, batches: seq<seq<string>>, gateway: Gateway, first: nat, n: nat)
    : (parts: seq<seq<Evidence>>)
    requires n <= |batches| && forall b :: 0 <= b < n ==> RepliedAt(gateway, first, b)
    ensures |parts| == n && forall b :: 0 <= b < n ==> parts[b] == PartOf(ledger, batches, gateway, first, b)
  {
    seq(n, b requires 0 <= b < n => PartOf(ledger, batches, gateway, first, b))
  }

  lemma ServedReplies(batches: seq<seq<string>>, gateway: Gateway, first: nat, n: nat)
    requires n <= |batches| && Served(batches, gateway, first, n)
    ensures forall b :: 0 <= b < n ==> RepliedAt(gateway, first, b)
  {
    forall b | 0 <= b < n ensures RepliedAt(gateway, first, b) {
      assert ServedAt(batches, gateway, first, b);
    }
  }

  /** The accepted records of the first n batches, in order. */
  ghost function Distilled(ledger: seq<Evidence>, batches: seq<seq<string>>, gateway: Gateway, first: nat, n: nat)
    : seq<Evidence>
    requires n <= |batches| && Served(batches, gateway, first, n)
  {
    ServedReplies(batches, gateway, first, n);
    Flatten(Parts(ledger, batches, gateway, first, n))
  }

  /** Batch b stops the round: a text that is no JSON before the call, or a failed call. */
  ghost predicate StopsAt(batches: seq<seq<string>>, gateway: Gateway, first: nat, b: nat, error: DraftError, next: nat)
    requires b < |batches|
  {
    && Served(batches, gateway, first, b)
    && if !Readable(batches[b], gateway) then error == UnreadableBatch && next == first + b
       else gateway.reply(first + b).None? && error == ModelFailed && next == first + b + 1
  }

  ghost predicate Stopped(batches: seq<seq<string>>, gateway: Gateway, first: nat, error: DraftError, next: nat) {
    exists b: nat :: b < |batches| && StopsAt(batches, gateway, first, b, error, next)
  }

  lemma StopIsStopped(batches: seq<seq<string>>, gateway: Gateway, first: nat, b: nat, error: DraftError, next: nat)
    requires b < |batches| && StopsAt(batches, gateway, first, b, error, next)
    ensures Stopped(batches, gateway, first, error, next)
  {
  }

  /** One round, exactly: the accepted records of the replies to all batches, or the first batch that stops it. */
  ghost predicate RoundOf(ledger: seq<Evidence>, gateway: Gateway, first: nat, batches: seq<seq<string>>,
                          outcome: Outcome<seq<Evidence>>, next: nat)
  {
    && IsPacking(Encoded(ledger, gateway.encode), gateway, REDUCTION_BATCH_BUDGET, batches)
    && match outcome
       case Ok(reduced) =>
         && Served(batches, gateway, first, |batches|) && next == first + |batches|
         && reduced == Distilled(ledger, batches, gateway, first, |batches|)
       case Raised(error) => Stopped(batches, gateway, first, error, next)
  }

  ghost predicate Round(ledger: seq<Evidence>, gateway: Gateway, first: nat, outcome: Outcome<seq<Evidence>>,
                        next: nat)
  {
    exists batches :: RoundOf(ledger, gateway, first, batches, outcome, next)
  }

  lemma PartsNext(ledger: seq<Evidence>, batches: seq<seq<string>>, gateway: Gateway, first: nat, n: nat)
    requires n < |batches| && forall b :: 0 <= b < n + 1 ==> RepliedAt(gateway, first, b)
    ensures Flatten(Parts(ledger, batches, gateway, first, n + 1))
         == Flatten(Parts(ledger, batches, gateway, first, n)) + PartOf(ledger, batches, gateway, first, n)
  {
    var parts, part := Parts(ledger, batches, gateway, first, n), PartOf(ledger, batches, gateway, first, n);
    assert Parts(ledger, batches, gateway, first, n + 1) == parts + [part];
    FlattenAppend(parts, part);
  }

  lemma ServedNext(ledger: seq<Evidence>, batches: seq<seq<string>>, gateway: Gateway, first: nat, b: nat)
    requires b < |batches| && Served(batches, gateway, first, b)
    requires Readable(batches[b], gateway) && gateway.reply(first + b).Some?
    ensures Served(batches, gateway, first, b + 1) && RepliedAt(gateway, first, b)
    ensures Distilled(ledger, batches, gateway, first, b + 1)
         == Distilled(ledger, batches, gateway, first, b) + PartOf(ledger, batches, gateway, first, b)
  {
    assert ServedAt(batches, gateway, first, b);
    ServedReplies(batches, gateway, first, b + 1);
    PartsNext(ledger, batches, gateway, first, b);
  }

  // ---------------------------------------------------------------- what a round keeps

  /** The sources that the records of a batch cite. */
  ghost predicate IsAllowed(ledger: seq<Evidence>, batch: seq<string>, encode: Evidence -> string,
                            allowed: set<string>)
  {
    forall s :: s in allowed <==> exists e :: e in ledger && encode(e) in batch && e.source == s
  }

  /** What is kept of the reply to one batch: of its first four records those with a source of the batch. */
  ghost predicate BatchKeeps(ledger: seq<Evidence>, batch: seq<string>, encode: Evidence -> string,
                             reply: Option<seq<Evidence>>, out: seq<Evidence>)
  {
    && reply.Some?
    && var records := if |reply.value| <= 4 then reply.value else reply.value[..4];
       exists allowed, origin :: IsAllowed(ledger, batch, encode, allowed) && Keeps(records, allowed, origin, out)
  }

  /** What is kept of the replies to the first n batches, batch after batch. */
  ghost predicate CallsKeep(ledger: seq<Evidence>, batches: seq<seq<string>>, gateway: Gateway, first: nat,
                            parts: seq<seq<Evidence>>)
    requires |parts| <= |batches|
  {
    forall b :: 0 <= b < |parts| ==>
      BatchKeeps(ledger, batches[b], gateway.encode, gateway.reply(first + b), parts[b])
  }

  lemma AcceptedCall(ledger: seq<Evidence>, batches: seq<seq<string>>, gateway: Gateway, first: nat, b: nat)
    requires b < |batches| && RepliedAt(gateway, first, b)
    ensures BatchKeeps(ledger, batches[b], gateway.encode, gateway.reply(first + b),
                       PartOf(ledger, batches, gateway, first, b))
  {
    var allowed := Allowed(ledger, batches[b], gateway.encode);
    var origin := AcceptedKeeps(Capped(gateway.reply(first + b).value), allowed);
    assert IsAllowed(ledger, batches[b], gateway.encode, allowed);
  }

  lemma DistilledKeeps(ledger: seq<Evidence>, batches: seq<seq<string>>, gateway: Gateway, first: nat, n: nat)
    requires n <= |batches| && Served(batches, gateway, first, n)
    ensures exists parts :: |parts| == n && Flatten(parts) == Distilled(ledger, batches, gateway, first, n)
                            && CallsKeep(ledger, batches, gateway, first, parts)
  {
    ServedReplies(batches, gateway, first, n);
    var parts := Parts(ledger, batches, gateway, first, n);
    forall b | 0 <= b < n
      ensures BatchKeeps(ledger, batches[b], gateway.encode, gateway.reply(first + b), parts[b])
    {
      AcceptedCall(ledger, batches, gateway, first, b);
    }
  }

  /**
    The result of a round: batch after batch, of the first four records of the reply those that cite a
    source of the batch, unchanged, and those without a source if the batch has just one, which is
    filled in.
  */
  ghost predicate RoundKeeps(ledger: seq<Evidence>, gateway: Gateway, first: nat, reduced: seq<Evidence>) {
    exists batches, parts ::
      && IsPacking(Encoded(ledger, gateway.encode), gateway, REDUCTION_BATCH_BUDGET, batches)
      && |parts| == |batches| && reduced == Flatten(parts)
      && CallsKeep(ledger, batches, gateway, first, parts)
  }

  lemma RoundKeepsSources(ledger: seq<Evidence>, gateway: Gateway, first: nat, reduced: seq<Evidence>, next: nat)
    requires Round(ledger, gateway, first, Ok(reduced), next)
    ensures RoundKeeps(ledger, gateway, first, reduced)
  {
    var batches :| RoundOf(ledger, gateway, first, batches, Ok(reduced), next);
    DistilledKeeps(ledger, batches, gateway, first, |batches|);
  }

  /** The loop over the batches. */
  method AskAll(ledger: seq<Evidence>, batches: seq<seq<string>>, gateway: Gateway, first: nat)
    returns (outcome: Outcome<seq<Evidence>>, next: nat)
    ensures outcome.Ok? ==> Served(batches, gateway, first, |batches|) && next == first + |batches|
                            && outcome.value == Distilled(ledger, batches, gateway, first, |batches|)
    ensures outcome.Ok? ==> exists parts :: |parts| == |batches| && outcome.value == Flatten(parts)
                                            && CallsKeep(ledger, batches, gateway, first, parts)
    ensures outcome.Raised? ==> Stopped(batches, gateway, first, outcome.error, next)
  {
    next := first;
    var reduced: seq<Evidence> := [];
    for b := 0 to |batches|
      invariant next == first + b && Served(batches, gateway, first, b)
      invariant reduced == Distilled(ledger, batches, gateway, first, b)
    {
      if !Readable(batches[b], gateway) {
        StopIsStopped(batches, gateway, first, b, UnreadableBatch, next);
        return Raised(UnreadableBatch), next;
      }
      var reply := gateway.reply(next);
      if reply.None? {
        StopIsStopped(batches, gateway, first, b, ModelFailed, next + 1);
        return Raised(ModelFailed), next + 1;
      }
      ServedNext(ledger, batches, gateway, first, b);
      reduced := reduced + Accepted(Capped(reply.value), Allowed(ledger, batches[b], gateway.encode));
      next := next + 1;
    }
    DistilledKeeps(ledger, batches, gateway, first, |batches|);
    outcome := Ok(reduced);
  }

  method ReduceOnce(ledger: seq<Evidence>, gateway: Gateway, first: nat)
    returns (outcome: Outcome<seq<Evidence>>, next: nat)
    ensures Round(ledger, gateway, first, outcome, next)
    ensures outcome.Ok? ==> RoundKeeps(ledger, gateway, first, outcome.value)
  {
    var packing := PackByTokenBudget(Encoded(ledger, gateway.encode), gateway, REDUCTION_BATCH_BUDGET);
    outcome, next := AskAll(ledger, packing.value, gateway, first);
    assert RoundOf(ledger, gateway, first, packing.value, outcome, next);
    if outcome.Ok? {
      RoundKeepsSources(ledger, gateway, first, outcome.value, next);
    }
  }

  lemma StopsOnce(batches: seq<seq<string>>, gateway: Gateway, first: nat, b: nat, e: DraftError, m: nat,
                  c: nat, f: DraftError, n: nat)
    requires b < |batches| && StopsAt(batches, gateway, first, b, e, m)
    requires c < |batches| && StopsAt(batches, gateway, first, c, f, n)
    ensures e == f && m == n
  {
    NotServed(batches, gateway, first, b, e, m);
    NotServed(batches, gateway, first, c, f, n);
    assert !(b < c) && !(c < b);
  }

  lemma NotServed(batches: seq<seq<string>>, gateway: Gateway, first: nat, b: nat, e: DraftError, m: nat)
    requires b < |batches| && StopsAt(batches, gateway, first, b, e, m)
    ensures forall n: nat :: b < n <= |batches| ==> !Served(batches, gateway, first, n)
  {
    forall n: nat | b < n <= |batches| ensures !Served(batches, gateway, first, n) {
      assert !ServedAt(batches, gateway, first, b);
    }
  }

  /** The ledger and the replies determine the round. */
  lemma RoundUnique(ledger: seq<Evidence>, gateway: Gateway, first: nat,
                    o: Outcome<seq<Evidence>>, m: nat, p: Outcome<seq<Evidence>>, n: nat)
    requires Round(ledger, gateway, first, o, m) && Round(ledger, gateway, first, p, n)
    ensures o == p && m == n
  {
    var batches :| RoundOf(ledger, gateway, first, batches, o, m);
    var others :| RoundOf(ledger, gateway, first, others, p, n);
    PackingIsTight(Encoded(ledger, gateway.encode), gateway, REDUCTION_BATCH_BUDGET, batches, others);
    SameRound(ledger, gateway, first, batches, o, m, p, n);
  }

  lemma SameRound(ledger: seq<Evidence>, gateway: Gateway, first: nat, batches: seq<seq<string>>,
                  o: Outcome<seq<Evidence>>, m: nat, p: Outcome<seq<Evidence>>, n: nat)
    requires RoundOf(ledger, gateway, first, batches, o, m) && RoundOf(ledger, gateway, first, batches, p, n)
    ensures o == p && m == n
  {
    FailedIsNotServed(ledger, gateway, first, batches, o, m);
    FailedIsNotServed(ledger, gateway, first, batches, p, n);
    if o.Raised? {
      var b: nat :| b < |batches| && StopsAt(batches, gateway, first, b, o.error, m);
      var c: nat :| c < |batches| && StopsAt(batches, gateway, first, c, p.error, n);
      StopsOnce(batches, gateway, first, b, o.error, m, c, p.error, n);
    }
  }

  lemma FailedIsNotServed(ledger: seq<Evidence>, gateway: Gateway, first: nat, batches: seq<seq<string>>,
                          outcome: Outcome<seq<Evidence>>, next: nat)
    requires RoundOf(ledger, gateway, first, batches, outcome, next)
    ensures outcome.Ok? <==> Served(batches, gateway, first, |batches|)
  {
    if outcome.Raised? {
      var b: nat :| b < |batches| && StopsAt(batches, gateway, first, b, outcome.error, next);
      NotServed(batches, gateway, first, b, outcome.error, next);
    }
  }

  /** For any replies, a round only returns grounded records, at most four per call. */
  lemma RoundIsGrounded(ledger: seq<Evidence>, gateway: Gateway, first: nat, outcome: Outcome<seq<Evidence>>, next: nat)
    requires Round(ledger, gateway, first, outcome, next)
    ensures next >= first
    ensures outcome.Ok? ==> FromCalls(ledger, gateway, first, next, outcome.value)
    ensures outcome.Ok? ==> Sources(outcome.value) <= Sources(ledger)
    ensures outcome.Ok? ==> |outcome.value| <= MAX_RECORDS_PER_REPLY * (next - first)
    ensures outcome.Raised? ==> outcome.error in {UnreadableBatch, ModelFailed}
  {
    var batches :| RoundOf(ledger, gateway, first, batches, outcome, next);
    if outcome.Ok? {
      DistilledAnswers(ledger, batches, gateway, first, |batches|);
      AnswersCiteLedger(ledger, gateway, first, next, outcome.value);
    }
  }

  lemma {:induction false} DistilledAnswers(ledger: seq<Evidence>, batches: seq<seq<string>>, gateway: Gateway,
                                            first: nat, n: nat)
    requires n <= |batches| && Served(batches, gateway, first, n)
    ensures FromCalls(ledger, gateway, first, first + n, Distilled(ledger, batches, gateway, first, n))
    ensures |Distilled(ledger, batches, gateway, first, n)| <= MAX_RECORDS_PER_REPLY * n
    decreases n
  {
    if n > 0 {
      DistilledAnswers(ledger, batches, gateway, first, n - 1);
      OneMoreAnswer(ledger, batches, gateway, first, n - 1);
    }
  }

  lemma OneMoreAnswer(ledger: seq<Evidence>, batches: seq<seq<string>>, gateway: Gateway, first: nat, b: nat)
    requires b < |batches| && Served(batches, gateway, first, b + 1)
    requires FromCalls(ledger, gateway, first, first + b, Distilled(ledger, batches, gateway, first, b))
    ensures FromCalls(ledger, gateway, first, first + b + 1, Distilled(ledger, batches, gateway, first, b + 1))
    ensures |Distilled(ledger, batches, gateway, first, b + 1)|
         <= |Distilled(ledger, batches, gateway, first, b)| + MAX_RECORDS_PER_REPLY
  {
    assert ServedAt(batches, gateway, first, b);
    ServedNext(ledger, batches, gateway, first, b);
    var allowed := Allowed(ledger, batches[b], gateway.encode);
    AllowedAreSources(ledger, batches[b], gateway.encode);
    AcceptedAnswer(ledger, gateway, first, first + b, Distilled(ledger, batches, gateway, first, b), allowed);
  }

  lemma AllowedAreSources(ledger: seq<Evidence>, batch: seq<string>, encode: Evidence -> string)
    ensures Allowed(ledger, batch, encode) <= Sources(ledger)
  {
  }

  lemma AcceptedAnswer(ledger: seq<Evidence>, gateway: Gateway, first: nat, call: nat, reduced: seq<Evidence>,
                       allowed: set<string>)
    requires first <= call && FromCalls(ledger, gateway, first, call, reduced)
    requires allowed <= Sources(ledger) && gateway.reply(call).Some?
    ensures FromCalls(ledger, gateway, first, call + 1, reduced + Accepted(Capped(gateway.reply(call).value), allowed))
    ensures |Accepted(Capped(gateway.reply(call).value), allowed)| <= MAX_RECORDS_PER_REPLY
  {
    var accepted := Accepted(Capped(gateway.reply(call).value), allowed);
    AcceptedAreGrounded(Capped(gateway.reply(call).value), allowed);
    forall e | e in reduced + accepted ensures Answers(ledger, gateway, first, call + 1, e) {
      if e in reduced {
        assert Answers(ledger, gateway, first, call, e);
      } else {
        assert Grounded(e, Capped(gateway.reply(call).value), allowed);
      }
    }
  }

  lemma AnswersCiteLedger(ledger: seq<Evidence>, gateway: Gateway, first: nat, next: nat, reduced: seq<Evidence>)
    requires FromCalls(ledger, gateway, first, next, reduced)
    ensures Sources(reduced) <= Sources(ledger)
  {
    forall s | s in Sources(reduced) ensures s in Sources(ledger) {
      var e :| e in reduced && e.source == s;
      assert Answers(ledger, gateway, first, next, e);
    }
  }

  // ---------------------------------------------------------------- repeated rounds

  /** A round that was needed and made progress. */
  ghost predicate Shrinks(target: nat, gateway: Gateway, ledger: seq<Evidence>, first: nat, reduced: seq<Evidence>,
                          next: nat)
  {
    && gateway.estimate(ledger) > target
    && Round(ledger, gateway, first, Ok(reduced), next)
    && reduced != [] && |reduced| < |ledger|
  }

  /** The ledgers of a reduction, one after each round, and the numbers of the calls they start from. */
  ghost predicate Descent(evidence: seq<Evidence>, target: nat, gateway: Gateway, first: nat,
                          ledgers: seq<seq<Evidence>>, calls: seq<nat>)
  {
    && 0 < |ledgers| == |calls| <= MAX_ROUNDS + 1
    && ledgers[0] == evidence && calls[0] == first
    && forall k :: 0 < k < |ledgers| ==> Shrinks(target, gateway, ledgers[k - 1], calls[k - 1], ledgers[k], calls[k])
  }

  /** A round without progress, and the error it ends the reduction with. */
  ghost predicate Stalls(ledger: seq<Evidence>, result: Outcome<seq<Evidence>>, error: DraftError) {
    if result.Raised? then error == result.error
    else if result.value == [] then error == NoGroundedRecords
    else |result.value| >= |ledger| && error == NoProgress
  }

  /** How a reduction ends from the ledger that r rounds left. */
  ghost predicate Ends(ledger: seq<Evidence>, r: nat, target: nat, gateway: Gateway, first: nat,
                       outcome: Outcome<seq<Evidence>>, next: nat)
  {
    if gateway.estimate(ledger) <= target then outcome == Ok(ledger) && next == first
    else if r == MAX_ROUNDS then outcome == Raised(NotCompactedSafely) && next == first
    else
      && outcome.Raised?
      && exists result :: Round(ledger, gateway, first, result, next) && Stalls(ledger, result, outcome.error)
  }

  /** A reduction, exactly: rounds that make progress, and the end they come to. */
  ghost predicate IsReduction(evidence: seq<Evidence>, target: nat, gateway: Gateway, first: nat,
                              ledgers: seq<seq<Evidence>>, calls: seq<nat>, outcome: Outcome<seq<Evidence>>, next: nat)
  {
    && Descent(evidence, target, gateway, first, ledgers, calls)
    && Ends(ledgers[|ledgers| - 1], |ledgers| - 1, target, gateway, calls[|calls| - 1], outcome, next)
  }

  /** What the rounds from call `first` on come to, and the number of the call after them. */
  ghost predicate ReducedTo(evidence: seq<Evidence>, target: nat, gateway: Gateway, first: nat,
                            outcome: Outcome<seq<Evidence>>, next: nat)
  {
    exists ledgers, calls :: IsReduction(evidence, target, gateway, first, ledgers, calls, outcome, next)
  }

  lemma DescentGoesOn(evidence: seq<Evidence>, target: nat, gateway: Gateway, first: nat,
                      ledgers: seq<seq<Evidence>>, calls: seq<nat>, reduced: seq<Evidence>, next: nat)
    requires Descent(evidence, target, gateway, first, ledgers, calls) && |ledgers| <= MAX_ROUNDS
    requires Shrinks(target, gateway, ledgers[|ledgers| - 1], calls[|calls| - 1], reduced, next)
    ensures Descent(evidence, target, gateway, first, ledgers + [reduced], calls + [next])
  {
    var more, starts := ledgers + [reduced], calls + [next];
    forall k | 0 < k < |more| ensures Shrinks(target, gateway, more[k - 1], starts[k - 1], more[k], starts[k]) {
      assert k < |ledgers| ==> Shrinks(target, gateway, ledgers[k - 1], calls[k - 1], ledgers[k], calls[k]);
    }
  }

  /** Whatever the model replies, provenance never grows, every round drops a record, and calls only accumulate. */
  lemma {:induction false} DescentKeepsSources(evidence: seq<Evidence>, target: nat, gateway: Gateway, first: nat,
                                               ledgers: seq<seq<Evidence>>, calls: seq<nat>, k: nat)
    requires Descent(evidence, target, gateway, first, ledgers, calls) && k < |ledgers|
    ensures Sources(ledgers[k]) <= Sources(evidence)
    ensures |ledgers[k]| + k <= |evidence|
    ensures first <= calls[k]
    ensures k > 0 ==> ledgers[k] != [] && gateway.estimate(evidence) > target
    decreases k
  {
    if k > 0 {
      DescentKeepsSources(evidence, target, gateway, first, ledgers, calls, k - 1);
      assert Shrinks(target, gateway, ledgers[k - 1], calls[k - 1], ledgers[k], calls[k]);
      RoundIsGrounded(ledgers[k - 1], gateway, calls[k - 1], Ok(ledgers[k]), calls[k]);
    }
  }

  lemma EndIsSafe(ledger: seq<Evidence>, r: nat, target: nat, gateway: Gateway, first: nat,
                  outcome: Outcome<seq<Evidence>>, next: nat)
    requires Ends(ledger, r, target, gateway, first, outcome, next)
    ensures next >= first
    ensures outcome == Raised(NotCompactedSafely) ==> r == MAX_ROUNDS
    ensures outcome.Raised? ==> outcome.error !in {NoSourceText, NoEvidence}
  {
    if gateway.estimate(ledger) > target && r != MAX_ROUNDS {
      var result :| Round(ledger, gateway, first, result, next) && Stalls(ledger, result, outcome.error);
      RoundIsGrounded(ledger, gateway, first, result, next);
    }
  }

  /**
    For any model: either an error, or within 8 rounds a ledger inside the target, citing only
    sources of the input, and shorter by at least one record per round. A ledger inside the target
    is returned as it is without a call.
  */
  lemma ReductionIsSafe(evidence: seq<Evidence>, target: nat, gateway: Gateway, first: nat,
                        ledgers: seq<seq<Evidence>>, calls: seq<nat>, outcome: Outcome<seq<Evidence>>, next: nat)
    requires IsReduction(evidence, target, gateway, first, ledgers, calls, outcome, next)
    ensures |ledgers| - 1 <= MAX_ROUNDS && next >= first
    ensures outcome.Ok? ==> gateway.estimate(outcome.value) <= target && Sources(outcome.value) <= Sources(evidence)
    ensures outcome.Ok? ==> |outcome.value| + |ledgers| - 1 <= |evidence|
    ensures gateway.estimate(evidence) <= target <==> outcome == Ok(evidence) && |ledgers| == 1
    ensures gateway.estimate(evidence) <= target ==> next == first
    ensures outcome == Raised(NotCompactedSafely) ==> |evidence| > MAX_ROUNDS
  {
    var last := |ledgers| - 1;
    DescentKeepsSources(evidence, target, gateway, first, ledgers, calls, last);
    EndIsSafe(ledgers[last], last, target, gateway, calls[last], outcome, next);
  }

  // ---------------------------------------------------------------- the outcome is determined

  lemma ShrinksOrEnds(target: nat, gateway: Gateway, ledger: seq<Evidence>, r: nat, first: nat,
                      reduced: seq<Evidence>, m: nat, outcome: Outcome<seq<Evidence>>, n: nat)
    requires r < MAX_ROUNDS && Shrinks(target, gateway, ledger, first, reduced, m)
    ensures !Ends(ledger, r, target, gateway, first, outcome, n)
  {
    if Ends(ledger, r, target, gateway, first, outcome, n) {
      var result :| Round(ledger, gateway, first, result, n) && Stalls(ledger, result, outcome.error);
      RoundUnique(ledger, gateway, first, Ok(reduced), m, result, n);
      assert false;
    }
  }

  lemma {:induction false} SameDescent(evidence: seq<Evidence>, target: nat, gateway: Gateway, first: nat,
                                       p: seq<seq<Evidence>>, c: seq<nat>, q: seq<seq<Evidence>>, d: seq<nat>, k: nat)
    requires Descent(evidence, target, gateway, first, p, c) && Descent(evidence, target, gateway, first, q, d)
    requires k < |p| && k < |q|
    ensures p[k] == q[k] && c[k] == d[k]
    decreases k
  {
    if k > 0 {
      SameDescent(evidence, target, gateway, first, p, c, q, d, k - 1);
      assert Shrinks(target, gateway, p[k - 1], c[k - 1], p[k], c[k]);
      assert Shrinks(target, gateway, q[k - 1], d[k - 1], q[k], d[k]);
      RoundUnique(p[k - 1], gateway, c[k - 1], Ok(p[k]), c[k], Ok(q[k]), d[k]);
    }
  }

  lemma SameEnd(ledger: seq<Evidence>, r: nat, target: nat, gateway: Gateway, first: nat,
                o: Outcome<seq<Evidence>>, m: nat, p: Outcome<seq<Evidence>>, n: nat)
    requires Ends(ledger, r, target, gateway, first, o, m) && Ends(ledger, r, target, gateway, first, p, n)
    ensures o == p && m == n
  {
    if gateway.estimate(ledger) > target && r != MAX_ROUNDS {
      var a :| Round(ledger, gateway, first, a, m) && Stalls(ledger, a, o.error);
      var b :| Round(ledger, gateway, first, b, n) && Stalls(ledger, b, p.error);
      RoundUnique(ledger, gateway, first, a, m, b, n);
    }
  }

  lemma NotShorter(evidence: seq<Evidence>, target: nat, gateway: Gateway, first: nat,
                   p: seq<seq<Evidence>>, c: seq<nat>, o: Outcome<seq<Evidence>>, m: nat,
                   q: seq<seq<Evidence>>, d: seq<nat>)
    requires IsReduction(evidence, target, gateway, first, p, c, o, m)
    requires Descent(evidence, target, gateway, first, q, d)
    ensures |p| >= |q|
  {
    var last := |p| - 1;
    if |p| < |q| {
      SameDescent(evidence, target, gateway, first, p, c, q, d, last);
      assert Shrinks(target, gateway, q[last + 1 - 1], d[last + 1 - 1], q[last + 1], d[last + 1]);
      ShrinksOrEnds(target, gateway, p[last], last, c[last], q[last + 1], d[last + 1], o, m);
      assert false;
    }
  }

  /** The evidence and the replies determine what a reduction returns or raises, and after how many calls. */
  lemma ReductionUnique(evidence: seq<Evidence>, target: nat, gateway: Gateway, first: nat,
                        o: Outcome<seq<Evidence>>, m: nat, p: Outcome<seq<Evidence>>, n: nat)
    requires ReducedTo(evidence, target, gateway, first, o, m) && ReducedTo(evidence, target, gateway, first, p, n)
    ensures o == p && m == n
  {
    var ledgers, calls :| IsReduction(evidence, target, gateway, first, ledgers, calls, o, m);
    var others, starts :| IsReduction(evidence, target, gateway, first, others, starts, p, n);
    SameReduction(evidence, target, gateway, first, ledgers, calls, o, m, others, starts, p, n);
  }

  lemma SameLength(evidence: seq<Evidence>, target: nat, gateway: Gateway, first: nat,
                   ledgers: seq<seq<Evidence>>, calls: seq<nat>, o: Outcome<seq<Evidence>>, m: nat,
                   others: seq<seq<Evidence>>, starts: seq<nat>, p: Outcome<seq<Evidence>>, n: nat)
    requires IsReduction(evidence, target, gateway, first, ledgers, calls, o, m)
    requires IsReduction(evidence, target, gateway, first, others, starts, p, n)
    ensures |ledgers| == |others|
  {
    NotShorter(evidence, target, gateway, first, ledgers, calls, o, m, others, starts);
    NotShorter(evidence, target, gateway, first, others, starts, p, n, ledgers, calls);
  }

  lemma SameReduction(evidence: seq<Evidence>, target: nat, gateway: Gateway, first: nat,
                      ledgers: seq<seq<Evidence>>, calls: seq<nat>, o: Outcome<seq<Evidence>>, m: nat,
                      others: seq<seq<Evidence>>, starts: seq<nat>, p: Outcome<seq<Evidence>>, n: nat)
    requires IsReduction(evidence, target, gateway, first, ledgers, calls, o, m)
    requires IsReduction(evidence, target, gateway, first, others, starts, p, n)
    ensures o == p && m == n
  {
    SameLength(evidence, target, gateway, first, ledgers, calls, o, m, others, starts, p, n);
    SameDescent(evidence, target, gateway, first, ledgers, calls, others, starts, |ledgers| - 1);
    LastEnds(evidence, target, gateway, first, ledgers, calls, o, m);
    LastEnds(evidence, target, gateway, first, others, starts, p, n);
    var last := |ledgers| - 1;
    SameEnd(ledgers[last], last, target, gateway, calls[last], o, m, p, n);
  }

  lemma LastEnds(evidence: seq<Evidence>, target: nat, gateway: Gateway, first: nat,
                 ledgers: seq<seq<Evidence>>, calls: seq<nat>, outcome: Outcome<seq<Evidence>>, next: nat)
    requires IsReduction(evidence, target, gateway, first, ledgers, calls, outcome, next)
    ensures 0 < |ledgers| == |calls|
    ensures Ends(ledgers[|ledgers| - 1], |ledgers| - 1, target, gateway, calls[|ledgers| - 1], outcome, next)
  {
  }

  // ---------------------------------------------------------------- the loop over the rounds

  lemma DescentStalls(evidence: seq<Evidence>, target: nat, gateway: Gateway, first: nat, ledgers: seq<seq<Evidence>>,
                      calls: seq<nat>, result: Outcome<seq<Evidence>>, next: nat, error: DraftError)
    requires Descent(evidence, target, gateway, first, ledgers, calls) && |ledgers| <= MAX_ROUNDS
    requires gateway.estimate(ledgers[|ledgers| - 1]) > target
    requires Round(ledgers[|ledgers| - 1], gateway, calls[|calls| - 1], result, next)
    requires Stalls(ledgers[|ledgers| - 1], result, error)
    ensures IsReduction(evidence, target, gateway, first, ledgers, calls, Raised(error), next)
  {
  }

  method RunRounds(evidence: seq<Evidence>, target: nat, gateway: Gateway, first: nat)
    returns (outcome: Outcome<seq<Evidence>>, rounds: nat, next: nat,
             ghost ledgers: seq<seq<Evidence>>, ghost calls: seq<nat>)
    ensures IsReduction(evidence, target, gateway, first, ledgers, calls, outcome, next)
    ensures outcome.Ok? ==> rounds == |ledgers| - 1
  {
    var current := evidence;
    rounds, next := 0, first;
    ledgers, calls := [evidence], [first];
    while gateway.estimate(current) > target
      invariant Descent(evidence, target, gateway, first, ledgers, calls)
      invariant rounds == |ledgers| - 1 && current == ledgers[rounds] && next == calls[rounds]
      decreases MAX_ROUNDS - rounds
    {
      if rounds + 1 > MAX_ROUNDS {
        return Raised(NotCompactedSafely), rounds, next, ledgers, calls;
      }
      var reduced;
      reduced, next := ReduceOnce(current, gateway, next);
      if reduced.Raised? {
        DescentStalls(evidence, target, gateway, first, ledgers, calls, reduced, next, reduced.error);
        return Raised(reduced.error), rounds + 1, next, ledgers, calls;
      }
      if reduced.value == [] {
        DescentStalls(evidence, target, gateway, first, ledgers, calls, reduced, next, NoGroundedRecords);
        return Raised(NoGroundedRecords), rounds + 1, next, ledgers, calls;
      }
      if |reduced.value| >= |current| {
        DescentStalls(evidence, target, gateway, first, ledgers, calls, reduced, next, NoProgress);
        return Raised(NoProgress), rounds + 1, next, ledgers, calls;
      }
      DescentGoesOn(evidence, target, gateway, first, ledgers, calls, reduced.value, next);
      ledgers, calls := ledgers + [reduced.value], calls + [next];
      rounds := rounds + 1;
      current := reduced.value;
    }
    outcome := Ok(current);
  }

  /** The ledgers lead from the evidence to the result, each made from the one before by a round. */
  ghost predicate StepsKeep(evidence: seq<Evidence>, gateway: Gateway, first: nat, ledgers: seq<seq<Evidence>>,
                            calls: seq<nat>, result: seq<Evidence>)
  {
    && 0 < |ledgers| == |calls| && ledgers[0] == evidence && calls[0] == first
    && ledgers[|ledgers| - 1] == result
    && forall k :: 0 < k < |ledgers| ==> RoundKeeps(ledgers[k - 1], gateway, calls[k - 1], ledgers[k])
  }

  /** The result of a number of rounds, in terms of what each of them keeps. */
  ghost predicate RoundsKeep(evidence: seq<Evidence>, gateway: Gateway, first: nat, rounds: nat,
                             result: seq<Evidence>)
  {
    exists ledgers, calls :: StepsKeep(evidence, gateway, first, ledgers, calls, result) && |ledgers| == rounds + 1
  }

  lemma DescentKeepsRecords(evidence: seq<Evidence>, target: nat, gateway: Gateway, first: nat,
                            ledgers: seq<seq<Evidence>>, calls: seq<nat>)
    requires Descent(evidence, target, gateway, first, ledgers, calls)
    ensures RoundsKeep(evidence, gateway, first, |ledgers| - 1, ledgers[|ledgers| - 1])
  {
    forall k | 0 < k < |ledgers| ensures RoundKeeps(ledgers[k - 1], gateway, calls[k - 1], ledgers[k]) {
      assert Shrinks(target, gateway, ledgers[k - 1], calls[k - 1], ledgers[k], calls[k]);
      RoundKeepsSources(ledgers[k - 1], gateway, calls[k - 1], ledgers[k], calls[k]);
    }
    assert StepsKeep(evidence, gateway, first, ledgers, calls, ledgers[|ledgers| - 1]);
  }

  method ReduceEvidence(evidence: seq<Evidence>, target: nat, gateway: Gateway, first: nat)
    returns (outcome: Outcome<seq<Evidence>>, rounds: nat, next: nat)
    ensures ReducedTo(evidence, target, gateway, first, outcome, next) && next >= first
    ensures outcome.Ok? ==> rounds <= MAX_ROUNDS && |outcome.value| + rounds <= |evidence|
    ensures outcome.Ok? ==> gateway.estimate(outcome.value) <= target && Sources(outcome.value) <= Sources(evidence)
    ensures gateway.estimate(evidence) <= target <==> outcome == Ok(evidence) && rounds == 0
    ensures gateway.estimate(evidence) <= target ==> next == first
    ensures outcome == Raised(NotCompactedSafely) ==> |evidence| > MAX_ROUNDS
    ensures outcome.Ok? ==> RoundsKeep(evidence, gateway, first, rounds, outcome.value)
  {
    ghost var ledgers, calls;
    outcome, rounds, next, ledgers, calls := RunRounds(evidence, target, gateway, first);
    ReductionIsSafe(evidence, target, gateway, first, ledgers, calls, outcome, next);
    DescentKeepsRecords(evidence, target, gateway, first, ledgers, calls);
    OkIsLast(evidence, target, gateway, first, ledgers, calls, outcome, next);
  }

  lemma OkIsLast(evidence: seq<Evidence>, target: nat, gateway: Gateway, first: nat, ledgers: seq<seq<Evidence>>,
                 calls: seq<nat>, outcome: Outcome<seq<Evidence>>, next: nat)
    requires IsReduction(evidence, target, gateway, first, ledgers, calls, outcome, next)
    ensures outcome.Ok? ==> outcome.value == ledgers[|ledgers| - 1]
  {
  }
}
