/** Page assembly: the eight slot outcomes of `Promise.allSettled`, walked
    in index order, and the handler's emergency page. */
module Batch {
  import opened Text
  import opened Candidates

  /** One entry of `Promise.allSettled`. */
  datatype Settled = Fulfilled(value: Candidate) | Rejected

  /** The fetch handler replaces a rejected slot with a `fallback-` record,
      the preload handler with an `emergency-preload-` record. */
  function ReplacementOrigin(path: Path): Origin {
    if path == Fetch then Fallback else Emergency
  }

  function Replacement(path: Path, page: int, index: nat, rescue: Rescue): Candidate {
    RescueCandidate(ReplacementOrigin(path), path, page, index, rescue.draw, rescue.now)
  }

  /** What the `forEach` pushes for slot `index`: the slot's value, or a
      replacement when it was rejected. */
  function Resolve(path: Path, page: int, index: nat, outcome: Settled, rescue: Rescue): Candidate {
    match outcome
    case Fulfilled(v) => v
    case Rejected => Replacement(path, page, index, rescue)
  }

  /** The `forEach` over the settled slots: entry i is slot i's value, or
      its replacement when slot i was rejected. */
  method Assemble(path: Path, page: int, settled: seq<Settled>, rescues: seq<Rescue>)
    returns (results: seq<Candidate>)
    requires |rescues| == |settled|
    ensures |results| == |settled|
    ensures forall i :: 0 <= i < |settled| ==> results[i] == Resolve(path, page, i, settled[i], rescues[i])
    ensures forall i :: 0 <= i < |settled| && settled[i].Fulfilled? ==> results[i] == settled[i].value
  {
    results := [];
    var index := 0;
    while index < |settled|
      invariant 0 <= index <= |settled|
      invariant |results| == index
      invariant forall i :: 0 <= i < index ==> results[i] == Resolve(path, page, i, settled[i], rescues[i])
    {
      match settled[index] {
        case Fulfilled(v) =>
          results := results + [v];
        case Rejected =>
          results := results + [Replacement(path, page, index, rescues[index])];
      }
      index := index + 1;
    }
  }

  /** The fetch handler's outer catch: eight `emergency-` records. */
  method EmergencyPage(page: int, rescues: seq<Rescue>) returns (fallbackResults: seq<Candidate>)
    requires |rescues| == SLOTS
    ensures fallbackResults == EmergencyCandidates(page, rescues)
  {
    fallbackResults := [];
    for i := 0 to SLOTS
      invariant |fallbackResults| == i
      invariant forall k :: 0 <= k < i ==>
                  fallbackResults[k] == RescueCandidate(Emergency, Fetch, page, k, rescues[k].draw, rescues[k].now)
    {
      fallbackResults := fallbackResults + [RescueCandidate(Emergency, Fetch, page, i, rescues[i].draw, rescues[i].now)];
    }
  }

  // ---------------------------------------------------------------------
  // The pages as functions of the slot inputs

  function EmergencyCandidates(page: int, rescues: seq<Rescue>): seq<Candidate> {
    seq(|rescues|, k requires 0 <= k < |rescues| =>
      RescueCandidate(Emergency, Fetch, page, k, rescues[k].draw, rescues[k].now))
  }

  /** Every slot of the fetch handler settles fulfilled: each chain ends in
      a branch that returns a record. */
  function FetchSettled(page: int, slots: seq<SlotInput>): seq<Settled> {
    seq(|slots|, k requires 0 <= k < |slots| => Fulfilled(FetchChain(page, k, slots[k]).candidate))
  }

  function PreloadSettled(page: int, slots: seq<SlotInput>): seq<Settled> {
    seq(|slots|, k requires 0 <= k < |slots| => Fulfilled(PreloadChain(page, k, slots[k]).candidate))
  }

  function FetchPage(page: int, slots: seq<SlotInput>): seq<Candidate> {
    seq(|slots|, k requires 0 <= k < |slots| => FetchChain(page, k, slots[k]).candidate)
  }

  function PreloadPage(page: int, slots: seq<SlotInput>): seq<Candidate> {
    seq(|slots|, k requires 0 <= k < |slots| => PreloadChain(page, k, slots[k]).candidate)
  }

  ghost predicate DistinctIds(cs: seq<Candidate>) {
    forall i, j :: 0 <= i < j < |cs| ==> cs[i].id != cs[j].id
  }

  /** Titles count slots from 1: entry k's title ends in the digit k + 1. */
  ghost predicate NumberedTitles(cs: seq<Candidate>) {
    forall k :: 0 <= k < |cs| && k + 1 < 10 ==> |cs[k].title| > 0 && cs[k].title[|cs[k].title| - 1] == DigitChar(k + 1)
  }

  // ---------------------------------------------------------------------
  // Properties of the pages

  /** No slot of either handler is ever replaced: assembling the settled
      chains gives back the chains' records, in slot order. */
  lemma AllFulfilledAssembly(path: Path, page: int, slots: seq<SlotInput>, results: seq<Candidate>, rescues: seq<Rescue>)
    requires |rescues| == |slots|
    requires var settled := if path == Fetch then FetchSettled(page, slots) else PreloadSettled(page, slots);
             |results| == |settled| &&
             forall i :: 0 <= i < |settled| ==> results[i] == Resolve(path, page, i, settled[i], rescues[i])
    ensures results == if path == Fetch then FetchPage(page, slots) else PreloadPage(page, slots)
  {
  }

  lemma FetchPageDistinctIds(page: int, slots: seq<SlotInput>)
    requires |slots| <= 10
    ensures DistinctIds(FetchPage(page, slots))
  {
    var cs := FetchPage(page, slots);
    forall i, j | 0 <= i < j < |cs| ensures cs[i].id != cs[j].id {
      assert cs[i] == FetchChain(page, i, slots[i]).candidate;
      assert cs[j] == FetchChain(page, j, slots[j]).candidate;
      FetchSlotIdsDiffer(page, i, j, slots[i], slots[j]);
    }
  }

  lemma FetchSlotIdsDiffer(page: int, i: nat, j: nat, si: SlotInput, sj: SlotInput)
    requires i < 10 && j < 10 && i != j
    ensures FetchChain(page, i, si).candidate.id != FetchChain(page, j, sj).candidate.id
  {
    var ri := FetchChain(page, i, si);
    var rj := FetchChain(page, j, sj);
    var ni, nj := ImageId(ri.origin, si.draw), ImageId(rj.origin, sj.draw);
    assert ri.candidate.id == SlotId(ri.origin, Fetch, page, i, ni, si.now);
    assert rj.candidate.id == SlotId(rj.origin, Fetch, page, j, nj, sj.now);
    SlotIdsDistinct(ri.origin, rj.origin, Fetch, page, i, j, ni, nj, si.now, sj.now);
  }

  lemma FetchPageNumbersTitles(page: int, slots: seq<SlotInput>)
    ensures NumberedTitles(FetchPage(page, slots))
  {
    var cs := FetchPage(page, slots);
    forall k | 0 <= k < |cs| && k + 1 < 10
      ensures |cs[k].title| > 0 && cs[k].title[|cs[k].title| - 1] == DigitChar(k + 1)
    {
      assert cs[k].title == Title(FetchChain(page, k, slots[k]).origin, Fetch, page, k);
    }
  }

  lemma PreloadPageDistinctIds(page: int, slots: seq<SlotInput>)
    requires |slots| <= 10
    ensures DistinctIds(PreloadPage(page, slots))
  {
    var cs := PreloadPage(page, slots);
    forall i, j | 0 <= i < j < |cs| ensures cs[i].id != cs[j].id {
      assert cs[i] == PreloadChain(page, i, slots[i]).candidate;
      assert cs[j] == PreloadChain(page, j, slots[j]).candidate;
      PreloadSlotIdsDiffer(page, i, j, slots[i], slots[j]);
    }
  }

  lemma PreloadSlotIdsDiffer(page: int, i: nat, j: nat, si: SlotInput, sj: SlotInput)
    requires i < 10 && j < 10 && i != j
    ensures PreloadChain(page, i, si).candidate.id != PreloadChain(page, j, sj).candidate.id
  {
    var ri := PreloadChain(page, i, si);
    var rj := PreloadChain(page, j, sj);
    var ni, nj := ImageId(ri.origin, si.draw), ImageId(rj.origin, sj.draw);
    assert ri.candidate.id == SlotId(ri.origin, Preload, page, i, ni, si.now);
    assert rj.candidate.id == SlotId(rj.origin, Preload, page, j, nj, sj.now);
    SlotIdsDistinct(ri.origin, rj.origin, Preload, page, i, j, ni, nj, si.now, sj.now);
  }

  lemma PreloadPageNumbersTitles(page: int, slots: seq<SlotInput>)
    ensures NumberedTitles(PreloadPage(page, slots))
  {
    var cs := PreloadPage(page, slots);
    forall k | 0 <= k < |cs| && k + 1 < 10
      ensures |cs[k].title| > 0 && cs[k].title[|cs[k].title| - 1] == DigitChar(k + 1)
    {
      assert cs[k].title == Title(PreloadChain(page, k, slots[k]).origin, Preload, page, k);
    }
  }

  lemma EmergencyPageDistinctIds(page: int, rescues: seq<Rescue>)
    requires |rescues| <= 10
    ensures DistinctIds(EmergencyCandidates(page, rescues))
    ensures NumberedTitles(EmergencyCandidates(page, rescues))
    ensures forall k :: 0 <= k < |rescues| ==> EmergencyCandidates(page, rescues)[k].copyright == "Picsum Photos"
  {
    var cs := EmergencyCandidates(page, rescues);
    forall i, j | 0 <= i < j < |cs| ensures cs[i].id != cs[j].id {
      SlotIdsDistinct(Emergency, Emergency, Fetch, page, i, j,
                      rescues[i].draw + 3000, rescues[j].draw + 3000, rescues[i].now, rescues[j].now);
    }
  }

  /** When bizhihui fails everywhere and snake answers everywhere, every
      record of the page is attributed to snake and shows snake's image. */
  lemma SnakeServesWholePage(page: int, slots: seq<SlotInput>)
    requires forall k :: 0 <= k < |slots| ==>
               !slots[k].setupFault && slots[k].bizhihui.Failed? && slots[k].snake.Ok?
    ensures forall k :: 0 <= k < |slots| ==>
              FetchPage(page, slots)[k].copyright == "nguaduot.cn (snake)" &&
              FetchPage(page, slots)[k].url == slots[k].snake.url
  {
  }
}
