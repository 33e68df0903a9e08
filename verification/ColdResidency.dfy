// A resumable, budgeted pass that marks memory ranges cold and, if they stay unreferenced,
// pages them out, chunk by chunk. Every sample of the process is chosen by an adversary.
module ColdResidency {
  import opened Wrappers

  const CHUNK_BYTES := 1024 * 1024
  const STEP_BYTES := 4 * CHUNK_BYTES
  const MAX_PASS_BYTES := 1024 * 1024 * 1024
  const SWAP_RESERVE := 256 * 1024 * 1024
  const PRESSURE_HEADROOM := 2 * 1024 * 1024 * 1024
  const MIN_ANON_RSS := 64 * 1024 * 1024

  // ---------- how much may be moved ----------

  datatype Sample = Sample(available: Option<int>, beforeHigh: Option<int>, hostFree: Option<int>,
                           swapCurrent: Option<int>, swapUnlimited: Option<bool>, swapMax: Option<int>,
                           pressure: Option<real>)

  datatype Budget = Refused(reason: string) | Granted(bytes: nat)

  function Least(a: int, b: int): int { if a < b then a else b }

  function SwapRoom(s: Sample): Option<int>
    requires s.hostFree.Some? && s.swapCurrent.Some?
  {
    if s.swapUnlimited == Some(true) then s.hostFree
    else if s.swapUnlimited == Some(false) && s.swapMax.Some? then
      var left := s.swapMax.value - s.swapCurrent.value;
      Some(Least(s.hostFree.value, if left < 0 then 0 else left))
    else None
  }

  predicate UnderPressure(s: Sample) {
    s.pressure.Some? && 0.1 <= s.pressure.value <= 100.0
  }

  // Everything the decision needs could be read.
  predicate Known(s: Sample) {
    && s.available.Some? && s.beforeHigh.Some? && s.hostFree.Some? && s.swapCurrent.Some?
    && (s.swapUnlimited == Some(true) || (s.swapUnlimited == Some(false) && s.swapMax.Some?))
  }

  // So many bytes can be swapped out with the reserve left free, by the host and by the group.
  predicate SwapFits(s: Sample, bytes: int)
    requires Known(s)
  {
    && bytes + SWAP_RESERVE <= s.hostFree.value
    && (s.swapUnlimited == Some(false) ==> bytes + SWAP_RESERVE <= s.swapMax.value - s.swapCurrent.value)
  }

  // Memory is short: by either estimate, or by a plausible pressure reading.
  predicate MemoryShort(s: Sample)
    requires Known(s)
  {
    || s.available.value <= PRESSURE_HEADROOM || s.beforeHigh.value <= PRESSURE_HEADROOM
    || (s.pressure.Some? && 0.1 <= s.pressure.value && s.pressure.value <= 100.0)
  }

  // A budget is granted exactly when memory is short and there is room to swap, and then it is
  // the largest within the pass limit that leaves the reserve; each refusal has its own cause.
  function PressureBudget(s: Sample): (r: Budget)
    ensures r.Granted? <==> Known(s) && SwapFits(s, 1) && MemoryShort(s)
    ensures r.Granted? ==> 0 < r.bytes <= MAX_PASS_BYTES && SwapFits(s, r.bytes)
    ensures r.Granted? ==> r.bytes == MAX_PASS_BYTES || !SwapFits(s, r.bytes + 1)
    ensures r == Refused("unavailable") <==> !Known(s)
    ensures r == Refused("no-swap") <==> Known(s) && !SwapFits(s, 1)
    ensures r == Refused("no-pressure") <==> Known(s) && SwapFits(s, 1) && !MemoryShort(s)
  {
    if s.available.None? || s.beforeHigh.None? || s.hostFree.None? || s.swapCurrent.None?
    then Refused("unavailable")
    else if SwapRoom(s).None? then Refused("unavailable")
    else
      var room := SwapRoom(s).value;
      if room <= SWAP_RESERVE then Refused("no-swap")
      else if Least(s.available.value, s.beforeHigh.value) > PRESSURE_HEADROOM && !UnderPressure(s)
      then Refused("no-pressure")
      else Granted(Least(MAX_PASS_BYTES, room - SWAP_RESERVE))
  }

  // ---------- ranges and samples ----------

  datatype Region = Region(start: int, end: int, rss: nat, referenced: nat, locked: nat)

  datatype Range = Range(start: int, end: int) {
    function Size(): int { end - start }
  }

  function TotalSize(ranges: seq<Range>): int {
    if ranges == [] then 0 else TotalSize(ranges[..|ranges| - 1]) + ranges[|ranges| - 1].Size()
  }

  // The mapping with exactly these bounds; a later duplicate replaces an earlier one.
  function Lookup(regions: seq<Region>, r: Range): (found: Option<Region>)
    ensures found.Some? ==> found.value in regions && found.value.start == r.start && found.value.end == r.end
  {
    if regions == [] then None
    else
      var last := regions[|regions| - 1];
      if last.start == r.start && last.end == r.end then Some(last)
      else Lookup(regions[..|regions| - 1], r)
  }

  predicate Resident(regions: seq<Region>, r: Range) {
    var found := Lookup(regions, r);
    found.Some? && found.value.locked == 0 && found.value.rss > 0
  }

  predicate Idle(regions: seq<Region>, r: Range) {
    Resident(regions, r) && Lookup(regions, r).value.referenced == 0
  }

  datatype Memory = Memory(rss: nat, anonymous: nat, swap: nat)

  datatype Verdict = Accepted | Unsupported | Failed | Aborted

  // Everything one step observes. None stands for a read that raises.
  datatype Environment = Environment(
    startPressure: Option<Sample>, startMemory: Option<Memory>, startLibrary: bool,
    startRegions: Option<seq<Region>>,
    pagePressure: Option<Sample>, pageRegions: Option<seq<Region>>,
    stepPressure: Option<Sample>, stepRegions: Option<seq<Region>>,
    advice: nat -> Verdict, overtime: nat -> bool, endMemory: Option<Memory>)

  predicate Sampled(sample: Option<Sample>, budget: int) {
    sample.Some? && PressureBudget(sample.value).Granted? && PressureBudget(sample.value).bytes == budget
  }

  datatype Phase = Fresh | Mark | Waiting | Pageout | Over(reason: string)

  // The last mapping of a sample with these bounds.
  ghost predicate LastAt(regions: seq<Region>, i: nat, r: Range) {
    && i < |regions| && regions[i].start == r.start && regions[i].end == r.end
    && forall j :: i < j < |regions| ==> !(regions[j].start == r.start && regions[j].end == r.end)
  }

  lemma {:induction false} LookupExactly(regions: seq<Region>, r: Range)
    ensures Lookup(regions, r).None? <==> forall i :: 0 <= i < |regions| ==>
              !(regions[i].start == r.start && regions[i].end == r.end)
    ensures forall i: nat :: LastAt(regions, i, r) ==> Lookup(regions, r) == Some(regions[i])
    ensures Lookup(regions, r).Some? ==> exists i: nat :: LastAt(regions, i, r)
  {
    if regions != [] {
      var n := |regions| - 1;
      LookupExactly(regions[..n], r);
      if regions[n].start == r.start && regions[n].end == r.end {
        assert LastAt(regions, n, r);
      } else {
        forall i: nat ensures LastAt(regions, i, r) <==> LastAt(regions[..n], i, r) {
        }
      }
    }
  }

  // A range may be advised exactly if the sample maps it, unlocked and resident, and to page
  // it out also unreferenced.
  lemma MappedExactly(regions: seq<Region>, r: Range)
    ensures Resident(regions, r) <==>
              exists i: nat :: LastAt(regions, i, r) && regions[i].locked == 0 && regions[i].rss > 0
    ensures Idle(regions, r) <==>
              exists i: nat :: LastAt(regions, i, r) && regions[i].locked == 0 && regions[i].rss > 0
                               && regions[i].referenced == 0
  {
    LookupExactly(regions, r);
    if Lookup(regions, r).Some? {
      var i: nat :| LastAt(regions, i, r);
    }
  }

  // ---------- the record of advice given ----------

  // One accepted madvise call: within range, under the sample of its step.
  datatype Advice = Advice(epoch: nat, cold: bool, range: Range, start: int, count: int, sample: seq<Region>)

  function AdvisedBytes(log: seq<Advice>): int {
    if log == [] then 0 else AdvisedBytes(log[..|log| - 1]) + log[|log| - 1].count
  }

  // The bytes advised in one pass.
  function MovedBytes(log: seq<Advice>, epoch: nat, cold: bool): int {
    if log == [] then 0
    else
      var last := log[|log| - 1];
      MovedBytes(log[..|log| - 1], epoch, cold) + if last.epoch == epoch && last.cold == cold then last.count else 0
  }

  lemma {:induction false} MovedNothing(log: seq<Advice>, epoch: nat, cold: bool)
    requires forall a :: a in log ==> a.epoch < epoch
    ensures MovedBytes(log, epoch, cold) == 0
  {
    if log != [] { MovedNothing(log[..|log| - 1], epoch, cold); }
  }

  lemma LogGrows(log: seq<Advice>, a: Advice)
    ensures AdvisedBytes(log + [a]) == AdvisedBytes(log) + a.count
    ensures forall epoch, cold :: MovedBytes(log + [a], epoch, cold)
              == MovedBytes(log, epoch, cold) + if a.epoch == epoch && a.cold == cold then a.count else 0
  {
    assert (log + [a])[..|log|] == log;
  }

  ghost predicate ColdAt(log: seq<Advice>, epoch: nat, x: int) {
    exists i :: 0 <= i < |log| && log[i].epoch == epoch && log[i].cold
                && log[i].start <= x < log[i].start + log[i].count
  }

  ghost predicate ColdThroughout(log: seq<Advice>, epoch: nat, lo: int, hi: int) {
    forall x :: lo <= x < hi ==> ColdAt(log, epoch, x)
  }

  lemma ColdGrows(log: seq<Advice>, a: Advice, epoch: nat, lo: int, hi: int)
    requires ColdThroughout(log, epoch, lo, hi)
    ensures ColdThroughout(log + [a], epoch, lo, hi)
    ensures a.cold && a.epoch == epoch && a.start == hi ==>
              ColdThroughout(log + [a], epoch, lo, hi + a.count)
  {
    forall x | lo <= x < hi ensures ColdAt(log + [a], epoch, x) {
      assert ColdAt(log, epoch, x);
      var i :| 0 <= i < |log| && log[i].epoch == epoch && log[i].cold
               && log[i].start <= x < log[i].start + log[i].count;
      assert (log + [a])[i] == log[i];
    }
    forall x | hi <= x < hi + a.count && a.cold && a.epoch == epoch && a.start == hi
      ensures ColdAt(log + [a], epoch, x)
    {
      assert (log + [a])[|log|] == a;
    }
  }

  // Paging out needs the whole range marked before, in the same pass, and the range idle
  // in the sample of the step that pages it.
  ghost predicate Justified(log: seq<Advice>, i: nat)
    requires i < |log|
  {
    var a := log[i];
    && 0 < a.count <= CHUNK_BYTES && (a.count == CHUNK_BYTES || a.start + a.count == a.range.end)
    && a.range.start <= a.start && a.start + a.count <= a.range.end
    && Resident(a.sample, a.range)
    && (!a.cold ==> Idle(a.sample, a.range)
                    && ColdThroughout(log[..i], a.epoch, a.range.start, a.range.end))
  }

  ghost predicate AllJustified(log: seq<Advice>) {
    forall i :: 0 <= i < |log| ==> Justified(log, i)
  }

  lemma JustifiedGrows(log: seq<Advice>, a: Advice)
    requires AllJustified(log) && Justified(log + [a], |log|)
    ensures AllJustified(log + [a])
  {
    forall i | 0 <= i < |log| ensures Justified(log + [a], i) {
      assert Justified(log, i);
      assert (log + [a])[..i] == log[..i];
    }
  }

  // The pass has marked the range to its end.
  ghost predicate Marked(log: seq<Advice>, epoch: nat, r: Range) {
    exists i :: 0 <= i < |log| && Finishes(log[i], epoch) && log[i].range == r
  }

  predicate Finishes(a: Advice, epoch: nat) {
    a.cold && a.epoch == epoch && a.start + a.count == a.range.end
  }

  lemma MarkedGrows(log: seq<Advice>, a: Advice, epoch: nat, r: Range)
    ensures Marked(log + [a], epoch, r) <==> Marked(log, epoch, r) || (Finishes(a, epoch) && a.range == r)
  {
    if i :| 0 <= i < |log| && Finishes(log[i], epoch) && log[i].range == r { assert (log + [a])[i] == log[i]; }
    if Finishes(a, epoch) && a.range == r { assert (log + [a])[|log|] == a; }
  }

  // These are the ranges the pass has marked to their end.
  ghost predicate ExactlyMarked(log: seq<Advice>, epoch: nat, ranges: seq<Range>) {
    forall r :: r in ranges <==> Marked(log, epoch, r)
  }

  ghost predicate AllCold(log: seq<Advice>, epoch: nat, ranges: seq<Range>) {
    forall r :: r in ranges ==> ColdThroughout(log, epoch, r.start, r.end)
  }

  lemma AllColdGrows(log: seq<Advice>, a: Advice, epoch: nat, ranges: seq<Range>)
    requires AllCold(log, epoch, ranges)
    ensures AllCold(log + [a], epoch, ranges)
  {
    forall r | r in ranges ensures ColdThroughout(log + [a], epoch, r.start, r.end) {
      ColdGrows(log, a, epoch, r.start, r.end);
    }
  }

  lemma {:induction false} PrefixSize(ranges: seq<Range>, n: nat)
    requires n <= |ranges| && forall r :: r in ranges ==> r.Size() > 0
    ensures 0 <= TotalSize(ranges[..n]) <= TotalSize(ranges)
    ensures n < |ranges| ==> TotalSize(ranges[..n]) + ranges[n].Size() == TotalSize(ranges[..n + 1])
    ensures n < |ranges| ==> TotalSize(ranges[..n]) + ranges[n].Size() <= TotalSize(ranges)
    decreases |ranges|
  {
    if n < |ranges| {
      var rest := ranges[..|ranges| - 1];
      PrefixSize(rest, n);
      assert rest[..n] == ranges[..n];
      assert ranges[..n + 1][..n] == ranges[..n];
      if n == |rest| { assert ranges[..n + 1] == ranges; }
    } else {
      assert ranges[..n] == ranges;
      if n > 0 { PrefixSize(ranges[..n - 1], n - 1); }
    }
  }

  lemma SizeAdd(ranges: seq<Range>, r: Range)
    ensures TotalSize(ranges + [r]) == TotalSize(ranges) + r.Size()
  {
    assert (ranges + [r])[..|ranges|] == ranges;
  }

  // ---------- one pass, as a value ----------

  // The fields of the pass, with what is only recorded for the proof: the advice given so
  // far, which restart it was given in, and the budgets sampled when the plans were chosen.
  datatype Pass = Pass(phase: Phase, plan: seq<Range>, markedPlan: seq<Range>, index: nat, offset: int,
                       marked: int, paged: int, started: bool,
                       epoch: nat, log: seq<Advice>, markBudget: int, pageBudget: int) {

    predicate Active() { phase.Mark? || phase.Pageout? }

    // What survives an exception: the advice given and the bytes counted.
    ghost predicate Accounted() {
      && AllJustified(log) && (forall a :: a in log ==> a.epoch <= epoch)
      && marked == MovedBytes(log, epoch, true) && paged == MovedBytes(log, epoch, false)
      && 0 <= paged <= marked && marked <= markBudget && paged <= pageBudget
    }

    ghost predicate Shaped() {
      && (forall r :: r in plan ==> r.Size() > 0) && (forall r :: r in markedPlan ==> r.Size() > 0)
      && (phase.Fresh? ==> !started && forall a :: a in log ==> a.epoch < epoch)
      && (phase.Mark? || phase.Waiting? || phase.Pageout? ==> started)
      && (Active() ==>
            && index <= |plan| && (index == |plan| ==> offset == 0)
            && (index < |plan| ==> 0 <= offset < plan[index].Size()))
    }

    ghost predicate Marking()
      requires index <= |plan|
    {
      && paged == 0 && TotalSize(plan) <= markBudget
      && marked <= TotalSize(plan[..index]) + offset
      && TotalSize(markedPlan) + offset <= marked
      && AllCold(log, epoch, markedPlan) && ExactlyMarked(log, epoch, markedPlan)
      && (index < |plan| ==> ColdThroughout(log, epoch, plan[index].start, plan[index].start + offset))
    }

    ghost predicate Holding() {
      && paged == 0 && plan == markedPlan && TotalSize(plan) <= marked && AllCold(log, epoch, plan)
      && ExactlyMarked(log, epoch, plan)
    }

    ghost predicate Paging()
      requires index <= |plan|
    {
      && TotalSize(plan) <= pageBudget && TotalSize(plan) <= marked
      && paged <= TotalSize(plan[..index]) + offset
      && AllCold(log, epoch, plan)
    }

    // Holds at every point of a step.
    ghost predicate Consistent() {
      && Accounted() && Shaped()
      && (phase.Mark? ==> Marking()) && (phase.Waiting? ==> Holding()) && (phase.Pageout? ==> Paging())
    }

    // Between steps an active pass also has a range left.
    ghost predicate Valid() {
      Consistent() && (Active() ==> index < |plan|)
    }

    // One accepted chunk of the current range.
    ghost function Chunk(count: int, sample: seq<Region>): Advice
      requires index < |plan|
    {
      Advice(epoch, phase.Mark?, plan[index], plan[index].start + offset, count, sample)
    }

    ghost function Advance(count: int, sample: seq<Region>): Pass
      requires index < |plan|
    {
      var r, finished := plan[index], offset + count == plan[index].Size();
      this.(log := log + [Chunk(count, sample)],
            marked := if phase.Mark? then marked + count else marked,
            paged := if phase.Mark? then paged else paged + count,
            markedPlan := if finished && phase.Mark? then markedPlan + [r] else markedPlan,
            index := if finished then index + 1 else index,
            offset := if finished then 0 else offset + count)
    }

    predicate Further(from: Pass) {
      index > from.index || (index == from.index && offset > from.offset)
    }
  }

  lemma SkipKeeps(p: Pass)
    requires p.Consistent() && p.Active() && p.index < |p.plan|
    ensures p.(index := p.index + 1, offset := 0).Consistent()
  {
    PrefixSize(p.plan, p.index);
    var q := p.(index := p.index + 1, offset := 0);
    assert q.index < |q.plan| ==> q.plan[q.index] in q.plan;
  }

  ghost predicate MayAdvance(p: Pass, count: int, sample: seq<Region>) {
    && p.Consistent() && p.Active() && p.index < |p.plan|
    && 0 < count == Least(CHUNK_BYTES, p.plan[p.index].Size() - p.offset)
    && Resident(sample, p.plan[p.index]) && (p.phase.Pageout? ==> Idle(sample, p.plan[p.index]))
  }

  lemma AdvanceAccounted(p: Pass, count: int, sample: seq<Region>)
    requires MayAdvance(p, count, sample)
    ensures p.Advance(count, sample).Accounted()
  {
    var a, r := p.Chunk(count, sample), p.plan[p.index];
    assert r in p.plan;
    PrefixSize(p.plan, p.index);
    LogGrows(p.log, a);
    assert (p.log + [a])[..|p.log|] == p.log;
    JustifiedGrows(p.log, a);
  }

  lemma AdvanceShaped(p: Pass, count: int, sample: seq<Region>)
    requires MayAdvance(p, count, sample)
    ensures p.Advance(count, sample).Shaped()
  {
    var q := p.Advance(count, sample);
    assert q.index < |q.plan| ==> q.plan[q.index] in q.plan;
    assert p.plan[p.index] in p.plan;
  }

  // The marked bytes of an advance, whether or not it finishes its range.
  lemma AdvanceMarked(p: Pass, count: int, sample: seq<Region>)
    requires MayAdvance(p, count, sample) && p.phase.Mark?
    ensures var q := p.Advance(count, sample);
            && q.marked <= TotalSize(q.plan[..q.index]) + q.offset
            && TotalSize(q.markedPlan) + q.offset <= q.marked
  {
    PrefixSize(p.plan, p.index);
    SizeAdd(p.markedPlan, p.plan[p.index]);
  }

  lemma AdvanceCold(p: Pass, count: int, sample: seq<Region>)
    requires MayAdvance(p, count, sample) && p.phase.Mark?
    ensures var q := p.Advance(count, sample);
            && AllCold(q.log, q.epoch, q.markedPlan)
            && (q.index < |q.plan| ==>
                  ColdThroughout(q.log, q.epoch, q.plan[q.index].start, q.plan[q.index].start + q.offset))
  {
    var a, r := p.Chunk(count, sample), p.plan[p.index];
    AllColdGrows(p.log, a, p.epoch, p.markedPlan);
    ColdGrows(p.log, a, p.epoch, r.start, r.start + p.offset);
  }

  lemma AdvanceExactly(p: Pass, count: int, sample: seq<Region>)
    requires MayAdvance(p, count, sample) && p.phase.Mark?
    ensures var q := p.Advance(count, sample); ExactlyMarked(q.log, q.epoch, q.markedPlan)
  {
    var q := p.Advance(count, sample);
    forall r ensures r in q.markedPlan <==> Marked(q.log, q.epoch, r) {
      MarkedGrows(p.log, p.Chunk(count, sample), p.epoch, r);
    }
  }

  lemma AdvanceMarking(p: Pass, count: int, sample: seq<Region>)
    requires MayAdvance(p, count, sample) && p.phase.Mark?
    ensures p.Advance(count, sample).Marking()
  {
    AdvanceMarked(p, count, sample);
    AdvanceCold(p, count, sample);
    AdvanceExactly(p, count, sample);
  }

  lemma AdvancePaging(p: Pass, count: int, sample: seq<Region>)
    requires MayAdvance(p, count, sample) && p.phase.Pageout?
    ensures p.Advance(count, sample).Paging()
  {
    PrefixSize(p.plan, p.index);
    AllColdGrows(p.log, p.Chunk(count, sample), p.epoch, p.plan);
  }

  lemma AdvanceKeeps(p: Pass, count: int, sample: seq<Region>)
    requires MayAdvance(p, count, sample)
    ensures var q := p.Advance(count, sample);
            && q.Consistent() && q.Further(p) && p.log <= q.log
            && AdvisedBytes(q.log) == AdvisedBytes(p.log) + count
  {
    AdvanceAccounted(p, count, sample);
    AdvanceShaped(p, count, sample);
    if p.phase.Mark? { AdvanceMarking(p, count, sample); } else { AdvancePaging(p, count, sample); }
    LogGrows(p.log, p.Chunk(count, sample));
  }

  // A phase that has run out of ranges ends.
  function Ended(p: Pass): Pass {
    if !p.Active() || p.index != |p.plan| then p
    else if p.phase.Mark? then
      p.(plan := p.markedPlan, index := 0, offset := 0,
         phase := if p.markedPlan != [] then Waiting else Over("unreclaimable"))
    else p.(phase := Over("complete"))
  }

  lemma EndedKeeps(p: Pass)
    requires p.Consistent()
    ensures Ended(p).Valid()
  {
  }

  lemma RestartKeeps(p: Pass)
    requires p.Accounted()
    ensures Pass(Fresh, [], [], 0, 0, 0, 0, false, p.epoch + 1, p.log, 0, 0).Valid()
  {
    MovedNothing(p.log, p.epoch + 1, true);
    MovedNothing(p.log, p.epoch + 1, false);
  }

  // A pass that is over has nothing but its counts to answer for.
  lemma OverValid(p: Pass)
    requires p.Accounted() && p.phase.Over?
    requires (forall r :: r in p.plan ==> r.Size() > 0) && (forall r :: r in p.markedPlan ==> r.Size() > 0)
    ensures p.Valid()
  {
  }

  // The mark plan: complete, unlocked, resident mappings that still fit the budget.
  ghost predicate MarkPlan(regions: seq<Region>, plan: seq<Range>, budget: int) {
    && 0 <= TotalSize(plan) <= budget
    && (forall r :: r in plan ==> r.Size() > 0)
    && forall r :: r in plan ==>
         exists g :: g in regions && g.start == r.start && g.end == r.end && g.locked == 0 && g.rss > 0
  }

  predicate Markable(g: Region) { g.locked == 0 && g.rss > 0 && g.start < g.end }

  // Nothing is passed over that would still fit.
  ghost predicate MarkMaximal(regions: seq<Region>, plan: seq<Range>, budget: int) {
    forall g :: g in regions && Markable(g) ==>
      Range(g.start, g.end) in plan || g.end - g.start > budget - TotalSize(plan)
  }

  method ChooseMarkPlan(regions: seq<Region>, budget: nat) returns (plan: seq<Range>)
    ensures MarkPlan(regions, plan, budget) && MarkMaximal(regions, plan, budget)
  {
    plan := [];
    var total := 0;
    for i := 0 to |regions|
      invariant total == TotalSize(plan) && MarkPlan(regions, plan, budget)
      invariant MarkMaximal(regions[..i], plan, budget)
    {
      var region := regions[i];
      var size := region.end - region.start;
      if region.locked != 0 || region.rss == 0 || size <= 0 || size > budget - total { continue; }
      SizeAdd(plan, Range(region.start, region.end));
      plan := plan + [Range(region.start, region.end)];
      total := total + size;
    }
  }

  // The pageout plan: marked ranges that stayed unreferenced, within a new budget.
  ghost predicate PageoutPlan(sample: seq<Region>, marked: seq<Range>, plan: seq<Range>, budget: int) {
    && 0 <= TotalSize(plan) <= budget && TotalSize(plan) <= TotalSize(marked)
    && forall r :: r in plan ==> r in marked && Idle(sample, r)
  }

  ghost predicate PageoutMaximal(sample: seq<Region>, marked: seq<Range>, plan: seq<Range>, budget: int) {
    forall r :: r in marked && Idle(sample, r) ==> r in plan || r.Size() > budget - TotalSize(plan)
  }

  lemma PageoutSkips(sample: seq<Region>, marked: seq<Range>, i: nat, plan: seq<Range>, budget: int)
    requires i < |marked| && PageoutMaximal(sample, marked[..i], plan, budget)
    requires !Idle(sample, marked[i]) || marked[i].Size() > budget - TotalSize(plan)
    ensures PageoutMaximal(sample, marked[..i + 1], plan, budget)
  {
    assert marked[..i + 1] == marked[..i] + [marked[i]];
  }

  lemma PageoutTakes(sample: seq<Region>, marked: seq<Range>, i: nat, plan: seq<Range>, budget: int)
    requires i < |marked| && PageoutMaximal(sample, marked[..i], plan, budget) && marked[i].Size() > 0
    ensures PageoutMaximal(sample, marked[..i + 1], plan + [marked[i]], budget)
  {
    assert marked[..i + 1] == marked[..i] + [marked[i]];
    SizeAdd(plan, marked[i]);
  }

  method ChoosePageoutPlan(sample: seq<Region>, marked: seq<Range>, budget: nat) returns (plan: seq<Range>)
    requires forall r :: r in marked ==> r.Size() > 0
    ensures PageoutPlan(sample, marked, plan, budget) && PageoutMaximal(sample, marked, plan, budget)
  {
    plan := [];
    var total := 0;
    PrefixSize(marked, 0);
    for i := 0 to |marked|
      invariant total == TotalSize(plan) && PageoutPlan(sample, marked, plan, budget)
      invariant total <= TotalSize(marked[..i])
      invariant PageoutMaximal(sample, marked[..i], plan, budget)
    {
      PrefixSize(marked, i);
      PrefixSize(marked, i + 1);
      var r := marked[i];
      assert r in marked;
      if Idle(sample, r) && r.Size() <= budget - total {
        PageoutTakes(sample, marked, i, plan, budget);
        SizeAdd(plan, r);
        plan := plan + [r];
        total := total + r.Size();
      } else {
        PageoutSkips(sample, marked, i, plan, budget);
      }
    }
    assert marked[..|marked|] == marked;
  }

  // A pass starts exactly under these observations.
  ghost predicate CanMark(env: Environment) {
    && env.startPressure.Some? && PressureBudget(env.startPressure.value).Granted?
    && env.startMemory.Some? && env.startMemory.value.anonymous >= MIN_ANON_RSS
    && env.startLibrary && env.startRegions.Some?
    && SomeMarkFits(env.startRegions.value, PressureBudget(env.startPressure.value).bytes)
  }

  predicate MarkFits(g: Region, budget: int) { Markable(g) && g.end - g.start <= budget }

  ghost predicate SomeMarkFits(regions: seq<Region>, budget: int) {
    exists g :: g in regions && MarkFits(g, budget)
  }

  lemma MarkChosen(regions: seq<Region>, plan: seq<Range>, budget: int)
    requires MarkPlan(regions, plan, budget) && MarkMaximal(regions, plan, budget)
    ensures plan != [] <==> SomeMarkFits(regions, budget)
  {
    if plan != [] {
      var r := plan[0];
      assert r in plan;
      PrefixSize(plan, 0);
      PrefixSize(plan, 1);
      assert plan[..0] == [];
      var g :| g in regions && g.start == r.start && g.end == r.end && g.locked == 0 && g.rss > 0;
      assert MarkFits(g, budget);
    }
  }

  // And it goes on to page out exactly under these.
  ghost predicate CanPage(env: Environment, plan: seq<Range>) {
    && env.pagePressure.Some? && PressureBudget(env.pagePressure.value).Granted? && env.pageRegions.Some?
    && SomePageFits(env.pageRegions.value, plan, PressureBudget(env.pagePressure.value).bytes)
  }

  predicate PageFits(sample: seq<Region>, r: Range, budget: int) { Idle(sample, r) && r.Size() <= budget }

  ghost predicate SomePageFits(sample: seq<Region>, marked: seq<Range>, budget: int) {
    exists r :: r in marked && PageFits(sample, r, budget)
  }

  lemma PageChosen(sample: seq<Region>, marked: seq<Range>, plan: seq<Range>, budget: int)
    requires PageoutPlan(sample, marked, plan, budget) && PageoutMaximal(sample, marked, plan, budget)
    requires forall r :: r in marked ==> r.Size() > 0
    ensures plan != [] <==> SomePageFits(sample, marked, budget)
  {
    if plan != [] {
      assert plan[0] in plan;
      PrefixSize(plan, 0);
      PrefixSize(plan, 1);
      assert plan[..0] == [];
      assert PageFits(sample, plan[0], budget);
    }
  }

  lemma PlanSizes(p: Pass)
    requires p.Valid()
    ensures forall r :: r in p.plan ==> r.Size() > 0
  {
  }

  lemma PageoutStarts(p: Pass, sample: seq<Region>, plan: seq<Range>, budget: nat)
    requires p.Valid() && p.phase.Waiting? && PageoutPlan(sample, p.plan, plan, budget)
    ensures p.(plan := plan, index := 0, offset := 0, pageBudget := budget,
               phase := if plan != [] then Pageout else Over("hot")).Valid()
  {
    assert plan != [] ==> plan[0] in plan;
  }

  lemma MarkStarts(p: Pass, regions: seq<Region>, plan: seq<Range>, budget: nat)
    requires p.Valid() && p.phase.Fresh? && p.plan == [] && p.markedPlan == [] && p.marked == p.paged == 0
    requires p.pageBudget == 0 && MarkPlan(regions, plan, budget)
    ensures p.(plan := plan, index := 0, offset := 0, started := true, markBudget := budget,
               phase := if plan != [] then Mark else Over("unreclaimable")).Valid()
  {
    assert plan != [] ==> plan[0] in plan;
  }

  // Whether a step in this phase advises the range.
  predicate Advisable(phase: Phase, sample: seq<Region>, r: Range) {
    Resident(sample, r) && (phase.Pageout? ==> Idle(sample, r))
  }

  // None of the ranges from one index to another is to be advised.
  ghost predicate NoneAdvisable(p: Pass, sample: seq<Region>, from: nat, to: nat) {
    forall i :: from <= i < to && i < |p.plan| ==> !Advisable(p.phase, sample, p.plan[i])
  }

  predicate PressureKept(env: Environment) {
    && env.stepPressure.Some? && PressureBudget(env.stepPressure.value).Granted?
    && PressureBudget(env.stepPressure.value).bytes >= CHUNK_BYTES
  }

  // A step from here that is not stopped from outside has a chunk to advise.
  ghost predicate MustAdvise(p: Pass, env: Environment) {
    && p.Active() && AllAccepted(env) && env.stepRegions.Some? && (p.phase.Pageout? ==> PressureKept(env))
    && !NoneAdvisable(p, env.stepRegions.value, p.index, |p.plan|)
  }

  // A step from here that nothing outside stops.
  ghost predicate GoesOn(p: Pass, env: Environment) {
    p.Active() && AllAccepted(env) && env.stepRegions.Some? && (p.phase.Pageout? ==> PressureKept(env))
  }

  ghost predicate InTime(env: Environment) {
    forall n :: !env.overtime(n)
  }

  // Then it stays in its phase, or has come to the end of its plan: a mark phase with ranges
  // marked to their end then waits with exactly those, one without is over, and so is a
  // pageout phase.
  ghost predicate PhaseDone(from: Pass, q: Pass) {
    if from.phase.Mark? then
      || (q.phase.Waiting? && q.plan != [] && ExactlyMarked(q.log, q.epoch, q.plan))
      || (q.phase == Over("unreclaimable") && ExactlyMarked(q.log, q.epoch, []))
    else q.phase == Over("complete")
  }

  lemma EndsAs(from: Pass, p: Pass)
    requires p.Consistent() && p.Active() && p.phase == from.phase && p.index == |p.plan|
    ensures PhaseDone(from, Ended(p))
    ensures Ended(p).phase.Over? ==> PhaseDone(from, Ended(p).(plan := [], markedPlan := []))
  {
  }

  lemma NoneMore(p: Pass, sample: seq<Region>, from: nat, to: nat)
    requires NoneAdvisable(p, sample, from, to)
    requires to < |p.plan| ==> !Advisable(p.phase, sample, p.plan[to])
    ensures NoneAdvisable(p, sample, from, to + 1)
  {
  }

  // Every call in the step succeeds.
  ghost predicate AllAccepted(env: Environment) {
    forall n :: env.advice(n).Accepted?
  }

  // Everything advised after the first n entries used this sample, in this pass.
  ghost predicate AdvisedSince(log: seq<Advice>, n: nat, sample: seq<Region>, epoch: nat, cold: bool) {
    forall i :: n <= i < |log| ==> log[i].sample == sample && log[i].epoch == epoch && log[i].cold == cold
  }

  // The advising loop after some turns: from is the pass it began with.
  ghost predicate Looping(from: Pass, p: Pass, sample: seq<Region>, done: int, turn: nat) {
    && p.Consistent() && p.phase == from.phase && p.plan == from.plan && p.epoch == from.epoch
    && p.markBudget == from.markBudget && p.pageBudget == from.pageBudget
    && from.log <= p.log && AdvisedSince(p.log, |from.log|, sample, from.epoch, from.phase.Mark?)
    && AdvisedBytes(p.log) == AdvisedBytes(from.log) + done
    && (if turn == 0 then p == from else p.Further(from))
    && (done == 0 ==> NoneAdvisable(from, sample, from.index, p.index))
  }

  lemma LoopingSkip(from: Pass, p: Pass, sample: seq<Region>, done: int, turn: nat)
    requires Looping(from, p, sample, done, turn) && p.Active() && p.index < |p.plan|
    requires !Advisable(p.phase, sample, p.plan[p.index])
    ensures Looping(from, p.(index := p.index + 1, offset := 0), sample, done, turn + 1)
    ensures p.(index := p.index + 1, offset := 0).Further(p)
  {
    SkipKeeps(p);
    if done == 0 { NoneMore(from, sample, from.index, p.index); }
  }

  lemma LoopingMove(from: Pass, p: Pass, sample: seq<Region>, done: int, turn: nat, count: int)
    requires Looping(from, p, sample, done, turn) && MayAdvance(p, count, sample) && done >= 0
    ensures Looping(from, p.Advance(count, sample), sample, done + count, turn + 1)
    ensures p.Advance(count, sample).Further(p)
  {
    AdvanceKeeps(p, count, sample);
  }

  // The bytes of the plan that are neither advised nor passed over.
  function Left(p: Pass): int
    requires p.index <= |p.plan|
  {
    TotalSize(p.plan) - TotalSize(p.plan[..p.index]) - p.offset
  }

  // Every step that stays in its phase leaves strictly less of the plan.
  lemma PhaseEnds(p: Pass, q: Pass)
    requires p.Valid() && p.Active() && q.Valid() && q.phase == p.phase && q.plan == p.plan && q.Further(p)
    ensures 0 < Left(q) < Left(p) <= if p.phase.Mark? then p.markBudget else p.pageBudget
  {
    PrefixSize(p.plan, p.index);
    PrefixSize(q.plan, q.index);
    assert p.plan[p.index] in p.plan;
    if q.index > p.index {
      PrefixSize(q.plan[..q.index], p.index + 1);
      assert q.plan[..q.index][..p.index + 1] == p.plan[..p.index + 1];
    }
  }

  ghost function PhaseBudget(p: Pass): int { if p.phase.Mark? then p.markBudget else p.pageBudget }

  ghost predicate StaysInPhase(p: Pass, q: Pass) {
    && p.Valid() && p.Active() && q.Valid() && q.phase == p.phase && q.plan == p.plan && q.Further(p)
  }

  // So a phase takes at most as many steps as its budget has bytes.
  lemma {:induction false} PhaseSteps(passes: seq<Pass>)
    requires |passes| > 0 && passes[0].Valid() && passes[0].Active()
    requires forall i :: 0 <= i < |passes| - 1 ==> StaysInPhase(passes[i], passes[i + 1])
    ensures |passes| <= PhaseBudget(passes[0])
  {
    PhaseLeft(passes);
  }

  lemma {:induction false} PhaseLeft(passes: seq<Pass>)
    requires |passes| > 0 && passes[0].Valid() && passes[0].Active()
    requires forall i :: 0 <= i < |passes| - 1 ==> StaysInPhase(passes[i], passes[i + 1])
    ensures var last := passes[|passes| - 1];
            && last.Valid() && last.Active()
            && 0 < Left(last) <= PhaseBudget(passes[0]) - (|passes| - 1)
  {
    var n := |passes| - 1;
    if n == 0 {
      LeftStarts(passes[0]);
    } else {
      PhaseLeft(passes[..n]);
      assert StaysInPhase(passes[n - 1], passes[n - 1 + 1]);
      PhaseEnds(passes[n - 1], passes[n]);
    }
  }

  lemma LeftStarts(p: Pass)
    requires p.Valid() && p.Active()
    ensures 0 < Left(p) <= PhaseBudget(p)
  {
    PrefixSize(p.plan, p.index);
    assert p.plan[p.index] in p.plan;
  }

  // What is left of the current range.
  function Rest(p: Pass): int {
    if p.index < |p.plan| then p.plan[p.index].Size() - p.offset else 0
  }

  lemma RestBounded(p: Pass)
    requires p.Consistent() && p.Active()
    ensures p.index <= |p.plan| && Rest(p) >= 0
  {
  }

  lemma RestShrinks(p: Pass, q: Pass)
    requires p.Consistent() && q.Consistent() && q.plan == p.plan && p.Active() && q.phase == p.phase && q.Further(p)
    ensures q.index <= |q.plan| && (q.index > p.index || (q.index == p.index && Rest(q) < Rest(p)))
  {
  }

  // What a pass is to do before it looks at the mappings.
  datatype Decision =
    | Unreadable(memory: Option<Memory>)
    | Declined(memory: Option<Memory>, reason: string)
    | Go(memory: Option<Memory>, bytes: nat, regions: seq<Region>)

  method Decide(env: Environment) returns (d: Decision)
    ensures d.Go? <==> && env.startPressure.Some? && PressureBudget(env.startPressure.value).Granted?
                       && env.startMemory.Some? && env.startMemory.value.anonymous >= MIN_ANON_RSS
                       && env.startLibrary && env.startRegions.Some?
    ensures d.Go? ==> d.memory.Some? && PressureBudget(env.startPressure.value) == Granted(d.bytes)
                      && d.regions == env.startRegions.value
    ensures d.Declined? ==>
              && d.memory.Some? && env.startPressure.Some?
              && match PressureBudget(env.startPressure.value)
                 case Refused(reason) => d.reason == reason
                 case Granted(_) => d.reason == "small" && d.memory.value.anonymous < MIN_ANON_RSS
  {
    if env.startPressure.None? { return Unreadable(None); }
    var budget := PressureBudget(env.startPressure.value);
    if env.startMemory.None? { return Unreadable(None); }
    if budget.Refused? { return Declined(env.startMemory, budget.reason); }
    if env.startMemory.value.anonymous < MIN_ANON_RSS { return Declined(env.startMemory, "small"); }
    if !env.startLibrary || env.startRegions.None? { return Unreadable(env.startMemory); }
    return Go(env.startMemory, budget.bytes, env.startRegions.value);
  }

  // That the process has been looked at changes nothing in a fresh pass.
  lemma BeforeAccounted(p: Pass)
    requires p.(started := false).Valid() && p.phase.Fresh?
    ensures p.Accounted()
  {
  }

  // ---------- the object that carries it out ----------

  datatype Turn = Skipped | Moved(count: int) | Stopped | Raised

  datatype Request = MarkRequest | PageoutRequest | OtherRequest

  datatype Outcome = Cancelled | Reported(state: Phase, markedBytes: int, pageoutBytes: int)

  class ColdResidency {
    var token: Option<int>
    var phase: Phase
    var plan: seq<Range>
    var markedPlan: seq<Range>
    var index: nat
    var offset: int
    var marked: int
    var paged: int
    var before: Option<Memory>
    ghost var epoch: nat
    ghost var log: seq<Advice>
    ghost var markBudget: int
    ghost var pageBudget: int

    ghost function View(): Pass reads this {
      Pass(phase, plan, markedPlan, index, offset, marked, paged, before.Some?, epoch, log, markBudget, pageBudget)
    }

    predicate Active() reads this { phase.Mark? || phase.Pageout? }

    ghost predicate Valid() reads this { View().Valid() }

    constructor ()
      ensures Valid() && log == [] && phase == Fresh && token == None
    {
      token, phase, plan, markedPlan, index, offset := None, Fresh, [], [], 0, 0;
      marked, paged, before := 0, 0, None;
      epoch, log, markBudget, pageBudget := 0, [], 0, 0;
    }

    method Reset(newToken: Option<int>)
      requires Valid()
      modifies this
      ensures token == newToken && View() == Pass(Fresh, [], [], 0, 0, 0, 0, false, old(epoch) + 1, old(log), 0, 0)
      ensures Valid()
    {
      RestartKeeps(View());
      token, phase, plan, markedPlan, index, offset := newToken, Fresh, [], [], 0, 0;
      marked, paged, before := 0, 0, None;
      epoch, markBudget, pageBudget := epoch + 1, 0, 0;
    }

    method Start(newToken: Option<int>, env: Environment) returns (raised: bool)
      requires Valid()
      modifies this
      ensures token == newToken && log == old(log) && epoch == old(epoch) + 1
      ensures View().Accounted() && (!raised ==> Valid() && !phase.Fresh? && !phase.Waiting? && !phase.Pageout?)
      ensures pageBudget == 0 && (markBudget == 0 || Sampled(env.startPressure, markBudget))
      ensures !raised && phase.Mark? ==>
                && env.startPressure.Some? && PressureBudget(env.startPressure.value) == Granted(markBudget)
                && env.startRegions.Some? && MarkPlan(env.startRegions.value, plan, markBudget)
                && MarkMaximal(env.startRegions.value, plan, markBudget)
      ensures !raised && phase.Mark? <==> CanMark(env)
    {
      var decision := Decide(env);
      Reset(newToken);
      before := decision.memory;
      ghost var p := View();
      BeforeAccounted(p);
      match decision {
        case Unreadable(_) => return true;
        case Declined(_, reason) =>
          phase := Over(reason);
          OverValid(View());
        case Go(_, bytes, regions) => StartMarking(regions, bytes);
      }
      return false;
    }

    method StartMarking(regions: seq<Region>, budget: nat)
      requires View().(started := false).Valid() && phase.Fresh? && before.Some?
      requires plan == [] && markedPlan == [] && marked == paged == pageBudget == 0
      modifies this
      ensures token == old(token) && log == old(log) && epoch == old(epoch) && Valid()
      ensures phase.Mark? || phase.Over?
      ensures markBudget == budget && pageBudget == 0 && (phase.Mark? ==> MarkPlan(regions, plan, budget))
      ensures phase.Mark? ==> MarkMaximal(regions, plan, budget)
      ensures phase.Mark? <==> SomeMarkFits(regions, budget)
    {
      ghost var p := View().(started := false);
      var chosen := ChooseMarkPlan(regions, budget);
      MarkStarts(p, regions, chosen, budget);
      MarkChosen(regions, chosen, budget);
      TakePlan(chosen, if chosen != [] then Mark else Over("unreclaimable"), budget, 0);
    }

    method ChoosePageout(env: Environment) returns (raised: bool)
      requires Valid() && phase.Waiting?
      modifies this
      ensures token == old(token) && log == old(log) && epoch == old(epoch) && before == old(before)
      ensures View().Accounted() && (!raised ==> Valid() && !phase.Fresh? && !phase.Waiting? && !phase.Mark?)
      ensures markBudget == old(markBudget)
      ensures pageBudget == old(pageBudget) || Sampled(env.pagePressure, pageBudget)
      ensures !raised && phase.Pageout? ==>
                && env.pagePressure.Some? && PressureBudget(env.pagePressure.value) == Granted(pageBudget)
                && env.pageRegions.Some? && PageoutPlan(env.pageRegions.value, old(plan), plan, pageBudget)
                && PageoutMaximal(env.pageRegions.value, old(plan), plan, pageBudget)
      ensures !raised && phase.Pageout? <==> CanPage(env, old(plan))
    {
      if env.pagePressure.None? { return true; }
      var budget := PressureBudget(env.pagePressure.value);
      if budget.Refused? {
        phase := Over(budget.reason);
        OverValid(View());
        return false;
      }
      if env.pageRegions.None? { return true; }
      StartPageout(env.pageRegions.value, budget.bytes);
      return false;
    }

    method StartPageout(sample: seq<Region>, budget: nat)
      requires Valid() && phase.Waiting?
      modifies this
      ensures token == old(token) && log == old(log) && epoch == old(epoch) && before == old(before) && Valid()
      ensures markBudget == old(markBudget) && pageBudget == budget && (phase.Pageout? || phase.Over?)
      ensures phase.Pageout? ==>
                PageoutPlan(sample, old(plan), plan, budget) && PageoutMaximal(sample, old(plan), plan, budget)
      ensures phase.Pageout? <==> SomePageFits(sample, old(plan), budget)
    {
      PlanSizes(View());
      var chosen := ChoosePageoutPlan(sample, plan, budget);
      PageoutStarts(View(), sample, chosen, budget);
      PageChosen(sample, plan, chosen, budget);
      TakePlan(chosen, if chosen != [] then Pageout else Over("hot"), markBudget, budget);
    }

    method TakePlan(chosen: seq<Range>, next: Phase, ghost forMark: int, ghost forPageout: int)
      modifies this`plan, this`index, this`offset, this`phase, this`markBudget, this`pageBudget
      ensures View() == old(View()).(plan := chosen, index := 0, offset := 0, phase := next,
                                     markBudget := forMark, pageBudget := forPageout)
    {
      plan, index, offset, phase := chosen, 0, 0, next;
      markBudget, pageBudget := forMark, forPageout;
    }

    method Account(count: int, ghost sample: seq<Region>)
      requires MayAdvance(View(), count, sample)
      modifies this
      ensures View() == old(View()).Advance(count, sample) && token == old(token) && before == old(before)
    {
      var r := plan[index];
      log := log + [View().Chunk(count, sample)];
      if phase.Mark? { marked := marked + count; } else { paged := paged + count; }
      offset := offset + count;
      if r.start + offset == r.end {
        if phase.Mark? { markedPlan := markedPlan + [r]; }
        index, offset := index + 1, 0;
      }
    }

    // One turn of the loop: skip the range, advise a chunk of it, or stop.
    method AdviseOne(sample: seq<Region>, verdict: Verdict) returns (turn: Turn)
      requires View().Consistent() && Active() && index < |plan|
      modifies this
      ensures token == old(token) && before == old(before) && epoch == old(epoch)
      ensures turn.Moved? ==> MayAdvance(old(View()), turn.count, sample)
                              && View() == old(View()).Advance(turn.count, sample)
      ensures !turn.Moved? ==> log == old(log)
      ensures turn.Skipped? ==> View() == old(View()).(index := old(index) + 1, offset := 0)
      ensures turn.Skipped? <==> !Advisable(old(phase), sample, old(plan)[old(index)])
      ensures verdict.Accepted? ==> turn.Moved? || turn.Skipped?
      ensures turn.Moved? ==> turn.count == Least(CHUNK_BYTES, old(plan)[old(index)].Size() - old(offset))
      ensures turn.Stopped? ==> View() == old(View()).(phase := phase) && phase.Over?
      ensures turn.Raised? ==> View() == old(View())
    {
      var r := plan[index];
      if !Resident(sample, r) || (phase.Pageout? && !Idle(sample, r)) {
        index, offset := index + 1, 0;
        return Skipped;
      }
      var count := Least(CHUNK_BYTES, r.end - r.start - offset);
      if verdict.Aborted? { return Raised; }
      if !verdict.Accepted? {
        phase := Over(if verdict.Unsupported? then "unsupported" else "unreclaimable");
        return Stopped;
      }
      Account(count, sample);
      return Moved(count);
    }

    // One turn as the loop from the pass `from` sees it.
    method AdviseTurn(ghost from: Pass, sample: seq<Region>, verdict: Verdict, ghost done: int, ghost turn: nat)
      returns (result: Turn)
      requires Looping(from, View(), sample, done, turn) && Active() && index < |plan| && done >= 0
      modifies this
      ensures token == old(token) && before == old(before)
      ensures result.Moved? ==>
                0 < result.count <= CHUNK_BYTES && Looping(from, View(), sample, done + result.count, turn + 1)
      ensures result.Skipped? ==> Looping(from, View(), sample, done, turn + 1)
      ensures result.Moved? || result.Skipped? ==> View().Further(old(View()))
      ensures verdict.Accepted? ==> result.Moved? || result.Skipped?
      ensures result.Stopped? ==> phase.Over? && View() == old(View()).(phase := phase)
      ensures result.Raised? ==> View() == old(View())
    {
      ghost var p := View();
      assert p.Consistent();
      result := AdviseOne(sample, verdict);
      if result.Skipped? {
        assert View() == p.(index := p.index + 1, offset := 0);
        LoopingSkip(from, p, sample, done, turn);
      } else if result.Moved? {
        assert View() == p.Advance(result.count, sample);
        LoopingMove(from, p, sample, done, turn, result.count);
      }
    }

    // last is the pass as the loop left it, before a refused call changed its phase.
    method AdviseLoop(sample: seq<Region>, env: Environment)
      returns (raised: bool, done: int, turn: nat, ghost last: Pass)
      requires Valid() && Active()
      modifies this
      ensures token == old(token) && before == old(before)
      ensures Looping(old(View()), last, sample, done, turn) && 0 <= done < STEP_BYTES + CHUNK_BYTES
      ensures View() == last || (phase.Over? && View() == last.(phase := phase))
      ensures !raised && Active() ==> turn > 0
      ensures AllAccepted(env) && done == 0 ==> last.index == |last.plan|
      ensures AllAccepted(env) ==> !raised && Active()
      ensures AllAccepted(env) && InTime(env) && done < STEP_BYTES ==> last.index == |last.plan|
    {
      var halted := false;
      raised, done, turn, last := false, 0, 0, View();
      ghost var from := View();
      while Active() && index < |plan| && !halted
        invariant token == old(token) && before == old(before) && last == View() && plan == from.plan
        invariant Looping(from, last, sample, done, turn) && 0 <= done < STEP_BYTES + CHUNK_BYTES
        invariant !raised && (!halted ==> done < STEP_BYTES) && (halted ==> turn > 0 && done > 0)
        invariant InTime(env) && halted ==> done >= STEP_BYTES
        decreases !halted, |plan| - index, Rest(last)
      {
        var late := env.overtime(turn);
        RestBounded(last);
        var result := AdviseTurn(from, sample, env.advice(turn), done, turn);
        if result.Stopped? || result.Raised? {
          raised := result.Raised?;
          break;
        }
        if result.Moved? {
          done := done + result.count;
          halted := done >= STEP_BYTES || late;
        }
        turn := turn + 1;
        RestShrinks(last, View());
        last := View();
      }
    }

    method EndPhase()
      modifies this
      ensures View() == Ended(old(View())) && token == old(token) && before == old(before)
    {
      if Active() && index == |plan| {
        if phase.Mark? {
          plan, index, offset := markedPlan, 0, 0;
          phase := if plan != [] then Waiting else Over("unreclaimable");
        } else {
          phase := Over("complete");
        }
      }
    }

    // What was advised since the log had n entries rests on this step's observations.
    ghost predicate AdvisedUnder(env: Environment, n: nat) reads this {
      forall i :: n <= i < |log| ==>
        && env.stepRegions.Some? && log[i].sample == env.stepRegions.value && log[i].epoch == epoch
        && (!log[i].cold ==> PressureKept(env))
    }

    // No step changes a budget once its plan is chosen.
    twostate predicate SameBudgets() reads this {
      markBudget == old(markBudget) && pageBudget == old(pageBudget) && epoch == old(epoch)
    }

    // Paging out goes on only under a fresh budget of at least one chunk.
    method Recheck(env: Environment) returns (raised: bool)
      requires Valid()
      modifies this`phase
      ensures View() == old(View()) || (phase.Over? && View() == old(View()).(phase := phase))
      ensures raised ==> View() == old(View())
      ensures Valid()
      ensures !raised && phase.Pageout? ==>
                PressureKept(env)
      ensures old(phase).Pageout? && PressureKept(env) ==> !raised && phase.Pageout?
      ensures !old(phase).Pageout? ==> !raised && phase == old(phase)
    {
      if phase.Pageout? {
        if env.stepPressure.None? { return true; }
        var budget := PressureBudget(env.stepPressure.value);
        if budget.Refused? { phase := Over(budget.reason); }
        else if budget.bytes < CHUNK_BYTES { phase := Over("no-swap"); }
        if phase.Over? { OverValid(View()); }
      }
      return false;
    }

    method AdviseSampled(env: Environment) returns (raised: bool)
      requires Valid() && Active() && env.stepRegions.Some?
      requires phase.Pageout? ==>
                 PressureKept(env)
      modifies this
      ensures token == old(token) && before == old(before) && old(log) <= log && SameBudgets()
      ensures View().Consistent() && !phase.Waiting?
      ensures !raised && Active() ==> phase == old(phase) && plan == old(plan) && View().Further(old(View()))
      ensures AdvisedBytes(log) < AdvisedBytes(old(log)) + STEP_BYTES + CHUNK_BYTES
      ensures AdvisedUnder(env, |old(log)|)
      ensures MustAdvise(old(View()), env) ==> AdvisedBytes(log) > AdvisedBytes(old(log))
      ensures GoesOn(old(View()), env) ==> !raised && Active() && phase == old(phase)
      ensures GoesOn(old(View()), env) && InTime(env) ==>
                AdvisedBytes(log) >= AdvisedBytes(old(log)) + STEP_BYTES || index == |plan|
    {
      var done, turn;
      ghost var last;
      raised, done, turn, last := AdviseLoop(env.stepRegions.value, env);
      assert last.Consistent();
      if phase.Over? { OverValid(View()); }
    }

    // Sampling and advising of one step, after the pass has been started or continued.
    method Advise(env: Environment) returns (raised: bool)
      requires Valid()
      modifies this
      ensures token == old(token) && before == old(before) && old(log) <= log && SameBudgets()
      ensures View().Consistent()
      ensures !raised && phase.Waiting? ==> View() == old(View())
      ensures !raised && Active() ==> phase == old(phase) && plan == old(plan) && View().Further(old(View()))
      ensures AdvisedBytes(log) < AdvisedBytes(old(log)) + STEP_BYTES + CHUNK_BYTES
      ensures AdvisedUnder(env, |old(log)|)
      ensures MustAdvise(old(View()), env) ==> AdvisedBytes(log) > AdvisedBytes(old(log))
      ensures GoesOn(old(View()), env) ==> !raised && Active() && phase == old(phase)
      ensures GoesOn(old(View()), env) && InTime(env) ==>
                AdvisedBytes(log) >= AdvisedBytes(old(log)) + STEP_BYTES || index == |plan|
    {
      raised := Recheck(env);
      if raised || !Active() { return; }
      if env.stepRegions.None? { return true; }
      raised := AdviseSampled(env);
    }

    // An exception ends the pass but keeps its counts.
    method Abort()
      requires View().Accounted()
      modifies this
      ensures Valid() && phase == Over("unavailable") && plan == [] && markedPlan == []
      ensures log == old(log) && token == old(token) && SameBudgets()
      ensures marked == old(marked) && paged == old(paged)
    {
      phase, plan, markedPlan := Over("unavailable"), [], [];
    }

    // A mark request with a new token starts a pass; each budget is the one its own sample
    // granted when the plan was chosen, or is none.
    twostate predicate Budgeted(env: Environment, restart: bool) reads this {
      && epoch == old(epoch) + (if restart then 1 else 0)
      && (if restart then markBudget == 0 || Sampled(env.startPressure, markBudget) else markBudget == old(markBudget))
      && (if restart then pageBudget == 0 else pageBudget == old(pageBudget) || Sampled(env.pagePressure, pageBudget))
    }

    // Start or continue the pass a request asks for.
    method Begin(newToken: Option<int>, request: Request, env: Environment) returns (raised: bool)
      requires Valid() && (request == MarkRequest || token == newToken)
      modifies this
      ensures token == newToken && log == old(log) && View().Accounted() && (!raised ==> Valid())
      ensures Budgeted(env, request == MarkRequest && newToken != old(token))
      ensures !raised && newToken == old(token) && Active() && phase == old(phase) ==> View() == old(View())
      ensures newToken == old(token) && old(Active()) ==> !raised && View() == old(View())
      ensures !raised && request == MarkRequest && newToken != old(token) && phase.Mark? <==>
                request == MarkRequest && newToken != old(token) && CanMark(env)
    {
      raised := false;
      if request == MarkRequest && token != newToken {
        raised := Start(newToken, env);
      } else if request == PageoutRequest && phase.Waiting? {
        raised := ChoosePageout(env);
      }
    }

    method Finish(env: Environment) returns (raised: bool)
      requires View().Consistent()
      modifies this
      ensures token == old(token) && log == old(log) && SameBudgets() && View().Accounted()
      ensures !raised ==> Valid()
      ensures !raised && Active() ==> View() == old(View())
      ensures old(Active()) && old(index) < |old(plan)| ==> !raised && View() == old(View())
      ensures old(Active()) && old(index) == |old(plan)| && env.endMemory.Some? && old(before).Some? ==>
                !raised && PhaseDone(old(View()), View())
    {
      if Active() && index == |plan| { EndsAs(View(), View()); }
      EndedKeeps(View());
      EndPhase();
      if phase.Mark? || phase.Waiting? || phase.Pageout? { return false; }
      if env.endMemory.None? || before.None? { return true; }
      plan, markedPlan := [], [];
      return false;
    }

    // The rest of a step once its pass has been started or continued.
    method Work(env: Environment) returns (raised: bool)
      requires Valid()
      modifies this
      ensures token == old(token) && old(log) <= log && SameBudgets()
      ensures View().Accounted() && (!raised ==> Valid())
      ensures !raised && Active() ==> phase == old(phase) && plan == old(plan) && View().Further(old(View()))
      ensures AdvisedBytes(log) < AdvisedBytes(old(log)) + STEP_BYTES + CHUNK_BYTES
      ensures AdvisedUnder(env, |old(log)|)
      ensures MustAdvise(old(View()), env) ==> AdvisedBytes(log) > AdvisedBytes(old(log))
      ensures GoesOn(old(View()), env) && env.endMemory.Some? ==>
                !raised && ((Active() && phase == old(phase)) || PhaseDone(old(View()), View()))
      ensures GoesOn(old(View()), env) && env.endMemory.Some? && InTime(env) ==>
                AdvisedBytes(log) >= AdvisedBytes(old(log)) + STEP_BYTES || PhaseDone(old(View()), View())
    {
      raised := Advise(env);
      if !raised {
        raised := Finish(env);
      }
    }

    method Step(newToken: Option<int>, request: Request, env: Environment) returns (outcome: Outcome)
      requires Valid()
      modifies this
      ensures Valid() && old(log) <= log
      ensures Budgeted(env, request == MarkRequest && newToken != old(token))
      ensures outcome.Cancelled? <==> request != MarkRequest && newToken != old(token)
      ensures outcome.Cancelled? ==> View() == old(View()) && token == old(token)
      ensures outcome.Reported? ==> outcome == Reported(phase, marked, paged) && token == newToken
      ensures AdvisedBytes(log) < AdvisedBytes(old(log)) + STEP_BYTES + CHUNK_BYTES
      // Every chunk advised here was present, resident and unlocked in this step's sample,
      // and paging out needed a fresh budget of at least one chunk.
      ensures AdvisedUnder(env, |old(log)|)
      // And a pass that has something left to advise, is asked to go on and is not stopped from
      // outside advises some of it.
      ensures newToken == old(token) && MustAdvise(old(View()), env) ==> AdvisedBytes(log) > AdvisedBytes(old(log))
      // It stays in its phase or ends it as PhaseDone says, and unless the time runs out it
      // advises a whole step or ends the phase.
      ensures newToken == old(token) && GoesOn(old(View()), env) && env.endMemory.Some? ==>
                (Active() && phase == old(phase)) || PhaseDone(old(View()), View())
      ensures newToken == old(token) && GoesOn(old(View()), env) && env.endMemory.Some? && InTime(env) ==>
                AdvisedBytes(log) >= AdvisedBytes(old(log)) + STEP_BYTES || PhaseDone(old(View()), View())
      // A step that leaves a pass in the active phase it found it in has moved on.
      ensures outcome.Reported? && newToken == old(token) && Active() && phase == old(phase) ==>
                plan == old(plan) && View().Further(old(View()))
    {
      if request != MarkRequest && token != newToken {
        return Cancelled;
      }
      var raised := Begin(newToken, request, env);
      if !raised {
        raised := Work(env);
      }
      if raised { Abort(); }
      return Reported(phase, marked, paged);
    }
  }
}
