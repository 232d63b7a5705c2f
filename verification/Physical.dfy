/**
 The physical page allocator: kernel/src/mm/physical.c.

 Each zone is scanned cyclically from a cursor for a run of free pages. The loop is described by the
 page each iteration examines and the length of the free run it has counted, exactly as it counts.
 */
module Physical {
  import opened Common

  /** Pages start to end - 1, with the cursor somewhere among them. */
  datatype Zone = Zone(head: nat, start: nat, end: nat) {
    ghost predicate Usable(refs: seq<nat>) {
      start <= head < end <= |refs|
    }
  }

  /** The page examined by iteration `k` of the scan. */
  function PageAt(z: Zone, k: nat): nat {
    if k == 0 then z.head
    else if PageAt(z, k - 1) + 1 >= z.end then z.start
    else PageAt(z, k - 1) + 1
  }

  lemma {:induction false} PageInZone(z: Zone, k: nat)
    requires z.start <= z.head < z.end
    ensures z.start <= PageAt(z, k) < z.end
  {
    if k > 0 {
      PageInZone(z, k - 1);
    }
  }

  /** Iterations before the wrap. */
  function BeforeWrap(z: Zone): nat
    requires z.head <= z.end
  {
    z.end - z.head
  }

  /** The first cycle: up to the end, then from the start. */
  lemma {:induction false} PageInCycle(z: Zone, k: nat)
    requires z.start <= z.head < z.end && k <= z.end - z.start
    ensures PageAt(z, k) == if k < BeforeWrap(z) then z.head + k else z.start + (k - BeforeWrap(z))
  {
    if k > 0 {
      PageInCycle(z, k - 1);
    }
  }

  /** One cycle examines each page of the zone exactly once. */
  lemma CycleExaminesEachPageOnce(z: Zone, p: nat)
    requires z.start <= z.head < z.end && z.start <= p < z.end
    ensures exists k: nat :: k < z.end - z.start && PageAt(z, k) == p
    ensures forall j: nat, k: nat ::
              j < z.end - z.start && k < z.end - z.start && PageAt(z, j) == PageAt(z, k) ==> j == k
  {
    var k := if p >= z.head then p - z.head else p - z.start + BeforeWrap(z);
    PageInCycle(z, k);
    assert PageAt(z, k) == p;
    forall i: nat, j: nat | i < z.end - z.start && j < z.end - z.start && PageAt(z, i) == PageAt(z, j)
      ensures i == j
    {
      PageInCycle(z, i);
      PageInCycle(z, j);
    }
  }

  /** The length the code has counted after iteration `k`: it is not reset when the scan wraps. */
  ghost function RunAt(refs: seq<nat>, z: Zone, k: nat): nat
    requires z.Usable(refs)
  {
    PageInZone(z, k);
    if refs[PageAt(z, k)] != 0 then 0
    else if k == 0 then 1
    else RunAt(refs, z, k - 1) + 1
  }

  /** Iteration `k` completes a run, and none before it did or came back to the cursor. */
  ghost predicate HitAt(refs: seq<nat>, z: Zone, number: nat, k: nat)
    requires z.Usable(refs)
  {
    && RunAt(refs, z, k) == number
    && Fruitless(refs, z, number, k)
  }

  /** The loop is still going when iteration `k` begins. */
  ghost predicate Fruitless(refs: seq<nat>, z: Zone, number: nat, k: nat)
    requires z.Usable(refs)
  {
    forall j: nat :: j < k ==> RunAt(refs, z, j) != number && PageAt(z, j) + 1 != z.head
  }

  lemma {:induction false} RunBounded(refs: seq<nat>, z: Zone, k: nat)
    requires z.Usable(refs)
    ensures RunAt(refs, z, k) <= k + 1
  {
    if k > 0 {
      RunBounded(refs, z, k - 1);
    }
  }

  /** The iterations of a run all saw free pages, and counted up from one. */
  lemma {:induction false} RunIsFree(refs: seq<nat>, z: Zone, k: nat, j: nat)
    requires z.Usable(refs) && k - RunAt(refs, z, k) < j <= k
    ensures z.start <= PageAt(z, j) < z.end && refs[PageAt(z, j)] == 0
    ensures RunAt(refs, z, j) == RunAt(refs, z, k) - (k - j)
  {
    PageInZone(z, j);
    if j < k {
      RunIsFree(refs, z, k - 1, j);
    }
  }

  /** When the cursor is inside the zone, the scan comes back to it after one cycle and not before. */
  lemma ReturnsAfterOneCycle(z: Zone, k: nat)
    requires z.start < z.head < z.end && k < z.end - z.start
    ensures PageAt(z, k) + 1 == z.head <==> k == z.end - z.start - 1
  {
    PageInCycle(z, k);
  }

  /** When the cursor is at the start, the scan never comes back to it. */
  lemma NeverReturns(z: Zone, k: nat)
    requires z.start == z.head < z.end
    ensures PageAt(z, k) + 1 != z.head
  {
    PageInZone(z, k);
  }

  lemma EndsWithinOneCycle(refs: seq<nat>, z: Zone, number: nat)
    requires z.Usable(refs) && z.head != z.start
    ensures !Fruitless(refs, z, number, z.end - z.start)
  {
    ReturnsAfterOneCycle(z, z.end - z.start - 1);
  }

  lemma HitEndsIt(refs: seq<nat>, z: Zone, number: nat, k: nat)
    requires z.Usable(refs) && RunAt(refs, z, k) == number
    ensures !Fruitless(refs, z, number, k + 1)
  {
  }

  lemma NothingEndsIt(refs: seq<nat>, z: Zone, number: nat, k: nat)
    requires z.Usable(refs) && z.head == z.start && forall j: nat :: j < k ==> RunAt(refs, z, j) != number
    ensures Fruitless(refs, z, number, k)
  {
    forall j: nat | j < k
      ensures PageAt(z, j) + 1 != z.head
    {
      NeverReturns(z, j);
    }
  }

  ghost predicate NoneFree(refs: seq<nat>, z: Zone)
    requires z.end <= |refs|
  {
    forall p :: z.start <= p < z.end ==> refs[p] != 0
  }

  /** A zone with a free page is hit within one cycle. */
  lemma FirstFree(refs: seq<nat>, z: Zone) returns (k: nat)
    requires z.Usable(refs) && !NoneFree(refs, z)
    ensures k < z.end - z.start && HitAt(refs, z, 1, k)
  {
    var p :| z.start <= p < z.end && refs[p] == 0;
    CycleExaminesEachPageOnce(z, p);
    var last: nat :| last < z.end - z.start && PageAt(z, last) == p;
    k := 0;
    PageInZone(z, 0);
    while refs[PageAt(z, k)] != 0
      invariant k <= last && z.start <= PageAt(z, k) < z.end
      invariant forall j: nat :: j < k ==> z.start <= PageAt(z, j) < z.end && refs[PageAt(z, j)] != 0
      decreases last - k
    {
      k := k + 1;
      PageInZone(z, k);
    }
    forall j: nat | j < k
      ensures RunAt(refs, z, j) != 1 && PageAt(z, j) + 1 != z.head
    {
      if z.start < z.head {
        ReturnsAfterOneCycle(z, j);
      } else {
        NeverReturns(z, j);
      }
    }
    if k > 0 {
      assert RunAt(refs, z, k - 1) == 0;
    }
  }

  // ---------------------------------------------------------------- what a scan finds

  /** Every page from lo to hi - 1 is free. */
  ghost predicate AllFree(refs: seq<nat>, lo: nat, hi: nat)
    requires hi <= |refs|
  {
    forall p :: lo <= p < hi ==> refs[p] == 0
  }

  ghost predicate FreeRun(refs: seq<nat>, hi: nat, number: nat, p: nat)
    requires hi <= |refs|
  {
    p + number <= hi && AllFree(refs, p, p + number)
  }

  /** There are `number` free pages in a row among lo to hi - 1. */
  ghost predicate HasRun(refs: seq<nat>, lo: nat, hi: nat, number: nat)
    requires hi <= |refs|
  {
    exists p: nat :: lo <= p && FreeRun(refs, hi, number, p)
  }

  /** How many free pages in a row end at hi - 1, without going below lo. */
  function FreeTail(refs: seq<nat>, lo: nat, hi: nat): (r: nat)
    requires lo <= hi <= |refs|
    ensures r <= hi - lo
  {
    if lo < hi && refs[hi - 1] == 0 then FreeTail(refs, lo, hi - 1) + 1 else 0
  }

  /** How many free pages in a row start at lo, without going past hi - 1. */
  function FreeLead(refs: seq<nat>, lo: nat, hi: nat): (r: nat)
    requires lo <= hi <= |refs|
    ensures r <= hi - lo
    decreases hi - lo
  {
    if lo < hi && refs[lo] == 0 then FreeLead(refs, lo + 1, hi) + 1 else 0
  }

  lemma {:induction false} LeadIs(refs: seq<nat>, lo: nat, hi: nat, n: nat)
    requires lo <= hi <= |refs| && n <= hi - lo
    ensures n <= FreeLead(refs, lo, hi) <==> AllFree(refs, lo, lo + n)
    decreases hi - lo
  {
    if n > 0 && refs[lo] == 0 {
      LeadIs(refs, lo + 1, hi, n - 1);
    }
  }

  lemma {:induction false} TailIsFree(refs: seq<nat>, lo: nat, hi: nat)
    requires lo <= hi <= |refs|
    ensures AllFree(refs, hi - FreeTail(refs, lo, hi), hi)
  {
    if lo < hi && refs[hi - 1] == 0 {
      TailIsFree(refs, lo, hi - 1);
    }
  }

  lemma TailFallsShort(refs: seq<nat>, lo: nat, hi: nat, number: nat)
    requires lo <= hi <= |refs| && !HasRun(refs, lo, hi, number)
    ensures FreeTail(refs, lo, hi) < number
  {
    TailIsFree(refs, lo, hi);
    if number <= FreeTail(refs, lo, hi) {
      assert FreeRun(refs, hi, number, hi - number);
    }
  }

  /** The pages that may complete a count carried over the end of the zone. */
  function Lead(refs: seq<nat>, z: Zone): nat
    requires z.start <= z.head < z.end <= |refs|
  {
    FreeLead(refs, z.start, if z.start < z.head then z.head else z.end)
  }

  /**
   The scan hands out a run that is not one: none is completed before the end of the zone, which ends
   in free pages, and the count, which is not reset at the wrap, is completed by the free pages at the
   start of the zone. From a cursor at the start the scan goes round for as long as it takes, so a
   zone that is all free counts every page again and again.
   */
  ghost predicate Straddles(refs: seq<nat>, z: Zone, number: nat)
    requires z.Usable(refs)
  {
    var tail := FreeTail(refs, z.head, z.end);
    && !HasRun(refs, z.head, z.end, number)
    && 0 < tail
    && (number <= tail + Lead(refs, z) || (z.head == z.start && AllFree(refs, z.start, z.end)))
  }

  /**
   The scan goes round for ever: the cursor is at the start, which the loop never compares equal to
   once it has left it, some page is in use, and neither the zone nor its wrap has the run.
   */
  ghost predicate Endless(refs: seq<nat>, z: Zone, number: nat)
    requires z.Usable(refs)
  {
    && z.head == z.start
    && !HasRun(refs, z.start, z.end, number)
    && !AllFree(refs, z.start, z.end)
    && FreeTail(refs, z.start, z.end) + Lead(refs, z) < number
  }

  /** The scan comes back to its cursor with nothing. */
  ghost predicate Barren(refs: seq<nat>, z: Zone, number: nat)
    requires z.Usable(refs)
  {
    z.start < z.head && !HasRun(refs, z.head, z.end, number) && !HasRun(refs, z.start, z.head, number) &&
    !Straddles(refs, z, number)
  }

  /** The first page of the run completed by iteration `k`: where the count started. */
  ghost function RunStart(z: Zone, number: nat, k: nat): nat
    requires 0 < number <= k + 1
  {
    PageAt(z, k + 1 - number)
  }

  /** The pages handed out lie in the zone and were all free. */
  ghost predicate Sound(refs: seq<nat>, z: Zone, number: nat, first: nat)
    requires z.Usable(refs)
  {
    z.start <= first && first + number <= z.end && AllFree(refs, first, first + number)
  }

  // ---------------------------------------------------------------- the count, page by page

  /** Until the wrap the count is of the free pages behind the scan. */
  lemma {:induction false} CountIsTail(refs: seq<nat>, z: Zone, k: nat)
    requires z.Usable(refs) && k < BeforeWrap(z)
    ensures RunAt(refs, z, k) == FreeTail(refs, z.head, z.head + k + 1)
  {
    PageInCycle(z, k);
    if k > 0 {
      CountIsTail(refs, z, k - 1);
    }
  }

  /** Past the wrap the count goes on from the free pages at the end of the zone. */
  lemma {:induction false} RunAfterWrap(refs: seq<nat>, z: Zone, i: nat)
    requires z.Usable(refs) && BeforeWrap(z) + i <= z.end - z.start + (if z.start < z.head then -1 else i)
    requires z.start + i < z.end && AllFree(refs, z.start, z.start + i + 1)
    ensures RunAt(refs, z, BeforeWrap(z) + i) == FreeTail(refs, z.head, z.end) + i + 1
  {
    PageAfterWrap(z, i);
    if i > 0 {
      RunAfterWrap(refs, z, i - 1);
    } else {
      CountIsTail(refs, z, BeforeWrap(z) - 1);
    }
  }

  /** From the wrap on the scan starts at the first page again. */
  lemma {:induction false} PageAfterWrap(z: Zone, i: nat)
    requires z.start <= z.head < z.end && i < z.end - z.start
    ensures PageAt(z, BeforeWrap(z) + i) == z.start + i
  {
    if i > 0 {
      PageAfterWrap(z, i - 1);
    } else {
      PageInCycle(z, BeforeWrap(z) - 1);
    }
  }

  /** A count that has passed a number was at it before. */
  lemma CountPassed(refs: seq<nat>, z: Zone, number: nat, k: nat) returns (j: nat)
    requires z.Usable(refs) && 0 < number <= RunAt(refs, z, k)
    ensures j <= k && RunAt(refs, z, j) == number
  {
    RunBounded(refs, z, k);
    j := k - (RunAt(refs, z, k) - number);
    RunIsFree(refs, z, k, j);
  }

  /** Free pages in a row behind iteration `k` are all counted. */
  lemma {:induction false} CountAtLeast(refs: seq<nat>, z: Zone, k: nat, n: nat)
    requires z.Usable(refs) && n <= k + 1
    requires forall j: nat :: k + 1 - n <= j <= k ==> z.start <= PageAt(z, j) < z.end && refs[PageAt(z, j)] == 0
    ensures RunAt(refs, z, k) >= n
  {
    if n > 1 {
      CountAtLeast(refs, z, k - 1, n - 1);
    }
    PageInZone(z, k);
  }

  /** The page iteration `k` examines in the first cycle, or the iteration that examines a page. */
  function IterationOf(z: Zone, p: nat): nat
    requires z.start <= z.head < z.end && z.start <= p < z.end
  {
    if p >= z.head then p - z.head else p - z.start + BeforeWrap(z)
  }

  /** A run on one side of the cursor is completed within one cycle. */
  lemma RunIsCounted(refs: seq<nat>, z: Zone, lo: nat, hi: nat, number: nat) returns (k: nat)
    requires z.Usable(refs) && number > 0
    requires (lo == z.head && hi == z.end) || (lo == z.start && hi == z.head)
    requires HasRun(refs, lo, hi, number)
    ensures k < z.end - z.start && RunAt(refs, z, k) == number
    ensures lo == z.head ==> k < BeforeWrap(z)
  {
    var p: nat :| lo <= p && FreeRun(refs, hi, number, p);
    var last := IterationOf(z, p + number - 1);
    forall j: nat | last + 1 - number <= j <= last
      ensures z.start <= PageAt(z, j) < z.end && refs[PageAt(z, j)] == 0
    {
      PageInCycle(z, j);
    }
    CountAtLeast(refs, z, last, number);
    k := CountPassed(refs, z, number, last);
  }

  /** A run completed without crossing the wrap is one. */
  lemma RunWithoutWrapIsSound(refs: seq<nat>, z: Zone, number: nat, k: nat)
    requires z.Usable(refs) && 0 < number && RunAt(refs, z, k) == number && k < z.end - z.start
    requires k < BeforeWrap(z) || BeforeWrap(z) <= k + 1 - number
    ensures number <= k + 1 && Sound(refs, z, number, RunStart(z, number, k))
    ensures k < BeforeWrap(z) ==> HasRun(refs, z.head, z.end, number)
    ensures k >= BeforeWrap(z) ==> HasRun(refs, z.start, z.head, number)
  {
    RunBounded(refs, z, k);
    var f := k + 1 - number;
    PageInCycle(z, f);
    PageInCycle(z, k);
    var first := PageAt(z, f);
    forall p | first <= p < first + number
      ensures p < z.end && refs[p] == 0
    {
      var j := f + (p - first);
      PageInCycle(z, j);
      RunIsFree(refs, z, k, j);
    }
    assert FreeRun(refs, if k < BeforeWrap(z) then z.end else z.head, number, first);
  }

  /** A run that reaches back over the wrap has the beginning of the zone free, and the tail counted. */
  lemma RunOverWrap(refs: seq<nat>, z: Zone, k: nat)
    requires z.Usable(refs) && BeforeWrap(z) <= k < BeforeWrap(z) + (z.end - z.start)
    requires k - RunAt(refs, z, k) < BeforeWrap(z) - 1
    ensures AllFree(refs, z.start, z.start + (k - BeforeWrap(z)) + 1)
    ensures FreeTail(refs, z.head, z.end) == RunAt(refs, z, k) - (k - BeforeWrap(z)) - 1
  {
    var w := BeforeWrap(z);
    forall p | z.start <= p < z.start + (k - w) + 1
      ensures refs[p] == 0
    {
      PageAfterWrap(z, p - z.start);
      RunIsFree(refs, z, k, w + (p - z.start));
    }
    RunIsFree(refs, z, k, w - 1);
    CountIsTail(refs, z, w - 1);
  }

  // ---------------------------------------------------------------- cursors inside the zone

  /** From inside the zone a hit is a run on one side of the cursor or straddles the wrap. */
  lemma InnerHit(refs: seq<nat>, z: Zone, number: nat, k: nat)
    requires z.Usable(refs) && z.start < z.head && 0 < number && HitAt(refs, z, number, k)
    ensures number <= k + 1 && k < z.end - z.start
    ensures Sound(refs, z, number, RunStart(z, number, k)) <==> !Straddles(refs, z, number)
    ensures Straddles(refs, z, number) ==> RunStart(z, number, k) == z.end - FreeTail(refs, z.head, z.end)
    ensures Straddles(refs, z, number) || HasRun(refs, z.head, z.end, number) || HasRun(refs, z.start, z.head, number)
  {
    RunBounded(refs, z, k);
    ReturnsAfterOneCycle(z, z.end - z.start - 1);
    var w, tail := BeforeWrap(z), FreeTail(refs, z.head, z.end);
    if k < w {
      RunWithoutWrapIsSound(refs, z, number, k);
    } else if k + 1 - number < w {
      RunOverWrap(refs, z, k);
      LeadIs(refs, z.start, z.head, k - w + 1);
      PageInCycle(z, k + 1 - number);
      if HasRun(refs, z.head, z.end, number) {
        var j := RunIsCounted(refs, z, z.head, z.end, number);
      }
    } else {
      RunWithoutWrapIsSound(refs, z, number, k);
      if Straddles(refs, z, number) {
        TailFallsShort(refs, z.head, z.end, number);
        LeadIs(refs, z.start, z.head, number - tail);
        RunAfterWrap(refs, z, number - tail - 1);
      }
    }
  }

  // ---------------------------------------------------------------- cursors at the start

  /** From the start of the zone the scan repeats itself. */
  lemma {:induction false} PageRepeats(z: Zone, k: nat)
    requires z.start == z.head < z.end
    ensures PageAt(z, k + (z.end - z.start)) == PageAt(z, k)
  {
    if k > 0 {
      PageRepeats(z, k - 1);
    } else {
      PageInCycle(z, z.end - z.start);
    }
  }

  /** So does a count that began after the first cycle. */
  lemma {:induction false} RunRepeats(refs: seq<nat>, z: Zone, k: nat)
    requires z.Usable(refs) && z.head == z.start && k >= z.end - z.start
    requires RunAt(refs, z, k) <= k - (z.end - z.start) + 1
    ensures RunAt(refs, z, k - (z.end - z.start)) == RunAt(refs, z, k)
  {
    var n := z.end - z.start;
    PageRepeats(z, k - n);
    if k > n && RunAt(refs, z, k) > 0 {
      RunRepeats(refs, z, k - 1);
    }
  }

  /** A count that crosses the first wrap is the tail and then the leading pages. */
  lemma OuterCount(refs: seq<nat>, z: Zone, k: nat)
    requires z.Usable(refs) && z.head == z.start && k >= z.end - z.start
    requires RunAt(refs, z, k) > k - (z.end - z.start) + 1
    ensures 0 < FreeTail(refs, z.start, z.end)
    ensures AllFree(refs, z.start, z.end) || RunAt(refs, z, k) <= FreeTail(refs, z.start, z.end) + Lead(refs, z)
    ensures !AllFree(refs, z.start, z.end) ==>
      RunAt(refs, z, k) == FreeTail(refs, z.start, z.end) + (k - (z.end - z.start)) + 1
  {
    var n := z.end - z.start;
    RunIsFree(refs, z, k, n - 1);
    CountIsTail(refs, z, n - 1);
    if k < 2 * n {
      RunOverWrap(refs, z, k);
      LeadIs(refs, z.start, z.end, k - n + 1);
    } else {
      forall p | z.start <= p < z.end
        ensures refs[p] == 0
      {
        PageAfterWrap(z, p - z.start);
        RunIsFree(refs, z, k, n + (p - z.start));
      }
    }
  }

  /** Whatever is counted from the start is a run of the zone, or is counted over the wrap. */
  lemma {:induction false} OuterHit(refs: seq<nat>, z: Zone, number: nat, k: nat)
    requires z.Usable(refs) && z.head == z.start && 0 < number && RunAt(refs, z, k) == number
    ensures HasRun(refs, z.start, z.end, number) || Straddles(refs, z, number)
  {
    var n := z.end - z.start;
    if k < n {
      RunWithoutWrapIsSound(refs, z, number, k);
    } else if number <= k - n + 1 {
      RunRepeats(refs, z, k);
      OuterHit(refs, z, number, k - n);
    } else {
      OuterCount(refs, z, k);
    }
  }

  /** A zone that is all free counts every page it passes. */
  lemma {:induction false} AllCounted(refs: seq<nat>, z: Zone, k: nat)
    requires z.Usable(refs) && AllFree(refs, z.start, z.end)
    ensures RunAt(refs, z, k) == k + 1
  {
    PageInZone(z, k);
    if k > 0 {
      AllCounted(refs, z, k - 1);
    }
  }

  /** A scan from the start that straddles completes its count. */
  lemma OuterStraddle(refs: seq<nat>, z: Zone, number: nat) returns (k: nat)
    requires z.Usable(refs) && z.head == z.start && 0 < number && Straddles(refs, z, number)
    ensures RunAt(refs, z, k) == number
  {
    if AllFree(refs, z.start, z.end) {
      k := number - 1;
      AllCounted(refs, z, k);
    } else {
      var tail := FreeTail(refs, z.start, z.end);
      TailFallsShort(refs, z.start, z.end, number);
      LeadIs(refs, z.start, z.end, number - tail);
      RunAfterWrap(refs, z, number - tail - 1);
      k := BeforeWrap(z) + (number - tail - 1);
    }
  }

  lemma OuterSound(refs: seq<nat>, z: Zone, number: nat, k: nat)
    requires z.Usable(refs) && z.head == z.start && 0 < number && HitAt(refs, z, number, k)
    ensures number <= k + 1
    ensures Sound(refs, z, number, RunStart(z, number, k)) <==> !Straddles(refs, z, number)
    ensures Straddles(refs, z, number) ==> RunStart(z, number, k) == z.end - FreeTail(refs, z.start, z.end)
  {
    var n := z.end - z.start;
    RunBounded(refs, z, k);
    if k < n {
      RunWithoutWrapIsSound(refs, z, number, k);
    } else {
      if HasRun(refs, z.start, z.end, number) {
        var j := RunIsCounted(refs, z, z.start, z.end, number);
      }
      OuterHit(refs, z, number, k);
      if number <= k - n + 1 {
        RunRepeats(refs, z, k);
      } else {
        OuterCount(refs, z, k);
        PageInCycle(z, k + 1 - number);
        if AllFree(refs, z.start, z.end) {
          AllCounted(refs, z, k);
          AllCounted(refs, z, n - 1);
          CountIsTail(refs, z, n - 1);
        }
      }
    }
  }

  // ---------------------------------------------------------------- exactly when

  /** A run handed out lies in the zone and was free exactly if it does not straddle the wrap. */
  lemma SoundIffNotStraddling(refs: seq<nat>, z: Zone, number: nat, k: nat)
    requires z.Usable(refs) && 0 < number && HitAt(refs, z, number, k)
    ensures number <= k + 1
    ensures Sound(refs, z, number, RunStart(z, number, k)) <==> !Straddles(refs, z, number)
    ensures Straddles(refs, z, number) ==> RunStart(z, number, k) == z.end - FreeTail(refs, z.head, z.end)
  {
    if z.start < z.head {
      InnerHit(refs, z, number, k);
    } else {
      OuterSound(refs, z, number, k);
    }
  }

  /** The first iteration at which the count is right is the hit, if the scan gets there. */
  lemma {:induction false} FirstHit(refs: seq<nat>, z: Zone, number: nat, k: nat) returns (j: nat)
    requires z.Usable(refs) && RunAt(refs, z, k) == number
    requires z.head == z.start || k < z.end - z.start
    ensures j <= k && HitAt(refs, z, number, j)
  {
    if i: nat :| i < k && RunAt(refs, z, i) == number {
      j := FirstHit(refs, z, number, i);
    } else {
      j := k;
      forall i: nat | i < k
        ensures PageAt(z, i) + 1 != z.head
      {
        if z.head == z.start {
          NeverReturns(z, i);
        } else {
          ReturnsAfterOneCycle(z, i);
        }
      }
    }
  }

  /** The loop goes on for ever exactly if the zone is endless for the request. */
  lemma NeverEndsIff(refs: seq<nat>, z: Zone, number: nat)
    requires z.Usable(refs) && 0 < number
    ensures (forall k: nat :: Fruitless(refs, z, number, k)) <==> Endless(refs, z, number)
  {
    if z.head != z.start {
      EndsWithinOneCycle(refs, z, number);
    } else if HasRun(refs, z.start, z.end, number) {
      var k := RunIsCounted(refs, z, z.start, z.end, number);
      HitEndsIt(refs, z, number, k);
    } else if Straddles(refs, z, number) {
      var k := OuterStraddle(refs, z, number);
      HitEndsIt(refs, z, number, k);
    } else {
      TailFallsShort(refs, z.start, z.end, number);
      NotStraddlingIsEndless(refs, z, number);
      forall k: nat
        ensures Fruitless(refs, z, number, k)
      {
        forall j: nat | j < k
          ensures RunAt(refs, z, j) != number
        {
          if RunAt(refs, z, j) == number {
            OuterHit(refs, z, number, j);
          }
        }
        NothingEndsIt(refs, z, number, k);
      }
    }
  }

  lemma NotStraddlingIsEndless(refs: seq<nat>, z: Zone, number: nat)
    requires z.Usable(refs) && z.head == z.start && 0 < number
    requires !HasRun(refs, z.start, z.end, number) && !Straddles(refs, z, number)
    ensures Endless(refs, z, number)
  {
    if number <= z.end - z.start {
      LeadIs(refs, z.start, z.end, number);
      assert FreeRun(refs, z.end, number, z.start) <==> number <= Lead(refs, z);
    }
  }

  /** A run that straddles is handed out, so Straddles is exactly when the allocator goes wrong. */
  lemma StraddlesIff(refs: seq<nat>, z: Zone, number: nat)
    requires z.Usable(refs) && 0 < number
    ensures Straddles(refs, z, number) <==>
      exists k: nat :: number <= k + 1 && HitAt(refs, z, number, k) && !Sound(refs, z, number, RunStart(z, number, k))
  {
    if Straddles(refs, z, number) {
      var k := StraddleIsCounted(refs, z, number);
      var j := FirstHit(refs, z, number, k);
      SoundIffNotStraddling(refs, z, number, j);
    } else if k: nat :|
      number <= k + 1 && HitAt(refs, z, number, k) && !Sound(refs, z, number, RunStart(z, number, k)) {
      SoundIffNotStraddling(refs, z, number, k);
    }
  }

  lemma StraddleIsCounted(refs: seq<nat>, z: Zone, number: nat) returns (k: nat)
    requires z.Usable(refs) && 0 < number && Straddles(refs, z, number)
    ensures RunAt(refs, z, k) == number && (z.head == z.start || k < z.end - z.start)
  {
    if z.head == z.start {
      k := OuterStraddle(refs, z, number);
    } else {
      var tail := FreeTail(refs, z.head, z.end);
      TailFallsShort(refs, z.head, z.end, number);
      LeadIs(refs, z.start, z.head, number - tail);
      RunAfterWrap(refs, z, number - tail - 1);
      k := BeforeWrap(z) + (number - tail - 1);
    }
  }

  /** The scan comes back empty-handed exactly if the zone is barren for the request. */
  lemma ComesBackEmptyIff(refs: seq<nat>, z: Zone, number: nat)
    requires z.Usable(refs) && 0 < number && z.start < z.head
    ensures (forall k: nat :: k < z.end - z.start ==> RunAt(refs, z, k) != number) <==> Barren(refs, z, number)
  {
    if Straddles(refs, z, number) {
      var k := StraddleIsCounted(refs, z, number);
    } else if HasRun(refs, z.head, z.end, number) {
      var k := RunIsCounted(refs, z, z.head, z.end, number);
    } else if HasRun(refs, z.start, z.head, number) {
      var k := RunIsCounted(refs, z, z.start, z.head, number);
    } else if k: nat :| k < z.end - z.start && RunAt(refs, z, k) == number {
      var j := FirstHit(refs, z, number, k);
      InnerHit(refs, z, number, j);
    }
  }

  /** For a single page nothing straddles, and a zone fails or is endless exactly if nothing in it is free. */
  lemma SinglePage(refs: seq<nat>, z: Zone)
    requires z.Usable(refs)
    ensures !Straddles(refs, z, 1)
    ensures Barren(refs, z, 1) <==> z.start < z.head && NoneFree(refs, z)
    ensures Endless(refs, z, 1) <==> z.start == z.head && NoneFree(refs, z)
  {
    assert forall p: nat, hi: nat :: hi <= |refs| && FreeRun(refs, hi, 1, p) ==> refs[p] == 0;
    if p :| z.start <= p < z.end && refs[p] == 0 {
      assert FreeRun(refs, if p < z.head then z.head else z.end, 1, p);
    }
    assert refs[z.end - 1] == 0 ==> FreeRun(refs, z.end, 1, z.end - 1);
  }

  /** A single page: the loop never ends exactly when the cursor is at the start and every page is in use. */
  lemma SinglePageNeverEndsIff(refs: seq<nat>, z: Zone)
    requires z.Usable(refs)
    ensures (forall k: nat :: Fruitless(refs, z, 1, k)) <==> z.head == z.start && NoneFree(refs, z)
  {
    NeverEndsIff(refs, z, 1);
    SinglePage(refs, z);
  }

  /** Four pages, the second in use, the cursor on the third: a request for three gets pages two to four. */
  lemma StraddlingExample() returns (refs: seq<nat>, z: Zone)
    ensures z.Usable(refs) && z.start < z.head && Straddles(refs, z, 3) && HitAt(refs, z, 3, 2)
    ensures RunStart(z, 3, 2) == 2 && z.end == 4 && refs[1] == 1
  {
    refs, z := [0, 1, 0, 0], Zone(2, 0, 4);
    assert PageAt(z, 1) == 3 && PageAt(z, 2) == 0;
    assert RunAt(refs, z, 0) == 1 && RunAt(refs, z, 1) == 2 && RunAt(refs, z, 2) == 3;
    SoundIffNotStraddling(refs, z, 3, 2);
  }

  /** Three pages, the middle one in use, as booted: a request for two gets pages two and three, past the zone. */
  lemma StraddlingFromStart() returns (refs: seq<nat>, z: Zone)
    ensures z.Usable(refs) && z.head == z.start && Straddles(refs, z, 2) && HitAt(refs, z, 2, 3)
    ensures RunStart(z, 2, 3) == 2 && z.end == 3
  {
    refs, z := [0, 1, 0], Zone(0, 0, 3);
    assert PageAt(z, 1) == 1 && PageAt(z, 2) == 2 && PageAt(z, 3) == 0;
    assert RunAt(refs, z, 0) == 1 && RunAt(refs, z, 1) == 0 && RunAt(refs, z, 2) == 1 && RunAt(refs, z, 3) == 2;
    SoundIffNotStraddling(refs, z, 2, 3);
  }

  /** A zone with all its pages in use, as booted: the scan goes round and round. */
  lemma EndlessExample() returns (refs: seq<nat>, z: Zone)
    ensures z.Usable(refs) && z.head == z.start && forall k: nat :: Fruitless(refs, z, 1, k)
  {
    refs, z := [1, 1], Zone(0, 0, 2);
    assert FreeTail(refs, 0, 2) == 0 && refs[0] == 1;
    NeverEndsIff(refs, z, 1);
  }

  // ---------------------------------------------------------------- the code

  /** The number of free pages. */
  function IsFree(count: nat): nat {
    if count == 0 then 1 else 0
  }

  function FreeCount(refs: seq<nat>): nat {
    Sum(refs, IsFree)
  }

  lemma FreePageExists(refs: seq<nat>)
    ensures FreeCount(refs) > 0 <==> exists p :: 0 <= p < |refs| && refs[p] == 0
  {
    if p :| 0 <= p < |refs| && refs[p] == 0 {
      SumAtLeast(refs, p, IsFree);
    } else {
      SumOfZeros(refs, IsFree);
    }
  }

  /** Pages first to first + number - 1 given a reference count of one. */
  function Taken(refs: seq<nat>, first: nat, number: nat): (r: seq<nat>)
    requires first + number <= |refs|
    ensures |r| == |refs|
  {
    seq(|refs|, p requires 0 <= p < |refs| => if first <= p < first + number then 1 else refs[p])
  }

  /** Taking pages lowers the number of free pages by their number exactly if they were all free. */
  lemma {:induction false} TakenCount(refs: seq<nat>, first: nat, number: nat)
    requires first + number <= |refs|
    ensures FreeCount(Taken(refs, first, number)) >= FreeCount(refs) - number
    ensures FreeCount(Taken(refs, first, number)) == FreeCount(refs) - number <==> AllFree(refs, first, first + number)
  {
    if number == 0 {
      assert Taken(refs, first, 0) == refs;
    } else {
      TakenCount(refs, first, number - 1);
      var less := Taken(refs, first, number - 1);
      assert Taken(refs, first, number) == less[first + number - 1 := 1];
      SumUpdate(less, first + number - 1, 1, IsFree);
    }
  }

  /** MemPhysicalInit: the zones for a machine with the given number of pages; a zone it lacks stays empty. */
  function BootZones(pages: nat): seq<Zone> {
    if pages <= 0x1000 then [Zone(0, 0, pages), Zone(0, 0, 0), Zone(0, 0, 0)]
    else if pages <= 0x3_0000 then [Zone(0, 0, 0x1000), Zone(0x1000, 0x1000, pages), Zone(0, 0, 0)]
    else [Zone(0, 0, 0x1000), Zone(0x1000, 0x1000, 0x3_0000), Zone(0x3_0000, 0x3_0000, pages)]
  }

  /** The zones at boot split the pages between them, and each cursor is at the start of its zone. */
  lemma BootZonesPartition(pages: nat, p: nat)
    requires p < pages
    ensures exists i :: 0 <= i < 3 && BootZones(pages)[i].start <= p < BootZones(pages)[i].end
    ensures forall i, j :: 0 <= i < j < 3 ==>
      !(&& BootZones(pages)[i].start <= p < BootZones(pages)[i].end
        && BootZones(pages)[j].start <= p < BootZones(pages)[j].end)
    ensures forall i :: 0 <= i < 3 ==> BootZones(pages)[i].head == BootZones(pages)[i].start
    ensures BootZones(pages)[0].start <= p < BootZones(pages)[0].end <==> p * PAGE_SIZE < 0x100_0000
    ensures BootZones(pages)[2].start <= p < BootZones(pages)[2].end <==> p * PAGE_SIZE >= 0x3000_0000
  {
    var i := if p < 0x1000 then 0 else if p < 0x3_0000 then 1 else 2;
    assert BootZones(pages)[i].start <= p < BootZones(pages)[i].end;
  }

  // ---------------------------------------------------------------- keeping count

  datatype Counts = Counts(refs: seq<nat>, free: int)

  datatype Op =
    | Allocate(first: nat, number: nat)
    | AddRef(page: nat)
    | DeleteRef(page: nat)
    | Free(page: nat)

  predicate InTable(c: Counts, op: Op) {
    match op
    case Allocate(first, number) => first + number <= |c.refs|
    case AddRef(page) => page < |c.refs|
    case DeleteRef(page) => page < |c.refs|
    case Free(page) => page < |c.refs|
  }

  function Apply(c: Counts, op: Op): (r: Counts)
    requires InTable(c, op)
    ensures |r.refs| == |c.refs|
  {
    match op
    case Allocate(first, number) => Counts(Taken(c.refs, first, number), c.free - number)
    case AddRef(page) => Counts(c.refs[page := c.refs[page] + 1], c.free)
    case DeleteRef(page) =>
      if c.refs[page] == 0 then c
      else Counts(c.refs[page := c.refs[page] - 1], if c.refs[page] == 1 then c.free + 1 else c.free)
    case Free(page) => Counts(c.refs[page := 0], c.free + 1)
  }

  datatype Kind = Adding | Deleting | Freeing

  function OpOf(kind: Kind, page: nat): Op {
    match kind
    case Adding => AddRef(page)
    case Deleting => DeleteRef(page)
    case Freeing => Free(page)
  }

  /** The operation on each of `number` pages in ascending order. */
  function Over(c: Counts, kind: Kind, page: nat, number: nat): (r: Counts)
    requires page + number <= |c.refs|
    ensures |r.refs| == |c.refs|
  {
    if number == 0 then c else Apply(Over(c, kind, page, number - 1), OpOf(kind, page + number - 1))
  }

  /** Allocations take free pages; references are added to, and frees done on, pages in use. */
  ghost predicate Proper(c: Counts, op: Op)
    requires InTable(c, op)
  {
    match op
    case Allocate(first, number) => AllFree(c.refs, first, first + number)
    case AddRef(page) => c.refs[page] > 0
    case DeleteRef(page) => true
    case Free(page) => c.refs[page] > 0
  }

  /** How far MemPhysicalFreePages is from the number of zero-reference pages. */
  function Drift(c: Counts): int {
    c.free - FreeCount(c.refs)
  }

  /** An operation keeps the count in step exactly if it is proper. */
  lemma CountKeptIffProper(c: Counts, op: Op)
    requires InTable(c, op)
    ensures Drift(Apply(c, op)) == Drift(c) <==> Proper(c, op)
  {
    match op
    case Allocate(first, number) => TakenCount(c.refs, first, number);
    case AddRef(page) => SumUpdate(c.refs, page, c.refs[page] + 1, IsFree);
    case DeleteRef(page) =>
      if c.refs[page] > 0 {
        SumUpdate(c.refs, page, c.refs[page] - 1, IsFree);
      }
    case Free(page) => SumUpdate(c.refs, page, 0, IsFree);
  }

  ghost predicate Legal(c: Counts, ops: seq<Op>)
    decreases |ops|
  {
    ops == [] || (InTable(c, ops[0]) && Proper(c, ops[0]) && Legal(Apply(c, ops[0]), ops[1..]))
  }

  function Run(c: Counts, ops: seq<Op>): Counts
    decreases |ops|
  {
    if ops == [] || !InTable(c, ops[0]) then c else Run(Apply(c, ops[0]), ops[1..])
  }

  /** Over any run of proper operations MemPhysicalFreePages moves exactly with the number of free pages. */
  lemma {:induction false} RunKeepsCount(c: Counts, ops: seq<Op>)
    requires Legal(c, ops)
    ensures Run(c, ops).free - c.free == FreeCount(Run(c, ops).refs) - FreeCount(c.refs)
    decreases |ops|
  {
    if ops != [] {
      CountKeptIffProper(c, ops[0]);
      RunKeepsCount(Apply(c, ops[0]), ops[1..]);
    }
  }

  // ---------------------------------------------------------------- counting over a range

  /** The single-page operations a range operation is made of. */
  function OpsOver(kind: Kind, page: nat, number: nat): seq<Op> {
    seq(number, i requires 0 <= i < number => OpOf(kind, page + i))
  }

  lemma {:induction false} RunAppend(c: Counts, ops: seq<Op>, op: Op)
    requires forall i :: 0 <= i < |ops| ==> InTable(c, ops[i])
    requires InTable(c, op)
    ensures |Run(c, ops).refs| == |c.refs| && Run(c, ops + [op]) == Apply(Run(c, ops), op)
    decreases |ops|
  {
    if ops == [] {
      assert (ops + [op])[1..] == [];
    } else {
      assert (ops + [op])[0] == ops[0] && (ops + [op])[1..] == ops[1..] + [op];
      RunAppend(Apply(c, ops[0]), ops[1..], op);
    }
  }

  lemma OpsInTable(c: Counts, kind: Kind, page: nat, number: nat)
    requires page + number <= |c.refs| && number > 0
    ensures OpsOver(kind, page, number) == OpsOver(kind, page, number - 1) + [OpOf(kind, page + number - 1)]
    ensures InTable(c, OpOf(kind, page + number - 1))
    ensures var ops := OpsOver(kind, page, number - 1); forall i :: 0 <= i < |ops| ==> InTable(c, ops[i])
  {
    var ops := OpsOver(kind, page, number - 1);
    assert forall i :: 0 <= i < |ops| ==> ops[i] == OpOf(kind, page + i) && InTable(c, ops[i]);
  }

  /** A range operation is the run of its single-page operations. */
  lemma {:induction false} OverIsRun(c: Counts, kind: Kind, page: nat, number: nat)
    requires page + number <= |c.refs|
    ensures Over(c, kind, page, number) == Run(c, OpsOver(kind, page, number))
  {
    if number > 0 {
      OverIsRun(c, kind, page, number - 1);
      OpsInTable(c, kind, page, number);
      RunAppend(c, OpsOver(kind, page, number - 1), OpOf(kind, page + number - 1));
    }
  }

  /** A range operation leaves the pages outside alone, and those inside alone until it gets to them. */
  lemma {:induction false} OverElsewhere(c: Counts, kind: Kind, page: nat, number: nat, p: nat)
    requires page + number <= |c.refs| && p < |c.refs| && !(page <= p < page + number)
    ensures Over(c, kind, page, number).refs[p] == c.refs[p]
  {
    if number > 0 {
      OverElsewhere(c, kind, page, number - 1, p);
    }
  }

  /** Adding to or freeing a range keeps the count in step exactly if all of it is in use; deleting always does. */
  lemma {:induction false} OverKeepsCountIff(c: Counts, kind: Kind, page: nat, number: nat)
    requires page + number <= |c.refs|
    ensures Drift(Over(c, kind, page, number)) >= Drift(c)
    ensures Drift(Over(c, kind, page, number)) == Drift(c) <==>
      kind == Deleting || forall p :: page <= p < page + number ==> c.refs[p] > 0
  {
    if number > 0 {
      OverKeepsCountIff(c, kind, page, number - 1);
      var before, last := Over(c, kind, page, number - 1), page + number - 1;
      OverElsewhere(c, kind, page, number - 1, last);
      DriftOfOne(before, kind, last);
    }
  }

  lemma DriftOfOne(c: Counts, kind: Kind, p: nat)
    requires p < |c.refs|
    ensures Drift(Apply(c, OpOf(kind, p))) == Drift(c) + if kind != Deleting && c.refs[p] == 0 then 1 else 0
  {
    match kind
    case Adding => SumUpdate(c.refs, p, c.refs[p] + 1, IsFree);
    case Deleting => CountKeptIffProper(c, DeleteRef(p));
    case Freeing => SumUpdate(c.refs, p, 0, IsFree);
  }

  /** The pages of a range that have one reference. */
  function Singles(refs: seq<nat>, page: nat, number: nat): set<nat> {
    set p: nat | p < |refs| && page <= p < page + number && refs[p] == 1
  }

  lemma SinglesGrow(refs: seq<nat>, page: nat, number: nat)
    requires page + number < |refs|
    ensures |Singles(refs, page, number + 1)| ==
            |Singles(refs, page, number)| + if refs[page + number] == 1 then 1 else 0
  {
    var less, last := Singles(refs, page, number), page + number;
    assert Singles(refs, page, number + 1) == if refs[last] == 1 then less + {last} else less;
  }

  /** While the scan does not wrap it goes from page to page. */
  lemma {:induction false} PagesInOrder(z: Zone, j: nat, m: nat)
    requires z.start <= z.head < z.end && PageAt(z, j) + m < z.end
    ensures PageAt(z, j + m) == PageAt(z, j) + m
  {
    if m > 0 {
      PagesInOrder(z, j, m - 1);
    }
  }

  /** The zone does not exist or is barren. */
  ghost predicate Fails(refs: seq<nat>, z: Zone, number: nat)
    requires z.start < z.end ==> z.Usable(refs)
  {
    z.start < z.end ==> Barren(refs, z, number)
  }

  /** An iteration by which the scan has ended. */
  lemma EndOfScan(refs: seq<nat>, z: Zone, number: nat) returns (k: nat)
    requires z.Usable(refs) && 0 < number && !Endless(refs, z, number)
    ensures !Fruitless(refs, z, number, k + 1)
  {
    NeverEndsIff(refs, z, number);
    var end: nat :| !Fruitless(refs, z, number, end);
    k := end - 1;
  }

  lemma HitOutcome(refs: seq<nat>, z: Zone, number: nat, k: nat)
    requires z.Usable(refs) && 0 < number && HitAt(refs, z, number, k)
    ensures number <= k + 1 && !Barren(refs, z, number)
    ensures Sound(refs, z, number, RunStart(z, number, k)) <==> !Straddles(refs, z, number)
    ensures Straddles(refs, z, number) ==> RunStart(z, number, k) == z.end - FreeTail(refs, z.head, z.end)
  {
    SoundIffNotStraddling(refs, z, number, k);
    if z.start < z.head {
      InnerHit(refs, z, number, k);
    }
  }

  lemma EmptyOutcome(refs: seq<nat>, z: Zone, number: nat, k: nat)
    requires z.Usable(refs) && 0 < number && Fruitless(refs, z, number, k) && PageAt(z, k) + 1 == z.head
    requires RunAt(refs, z, k) != number
    ensures Barren(refs, z, number)
  {
    PageInZone(z, k);
    ReturnsAfterOneCycle(z, z.end - z.start - 1);
    if k < z.end - z.start {
      ReturnsAfterOneCycle(z, k);
    }
    ComesBackEmptyIff(refs, z, number);
  }

  datatype AllocResult = Page(first: nat) | Invalid | Panic

  class Memory {
    const refCount: array<nat>
    /** The DMA, kernel and high zones. */
    var zones: seq<Zone>
    /** MemPhysicalFreePages. */
    var freePages: int

    ghost predicate Valid()
      reads this, refCount
    {
      |zones| == 3 && forall i :: 0 <= i < 3 ==> zones[i].start < zones[i].end ==> zones[i].Usable(refCount[..])
    }

    /** `first` and `length` describe the run ending at iteration `k`. */
    ghost predicate Counted(z: Zone, k: nat, first: Option<nat>, length: nat)
      requires z.Usable(refCount[..])
      reads refCount
    {
      match first
      case None => RunAt(refCount[..], z, k) == 0
      case Some(p) => length == RunAt(refCount[..], z, k) && 0 < length <= k + 1 && p == PageAt(z, k + 1 - length)
    }

    /** The examination of one page. */
    method Examine(z: Zone, head: nat, first: Option<nat>, length: nat, ghost k: nat)
        returns (page: nat, first': Option<nat>, length': nat)
      requires z.Usable(refCount[..])
      requires if k == 0 then head == z.head && first.None?
               else head == PageAt(z, k - 1) + 1 && Counted(z, k - 1, first, length)
      ensures page == PageAt(z, k) && Counted(z, k, first', length')
    {
      page := if head >= z.end then z.start else head;
      PageInZone(z, k);
      assert refCount[page] == refCount[..][page];
      if refCount[page] != 0 {
        return page, None, 0;
      } else if first.None? {
        return page, Some(page), 1;
      } else {
        return page, first, length + 1;
      }
    }

    /** The loop over one zone, up to the iteration that ends it. */
    method ScanLoop(z: Zone, number: nat, ghost bound: nat) returns (first: Option<nat>, head: nat, ghost k: nat)
      requires z.Usable(refCount[..]) && number > 0 && !Fruitless(refCount[..], z, number, bound + 1)
      ensures first.None? ==>
        Fruitless(refCount[..], z, number, k) && PageAt(z, k) + 1 == z.head && RunAt(refCount[..], z, k) != number
      ensures first.Some? ==>
        && HitAt(refCount[..], z, number, k) && number <= k + 1
        && first.value == RunStart(z, number, k) && head == PageAt(z, k)
    {
      head := z.head;
      first := None;
      var length := 0;
      k := 0;
      while true
        invariant if k == 0 then head == z.head && first.None?
                  else head == PageAt(z, k - 1) + 1 && Counted(z, k - 1, first, length)
        invariant Fruitless(refCount[..], z, number, k) && k <= bound
        decreases bound - k
      {
        head, first, length := Examine(z, head, first, length, k);
        if first.Some? && length == number {
          return;
        }
        head := head + 1;
        if head == z.head {
          return None, head, k;
        }
        k := k + 1;
      }
    }

    /** The scan of one zone: a run, or nothing exactly if the zone is barren. */
    method ScanZone(z: Zone, number: nat) returns (first: Option<nat>, head: nat)
      requires z.Usable(refCount[..]) && number > 0 && !Endless(refCount[..], z, number)
      ensures first.None? <==> Barren(refCount[..], z, number)
      ensures first.Some? ==> z.start <= head < z.end
      ensures first.Some? && Sound(refCount[..], z, number, first.value) ==> head == first.value + number - 1
      ensures first.Some? ==> (Sound(refCount[..], z, number, first.value) <==> !Straddles(refCount[..], z, number))
      ensures Straddles(refCount[..], z, number) ==> first == Some(z.end - FreeTail(refCount[..], z.head, z.end))
    {
      ghost var refs := refCount[..];
      ghost var bound := EndOfScan(refs, z, number);
      ghost var k;
      first, head, k := ScanLoop(z, number, bound);
      PageInZone(z, k);
      if first.Some? {
        HitOutcome(refs, z, number, k);
        if Sound(refs, z, number, first.value) {
          PagesInOrder(z, k + 1 - number, number - 1);
        }
      } else {
        EmptyOutcome(refs, z, number, k);
      }
    }

    /** Sets the counts of a run of pages to one. */
    method Take(first: nat, number: nat)
      requires first + number <= refCount.Length
      modifies refCount
      ensures refCount[..] == Taken(old(refCount[..]), first, number)
    {
      for i := 0 to number
        invariant refCount[..] == Taken(old(refCount[..]), first, i)
      {
        refCount[first + i] := 1;
      }
    }

    /** The end of MemPhysicalAlloc: the pages are counted off and taken, and the cursor moves. */
    method HandOut(i: nat, first: nat, number: nat, head: nat)
      requires Valid() && i < 3 && first + number <= refCount.Length && zones[i].start <= head < zones[i].end
      modifies this`zones, this`freePages, refCount
      ensures Valid()
      ensures refCount[..] == Taken(old(refCount[..]), first, number) && freePages == old(freePages) - number
      ensures zones == old(zones)[i := Zone(head, old(zones[i]).start, old(zones[i]).end)]
      ensures Drift(View()) == Drift(old(View())) <==> AllFree(old(refCount[..]), first, first + number)
    {
      TakenCount(refCount[..], first, number);
      freePages := freePages - number;
      Take(first, number);
      zones := zones[i := zones[i].(head := head)];
    }

    /** The request comes down to zone `i`. */
    ghost predicate Reached(i: nat, number: nat, zone: int)
      requires Valid()
      reads this, refCount
    {
      && i <= zone < 3 && number > 0 && zones[i].start < zones[i].end
      && forall j: nat :: i < j <= zone ==> Fails(refCount[..], zones[j], number)
    }

    /** The scan of zone `i` ends, and what it finds is in the page table. */
    ghost predicate Scannable(i: nat, number: nat)
      requires Valid() && i < 3 && zones[i].start < zones[i].end
      reads this, refCount
    {
      && !Endless(refCount[..], zones[i], number)
      && (Straddles(refCount[..], zones[i], number) ==>
           zones[i].end - FreeTail(refCount[..], zones[i].head, zones[i].end) + number <= refCount.Length)
    }

    /**
     MemPhysicalAlloc: the highest zone at or below the one asked for that is not barren gives the
     pages, and they are what they should be exactly if the run does not straddle. Excluded are zones
     whose scan would not end, and runs that go past the end of the page table.
     */
    method Alloc(number: nat, zone: int) returns (r: AllocResult, ghost from: nat)
      requires Valid()
      requires forall i: nat :: Reached(i, number, zone) ==> Scannable(i, number)
      modifies this`zones, this`freePages, refCount
      ensures Valid()
      ensures r.Invalid? <==> number == 0 || zone < 0 || zone > 2
      ensures r.Panic? <==>
        !r.Invalid? && forall i: nat :: i <= zone ==> Fails(old(refCount[..]), old(zones[i]), number)
      ensures r.Page? ==>
        from <= zone && forall j: nat :: from < j <= zone ==> Fails(old(refCount[..]), old(zones[j]), number)
      ensures r.Page? ==>
        && old(zones[from]).Usable(old(refCount[..]))
        && (Sound(old(refCount[..]), old(zones[from]), number, r.first) <==>
             !Straddles(old(refCount[..]), old(zones[from]), number))
      ensures r.Page? ==>
        r.first + number <= refCount.Length && refCount[..] == Taken(old(refCount[..]), r.first, number)
      ensures r.Page? ==> forall p :: 0 <= p < refCount.Length ==>
        refCount[p] == if r.first <= p < r.first + number then 1 else old(refCount[p])
      ensures r.Page? ==> freePages == old(freePages) - number
      ensures r.Page? ==>
        && (forall j: nat :: j < 3 && j != from ==> zones[j] == old(zones[j]))
        && zones[from].start == old(zones[from]).start && zones[from].end == old(zones[from]).end
        && (!Straddles(old(refCount[..]), old(zones[from]), number) ==> zones[from].head == r.first + number - 1)
      ensures r.Page? ==>
        (Drift(View()) == Drift(old(View())) <==> AllFree(old(refCount[..]), r.first, r.first + number))
      ensures !r.Page? ==> refCount[..] == old(refCount[..]) && freePages == old(freePages) && zones == old(zones)
    {
      from := 0;
      if number == 0 || zone < 0 || zone > 2 {
        return Invalid, from;
      }
      var i := zone;
      while i >= 0
        invariant -1 <= i <= zone && Valid() && zones == old(zones) && freePages == old(freePages)
        invariant refCount[..] == old(refCount[..])
        invariant forall j: nat :: i < j <= zone ==> Fails(refCount[..], zones[j], number)
      {
        if zones[i].end > zones[i].start {
          assert old(Reached(i, number, zone)) && old(Scannable(i, number));
          var first, head := ScanZone(zones[i], number);
          if first.Some? {
            HandOut(i, first.value, number, head);
            assert forall p :: 0 <= p < refCount.Length ==> refCount[p] == refCount[..][p];
            return Page(first.value), i;
          }
        }
        i := i - 1;
      }
      return Panic, from;
    }

    ghost function View(): Counts
      reads this, refCount
    {
      Counts(refCount[..], freePages)
    }

    /** MemPhysicalAddRef. */
    method AddRefs(page: nat, number: nat)
      requires page + number <= refCount.Length
      modifies refCount
      ensures forall p :: 0 <= p < refCount.Length ==>
        refCount[p] == if page <= p < page + number then old(refCount[p]) + 1 else old(refCount[p])
      ensures freePages == old(freePages)
      ensures View() == Run(old(View()), OpsOver(Adding, page, number))
      ensures Drift(View()) == Drift(old(View())) <==> forall p :: page <= p < page + number ==> old(refCount[p]) > 0
    {
      for i := 0 to number
        invariant forall p :: 0 <= p < refCount.Length ==>
          refCount[p] == if page <= p < page + i then old(refCount[p]) + 1 else old(refCount[p])
        invariant View() == Over(old(View()), Adding, page, i)
      {
        refCount[page + i] := refCount[page + i] + 1;
      }
      OverIsRun(old(View()), Adding, page, number);
      OverKeepsCountIff(old(View()), Adding, page, number);
    }

    /** MemPhysicalDeleteRef. */
    method DeleteRefs(page: nat, number: nat)
      requires page + number <= refCount.Length
      modifies refCount, this`freePages
      ensures forall p :: 0 <= p < refCount.Length ==>
        refCount[p] ==
          if page <= p < page + number && old(refCount[p]) > 0 then old(refCount[p]) - 1 else old(refCount[p])
      ensures freePages == old(freePages) + |Singles(old(refCount[..]), page, number)|
      ensures View() == Run(old(View()), OpsOver(Deleting, page, number)) && Drift(View()) == Drift(old(View()))
    {
      for i := 0 to number
        invariant forall p :: 0 <= p < refCount.Length ==>
          refCount[p] == if page <= p < page + i && old(refCount[p]) > 0 then old(refCount[p]) - 1 else old(refCount[p])
        invariant freePages == old(freePages) + |Singles(old(refCount[..]), page, i)|
        invariant View() == Over(old(View()), Deleting, page, i)
      {
        SinglesGrow(old(refCount[..]), page, i);
        if refCount[page + i] > 0 {
          refCount[page + i] := refCount[page + i] - 1;
          if refCount[page + i] == 0 {
            freePages := freePages + 1;
          }
        }
      }
      OverIsRun(old(View()), Deleting, page, number);
      OverKeepsCountIff(old(View()), Deleting, page, number);
    }

    /** MemPhysicalFree. */
    method FreeRange(page: nat, number: nat)
      requires page + number <= refCount.Length
      modifies refCount, this`freePages
      ensures forall p :: 0 <= p < refCount.Length ==>
        refCount[p] == if page <= p < page + number then 0 else old(refCount[p])
      ensures freePages == old(freePages) + number
      ensures View() == Run(old(View()), OpsOver(Freeing, page, number))
      ensures Drift(View()) == Drift(old(View())) <==> forall p :: page <= p < page + number ==> old(refCount[p]) > 0
    {
      for i := 0 to number
        invariant forall p :: 0 <= p < refCount.Length ==>
          refCount[p] == if page <= p < page + i then 0 else old(refCount[p])
        invariant freePages == old(freePages) + i
        invariant View() == Over(old(View()), Freeing, page, i)
      {
        refCount[page + i] := 0;
        freePages := freePages + 1;
      }
      OverIsRun(old(View()), Freeing, page, number);
      OverKeepsCountIff(old(View()), Freeing, page, number);
    }
  }
}
