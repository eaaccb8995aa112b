/**
 The print queue of the pipeline viewer: instructions arrive out of order, are held back
 until the queue exceeds an upper threshold, and are then printed in order of sequence
 number until a lower threshold is reached.  At the end of the trace all are printed.
 */
module ReorderWindow {

  datatype Inst = Inst(sn: int, fetch: int, retire: int)

  /** Bounds outside which instructions are not printed; zero means no bound. */
  datatype Limits = Limits(snStart: int, snStop: int, tickStart: int, tickStop: int, onlyCommitted: bool) {
    predicate Keeps(x: Inst) {
      && !(snStart > 0 && x.sn < snStart)
      && !(snStop > 0 && x.sn > snStop)
      && !(tickStart > 0 && x.fetch < tickStart)
      && !(tickStop > 0 && x.fetch > tickStop)
      && !(onlyCommitted && x.retire == 0)
    }
  }

  // ----- Sorting

  ghost predicate Sorted(s: seq<Inst>) {
    forall i, j :: 0 <= i < j < |s| ==> s[i].sn <= s[j].sn
  }

  /** Inserts behind all instructions with the same or a smaller sequence number. */
  function Insert(s: seq<Inst>, x: Inst): (r: seq<Inst>)
    ensures |r| == |s| + 1
  {
    if s == [] || s[|s| - 1].sn <= x.sn then s + [x] else Insert(s[..|s| - 1], x) + [s[|s| - 1]]
  }

  /** The stable sort by sequence number. */
  function Sort(s: seq<Inst>): (r: seq<Inst>)
    ensures |r| == |s|
  {
    if s == [] then [] else Insert(Sort(s[..|s| - 1]), s[|s| - 1])
  }

  lemma {:induction false} InsertContents(s: seq<Inst>, x: Inst)
    ensures multiset(Insert(s, x)) == multiset(s) + multiset{x}
  {
    if !(s == [] || s[|s| - 1].sn <= x.sn) {
      InsertContents(s[..|s| - 1], x);
      assert s == s[..|s| - 1] + [s[|s| - 1]];
    }
  }

  lemma {:induction false} InsertSorted(s: seq<Inst>, x: Inst)
    requires Sorted(s)
    ensures Sorted(Insert(s, x))
  {
    if !(s == [] || s[|s| - 1].sn <= x.sn) {
      var front, last := s[..|s| - 1], s[|s| - 1];
      var r := Insert(front, x);
      InsertSorted(front, x);
      InsertContents(front, x);
      forall i | 0 <= i < |r|
        ensures r[i].sn <= last.sn
      {
        assert r[i] in multiset(r);
        assert r[i] == x || r[i] in front;
      }
    }
  }

  /** The sort is a permutation in order of sequence numbers. */
  lemma {:induction false} SortIsSorted(s: seq<Inst>)
    ensures Sorted(Sort(s)) && multiset(Sort(s)) == multiset(s)
  {
    if s != [] {
      var front := s[..|s| - 1];
      SortIsSorted(front);
      InsertSorted(Sort(front), s[|s| - 1]);
      InsertContents(Sort(front), s[|s| - 1]);
      assert s == front + [s[|s| - 1]];
    }
  }

  /** The instructions with sequence number `sn`, in order. */
  function Numbered(s: seq<Inst>, sn: int): seq<Inst> {
    if s == [] then []
    else Numbered(s[..|s| - 1], sn) + (if s[|s| - 1].sn == sn then [s[|s| - 1]] else [])
  }

  lemma {:induction false} InsertIsLast(s: seq<Inst>, x: Inst, sn: int)
    requires Sorted(s)
    ensures Numbered(Insert(s, x), sn) == Numbered(s, sn) + (if x.sn == sn then [x] else [])
  {
    if s == [] || s[|s| - 1].sn <= x.sn {
      assert (s + [x])[..|s|] == s;
    } else {
      var front, last := s[..|s| - 1], s[|s| - 1];
      InsertIsLast(front, x, sn);
      assert (Insert(front, x) + [last])[..|s|] == Insert(front, x);
    }
  }

  /** The sort is stable. */
  lemma {:induction false} SortIsStable(s: seq<Inst>, sn: int)
    ensures Numbered(Sort(s), sn) == Numbered(s, sn)
  {
    if s != [] {
      SortIsStable(s[..|s| - 1], sn);
      SortIsSorted(s[..|s| - 1]);
      InsertIsLast(Sort(s[..|s| - 1]), s[|s| - 1], sn);
    }
  }

  // ----- The queue as a function of the arrivals

  /** What is held back and what has been taken out, before the limits are applied. */
  datatype Window = Window(queue: seq<Inst>, taken: seq<Inst>)

  datatype Thresholds = Thresholds(min: nat, max: nat)

  function Flush(w: Window, lower: nat): Window {
    var sorted := Sort(w.queue);
    var n := if |sorted| > lower then |sorted| - lower else 0;
    Window(sorted[n..], w.taken + sorted[..n])
  }

  function Accept(th: Thresholds, w: Window, x: Inst): Window {
    var w1 := w.(queue := w.queue + [x]);
    if |w1.queue| > th.max then Flush(w1, th.min) else w1
  }

  function After(th: Thresholds, arrivals: seq<Inst>): Window {
    if arrivals == [] then Window([], [])
    else Accept(th, After(th, arrivals[..|arrivals| - 1]), arrivals[|arrivals| - 1])
  }

  /** Everything taken out by the end of the trace. */
  function Taken(th: Thresholds, arrivals: seq<Inst>): seq<Inst> {
    Flush(After(th, arrivals), 0).taken
  }

  function Kept(limits: Limits, s: seq<Inst>): seq<Inst> {
    if s == [] then []
    else Kept(limits, s[..|s| - 1]) + (if limits.Keeps(s[|s| - 1]) then [s[|s| - 1]] else [])
  }

  function Printed(th: Thresholds, limits: Limits, arrivals: seq<Inst>): seq<Inst> {
    Kept(limits, Taken(th, arrivals))
  }

  lemma TakenOne(start: seq<Inst>, sorted: seq<Inst>, n: nat)
    requires n < |sorted|
    ensures start + sorted[..n] + [sorted[n]] == start + sorted[..n + 1] && sorted[n..][1..] == sorted[n + 1..]
  {
  }

  // ----- The queue object

  class PrintQueue {
    const th: Thresholds
    const limits: Limits
    var queue: seq<Inst>
    var output: seq<Inst>
    ghost var taken: seq<Inst>

    constructor (th: Thresholds, limits: Limits)
      ensures this.th == th && this.limits == limits && Valid() && State() == After(th, [])
    {
      this.th, this.limits, queue, output, taken := th, limits, [], [], [];
    }

    ghost predicate Valid()
      reads this
    {
      output == Kept(limits, taken)
    }

    ghost function State(): Window
      reads this
    {
      Window(queue, taken)
    }

    /** Takes the first instruction out and prints it unless it lies outside the limits. */
    method TakeFirst()
      requires Valid() && queue != []
      modifies this
      ensures Valid() && queue == old(queue)[1..] && taken == old(taken) + [old(queue)[0]]
    {
      var item := queue[0];
      queue := queue[1..];
      taken := taken + [item];
      assert taken[..|taken| - 1] == old(taken);
      if limits.snStart > 0 && item.sn < limits.snStart {
        return;
      }
      if limits.snStop > 0 && item.sn > limits.snStop {
        return;
      }
      if limits.tickStart > 0 && item.fetch < limits.tickStart {
        return;
      }
      if limits.tickStop > 0 && item.fetch > limits.tickStop {
        return;
      }
      if limits.onlyCommitted && item.retire == 0 {
        return;
      }
      output := output + [item];
    }

    /** Sorts, then takes from the front until `lower` are left. */
    method PrintInsts(lower: nat)
      requires Valid()
      modifies this
      ensures Valid() && State() == Flush(old(State()), lower)
    {
      queue := Sort(queue);
      ghost var sorted, start, n := queue, taken, 0;
      ghost var goal := if |sorted| > lower then |sorted| - lower else 0;
      while |queue| > lower
        invariant 0 <= n <= goal && queue == sorted[n..] && taken == start + sorted[..n]
        invariant Valid()
      {
        TakeFirst();
        TakenOne(start, sorted, n);
        n := n + 1;
      }
    }

    method QueueInst(inst: Inst)
      requires Valid()
      modifies this
      ensures Valid() && State() == Accept(th, old(State()), inst)
    {
      queue := queue + [inst];
      if |queue| > th.max {
        PrintInsts(th.min);
      }
    }
  }

  /** A whole trace: every instruction is queued, the end of the file prints the rest. */
  method ProcessTrace(th: Thresholds, limits: Limits, arrivals: seq<Inst>) returns (output: seq<Inst>)
    ensures output == Printed(th, limits, arrivals)
    ensures forall x :: x in output ==>
      && (limits.snStart > 0 ==> x.sn >= limits.snStart) && (limits.snStop > 0 ==> x.sn <= limits.snStop)
      && (limits.tickStart > 0 ==> x.fetch >= limits.tickStart) && (limits.tickStop > 0 ==> x.fetch <= limits.tickStop)
      && (limits.onlyCommitted ==> x.retire != 0)
    ensures forall x ::
      (&& x in arrivals
       && (limits.snStart > 0 ==> x.sn >= limits.snStart) && (limits.snStop > 0 ==> x.sn <= limits.snStop)
       && (limits.tickStart > 0 ==> x.fetch >= limits.tickStart) && (limits.tickStop > 0 ==> x.fetch <= limits.tickStop)
       && (limits.onlyCommitted ==> x.retire != 0)) ==> multiset(output)[x] == multiset(arrivals)[x]
  {
    var q := new PrintQueue(th, limits);
    assert arrivals[..0] == [];
    for i := 0 to |arrivals|
      invariant q.Valid() && q.th == th && q.limits == limits && q.State() == After(th, arrivals[..i])
    {
      assert arrivals[..i + 1][..i] == arrivals[..i];
      q.QueueInst(arrivals[i]);
    }
    assert arrivals[..|arrivals|] == arrivals;
    q.PrintInsts(0);
    output := q.output;
    forall x: Inst
      ensures multiset(output)[x] == if limits.Keeps(x) then multiset(arrivals)[x] else 0
    {
      PrintedCounts(th, limits, arrivals, x);
    }
    assert forall x :: x in output <==> x in multiset(output);
  }

  // ----- How far out of order

  /** Number of instructions in `s` with a larger sequence number. */
  function Larger(s: seq<Inst>, sn: int): nat {
    if s == [] then 0 else Larger(s[..|s| - 1], sn) + (if s[|s| - 1].sn > sn then 1 else 0)
  }

  /** No instruction is more than `k` places late. */
  ghost predicate Displaced(arrivals: seq<Inst>, k: nat) {
    forall i :: 0 <= i < |arrivals| ==> Larger(arrivals[..i], arrivals[i].sn) <= k
  }

  lemma {:induction false} LargerInsert(s: seq<Inst>, x: Inst, sn: int)
    ensures Larger(Insert(s, x), sn) == Larger(s, sn) + (if x.sn > sn then 1 else 0)
  {
    if s == [] || s[|s| - 1].sn <= x.sn {
      assert (s + [x])[..|s|] == s;
    } else {
      var front, last := s[..|s| - 1], s[|s| - 1];
      LargerInsert(front, x, sn);
      assert (Insert(front, x) + [last])[..|s|] == Insert(front, x);
    }
  }

  lemma {:induction false} LargerSort(s: seq<Inst>, sn: int)
    ensures Larger(Sort(s), sn) == Larger(s, sn)
  {
    if s != [] {
      LargerSort(s[..|s| - 1], sn);
      LargerInsert(Sort(s[..|s| - 1]), s[|s| - 1], sn);
    }
  }

  lemma {:induction false} LargerFrom(s: seq<Inst>, j: nat, sn: int)
    requires Sorted(s) && j < |s| && s[j].sn > sn
    ensures Larger(s, sn) >= |s| - j
  {
    if j < |s| - 1 {
      LargerFrom(s[..|s| - 1], j, sn);
    }
  }

  // ----- The window sorts

  lemma {:induction false} SortOfSorted(s: seq<Inst>)
    requires Sorted(s)
    ensures Sort(s) == s
  {
    if s != [] {
      SortOfSorted(s[..|s| - 1]);
      assert s == s[..|s| - 1] + [s[|s| - 1]];
    }
  }

  lemma {:induction false} InsertBehind(a: seq<Inst>, b: seq<Inst>, x: Inst)
    requires forall y :: y in a ==> y.sn <= x.sn
    ensures Insert(a + b, x) == a + Insert(b, x)
  {
    if b == [] {
      assert a + b == a;
      assert a != [] ==> a[|a| - 1] in a;
    } else if b[|b| - 1].sn <= x.sn {
      assert (a + b) + [x] == a + (b + [x]);
    } else {
      var front, last := b[..|b| - 1], b[|b| - 1];
      InsertBehind(a, front, x);
      assert (a + b)[..|a + b| - 1] == a + front;
      assert (a + Insert(front, x)) + [last] == a + (Insert(front, x) + [last]);
    }
  }

  /** What has been taken, followed by the sorted queue. */
  function Order(w: Window): seq<Inst> {
    w.taken + Sort(w.queue)
  }

  lemma SplitKeepsOrder(taken: seq<Inst>, sorted: seq<Inst>, n: nat)
    requires Sorted(sorted) && n <= |sorted|
    ensures (taken + sorted[..n]) + Sort(sorted[n..]) == taken + sorted
  {
    SortOfSorted(sorted[n..]);
    assert (taken + sorted[..n]) + sorted[n..] == taken + sorted;
  }

  lemma FlushKeepsOrder(w: Window, lower: nat)
    ensures Order(Flush(w, lower)) == Order(w)
    ensures |Flush(w, lower).queue| == if |w.queue| > lower then lower else |w.queue|
  {
    SortIsSorted(w.queue);
    SplitKeepsOrder(w.taken, Sort(w.queue), if |w.queue| > lower then |w.queue| - lower else 0);
  }

  /** An arrival that is not too late has nothing larger before it among those already taken. */
  lemma TakenAreSmaller(w: Window, arrived: seq<Inst>, x: Inst, k: nat)
    requires Order(w) == Sort(arrived) && Larger(arrived, x.sn) <= k
    requires w.taken != [] ==> |w.queue| >= k
    ensures forall y :: y in w.taken ==> y.sn <= x.sn
  {
    forall j | 0 <= j < |w.taken|
      ensures w.taken[j].sn <= x.sn
    {
      SortIsSorted(arrived);
      LargerSort(arrived, x.sn);
      if w.taken[j].sn > x.sn {
        assert Order(w)[j] == w.taken[j];
        LargerFrom(Order(w), j, x.sn);
      }
    }
  }

  lemma AcceptKeepsOrder(th: Thresholds, w: Window, arrived: seq<Inst>, x: Inst)
    requires Order(w) == Sort(arrived) && forall y :: y in w.taken ==> y.sn <= x.sn
    ensures Order(Accept(th, w, x)) == Sort(arrived + [x])
  {
    var w1 := w.(queue := w.queue + [x]);
    assert (w.queue + [x])[..|w.queue|] == w.queue && (arrived + [x])[..|arrived|] == arrived;
    InsertBehind(w.taken, Sort(w.queue), x);
    assert Order(w1) == Sort(arrived + [x]);
    FlushKeepsOrder(w1, th.min);
  }

  lemma AcceptLeavesMin(th: Thresholds, w: Window, x: Inst)
    requires th.min <= th.max && (w.taken != [] ==> |w.queue| >= th.min)
    ensures Accept(th, w, x).taken != [] ==> |Accept(th, w, x).queue| >= th.min
  {
    FlushKeepsOrder(w.(queue := w.queue + [x]), th.min);
  }

  /** The window has processed `arrived` in order so far. */
  ghost predicate Tracks(th: Thresholds, w: Window, arrived: seq<Inst>) {
    Order(w) == Sort(arrived) && (w.taken != [] ==> |w.queue| >= th.min)
  }

  lemma TracksOn(th: Thresholds, w: Window, arrived: seq<Inst>, x: Inst)
    requires th.min <= th.max && Tracks(th, w, arrived) && Larger(arrived, x.sn) <= th.min
    ensures Tracks(th, Accept(th, w, x), arrived + [x])
  {
    TakenAreSmaller(w, arrived, x, th.min);
    AcceptKeepsOrder(th, w, arrived, x);
    AcceptLeavesMin(th, w, x);
  }

  lemma AfterOne(th: Thresholds, arrived: seq<Inst>, x: Inst)
    ensures After(th, arrived + [x]) == Accept(th, After(th, arrived), x)
  {
    assert (arrived + [x])[..|arrived|] == arrived;
  }

  lemma AfterTracks(th: Thresholds, w: Window, arrived: seq<Inst>, x: Inst)
    requires th.min <= th.max && Tracks(th, w, arrived) && Larger(arrived, x.sn) <= th.min && w == After(th, arrived)
    ensures Tracks(th, Accept(th, w, x), arrived + [x]) && Accept(th, w, x) == After(th, arrived + [x])
  {
    TracksOn(th, w, arrived, x);
    AfterOne(th, arrived, x);
  }

  lemma DisplacedFront(arrivals: seq<Inst>, front: seq<Inst>, x: Inst, k: nat)
    requires Displaced(arrivals, k) && arrivals == front + [x]
    ensures Displaced(front, k) && Larger(front, x.sn) <= k
  {
    assert arrivals[..|front|] == front && arrivals[|front|] == x;
    forall i | 0 <= i < |front|
      ensures Larger(front[..i], front[i].sn) <= k
    {
      assert arrivals[..i] == front[..i] && arrivals[i] == front[i];
    }
  }

  lemma {:induction false} WindowInvariant(th: Thresholds, arrivals: seq<Inst>)
    requires th.min <= th.max && Displaced(arrivals, th.min)
    ensures Tracks(th, After(th, arrivals), arrivals)
  {
    if arrivals != [] {
      var front, x := arrivals[..|arrivals| - 1], arrivals[|arrivals| - 1];
      assert arrivals == front + [x];
      DisplacedFront(arrivals, front, x, th.min);
      WindowInvariant(th, front);
      AfterTracks(th, After(th, front), front, x);
    }
  }

  /** Between calls the queue holds at most `max` instructions. */
  lemma {:induction false} QueueIsBounded(th: Thresholds, arrivals: seq<Inst>)
    requires th.min <= th.max
    ensures |After(th, arrivals).queue| <= th.max
  {
    if arrivals != [] {
      var w := After(th, arrivals[..|arrivals| - 1]);
      QueueIsBounded(th, arrivals[..|arrivals| - 1]);
      FlushKeepsOrder(w.(queue := w.queue + [arrivals[|arrivals| - 1]]), th.min);
    }
  }

  /**
   The queue fills to `max`; the next arrival brings it down to `min`, and so does every one that
   is `max + 1 - min` later: `q` of these have come since.
   */
  lemma {:induction false} QueueLength(th: Thresholds, arrivals: seq<Inst>) returns (q: nat)
    requires th.min <= th.max
    ensures var held := |After(th, arrivals).queue|;
      if |arrivals| <= th.max then held == |arrivals|
      else th.min <= held <= th.max && |arrivals| == th.max + 1 + q * (th.max + 1 - th.min) + (held - th.min)
  {
    q := 0;
    if arrivals != [] {
      var front, x := arrivals[..|arrivals| - 1], arrivals[|arrivals| - 1];
      var before := QueueLength(th, front);
      var w := After(th, front);
      AcceptLength(th, w, x);
      assert |front| == |arrivals| - 1;
      if |arrivals| > th.max + 1 {
        q := if |w.queue| == th.max then before + 1 else before;
        OneMoreRound(before, th.max + 1 - th.min);
      }
    }
  }

  lemma AcceptLength(th: Thresholds, w: Window, x: Inst)
    requires th.min <= th.max
    ensures |Accept(th, w, x).queue| == if |w.queue| < th.max then |w.queue| + 1 else th.min
  {
  }

  lemma OneMoreRound(q: nat, m: nat)
    ensures (q + 1) * m == q * m + m
  {
  }

  /**
   If no instruction is more than `min` places late, the windowed output is the stable sort of
   the whole trace, with the instructions outside the limits left out.
   */
  lemma WindowedIsSorted(th: Thresholds, limits: Limits, arrivals: seq<Inst>)
    requires th.min <= th.max && Displaced(arrivals, th.min)
    ensures Taken(th, arrivals) == Sort(arrivals)
    ensures Printed(th, limits, arrivals) == Kept(limits, Sort(arrivals))
  {
    WindowInvariant(th, arrivals);
    var w := After(th, arrivals);
    FlushKeepsOrder(w, 0);
    assert Order(Flush(w, 0)) == Flush(w, 0).taken;
  }

  // ----- Nothing is lost or repeated, whatever the order

  /** What was taken and what is queued are the arrivals. */
  ghost predicate Conserved(w: Window, arrived: multiset<Inst>) {
    multiset(w.taken) + multiset(w.queue) == arrived
  }

  lemma FlushConserves(w: Window, lower: nat, arrived: multiset<Inst>)
    requires Conserved(w, arrived)
    ensures Conserved(Flush(w, lower), arrived)
  {
    var sorted := Sort(w.queue);
    SortIsSorted(w.queue);
    var n := if |sorted| > lower then |sorted| - lower else 0;
    assert sorted == sorted[..n] + sorted[n..];
  }

  lemma ConservesOne(th: Thresholds, arrived: multiset<Inst>, x: Inst, w: Window)
    requires Conserved(w, arrived)
    ensures Conserved(Accept(th, w, x), arrived + multiset{x})
  {
    var w1 := w.(queue := w.queue + [x]);
    assert Conserved(w1, arrived + multiset{x});
    FlushConserves(w1, th.min, arrived + multiset{x});
  }

  lemma {:induction false} WindowConserves(th: Thresholds, arrivals: seq<Inst>)
    ensures Conserved(After(th, arrivals), multiset(arrivals))
  {
    if arrivals == [] {
      assert After(th, arrivals) == Window([], []);
    } else {
      var before, x := arrivals[..|arrivals| - 1], arrivals[|arrivals| - 1];
      WindowConserves(th, before);
      ConservesOne(th, multiset(before), x, After(th, before));
      assert arrivals == before + [x];
      assert multiset(arrivals) == multiset(before) + multiset{x};
    }
  }

  lemma {:induction false} KeptCounts(limits: Limits, s: seq<Inst>, x: Inst)
    ensures multiset(Kept(limits, s))[x] == if limits.Keeps(x) then multiset(s)[x] else 0
  {
    if s != [] {
      KeptCounts(limits, s[..|s| - 1], x);
      assert s == s[..|s| - 1] + [s[|s| - 1]];
    }
  }

  /** Each instruction within the limits is printed as often as it arrived, all others never. */
  lemma PrintedCounts(th: Thresholds, limits: Limits, arrivals: seq<Inst>, x: Inst)
    ensures multiset(Printed(th, limits, arrivals))[x] == if limits.Keeps(x) then multiset(arrivals)[x] else 0
  {
    WindowConserves(th, arrivals);
    FlushConserves(After(th, arrivals), 0, multiset(arrivals));
    assert Flush(After(th, arrivals), 0).queue == [];
    KeptCounts(limits, Taken(th, arrivals), x);
  }

  // ----- The bound is tight

  function Step(i: int): Inst {
    Inst(2 * (i + 1), 0, 1)
  }

  function Ramp(n: nat): seq<Inst> {
    seq(n, i => Step(i))
  }

  lemma {:induction false} RampFills(th: Thresholds, n: nat)
    requires n <= th.max
    ensures After(th, Ramp(n)) == Window(Ramp(n), [])
  {
    if n > 0 {
      RampFills(th, n - 1);
      assert Ramp(n)[..n - 1] == Ramp(n - 1);
      assert Ramp(n - 1) + [Step(n - 1)] == Ramp(n);
    }
  }

  lemma {:induction false} RampLarger(n: nat, k: nat)
    requires k <= n
    ensures Larger(Ramp(n), 2 * k + 1) == n - k
  {
    if n > k {
      RampLarger(n - 1, k);
      assert Ramp(n)[..n - 1] == Ramp(n - 1);
    } else {
      NoneLarger(Ramp(n), 2 * k + 1);
    }
  }

  lemma {:induction false} NoneLarger(s: seq<Inst>, sn: int)
    requires forall i :: 0 <= i < |s| ==> s[i].sn <= sn
    ensures Larger(s, sn) == 0
  {
    if s != [] {
      NoneLarger(s[..|s| - 1], sn);
    }
  }

  /** One instruction `min + 1` places late. */
  function TooLate(th: Thresholds): seq<Inst>
    requires th.min <= th.max
  {
    Ramp(th.max + 1) + [Inst(2 * (th.max - th.min) + 1, 0, 1)]
  }

  lemma TooLateIsDisplaced(th: Thresholds, k: nat)
    requires th.min <= th.max && k > th.min
    ensures Displaced(TooLate(th), k)
  {
    var s := TooLate(th);
    forall i | 0 <= i < |s|
      ensures Larger(s[..i], s[i].sn) <= k
    {
      if i <= th.max {
        NoneLarger(s[..i], s[i].sn);
      } else {
        assert s[..i] == Ramp(th.max + 1);
        RampLarger(th.max + 1, th.max - th.min);
      }
    }
  }

  lemma Overflow(th: Thresholds, front: seq<Inst>, last: Inst)
    requires th.min <= th.max == |front| && Sorted(front + [last])
    ensures Accept(th, Window(front, []), last).taken == (front + [last])[..th.max + 1 - th.min]
  {
    SortOfSorted(front + [last]);
  }

  lemma RampOne(n: nat)
    ensures Ramp(n) + [Step(n)] == Ramp(n + 1) && Sorted(Ramp(n + 1))
  {
  }

  lemma RampAt(n: nat, k: nat)
    requires k < n
    ensures |Ramp(n)| == n && Ramp(n)[k].sn == 2 * (k + 1)
  {
  }

  lemma RampOverflows(th: Thresholds) returns (w: Window)
    requires th.min <= th.max
    ensures w == After(th, Ramp(th.max + 1))
    ensures w.taken != [] && w.taken[|w.taken| - 1].sn == 2 * (th.max + 1 - th.min)
  {
    w := Accept(th, Window(Ramp(th.max), []), Step(th.max));
    RampAfter(th);
    RampOne(th.max);
    Overflow(th, Ramp(th.max), Step(th.max));
    RampAt(th.max + 1, th.max - th.min);
  }

  lemma RampAfter(th: Thresholds)
    ensures After(th, Ramp(th.max + 1)) == Accept(th, Window(Ramp(th.max), []), Step(th.max))
  {
    RampFills(th, th.max);
    RampOne(th.max);
    AfterOne(th, Ramp(th.max), Step(th.max));
  }

  lemma LastOutWaits(th: Thresholds, w: Window, x: Inst)
    ensures Flush(Accept(th, w, x), 0).taken == w.taken + Sort(w.queue + [x])
  {
    var w1 := w.(queue := w.queue + [x]);
    FlushKeepsOrder(w1, th.min);
    FlushKeepsOrder(Accept(th, w, x), 0);
    assert Flush(Accept(th, w, x), 0).taken == Order(Flush(Accept(th, w, x), 0));
  }

  lemma Inversion(a: seq<Inst>, b: seq<Inst>, x: Inst)
    requires a != [] && a[|a| - 1].sn > x.sn && x in multiset(b)
    ensures !Sorted(a + b)
  {
    var j :| 0 <= j < |b| && b[j] == x;
    assert (a + b)[|a| - 1].sn > (a + b)[|a| + j].sn;
  }

  /** An instruction that arrives after a larger one has been taken spoils the order. */
  lemma LateArrivalIsUnsorted(th: Thresholds, w: Window, arrived: seq<Inst>, x: Inst, trace: seq<Inst>)
    requires w == After(th, arrived) && w.taken != [] && w.taken[|w.taken| - 1].sn > x.sn && trace == arrived + [x]
    ensures !Sorted(Taken(th, trace))
  {
    AfterOne(th, arrived, x);
    LastOutWaits(th, w, x);
    SortIsSorted(w.queue + [x]);
    Inversion(w.taken, Sort(w.queue + [x]), x);
  }

  /** The window sorts all traces in which instructions are at most `k` places late exactly if `k <= min`. */
  lemma SortsExactlyUpToMin(th: Thresholds, k: nat)
    requires th.min <= th.max
    ensures (forall arrivals :: Displaced(arrivals, k) ==> Sorted(Taken(th, arrivals))) <==> k <= th.min
  {
    if k <= th.min {
      forall arrivals | Displaced(arrivals, k)
        ensures Sorted(Taken(th, arrivals))
      {
        WindowedIsSorted(th, Limits(0, 0, 0, 0, false), arrivals);
        SortIsSorted(arrivals);
      }
    } else {
      TooLateIsDisplaced(th, k);
      var w := RampOverflows(th);
      var late := TooLate(th);
      LateArrivalIsUnsorted(th, w, Ramp(th.max + 1), late[th.max + 1], late);
    }
  }
}
