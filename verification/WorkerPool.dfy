/** Round-robin selection of worker_pool.rs and its fairness around workers that are locked or draining. */
module WorkerPool {
  import opened Bytes
  import opened Sequences

  const U64_MAX: u64 := 0xffff_ffff_ffff_ffff

  /** fetch_add(1) on the shared cursor. */
  function Bump(cursor: u64): u64 {
    if cursor == U64_MAX then 0 else cursor + 1
  }

  /** The worker that position p of the cursor stands for. */
  function Slot(p: nat, n: nat): (i: nat)
    requires n > 0
    ensures i < n
  {
    p % n
  }

  /** Up to tries workers are looked at; then the next one is taken as it is. */
  function Pick(available: seq<bool>, cursor: u64, tries: nat): (r: (nat, u64))
    requires available != []
    ensures r.0 < |available|
    decreases tries
  {
    var i := Slot(cursor, |available|);
    if tries == 0 || available[i] then (i, Bump(cursor)) else Pick(available, Bump(cursor), tries - 1)
  }

  class WorkerPool {
    const size: nat
    var currentIndex: u64

    constructor (size: nat)
      ensures this.size == size && currentIndex == 0
    {
      this.size := size;
      currentIndex := 0;
    }

    /** get_next_worker; available tells which workers try_lock gets and finds not draining. */
    method GetNextWorker(available: seq<bool>) returns (index: nat)
      requires |available| == size > 0
      modifies this
      ensures (index, currentIndex) == Pick(available, old(currentIndex), size)
    {
      hide Slot;
      for k := 0 to size
        invariant Pick(available, old(currentIndex), size) == Pick(available, currentIndex, size - k)
      {
        index := Slot(currentIndex, size);
        currentIndex := Bump(currentIndex);
        if available[index] {
          return;
        }
      }
      index := Slot(currentIndex, size);
      currentIndex := Bump(currentIndex);
    }
  }

  // ----- One call -----

  /** The cursor after d fetches, and the worker it stands for then. */
  function CursorAfter(cursor: u64, d: nat): u64 {
    (cursor + d) % 0x1_0000_0000_0000_0000
  }

  function WorkerAt(cursor: u64, d: nat, n: nat): (i: nat)
    requires n > 0
    ensures i < n
  {
    CursorAfter(cursor, d) % n
  }

  lemma BumpIsModular(cursor: u64, d: nat)
    ensures CursorAfter(Bump(cursor), d) == CursorAfter(cursor, d + 1) && CursorAfter(cursor, 0) == cursor
  {
    if cursor == U64_MAX {
      QuotientIsUnique(cursor + (d + 1), TWO_64, d / TWO_64 + 1, d % TWO_64);
    }
  }

  lemma WorkerNow(cursor: u64, n: nat)
    requires n > 0
    ensures WorkerAt(cursor, 0, n) == Slot(cursor, n) && CursorAfter(cursor, 1) == Bump(cursor)
  {
    BumpIsModular(cursor, 0);
    BumpIsModular(Bump(cursor), 0);
    hide CursorAfter, Bump;
  }

  lemma WorkerNext(cursor: u64, d: nat, n: nat)
    requires n > 0
    ensures WorkerAt(Bump(cursor), d, n) == WorkerAt(cursor, d + 1, n)
  {
    BumpIsModular(cursor, d);
    hide CursorAfter, Bump;
  }

  /**
   A call looks at the worker at the cursor, modulo the number of workers, then upwards, the cursor modulo 2^64: it
   returns the first available one, or after so many tries the next as it is, and leaves the cursor behind it.
   */
  lemma {:induction false} PickIsNearest(available: seq<bool>, cursor: u64, tries: nat) returns (d: nat)
    requires available != []
    ensures d <= tries
    ensures var n := |available|;
            && Pick(available, cursor, tries) == (WorkerAt(cursor, d, n), CursorAfter(cursor, d + 1))
            && (d < tries ==> available[WorkerAt(cursor, d, n)])
            && forall e :: 0 <= e < d ==> !available[WorkerAt(cursor, e, n)]
    decreases tries
  {
    hide Bump, CursorAfter, WorkerAt, Slot;
    var n := |available|;
    WorkerNow(cursor, n);
    if tries == 0 || available[Slot(cursor, n)] {
      d := 0;
    } else {
      var d' := PickIsNearest(available, Bump(cursor), tries - 1);
      d := d' + 1;
      WorkerNext(cursor, d', n);
      BumpIsModular(cursor, d' + 1);
      forall e | 0 <= e < d
        ensures !available[WorkerAt(cursor, e, n)]
      {
        if e > 0 {
          WorkerNext(cursor, e - 1, n);
        }
      }
    }
  }

  /** The worker d places upwards of worker i. */
  function Upwards(i: nat, d: nat, n: nat): (j: nat)
    requires n > 0
    ensures j < n
  {
    (i + d) % n
  }

  lemma AddModulo(a: nat, d: nat, n: nat)
    requires n > 0
    ensures (a % n + d) % n == (a + d) % n
  {
    var q, r := (a % n + d) / n, (a % n + d) % n;
    assert a == n * (a / n) + a % n;
    assert a + d == n * (a / n + q) + r;
    RemainderIsUnique(a + d, n, a / n + q, r);
  }

  lemma SmallPosition(cursor: u64, d: nat)
    requires cursor + d < TWO_64
    ensures CursorAfter(cursor, d) == cursor + d
  {
  }

  lemma BehindWorker(cursor: u64, d: nat, e: nat, n: nat)
    requires n > 0 && cursor + d + 1 + e < TWO_64
    ensures WorkerAt(cursor + d + 1, e, n) == Upwards(WorkerAt(cursor, d, n), e + 1, n)
  {
    SmallPosition(cursor, d);
    SmallPosition(cursor + d + 1, e);
    AddModulo(cursor + d, e + 1, n);
  }

  /** With somebody available the search does not go all the way round. */
  lemma SomebodyIsNear(available: seq<bool>, cursor: u64, d: nat)
    requires Members(available) != {} && d <= |available| && cursor + |available| < TWO_64
    requires forall e :: 0 <= e < d ==> !available[WorkerAt(cursor, e, |available|)]
    ensures d < |available|
  {
    var i :| i in Members(available);
    var p := SlotReached(cursor, i, |available|);
    SmallPosition(cursor, p - cursor);
    assert WorkerAt(cursor, p - cursor, |available|) == i;
    assert !(p - cursor < d);
  }

  /**
   Behind worker i the next call returns the next available worker upwards, modulo their number, while the cursor
   does not wrap.
   */
  lemma NextIsUpwards(available: seq<bool>, cursor: u64) returns (d: nat)
    requires Members(available) != {} && cursor + 2 * |available| < U64_MAX
    ensures var n := |available|;
            var (i, next) := Pick(available, cursor, n);
            var j := Pick(available, next, n).0;
            && 1 <= d <= n && j == Upwards(i, d, n) && available[j]
            && forall e :: 1 <= e < d ==> !available[Upwards(i, e, n)]
  {
    hide WorkerAt, CursorAfter, Upwards, Pick, Slot;
    var n := |available|;
    var d0 := PickIsNearest(available, cursor, n);
    SomebodyIsNear(available, cursor, d0);
    SmallPosition(cursor, d0 + 1);
    var (i, next) := Pick(available, cursor, n);
    assert i == WorkerAt(cursor, d0, n) && next == cursor + d0 + 1;
    var d1 := PickIsNearest(available, next, n);
    SomebodyIsNear(available, next, d1);
    d := d1 + 1;
    BehindWorker(cursor, d0, d1, n);
    forall e | 1 <= e < d
      ensures !available[Upwards(i, e, n)]
    {
      BehindWorker(cursor, d0, e - 1, n);
    }
  }

  // ----- Slots -----

  lemma SlotShift(p: nat, n: nat)
    requires n > 0
    ensures Slot(p + n, n) == Slot(p, n)
  {
    RemainderIsUnique(p + n, n, p / n + 1, p % n);
  }

  lemma SlotsDiffer(p: nat, q: nat, n: nat)
    requires n > 0 && p < q < p + n
    ensures Slot(p, n) != Slot(q, n)
  {
    if p % n == q % n {
      assert n * (q / n - p / n) == q - p;
      MultipleIsLarge(n, q / n - p / n);
    }
  }

  /** Any n positions in a row meet every worker. */
  lemma SlotReached(from: nat, i: nat, n: nat) returns (p: nat)
    requires i < n
    ensures from <= p < from + n && Slot(p, n) == i
  {
    var r := from % n;
    if i >= r {
      p := from + i - r;
      RemainderIsUnique(p, n, from / n, i);
    } else {
      p := from + n + i - r;
      RemainderIsUnique(p, n, from / n + 1, i);
    }
  }

  // ----- The available workers met by a stretch of the cursor -----

  predicate Open(available: seq<bool>, p: nat)
    requires available != []
  {
    available[Slot(p, |available|)]
  }

  function Window(available: seq<bool>, lo: nat, hi: nat): seq<nat>
    requires available != []
    decreases hi - lo
  {
    if lo >= hi then []
    else (if Open(available, lo) then [Slot(lo, |available|)] else []) + Window(available, lo + 1, hi)
  }

  function Members(available: seq<bool>): set<nat> {
    set i | 0 <= i < |available| && available[i]
  }

  /** The workers returned by k calls in a row. */
  function Returns(available: seq<bool>, cursor: u64, k: nat): (r: seq<nat>)
    requires available != []
    ensures |r| == k
    decreases k
  {
    if k == 0 then []
    else
      var (i, next) := Pick(available, cursor, |available|);
      [i] + Returns(available, next, k - 1)
  }

  lemma {:induction false} FirstOpen(available: seq<bool>, lo: nat, p: nat) returns (first: nat)
    requires available != [] && lo <= p && Open(available, p)
    ensures lo <= first <= p && Open(available, first)
    ensures forall q :: lo <= q < first ==> !Open(available, q)
    decreases p - lo
  {
    if Open(available, lo) {
      first := lo;
    } else {
      first := FirstOpen(available, lo + 1, p);
    }
  }

  /** A call returns the first open position and leaves the cursor behind it. */
  lemma {:induction false} PickTakesFirst(available: seq<bool>, cursor: u64, tries: nat, first: nat)
    requires available != [] && cursor <= first < cursor + tries && first < U64_MAX
    requires Open(available, first) && forall q :: cursor <= q < first ==> !Open(available, q)
    ensures Pick(available, cursor, tries) == (Slot(first, |available|), first + 1)
    decreases tries
  {
    hide Slot;
    if cursor < first {
      assert !Open(available, cursor);
      PickTakesFirst(available, cursor + 1, tries - 1, first);
    }
  }

  lemma {:induction false} WindowFromFirst(available: seq<bool>, lo: nat, first: nat, hi: nat)
    requires available != [] && lo <= first < hi
    requires Open(available, first) && forall q :: lo <= q < first ==> !Open(available, q)
    ensures Window(available, lo, hi) == [Slot(first, |available|)] + Window(available, first + 1, hi)
    decreases first - lo
  {
    hide Slot;
    if lo < first {
      assert !Open(available, lo);
      WindowFromFirst(available, lo + 1, first, hi);
    }
  }

  lemma {:induction false} OpenInWindow(available: seq<bool>, lo: nat, hi: nat) returns (p: nat)
    requires available != [] && Window(available, lo, hi) != []
    ensures lo <= p < hi && Open(available, p)
    decreases hi - lo
  {
    if Open(available, lo) {
      p := lo;
    } else {
      p := OpenInWindow(available, lo + 1, hi);
    }
  }

  /** Calls return the open positions of the cursor's way, in order, skipping no worker that is available. */
  lemma {:induction false} ReturnsFollowWindow(available: seq<bool>, cursor: u64, hi: nat, k: nat)
    requires Members(available) != {} && hi <= U64_MAX
    ensures k <= |Window(available, cursor, hi)| ==>
              Returns(available, cursor, k) == Window(available, cursor, hi)[..k]
    decreases k
  {
    hide Slot, Pick, Open;
    if 0 < k <= |Window(available, cursor, hi)| {
      var p := OpenInWindow(available, cursor, hi);
      var first := FirstOpen(available, cursor, p);
      assert first < cursor + |available| by { FirstIsNear(available, cursor, first); }
      PickTakesFirst(available, cursor, |available|, first);
      WindowFromFirst(available, cursor, first, hi);
      ReturnsFollowWindow(available, first + 1, hi, k - 1);
    }
  }

  lemma FirstIsNear(available: seq<bool>, lo: nat, first: nat)
    requires Members(available) != {} && forall q :: lo <= q < first ==> !Open(available, q)
    ensures first < lo + |available|
  {
    var i :| i in Members(available);
    var p := SlotReached(lo, i, |available|);
    assert Open(available, p);
  }

  // ----- One round -----

  lemma {:induction false} WindowSplit(available: seq<bool>, lo: nat, mid: nat, hi: nat)
    requires available != [] && lo <= mid <= hi
    ensures Window(available, lo, hi) == Window(available, lo, mid) + Window(available, mid, hi)
    decreases mid - lo
  {
    hide Open, Slot;
    if lo < mid {
      WindowSplit(available, lo + 1, mid, hi);
    }
  }

  lemma {:induction false} WindowShift(available: seq<bool>, lo: nat, hi: nat)
    requires available != []
    ensures Window(available, lo + |available|, hi + |available|) == Window(available, lo, hi)
    decreases hi - lo
  {
    hide Slot;
    if lo < hi {
      SlotShift(lo, |available|);
      WindowShift(available, lo + 1, hi);
    }
  }

  lemma {:induction false} WindowHolds(available: seq<bool>, lo: nat, hi: nat, i: nat)
    requires available != []
    ensures i in Window(available, lo, hi) <==>
            exists p :: lo <= p < hi && Open(available, p) && Slot(p, |available|) == i
    decreases hi - lo
  {
    hide Slot;
    if lo < hi {
      WindowHolds(available, lo + 1, hi, i);
      var rest := Window(available, lo + 1, hi);
      assert i in Window(available, lo, hi) <==> (Open(available, lo) && Slot(lo, |available|) == i) || i in rest;
    }
  }

  lemma {:induction false} WindowIsDistinct(available: seq<bool>, lo: nat, hi: nat)
    requires available != [] && hi <= lo + |available|
    ensures Distinct(Window(available, lo, hi))
    decreases hi - lo
  {
    hide Slot, Open;
    if lo < hi {
      WindowIsDistinct(available, lo + 1, hi);
      var i := Slot(lo, |available|);
      WindowHolds(available, lo + 1, hi, i);
      forall p | lo + 1 <= p < hi
        ensures Slot(p, |available|) != i
      {
        SlotsDiffer(lo, p, |available|);
      }
    }
  }

  /** A round of the cursor meets every available worker once and no other. */
  lemma OneRound(available: seq<bool>, lo: nat)
    requires available != []
    ensures var round := Window(available, lo, lo + |available|);
            Distinct(round) && Elements(round) == Members(available) && |round| == |Members(available)|
  {
    hide Slot;
    var n := |available|;
    var round := Window(available, lo, lo + n);
    WindowIsDistinct(available, lo, lo + n);
    forall i
      ensures i in Elements(round) <==> i in Members(available)
    {
      WindowHolds(available, lo, lo + n, i);
      if i in Members(available) {
        var p := SlotReached(lo, i, n);
        assert Open(available, p);
      }
    }
    assert Elements(round) == Members(available);
    DistinctCount(round);
  }

  // ----- Many rounds -----

  function Times(round: seq<nat>, rounds: nat): seq<nat> {
    if rounds == 0 then [] else round + Times(round, rounds - 1)
  }

  lemma {:induction false} WindowOfRounds(available: seq<bool>, lo: nat, rounds: nat)
    requires available != []
    ensures Window(available, lo, lo + rounds * |available|)
            == Times(Window(available, lo, lo + |available|), rounds)
    decreases rounds
  {
    hide Slot, Open;
    var n := |available|;
    if rounds > 0 {
      assert rounds * n == n + (rounds - 1) * n;
      WindowSplit(available, lo, lo + n, lo + rounds * n);
      WindowShift(available, lo, lo + (rounds - 1) * n);
      WindowOfRounds(available, lo, rounds - 1);
    }
  }

  lemma {:induction false} TimesLength(round: seq<nat>, rounds: nat)
    ensures |Times(round, rounds)| == rounds * |round|
  {
    if rounds > 0 {
      TimesLength(round, rounds - 1);
      assert rounds * |round| == |round| + (rounds - 1) * |round|;
    }
  }

  /**
   Fairness: while the same workers are available and the cursor does not wrap, the calls of any number of
   rounds return the available workers over and over in one cyclic order, each once a round, and no other.
   */
  lemma RoundRobin(available: seq<bool>, cursor: u64, rounds: nat)
    requires Members(available) != {} && cursor + rounds * |available| <= U64_MAX
    ensures var round := Window(available, cursor, cursor + |available|);
            && Distinct(round) && Elements(round) == Members(available)
            && Returns(available, cursor, rounds * |Members(available)|) == Times(round, rounds)
  {
    hide Slot, Window, Returns;
    OneRound(available, cursor);
    var hi := cursor + rounds * |available|;
    WindowOfRounds(available, cursor, rounds);
    TimesLength(Window(available, cursor, cursor + |available|), rounds);
    ReturnsFollowWindow(available, cursor, hi, rounds * |Members(available)|);
    assert Window(available, cursor, hi)[..rounds * |Members(available)|] == Window(available, cursor, hi);
  }

  lemma {:induction false} TimesCount(round: seq<nat>, rounds: nat, i: nat)
    ensures multiset(Times(round, rounds))[i] == rounds * multiset(round)[i]
  {
    if rounds > 0 {
      TimesCount(round, rounds - 1, i);
      assert rounds * multiset(round)[i] == multiset(round)[i] + (rounds - 1) * multiset(round)[i];
    }
  }

  /** Each available worker is returned exactly once a round, every other worker never. */
  lemma EachOnceARound(available: seq<bool>, cursor: u64, rounds: nat, i: nat)
    requires Members(available) != {} && cursor + rounds * |available| <= U64_MAX
    ensures multiset(Returns(available, cursor, rounds * |Members(available)|))[i]
            == if i in Members(available) then rounds else 0
  {
    hide Window, Returns, Times, Slot;
    RoundRobin(available, cursor, rounds);
    var round := Window(available, cursor, cursor + |available|);
    TimesCount(round, rounds, i);
    DistinctOnce(round, i);
    assert i in round <==> i in Elements(round);
  }

  /**
   With nobody available the worker at the starting position is taken and the cursor moves on by one more than
   a round.
   */
  lemma {:induction false} FallbackSkipsAround(available: seq<bool>, cursor: u64, tries: nat)
    requires available != [] && Members(available) == {} && cursor + tries < U64_MAX
    ensures Pick(available, cursor, tries) == (Slot(cursor + tries, |available|), cursor + tries + 1)
    decreases tries
  {
    hide Slot;
    if tries > 0 {
      assert Slot(cursor, |available|) !in Members(available);
      FallbackSkipsAround(available, cursor + 1, tries - 1);
    }
  }

  lemma FallbackIsStartingWorker(available: seq<bool>, cursor: u64)
    requires available != [] && Members(available) == {} && cursor + |available| < U64_MAX
    ensures Pick(available, cursor, |available|) == (Slot(cursor, |available|), cursor + |available| + 1)
  {
    FallbackSkipsAround(available, cursor, |available|);
    SlotShift(cursor, |available|);
  }
}
