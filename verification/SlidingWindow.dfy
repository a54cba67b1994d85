/** A sliding window minimum whose clock is a wrapping 8-bit counter. */
module SlidingWindow {
  import opened Prelude

  /** The smallest value, for a nonempty sequence. */
  function MinOf(s: seq<int>): (m: int)
    requires s != []
    ensures m in s && forall x {:trigger x in s} :: x in s ==> m <= x
  {
    if |s| == 1 then s[0]
    else
      var m := MinOf(s[1..]);
      assert forall x {:trigger x in s} :: x in s ==> x == s[0] || x in s[1..];
      if s[0] <= m then s[0] else m
  }

  lemma MinUnique(s: seq<int>, m: int)
    requires s != [] && m in s && forall i :: 0 <= i < |s| ==> m <= s[i]
    ensures MinOf(s) == m
  {
  }

  /** The first index that is still in a window over the last `size` values. */
  function FirstOf(s: seq<int>, size: nat): nat {
    if |s| <= size then 0 else |s| - size
  }

  /** The last `size` values. */
  function Last(s: seq<int>, size: nat): seq<int> {
    s[FirstOf(s, size)..]
  }

  /** `u8::wrapping_sub`. */
  function WrappingSub8(a: u8, b: u8): u8 {
    (a - b) % 256
  }

  /** The 8-bit clock after n pushes. */
  function Clock(n: nat): u8 {
    n % 256
  }

  lemma NextClock(n: nat)
    ensures Clock(n + 1) == (Clock(n) + 1) % 256
  {
  }

  class SlidingWindowMinimum {
    const size: u8
    var queue: seq<(u8, int)>
    var curTime: u8
    /** Everything pushed so far, and the index therein of each entry of the queue. */
    ghost var pushed: seq<int>
    ghost var at: seq<nat>

    /** The first index that is still in the window. */
    ghost function Start(): nat
      reads this
    {
      FirstOf(pushed, size)
    }

    /**
     * The queue holds pushed values of the window at increasing times, with increasing values;
     * every value of the window is bounded by a later entry.
     */
    ghost predicate Valid()
      reads this
    {
      size > 0 && curTime == Clock(|pushed|) && |at| == |queue|
      && Entries(queue, at, pushed, Start())
      && Covered(at, pushed, Start())
    }

    constructor (size: u8)
      requires size > 0
      ensures Valid() && this.size == size && pushed == []
    {
      this.size := size;
      queue, curTime := [], 0;
      pushed, at := [], [];
    }

    method Push(value: int)
      requires Valid()
      modifies this
      ensures Valid() && pushed == old(pushed) + [value]
    {
      hide CoveredBelow, Covered, Entries, WrappingSub8, Clock;
      ghost var n, start := |pushed|, Start();
      BelowFromAll(at, pushed, start, value);
      while queue != [] && queue[|queue| - 1].1 >= value
        invariant |at| == |queue| && Entries(queue, at, pushed, start)
        invariant CoveredBelow(at, pushed, start, value)
        invariant pushed == old(pushed) && curTime == old(curTime)
        decreases |queue|
      {
        PopBack(queue, at, pushed, start, value);
        queue, at := queue[..|queue| - 1], at[..|at| - 1];
      }
      PushBack(queue, at, pushed, start, value);
      queue := queue + [(curTime, value)];
      at, pushed := at + [n], pushed + [value];
      ShrinkWindow(at, pushed, start, Start());
      while queue != [] && WrappingSub8(curTime, queue[0].0) >= size
        invariant |at| == |queue| && Entries(queue, at, pushed, start)
        invariant Covered(at, pushed, Start())
        invariant pushed == old(pushed) + [value] && curTime == old(curTime)
        decreases |queue|
      {
        AgeIsExact(queue, at, pushed, start, size);
        PopFront(queue, at, pushed, start, Start());
        queue, at := queue[1..], at[1..];
      }
      AgeIsExact(queue, at, pushed, start, size);
      NarrowEntries(queue, at, pushed, start, Start());
      NextClock(n);
      curTime := (curTime + 1) % 256;
    }

    /** The current minimum; zero as long as nothing was pushed. */
    function GetMin(): (r: int)
      requires Valid()
      reads this
      ensures r == if pushed == [] then 0 else MinOf(Last(pushed, size))
    {
      FrontIsMin(queue, at, pushed, size);
      if queue == [] then 0 else queue[0].1
    }
  }

  ghost predicate Entries(queue: seq<(u8, int)>, at: seq<nat>, pushed: seq<int>, start: nat)
    requires |at| == |queue|
  {
    (forall j {:trigger at[j]} {:trigger queue[j]} :: 0 <= j < |at| ==>
      start <= at[j] < |pushed| && queue[j] == (Clock(at[j]), pushed[at[j]]))
    && (forall i, j {:trigger at[i], at[j]} :: 0 <= i < j < |at| ==>
          at[i] < at[j] < |pushed| && pushed[at[i]] < pushed[at[j]])
  }

  ghost predicate CoversOne(at: seq<nat>, pushed: seq<int>, h: nat)
    requires h < |pushed|
  {
    exists j {:trigger at[j]} :: 0 <= j < |at| && h <= at[j] < |pushed| && pushed[at[j]] <= pushed[h]
  }

  /** Every value below `value` is bounded by an entry. */
  ghost predicate CoveredBelow(at: seq<nat>, pushed: seq<int>, start: nat, value: int) {
    forall h {:trigger CoversOne(at, pushed, h)} ::
        start <= h < |pushed| && pushed[h] < value ==> CoversOne(at, pushed, h)
  }

  ghost predicate Covered(at: seq<nat>, pushed: seq<int>, start: nat) {
    forall h {:trigger CoversOne(at, pushed, h)} :: start <= h < |pushed| ==> CoversOne(at, pushed, h)
  }

  lemma BelowFromAll(at: seq<nat>, pushed: seq<int>, start: nat, value: int)
    requires Covered(at, pushed, start)
    ensures CoveredBelow(at, pushed, start, value)
  {
  }

  lemma ShrinkWindow(at: seq<nat>, pushed: seq<int>, start: nat, start': nat)
    requires start <= start' && Covered(at, pushed, start)
    ensures Covered(at, pushed, start')
  {
  }

  /**
   * While the last value is pushed, the age of an older entry is below 256, so the wrapping clock
   * tells exactly whether it left the window.
   */
  lemma AgeIsExact(queue: seq<(u8, int)>, at: seq<nat>, pushed: seq<int>, start: nat, size: u8)
    requires |at| == |queue| && Entries(queue, at, pushed, start)
    requires pushed != [] && start <= |pushed| - 1 <= start + size
    ensures queue != [] ==>
              WrappingSub8(Clock(|pushed| - 1), queue[0].0) == |pushed| - 1 - at[0] && at[0] < |pushed|
  {
    if queue != [] {
      assert queue[0] == (Clock(at[0]), pushed[at[0]]);
    }
  }

  lemma PopBack(queue: seq<(u8, int)>, at: seq<nat>, pushed: seq<int>, start: nat, value: int)
    requires |at| == |queue| && Entries(queue, at, pushed, start) && CoveredBelow(at, pushed, start, value)
    requires queue != [] && queue[|queue| - 1].1 >= value
    ensures Entries(queue[..|queue| - 1], at[..|at| - 1], pushed, start)
    ensures CoveredBelow(at[..|at| - 1], pushed, start, value)
  {
    var back := |at| - 1;
    assert queue[back] == (Clock(at[back]), pushed[at[back]]);
    forall h | start <= h < |pushed| && pushed[h] < value
      ensures CoversOne(at[..back], pushed, h)
    {
      assert CoversOne(at, pushed, h);
      var j :| 0 <= j < |at| && h <= at[j] < |pushed| && pushed[at[j]] <= pushed[h];
      assert at[..back][j] == at[j];
    }
  }

  lemma PushBack(queue: seq<(u8, int)>, at: seq<nat>, pushed: seq<int>, start: nat, value: int)
    requires |at| == |queue| && Entries(queue, at, pushed, start) && CoveredBelow(at, pushed, start, value)
    requires start <= |pushed| && (queue != [] ==> queue[|queue| - 1].1 < value)
    ensures Entries(queue + [(Clock(|pushed|), value)], at + [|pushed|], pushed + [value], start)
    ensures Covered(at + [|pushed|], pushed + [value], start)
  {
    var at', pushed', queue' := at + [|pushed|], pushed + [value], queue + [(Clock(|pushed|), value)];
    forall j | 0 <= j < |at'|
      ensures start <= at'[j] < |pushed'| && queue'[j] == (Clock(at'[j]), pushed'[at'[j]])
    {
      if j < |at| {
        assert at'[j] == at[j] && queue'[j] == queue[j] && pushed'[at[j]] == pushed[at[j]];
      }
    }
    forall i, j {:trigger at'[i], at'[j]} | 0 <= i < j < |at'|
      ensures at'[i] < at'[j] < |pushed'| && pushed'[at'[i]] < pushed'[at'[j]]
    {
      assert at'[i] == at[i] && pushed'[at[i]] == pushed[at[i]];
      if j == |at| {
        assert queue[|at| - 1] == (Clock(at[|at| - 1]), pushed[at[|at| - 1]]);
        assert pushed[at[i]] <= pushed[at[|at| - 1]];
      } else {
        assert at'[j] == at[j] && pushed'[at[j]] == pushed[at[j]];
      }
    }
    forall h | start <= h < |pushed'|
      ensures CoversOne(at', pushed', h)
    {
      assert at'[|at|] == |pushed| && pushed'[|pushed|] == value;
      if pushed'[h] < value {
        assert pushed'[h] == pushed[h] && CoversOne(at, pushed, h);
        var j :| 0 <= j < |at| && h <= at[j] < |pushed| && pushed[at[j]] <= pushed[h];
        assert at'[j] == at[j] && pushed'[at[j]] == pushed[at[j]];
      }
    }
  }

  lemma PopFront(queue: seq<(u8, int)>, at: seq<nat>, pushed: seq<int>, start: nat, start': nat)
    requires |at| == |queue| && Entries(queue, at, pushed, start) && Covered(at, pushed, start')
    requires at != [] && at[0] < start'
    ensures Entries(queue[1..], at[1..], pushed, start) && Covered(at[1..], pushed, start')
  {
    forall h | start' <= h < |pushed|
      ensures CoversOne(at[1..], pushed, h)
    {
      assert CoversOne(at, pushed, h);
      var j :| 0 <= j < |at| && h <= at[j] < |pushed| && pushed[at[j]] <= pushed[h];
      assert at[1..][j - 1] == at[j];
    }
  }

  lemma NarrowEntries(queue: seq<(u8, int)>, at: seq<nat>, pushed: seq<int>, start: nat, start': nat)
    requires |at| == |queue| && Entries(queue, at, pushed, start)
    requires at != [] ==> start' <= at[0]
    ensures Entries(queue, at, pushed, start')
  {
    forall j | 0 < j < |at|
      ensures start' <= at[j]
    {
      assert at[0] < at[j];
    }
  }

  lemma FrontIsMin(queue: seq<(u8, int)>, at: seq<nat>, pushed: seq<int>, size: nat)
    requires |at| == |queue| && size > 0
    requires Entries(queue, at, pushed, FirstOf(pushed, size)) && Covered(at, pushed, FirstOf(pushed, size))
    ensures queue == [] <==> pushed == []
    ensures queue != [] ==> queue[0].1 == MinOf(Last(pushed, size))
  {
    var start := FirstOf(pushed, size);
    if pushed != [] {
      assert CoversOne(at, pushed, |pushed| - 1);
      var m := pushed[at[0]];
      assert queue[0] == (Clock(at[0]), m);
      var last := Last(pushed, size);
      assert last[at[0] - start] == m;
      forall i | 0 <= i < |last|
        ensures m <= last[i]
      {
        assert last[i] == pushed[start + i] && CoversOne(at, pushed, start + i);
        var j :| 0 <= j < |at| && start + i <= at[j] < |pushed| && pushed[at[j]] <= pushed[start + i];
        assert j > 0 ==> pushed[at[0]] < pushed[at[j]];
      }
      MinUnique(last, m);
    } else {
      assert at == [];
    }
  }
}
