/** `:pivot` and `:sort` of the array class (class/array/class.vp:351-476): a quicksort that
    keeps the intervals it has still to do on another array, two 32-bit indices in each
    64-bit element of it. */
module ArraySort {
  import opened ArrayClass

  type Compare = (int, int) -> int

  /** A compare callback that puts the elements in an order: a total preorder. */
  ghost predicate Orders(cmp: Compare) {
    && (forall a, b :: cmp(a, b) >= 0 || cmp(b, a) >= 0)
    && (forall a, b, c | cmp(a, b) >= 0 && cmp(b, c) >= 0 :: cmp(a, c) >= 0)
  }

  /** `a` may go before `b`. */
  predicate Before(cmp: Compare, a: int, b: int) {
    cmp(b, a) >= 0
  }

  ghost predicate Sorted(cmp: Compare, s: seq<int>, low: nat, high: nat) {
    high <= |s| && forall i, j | low <= i < j < high :: Before(cmp, s[i], s[j])
  }

  /** The same elements from `low` up to `high` in some order, and the rest untouched. */
  ghost predicate Shuffled(s: seq<int>, t: seq<int>, low: nat, high: nat) {
    && low <= high <= |s| == |t|
    && s[..low] == t[..low] && s[high..] == t[high..]
    && multiset(s[low..high]) == multiset(t[low..high])
  }

  lemma SwapShuffles(s: seq<int>, low: nat, high: nat, i: nat, j: nat)
    requires low <= i < high <= |s| && low <= j < high
    ensures Shuffled(s, s[i := s[j]][j := s[i]], low, high)
  {
    var t := s[i := s[j]][j := s[i]];
    var part := s[low..high];
    assert t[low..high] == part[i - low := s[j]][j - low := s[i]];
  }

  lemma ShuffledOn(s: seq<int>, t: seq<int>, u: seq<int>, low: nat, high: nat)
    requires Shuffled(s, t, low, high) && Shuffled(t, u, low, high)
    ensures Shuffled(s, u, low, high)
  {
  }

  /** Shuffling a part shuffles the whole. */
  lemma ShuffledWider(s: seq<int>, t: seq<int>, low: nat, high: nat, l: nat, h: nat)
    requires l <= low && high <= h <= |s| && Shuffled(s, t, low, high)
    ensures Shuffled(s, t, l, h)
  {
    assert s[l..h] == s[l..low] + s[low..high] + s[high..h];
    assert t[l..h] == t[l..low] + t[low..high] + t[high..h];
    assert s[l..low] == s[..low][l..] && t[l..low] == t[..low][l..];
    assert s[high..h] == s[high..][..h - high] && t[high..h] == t[high..][..h - high];
    assert s[..l] == s[..low][..l] && t[..l] == t[..low][..l];
    assert s[h..] == s[high..][h - high..] && t[h..] == t[high..][h - high..];
  }

  /** Where an element of the part came from. */
  lemma CameFrom(s: seq<int>, t: seq<int>, low: nat, high: nat, j: nat) returns (k: nat)
    requires Shuffled(s, t, low, high) && low <= j < high
    ensures low <= k < high && t[j] == s[k]
  {
    assert t[j] == t[low..high][j - low];
    assert t[j] in multiset(t[low..high]);
    assert t[j] in s[low..high];
    var i :| 0 <= i < high - low && s[low..high][i] == t[j];
    k := low + i;
  }

  lemma SameOutside(s: seq<int>, t: seq<int>, low: nat, high: nat, i: nat)
    requires Shuffled(s, t, low, high) && i < |s| && !(low <= i < high)
    ensures s[i] == t[i]
  {
    if i < low {
      assert s[..low][i] == t[..low][i];
    } else {
      assert s[high..][i - high] == t[high..][i - high];
    }
  }

  // ----- pivot -----

  /** All before `p` are less than what is at `p`, and none after it is. */
  ghost predicate Parted(cmp: Compare, s: seq<int>, low: nat, p: nat, high: nat) {
    && low <= p < high <= |s|
    && (forall i | low <= i < p :: cmp(s[i], s[p]) < 0)
    && (forall i | p < i < high :: cmp(s[i], s[p]) >= 0)
  }

  method Exchange(a: array<int>, i: nat, j: nat, ghost low: nat, ghost high: nat)
    requires low <= i < high <= a.Length && low <= j < high
    modifies a
    ensures a[..] == old(a[..][i := a[j]][j := a[i]])
    ensures Shuffled(old(a[..]), a[..], low, high)
  {
    SwapShuffles(a[..], low, high, i, j);
    a[i], a[j] := a[j], a[i];
    assert a[..] == old(a[..])[i := old(a[j])][j := old(a[i])];
  }

  /** While gathering: after the pivot, which is first, what is less than it, and then what has
      been seen and is not. */
  ghost predicate Gathered(cmp: Compare, s: seq<int>, low: nat, pivt: nat, iter: nat) {
    && low <= pivt < iter <= |s|
    && (forall k | low < k <= pivt :: cmp(s[k], s[low]) < 0)
    && (forall k | pivt < k < iter :: cmp(s[k], s[low]) >= 0)
  }

  lemma SwapSelf(s: seq<int>, i: nat)
    requires i < |s|
    ensures s[i := s[i]][i := s[i]] == s
  {
  }

  lemma GatheredLess(cmp: Compare, s: seq<int>, t: seq<int>, low: nat, pivt: nat, iter: nat)
    requires 0 < pivt <= iter < |s| && Gathered(cmp, s, low, pivt - 1, iter) && cmp(s[iter], s[low]) < 0
    requires t == s[pivt := s[iter]][iter := s[pivt]]
    ensures Gathered(cmp, t, low, pivt, iter + 1)
  {
  }

  lemma GatheredParts(cmp: Compare, s: seq<int>, low: nat, pivt: nat, high: nat)
    requires Gathered(cmp, s, low, pivt, high)
    ensures low <= pivt < high <= |s|
    ensures Parted(cmp, s[low := s[pivt]][pivt := s[low]], low, pivt, high)
  {
  }

  /** The loop of `:pivot`. */
  method Gather(a: array<int>, low: nat, high: nat, cmp: Compare) returns (pivt: nat)
    requires low < high <= a.Length
    modifies a
    ensures low <= pivt < high && Gathered(cmp, a[..], low, pivt, high)
    ensures Shuffled(old(a[..]), a[..], low, high)
  {
    ghost var was := a[..];
    var iter := low + 1;
    pivt := low;
    assert Gathered(cmp, a[..], low, pivt, iter);
    hide Shuffled, Gathered;
    while iter < high
      invariant low <= pivt < iter <= high
      invariant Shuffled(was, a[..], low, high) && Gathered(cmp, a[..], low, pivt, iter)
    {
      ghost var mid := a[..];
      if cmp(a[iter], a[low]) < 0 {
        pivt := pivt + 1;
        GatheredLess(cmp, mid, mid[pivt := mid[iter]][iter := mid[pivt]], low, pivt, iter);
        if pivt != iter {
          Exchange(a, pivt, iter, low, high);
          ShuffledOn(was, mid, a[..], low, high);
        } else {
          SwapSelf(mid, iter);
        }
      }
      iter := iter + 1;
    }
  }

  /** `:pivot`: the middle element is put first, what is less than it is gathered after it,
      and then it is put between. */
  method Pivot(a: array<int>, low: nat, high: nat, cmp: Compare) returns (pivt: nat)
    requires low < high <= a.Length
    modifies a
    ensures Parted(cmp, a[..], low, pivt, high)
    ensures Shuffled(old(a[..]), a[..], low, high)
  {
    hide Shuffled, Gathered, Parted;
    ghost var was := a[..];
    var half := (high - low) / 2;
    if half != 0 {
      Exchange(a, low, low + half, low, high);
    }
    ghost var first := a[..];
    pivt := Gather(a, low, high, cmp);
    ghost var mid := a[..];
    GatheredParts(cmp, mid, low, pivt, high);
    if pivt != low {
      Exchange(a, low, pivt, low, high);
      ShuffledOn(first, mid, a[..], low, high);
    } else {
      SwapSelf(mid, low);
    }
    ShuffledOn(was, first, a[..], low, high);
  }

  // ----- what is still to be sorted -----

  datatype Interval = Interval(low: nat, high: nat)

  /** Apart, in order, and in the range. */
  ghost predicate Apart(todo: seq<Interval>, low: nat, high: nat) {
    && (forall k | 0 <= k < |todo| :: low <= todo[k].low <= todo[k].high <= high)
    && (forall k, m | 0 <= k < m < |todo| :: todo[k].high <= todo[m].low)
  }

  /** Both of two places are in one interval still to be done. */
  ghost predicate Waiting(todo: seq<Interval>, i: nat, j: nat) {
    exists k :: 0 <= k < |todo| && todo[k].low <= i && j < todo[k].high
  }

  /** Any two elements are in order, or have still to be put in order. */
  ghost predicate Placed(cmp: Compare, s: seq<int>, todo: seq<Interval>, low: nat, high: nat) {
    high <= |s| && forall i: nat, j: nat | low <= i < j < high :: Before(cmp, s[i], s[j]) || Waiting(todo, i, j)
  }

  ghost function Weight(todo: seq<Interval>): nat {
    if todo == [] then 0
    else Weight(todo[..|todo| - 1]) +
         var last := todo[|todo| - 1]; 1 + if last.low < last.high then 2 * (last.high - last.low) else 0
  }

  /** Two places, not both in the interval that was parted, are as they were to each other. */
  lemma StillPlaced(cmp: Compare, s: seq<int>, t: seq<int>, rest: seq<Interval>, l: nat, h: nat,
                    low: nat, high: nat, i: nat, j: nat)
    requires Apart(rest + [Interval(l, h)], low, high) && Placed(cmp, s, rest + [Interval(l, h)], low, high)
    requires Shuffled(s, t, l, h) && low <= i < j < high && !(l <= i && j < h)
    ensures Before(cmp, t[i], t[j]) || Waiting(rest, i, j)
  {
    var todo := rest + [Interval(l, h)];
    assert todo[|rest|] == Interval(l, h);
    var i', j' := i, j;
    if l <= i < h { i' := CameFrom(s, t, l, h, i); } else { SameOutside(s, t, l, h, i); }
    if l <= j < h { j' := CameFrom(s, t, l, h, j); } else { SameOutside(s, t, l, h, j); }
    assert i' < j';
    if !Before(cmp, s[i'], s[j']) {
      var k :| 0 <= k < |todo| && todo[k].low <= i' && j' < todo[k].high;
      assert k < |rest| && todo[k].high <= todo[|rest|].low;
      assert rest[k] == todo[k];
    }
  }

  /** Parting an interval leaves the two on either side of the pivot to be done. */
  lemma PartedPlaces(cmp: Compare, s: seq<int>, t: seq<int>, rest: seq<Interval>, l: nat, p: nat, h: nat, low: nat, high: nat)
    requires Orders(cmp)
    requires Apart(rest + [Interval(l, h)], low, high) && Placed(cmp, s, rest + [Interval(l, h)], low, high)
    requires Shuffled(s, t, l, h) && Parted(cmp, t, l, p, h)
    ensures Placed(cmp, t, rest + [Interval(l, p), Interval(p + 1, h)], low, high)
  {
    var todo := rest + [Interval(l, p), Interval(p + 1, h)];
    assert todo[|rest|] == Interval(l, p) && todo[|rest| + 1] == Interval(p + 1, h);
    forall i: nat, j: nat | low <= i < j < high ensures Before(cmp, t[i], t[j]) || Waiting(todo, i, j) {
      if l <= i && j < h {
        if i <= p <= j {
          assert i < p ==> Before(cmp, t[i], t[p]);
          assert p < j ==> Before(cmp, t[p], t[j]);
        }
      } else {
        StillPlaced(cmp, s, t, rest, l, h, low, high, i, j);
        if Waiting(rest, i, j) {
          var k :| 0 <= k < |rest| && rest[k].low <= i && j < rest[k].high;
          assert todo[k] == rest[k];
        }
      }
    }
  }

  lemma PartedApart(rest: seq<Interval>, l: nat, p: nat, h: nat, low: nat, high: nat)
    requires Apart(rest + [Interval(l, h)], low, high) && l <= p < h
    ensures Apart(rest + [Interval(l, p), Interval(p + 1, h)], low, high)
  {
    var was, now := rest + [Interval(l, h)], rest + [Interval(l, p), Interval(p + 1, h)];
    assert was[|rest|] == Interval(l, h);
    forall k | 0 <= k < |now| ensures low <= now[k].low <= now[k].high <= high {
      if k < |rest| { assert now[k] == was[k]; }
    }
    forall k, m | 0 <= k < m < |now| ensures now[k].high <= now[m].low {
      if k < |rest| { assert now[k] == was[k] && was[k].high <= was[|rest|].low; }
      if m < |rest| { assert now[m] == was[m]; }
    }
  }

  lemma WeightOn(rest: seq<Interval>, last: Interval)
    ensures Weight(rest + [last]) == Weight(rest) + 1 + if last.low < last.high then 2 * (last.high - last.low) else 0
  {
    assert (rest + [last])[..|rest|] == rest;
  }

  lemma PartedWeighs(rest: seq<Interval>, l: nat, p: nat, h: nat)
    requires l <= p < h
    ensures Weight(rest + [Interval(l, p), Interval(p + 1, h)]) < Weight(rest + [Interval(l, h)])
  {
    WeightOn(rest, Interval(l, h));
    WeightOn(rest, Interval(l, p));
    WeightOn(rest + [Interval(l, p)], Interval(p + 1, h));
    assert rest + [Interval(l, p)] + [Interval(p + 1, h)] == rest + [Interval(l, p), Interval(p + 1, h)];
  }

  /** An interval of one or none has no two to put in order. */
  lemma DonePlaces(cmp: Compare, s: seq<int>, rest: seq<Interval>, l: nat, h: nat, low: nat, high: nat)
    requires Placed(cmp, s, rest + [Interval(l, h)], low, high) && Apart(rest + [Interval(l, h)], low, high) && l >= h
    ensures Placed(cmp, s, rest, low, high) && Apart(rest, low, high)
    ensures Weight(rest) < Weight(rest + [Interval(l, h)])
  {
    var was := rest + [Interval(l, h)];
    assert was[..|rest|] == rest;
    assert forall k | 0 <= k < |rest| :: rest[k] == was[k];
    forall i: nat, j: nat | low <= i < j < high ensures Before(cmp, s[i], s[j]) || Waiting(rest, i, j) {
      if Waiting(was, i, j) {
        var k :| 0 <= k < |was| && was[k].low <= i && j < was[k].high;
        assert k < |rest| && rest[k] == was[k];
      }
    }
  }

  // ----- the stack of intervals -----

  const HALVES: int := 0x1_0000_0000

  /** Two 32-bit indices as the one 64-bit element they share. */
  function Pack(low: nat, high: nat): int
    requires low < HALVES && high < HALVES
  {
    low + high * HALVES
  }

  lemma Unpack(low: nat, high: nat)
    requires low < HALVES && high < HALVES
    ensures Pack(low, high) % HALVES == low && Pack(low, high) / HALVES == high
  {
  }

  /** The stack holds these intervals, above what was on it. */
  ghost predicate Stacked(held: seq<int>, was: seq<int>, rest: seq<Interval>) {
    && |held| == |was| + |rest| && held[..|was|] == was
    && forall k | 0 <= k < |rest| ::
         rest[k].low < HALVES && rest[k].high < HALVES && held[|was| + k] == Pack(rest[k].low, rest[k].high)
  }

  lemma StackLess(held: seq<int>, was: seq<int>, rest: seq<Interval>, now: seq<int>, top: int)
    requires Stacked(held, was, rest) && held == now + [top] && rest != []
    ensures var last := rest[|rest| - 1];
            && Stacked(now, was, rest[..|rest| - 1])
            && top % HALVES == last.low && top / HALVES == last.high
  {
    var last := rest[|rest| - 1];
    Unpack(last.low, last.high);
  }

  /** All `:sort` keeps from one time round to the next. */
  ghost predicate Sorting(cmp: Compare, was: seq<int>, now: seq<int>, held: seq<int>, below: seq<int>,
                          rest: seq<Interval>, l: nat, h: nat, low: nat, high: nat) {
    && Shuffled(was, now, low, high)
    && Apart(rest + [Interval(l, h)], low, high)
    && Placed(cmp, now, rest + [Interval(l, h)], low, high)
    && Stacked(held, below, rest)
  }

  /** What is left when the interval in hand has been seen to. */
  ghost predicate Resting(cmp: Compare, was: seq<int>, now: seq<int>, held: seq<int>, below: seq<int>,
                          rest: seq<Interval>, low: nat, high: nat) {
    && Shuffled(was, now, low, high) && Apart(rest, low, high) && Placed(cmp, now, rest, low, high)
    && Stacked(held, below, rest)
  }

  /** The stack is the other array's own. */
  ghost predicate Separate(this': Array, stack: Array)
    reads this', stack
  {
    this'.Valid() && stack.Valid() && this' != stack && this'.elems != stack.elems
  }

  /** The two intervals either side of a pivot, put on the stack. */
  method PushBoth(this': Array, stack: Array, l: nat, p: nat, h: nat)
    requires Separate(this', stack) && l < HALVES && p + 1 < HALVES && h < HALVES
    modifies stack, stack.elems
    ensures Separate(this', stack) && (stack.elems == old(stack.elems) || fresh(stack.elems))
    ensures stack.Contents() == old(stack.Contents()) + [Pack(l, p)] + [Pack(p + 1, h)]
  {
    var more, again: nat := *, *;
    stack.PushBack(Pack(l, p), more);
    stack.PushBack(Pack(p + 1, h), again);
  }

  lemma PartRests(cmp: Compare, was: seq<int>, s: seq<int>, t: seq<int>, held: seq<int>, below: seq<int>,
                  rest: seq<Interval>, l: nat, p: nat, h: nat, low: nat, high: nat)
    returns (now: seq<Interval>)
    requires Orders(cmp) && high < HALVES && Sorting(cmp, was, s, held, below, rest, l, h, low, high)
    requires Shuffled(s, t, l, h) && Parted(cmp, t, l, p, h)
    ensures p + 1 < HALVES && h < HALVES
    ensures Resting(cmp, was, t, held + [Pack(l, p)] + [Pack(p + 1, h)], below, now, low, high)
    ensures Weight(now) < Weight(rest + [Interval(l, h)])
  {
    assert Interval(l, h) == (rest + [Interval(l, h)])[|rest|];
    now := rest + [Interval(l, p), Interval(p + 1, h)];
    assert rest + [Interval(l, p)] + [Interval(p + 1, h)] == now;
    ShuffledWider(s, t, l, h, low, high);
    ShuffledOn(was, s, t, low, high);
    PartedApart(rest, l, p, h, low, high);
    PartedWeighs(rest, l, p, h);
    PartedPlaces(cmp, s, t, rest, l, p, h, low, high);
  }

  /** What is done of one interval: parted, and its parts left to do, unless it is too short. */
  method SortStep(this': Array, stack: Array, l: nat, h: nat, cmp: Compare,
                  ghost was: seq<int>, ghost below: seq<int>, ghost rest: seq<Interval>, ghost low: nat, ghost high: nat)
    returns (ghost now: seq<Interval>)
    requires Orders(cmp) && Separate(this', stack) && high < HALVES && h <= this'.elems.Length
    requires Sorting(cmp, was, this'.elems[..], stack.Contents(), below, rest, l, h, low, high)
    modifies this'.elems, stack, stack.elems
    ensures Separate(this', stack) && (stack.elems == old(stack.elems) || fresh(stack.elems))
    ensures Resting(cmp, was, this'.elems[..], stack.Contents(), below, now, low, high)
    ensures Weight(now) < Weight(rest + [Interval(l, h)])
  {
    ghost var s, held := this'.elems[..], stack.Contents();
    if l < h {
      var pivt := Pivot(this'.elems, l, h, cmp);
      now := PartRests(cmp, was, s, this'.elems[..], held, below, rest, l, pivt, h, low, high);
      PushBoth(this', stack, l, pivt, h);
    } else {
      DonePlaces(cmp, s, rest, l, h, low, high);
      now := rest;
    }
  }

  lemma Starts(cmp: Compare, was: seq<int>, below: seq<int>, low: nat, high: nat)
    requires low <= high <= |was|
    ensures Sorting(cmp, was, was, below, below, [], low, high, low, high)
  {
    var todo := [] + [Interval(low, high)];
    forall i: nat, j: nat | low <= i < j < high ensures Waiting(todo, i, j) {
      assert todo[0].low <= i && j < todo[0].high;
    }
  }

  lemma LastWithin(rest: seq<Interval>, low: nat, high: nat)
    requires Apart(rest, low, high) && rest != []
    ensures rest[|rest| - 1].high <= high
  {
  }

  lemma HowMany(held: seq<int>, below: seq<int>, rest: seq<Interval>)
    requires Stacked(held, below, rest)
    ensures |held| == |below| + |rest| && (rest == [] ==> held == below)
  {
  }

  /** `:sort`. The range comes out in order and a shuffle of what it was, the rest of the array
      is untouched, and the stack is given back as it was found. */
  method Sort(this': Array, stack: Array, lower: nat, upper: nat, cmp: Compare)
    requires Orders(cmp) && Separate(this', stack)
    requires lower <= upper <= this'.length && upper < HALVES
    modifies this'.elems, stack, stack.elems
    ensures Separate(this', stack) && this'.length == old(this'.length)
    ensures Sorted(cmp, this'.Contents(), lower, upper)
    ensures Shuffled(old(this'.Contents()), this'.Contents(), lower, upper)
    ensures stack.Contents() == old(stack.Contents())
  {
    hide Shuffled, Apart, Placed, Stacked, Sorted;
    ghost var was, below := this'.elems[..], stack.Contents();
    Starts(cmp, was, below, lower, upper);
    var low: nat, high: nat := lower, upper;
    var start := stack.length;
    ghost var rest: seq<Interval> := [];
    while true
      invariant Separate(this', stack) && (stack.elems == old(stack.elems) || fresh(stack.elems))
      invariant Sorting(cmp, was, this'.elems[..], stack.Contents(), below, rest, low, high, lower, upper)
      invariant high <= this'.elems.Length
      decreases Weight(rest + [Interval(low, high)])
    {
      rest := SortStep(this', stack, low, high, cmp, was, below, rest, lower, upper);
      ghost var held := stack.Contents();
      HowMany(held, below, rest);
      if stack.length == start { break; }
      var interval := stack.PopBack();
      StackLess(held, below, rest, stack.Contents(), interval);
      low, high := interval % HALVES, interval / HALVES;
      ghost var last := rest[|rest| - 1];
      LastWithin(rest, lower, upper);
      assert rest == rest[..|rest| - 1] + [last];
      rest := rest[..|rest| - 1];
    }
    assert rest == [];
    AllPlaced(cmp, was, this'.elems[..], this'.length, lower, upper);
  }

  lemma AllPlaced(cmp: Compare, was: seq<int>, now: seq<int>, length: nat, low: nat, high: nat)
    requires Placed(cmp, now, [], low, high) && Shuffled(was, now, low, high) && high <= length <= |now|
    ensures Sorted(cmp, now[..length], low, high) && Shuffled(was[..length], now[..length], low, high)
  {
    assert was[..length][..low] == was[..low] && now[..length][..low] == now[..low];
    assert was[..length][low..high] == was[low..high] && now[..length][low..high] == now[low..high];
    assert was[..length][high..] == was[high..][..length - high];
    assert now[..length][high..] == now[high..][..length - high];
    forall i: nat, j: nat | low <= i < j < high ensures Before(cmp, now[i], now[j]) {
      assert !Waiting([], i, j);
    }
  }
}
