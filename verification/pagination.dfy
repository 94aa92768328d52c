/**
  The stall-detection loop of `scrape_data` (main.py:68-81). Each pass scrolls,
  waits for a place anchor, and looks at the anchors rendered so far. The model
  takes one observation per pass from an oracle, a sequence of polls. When the
  oracle runs out while the loop would still go on, the result is `StillGrowing`.
  That outcome stands for the source's unbounded `while True`.
 */
module Pagination {

  /** What one pass of the loop observes: the wait at line 71 timed out (it raises
      and aborts the scrape), or the place anchors currently on the page. */
  datatype Poll<A> = TimedOut | Anchors(found: seq<A>)

  /** A listing handle. Line 74 keeps the parent of each anchor (`xpath=..`),
      line 79 keeps the anchors themselves. */
  datatype Handle<A> = ParentOf(anchor: A) | AnchorItself(anchor: A)

  /** The decision taken at the end of one pass. */
  datatype Step<A> = Stop(handles: seq<Handle<A>>) | Rescroll(counted: nat)

  /** How the loop ends, if it ends within the observations given. */
  datatype Outcome<A> =
    | Listings(handles: seq<Handle<A>>)
    | WaitTimedOut
    | StillGrowing(previouslyCounted: nat)

  function Parents<A>(anchors: seq<A>): seq<Handle<A>>
  {
    seq(|anchors|, k requires 0 <= k < |anchors| => ParentOf(anchors[k]))
  }

  function Themselves<A>(anchors: seq<A>): seq<Handle<A>>
  {
    seq(|anchors|, k requires 0 <= k < |anchors| => AnchorItself(anchors[k]))
  }

  /** The anchors underlying a list of handles. */
  function AnchorsOf<A>(handles: seq<Handle<A>>): seq<A>
  {
    seq(|handles|, k requires 0 <= k < |handles| => handles[k].anchor)
  }

  function Min(a: nat, b: nat): nat
  {
    if a <= b then a else b
  }

  /** The body of one pass (lines 72-81) given the anchors it sees. */
  function LoopStep<A>(previouslyCounted: nat, found: seq<A>, total: nat): (s: Step<A>)
    ensures s.Rescroll? <==> |found| < total && |found| != previouslyCounted
    ensures s.Rescroll? ==> s.counted == |found|
    ensures s.Stop? ==> |s.handles| <= total
    ensures s.Stop? ==> AnchorsOf(s.handles) == found[..Min(total, |found|)]
  {
    if |found| >= total then
      assert AnchorsOf(Parents(found[..total])) == found[..total];
      Stop(Parents(found[..total]))
    else if |found| == previouslyCounted then
      assert AnchorsOf(Themselves(found)) == found;
      Stop(Themselves(found))
    else
      Rescroll(|found|)
  }

  /** The loop from a given `previously_counted`, over the polls still to come. */
  function Paginate<A>(polls: seq<Poll<A>>, total: nat, previouslyCounted: nat): (o: Outcome<A>)
    ensures o.Listings? ==> |o.handles| <= total
    decreases |polls|
  {
    if polls == [] then StillGrowing(previouslyCounted)
    else match polls[0]
      case TimedOut => WaitTimedOut
      case Anchors(found) =>
        match LoopStep(previouslyCounted, found, total)
        case Stop(handles) => Listings(handles)
        case Rescroll(counted) => Paginate(polls[1..], total, counted)
  }

  /** `scrape_data` starts the loop with `previously_counted = 0` (line 68). */
  function Discover<A>(polls: seq<Poll<A>>, total: nat): Outcome<A>
  {
    Paginate(polls, total, 0)
  }

  /** The number of anchors a poll saw (none if it timed out). */
  function Counted<A>(p: Poll<A>): nat
  {
    if p.Anchors? then |p.found| else 0
  }

  /** The value `previously_counted` holds when poll `i` is evaluated, provided
      every earlier poll sent the loop round again. */
  ghost function CountBefore<A>(polls: seq<Poll<A>>, start: nat, i: nat): nat
    requires i <= |polls|
  {
    if i == 0 then start else Counted(polls[i - 1])
  }

  /** Poll `i` sends the loop round again. */
  ghost predicate RescrollsAt<A>(polls: seq<Poll<A>>, total: nat, start: nat, i: nat)
    requires i < |polls|
  {
    && polls[i].Anchors?
    && Counted(polls[i]) < total
    && Counted(polls[i]) != CountBefore(polls, start, i)
  }

  /** Each of the first `n` polls sends the loop round again. */
  ghost predicate RescrollsThrough<A>(polls: seq<Poll<A>>, total: nat, start: nat, n: nat)
    requires n <= |polls|
  {
    forall j :: 0 <= j < n ==> RescrollsAt(polls, total, start, j)
  }

  /** Reference definition of the outcome of the loop when it stops at poll `i`. */
  ghost function StoppedAt<A>(polls: seq<Poll<A>>, total: nat, i: nat): Outcome<A>
    requires i < |polls|
  {
    match polls[i]
    case TimedOut => WaitTimedOut
    case Anchors(found) =>
      if |found| >= total then Listings(Parents(found[..total])) else Listings(Themselves(found))
  }

  /** Dropping the first poll of a run that rescrolled through `n` polls. */
  lemma {:induction false} RescrollsShift<A>(polls: seq<Poll<A>>, total: nat, start: nat, n: nat)
    requires 0 < n <= |polls|
    requires RescrollsThrough(polls, total, start, n)
    ensures RescrollsThrough(polls[1..], total, Counted(polls[0]), n - 1)
  {
    forall j | 0 <= j < n - 1
      ensures RescrollsAt(polls[1..], total, Counted(polls[0]), j)
    {
      assert RescrollsAt(polls, total, start, j + 1);
      assert polls[1..][j] == polls[j + 1];
      if j > 0 {
        assert polls[1..][j - 1] == polls[j];
      }
    }
  }

  /** The loop stops at the first poll that does not send it round again, with
      the outcome that poll dictates. */
  lemma {:induction false} PaginateStopsAtFirstStall<A>(polls: seq<Poll<A>>, total: nat, start: nat, i: nat)
    requires i < |polls|
    requires RescrollsThrough(polls, total, start, i)
    requires !RescrollsAt(polls, total, start, i)
    ensures Paginate(polls, total, start) == StoppedAt(polls, total, i)
    decreases i
  {
    if i == 0 {
      if polls[0].Anchors? {
        var found := polls[0].found;
        if |found| >= total {
          assert LoopStep(start, found, total) == Stop(Parents(found[..total]));
        } else {
          assert LoopStep(start, found, total) == Stop(Themselves(found));
        }
      }
    } else {
      assert RescrollsAt(polls, total, start, 0);
      var found := polls[0].found;
      assert LoopStep(start, found, total) == Rescroll(|found|);
      RescrollsShift(polls, total, start, i);
      assert polls[1..][i - 1] == polls[i];
      if i > 1 {
        assert polls[1..][i - 2] == polls[i - 1];
      }
      assert !RescrollsAt(polls[1..], total, |found|, i - 1);
      PaginateStopsAtFirstStall(polls[1..], total, |found|, i - 1);
    }
  }

  /** When every poll sends the loop round again, the loop has not ended. */
  lemma {:induction false} PaginateRunsOut<A>(polls: seq<Poll<A>>, total: nat, start: nat)
    requires RescrollsThrough(polls, total, start, |polls|)
    ensures Paginate(polls, total, start) == StillGrowing(CountBefore(polls, start, |polls|))
    decreases |polls|
  {
    if polls != [] {
      assert RescrollsAt(polls, total, start, 0);
      var found := polls[0].found;
      assert LoopStep(start, found, total) == Rescroll(|found|);
      RescrollsShift(polls, total, start, |polls|);
      PaginateRunsOut(polls[1..], total, |found|);
      if |polls| > 1 {
        assert polls[1..][|polls[1..]| - 1] == polls[|polls| - 1];
      }
    }
  }

  /** Two consecutive polls that see the same number of anchors, below `total`,
      make the loop return every handle found, so it returns exactly that many
      handles and not `total`. */
  lemma StalledCountReturnsAllFound<A>(polls: seq<Poll<A>>, total: nat, i: nat)
    requires i + 1 < |polls|
    requires RescrollsThrough(polls, total, 0, i)
    requires polls[i].Anchors? && polls[i + 1].Anchors?
    requires |polls[i].found| == |polls[i + 1].found| < total
    ensures Discover(polls, total).Listings?
    ensures |Discover(polls, total).handles| == |polls[i].found|
  {
    if RescrollsAt(polls, total, 0, i) {
      assert RescrollsThrough(polls, total, 0, i + 1);
      PaginateStopsAtFirstStall(polls, total, 0, i + 1);
    } else {
      PaginateStopsAtFirstStall(polls, total, 0, i);
    }
  }
}
