/** Wrap-around paging through the loan list, and the swipe rule that
    decides which way to page. */
module Navigation {

  /** The right arrow: `(currentLoanIndex + 1) % loans.length`. */
  function NextIndex(i: nat, n: nat): (j: nat)
    requires i < n
    ensures j < n
    ensures j == if i == n - 1 then 0 else i + 1
  {
    (i + 1) % n
  }

  /** The left arrow: `(currentLoanIndex - 1 + loans.length) % loans.length`. */
  function PreviousIndex(i: nat, n: nat): (j: nat)
    requires i < n
    ensures j < n
    ensures j == if i == 0 then n - 1 else i - 1
  {
    (i - 1 + n) % n
  }

  lemma PreviousUndoesNext(i: nat, n: nat)
    requires i < n
    ensures PreviousIndex(NextIndex(i, n), n) == i
  {
  }

  lemma NextUndoesPrevious(i: nat, n: nat)
    requires i < n
    ensures NextIndex(PreviousIndex(i, n), n) == i
  {
  }

  /** The cursor after `k` presses of the right arrow. */
  function NextTimes(i: nat, n: nat, k: nat): (j: nat)
    requires i < n
    ensures j < n
  {
    if k == 0 then i else NextIndex(NextTimes(i, n, k - 1), n)
  }

  lemma {:induction false} NextTimesAdd(i: nat, n: nat, a: nat, b: nat)
    requires i < n
    ensures NextTimes(i, n, a + b) == NextTimes(NextTimes(i, n, a), n, b)
    decreases b
  {
    if b > 0 {
      NextTimesAdd(i, n, a, b - 1);
    }
  }

  /** Before the wrap, each press moves one place to the right. */
  lemma {:induction false} NextTimesBeforeWrap(i: nat, n: nat, k: nat)
    requires i + k < n
    ensures NextTimes(i, n, k) == i + k
  {
    if k > 0 {
      NextTimesBeforeWrap(i, n, k - 1);
    }
  }

  /** `n` presses of the right arrow bring the cursor back where it started. */
  lemma {:induction false} NextTimesCycle(i: nat, n: nat)
    requires i < n
    ensures NextTimes(i, n, n) == i
  {
    NextTimesBeforeWrap(i, n, n - 1 - i);
    assert NextTimes(i, n, n - i) == 0;
    NextTimesAdd(i, n, n - i, i);
    NextTimesBeforeWrap(0, n, i);
  }

  /** What a drag over the loan card does. */
  datatype Swipe = ShowPrevious | ShowNext | Stay

  function Abs(x: real): real {
    if x < 0.0 then -x else x
  }

  /** `handleSwipe`: a mostly horizontal drag of more than 50 pixels to the
      right pages back, one to the left pages forward. */
  function SwipeAction(startX: real, startY: real, endX: real, endY: real): (s: Swipe)
    ensures s == ShowPrevious <==> Abs(endX - startX) > Abs(endY - startY) && endX - startX > 50.0
    ensures s == ShowNext <==> Abs(endX - startX) > Abs(endY - startY) && endX - startX < -50.0
  {
    var dx, dy := endX - startX, endY - startY;
    if Abs(dx) > Abs(dy) then
      if dx > 50.0 then ShowPrevious
      else if dx < -50.0 then ShowNext
      else Stay
    else Stay
  }

  function Mirrored(s: Swipe): Swipe {
    match s
    case ShowPrevious => ShowNext
    case ShowNext => ShowPrevious
    case Stay => Stay
  }

  /** The rule is symmetric: the mirror image of a drag pages the other way. */
  lemma SwipeMirror(startX: real, startY: real, endX: real, endY: real)
    ensures SwipeAction(-startX, startY, -endX, endY) == Mirrored(SwipeAction(startX, startY, endX, endY))
  {
  }

  /** A vertical drag, or a short one, never pages. */
  lemma SwipeNeedsHorizontalDistance(startX: real, startY: real, endX: real, endY: real)
    requires Abs(endX - startX) <= 50.0 || Abs(endX - startX) <= Abs(endY - startY)
    ensures SwipeAction(startX, startY, endX, endY) == Stay
  {
  }
}
