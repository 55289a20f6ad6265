/** Filling one page of rows under a row limit and a byte budget. */
module Paging {
  import opened Options

  datatype Reason = NoReason | RowLimit | ByteLimit

  /**
   The rows from the offset on: how many are left, what the page costs once it holds n of them, and
   why row n cannot be read.
   */
  datatype Window<E> = Window(left: nat, limit: nat, budget: int, cost: nat -> int, fault: nat -> Option<E>)

  datatype Filled<E> = Page(rows: nat, reason: Reason) | Stopped(error: E) | TooLong

  /** The query fetches one row more than the limit. */
  function Fetched<E>(w: Window<E>): nat {
    if w.left <= w.limit + 1 then w.left else w.limit + 1
  }

  /** The page of a reader that already holds n rows. */
  function Fill<E>(w: Window<E>, n: nat): (f: Filled<E>)
    requires n <= Fetched(w)
    ensures f.Page? ==> n <= f.rows <= w.left
    decreases Fetched(w) - n
  {
    if n == Fetched(w) then Page(n, NoReason)
    else if n == w.limit then Page(n, RowLimit)
    else if w.fault(n).Some? then Stopped(w.fault(n).value)
    else if w.cost(n + 1) > w.budget then (if n == 0 then TooLong else Page(n, ByteLimit))
    else Fill(w, n + 1)
  }

  /** The first n rows can be read and are within the budget. */
  ghost predicate Fits<E>(w: Window<E>, n: nat) {
    w.cost(n) <= w.budget && forall k: nat :: k < n ==> w.fault(k).None?
  }

  function WhyFull<E>(w: Window<E>, n: nat): Reason {
    if n == w.left then NoReason else if n == w.limit then RowLimit else ByteLimit
  }

  /** A page of n rows fits, and no more rows are left, wanted or affordable. */
  ghost predicate Full<E>(w: Window<E>, n: nat) {
    && n <= w.left && n <= w.limit && Fits(w, n)
    && (n == w.left || n == w.limit || (n > 0 && w.fault(n).None? && !Fits(w, n + 1)))
  }

  /**
   A page is the longest run of rows within both limits, with the reason why it is not longer; reading
   fails only at an unreadable row that the page had room for, or at a first row over the budget.
   */
  ghost predicate Described<E>(w: Window<E>, f: Filled<E>) {
    match f
    case Page(n, reason) => Full(w, n) && reason == WhyFull(w, n)
    case Stopped(e) => exists n: nat :: n < w.left && n < w.limit && Fits(w, n) && w.fault(n) == Some(e)
    case TooLong => w.left > 0 && w.limit > 0 && w.fault(0).None? && !Fits(w, 1)
  }

  lemma {:induction false} FillIsLongest<E>(w: Window<E>, n: nat)
    requires n <= w.left && n <= w.limit && Fits(w, n)
    ensures Described(w, Fill(w, n))
    decreases w.left - n
  {
    if n < w.left && n < w.limit && w.fault(n).None? && w.cost(n + 1) <= w.budget {
      FillIsLongest(w, n + 1);
    }
  }

  /** A window whose header fits and whose rows can all be read never fails once its first row fits. */
  lemma FillSucceeds<E>(w: Window<E>)
    requires Fits(w, 0) && w.limit > 0
    requires forall k: nat :: k < w.left ==> w.fault(k).None?
    requires w.left > 0 ==> w.cost(1) <= w.budget
    ensures Fill(w, 0).Page?
  {
    FillIsLongest(w, 0);
  }
}
