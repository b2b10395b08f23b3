/** apps/api/app/copiers/konica_admin.py: reading a copier's accounts and counters
    through windows it refuses when they are too large. */
module KonicaAdmin {
  import opened Prelude

  const MAX_ACCOUNTS := 1000
  const PAGE_SIZE := 100
  const COUNTER_PAGE_SIZE := 50
  const EMPTY_PAGES_BEFORE_STOP := 2

  /** One request: `length` entries from the 1-based position `start`. */
  datatype Request = Request(start: nat, length: nat)

  /** The device's answer: what exists of the window. */
  function OffsetWindow<T>(accounts: seq<T>, r: Request): seq<T>
    requires r.start >= 1
  {
    accounts[Min(r.start - 1, |accounts|)..Min(r.start - 1 + r.length, |accounts|)]
  }

  /** `list_accounts`: every account up to the limit, once and in order, and never a
      window the device would refuse. */
  method ListAccounts<T>(device: seq<T>, limit: nat) returns (accounts: seq<T>, ghost requests: seq<Request>)
    ensures accounts == device[..Min(limit, |device|)]
    ensures forall i :: 0 <= i < |requests| ==>
              && 1 <= requests[i].start && 1 <= requests[i].length <= PAGE_SIZE
              && requests[i].start + requests[i].length - 1 <= limit
  {
    accounts, requests := [], [];
    var start: nat := 1;
    while start <= limit
      invariant 1 <= start <= limit + 1
      invariant |accounts| == start - 1 <= |device| && accounts == device[..start - 1]
      invariant forall i :: 0 <= i < |requests| ==>
                  && 1 <= requests[i].start && 1 <= requests[i].length <= PAGE_SIZE
                  && requests[i].start + requests[i].length - 1 <= limit
    {
      var length := Min(PAGE_SIZE, limit - start + 1);
      var rows := OffsetWindow(device, Request(start, length));
      requests := requests + [Request(start, length)];
      accounts := accounts + rows;
      assert accounts == device[..Min(start - 1 + length, |device|)];
      if |rows| < length {
        break;
      }
      start := start + length;
    }
  }

  // ---- Counters: windows over account numbers, which may be sparse ----

  predicate InWindow(number: int, start: int, end: int) {
    start <= number <= end
  }

  function NumberWindow(numbers: seq<int>, start: int, end: int): seq<int> {
    if numbers == [] then []
    else if InWindow(numbers[0], start, end) then [numbers[0]] + NumberWindow(numbers[1..], start, end)
    else NumberWindow(numbers[1..], start, end)
  }

  predicate Ascending(numbers: seq<int>) {
    forall i, j :: 0 <= i < j < |numbers| ==> numbers[i] < numbers[j]
  }

  lemma {:induction false} NumberWindowMembers(numbers: seq<int>, start: int, end: int)
    ensures forall n :: n in NumberWindow(numbers, start, end) <==> n in numbers && InWindow(n, start, end)
  {
    if numbers != [] {
      NumberWindowMembers(numbers[1..], start, end);
      assert numbers == [numbers[0]] + numbers[1..];
    }
  }

  lemma {:induction false} NothingBelow(numbers: seq<int>, start: int, end: int)
    requires forall i :: 0 <= i < |numbers| ==> numbers[i] > end
    ensures NumberWindow(numbers, start, end) == []
  {
    if numbers != [] {
      NothingBelow(numbers[1..], start, end);
    }
  }

  /** Reading two adjoining windows is reading them as one. */
  lemma {:induction false} WindowsAdjoin(numbers: seq<int>, start: int, middle: int, end: int)
    requires Ascending(numbers) && start <= middle + 1 && middle <= end
    ensures NumberWindow(numbers, start, end) == NumberWindow(numbers, start, middle) + NumberWindow(numbers, middle + 1, end)
  {
    if numbers != [] {
      WindowsAdjoin(numbers[1..], start, middle, end);
      if numbers[0] > middle {
        NothingBelow(numbers[1..], start, middle);
      }
    }
  }

  /** Where the `pages`-th window ends: windows are 50 wide, the last cut at the limit. */
  function EndOf(pages: nat, limit: nat): int {
    Min(COUNTER_PAGE_SIZE * pages, limit)
  }

  /** The `page`-th window, counting from 0, holds no account. */
  predicate IsEmpty(numbers: seq<int>, limit: nat, page: nat) {
    NumberWindow(numbers, EndOf(page, limit) + 1, EndOf(page + 1, limit)) == []
  }

  predicate TwoEmptyFrom(numbers: seq<int>, limit: nat, page: nat) {
    IsEmpty(numbers, limit, page) && IsEmpty(numbers, limit, page + 1)
  }

  /** How many windows in a row, up to the `pages`-th, held no account. */
  function EmptyRun(numbers: seq<int>, limit: nat, pages: nat): (n: nat)
    ensures n <= pages
  {
    if pages == 0 then 0
    else if IsEmpty(numbers, limit, pages - 1) then EmptyRun(numbers, limit, pages - 1) + 1
    else 0
  }

  /** How many windows are read in all by a read that has done `pages` of them. */
  function PagesRead(numbers: seq<int>, limit: nat, pages: nat): (all: nat)
    ensures pages <= all
    decreases limit - EndOf(pages, limit)
  {
    if EndOf(pages, limit) >= limit || EmptyRun(numbers, limit, pages) >= EMPTY_PAGES_BEFORE_STOP then pages
    else PagesRead(numbers, limit, pages + 1)
  }

  /** The last account number a read asks about. */
  function LastRead(numbers: seq<int>, limit: nat): int {
    EndOf(PagesRead(numbers, limit, 0), limit)
  }

  /** `list_account_counters`: every account numbered in the windows read, once each, and
      never a window the device would refuse. */
  method ListAccountCounters(numbers: seq<int>, limit: nat) returns (counters: seq<int>, ghost requests: seq<Request>)
    requires Ascending(numbers)
    ensures counters == NumberWindow(numbers, 1, LastRead(numbers, limit))
    ensures forall i :: 0 <= i < |requests| ==>
              && 1 <= requests[i].start && 1 <= requests[i].length <= COUNTER_PAGE_SIZE
              && requests[i].start + requests[i].length - 1 <= limit
  {
    counters, requests := [], [];
    var start: nat, emptyPages: nat := 1, 0;
    ghost var pages: nat := 0;
    NothingReadYet(numbers, limit);
    hide NumberWindow, IsEmpty, EmptyRun, Ascending;
    while start <= limit && emptyPages < EMPTY_PAGES_BEFORE_STOP
      invariant start == EndOf(pages, limit) + 1
      invariant counters == NumberWindow(numbers, 1, start - 1)
      invariant emptyPages == EmptyRun(numbers, limit, pages)
      invariant PagesRead(numbers, limit, pages) == PagesRead(numbers, limit, 0)
      invariant forall i :: 0 <= i < |requests| ==>
                  && 1 <= requests[i].start && 1 <= requests[i].length <= COUNTER_PAGE_SIZE
                  && requests[i].start + requests[i].length - 1 <= limit
      decreases limit + 1 - start
    {
      var end := Min(start + COUNTER_PAGE_SIZE - 1, limit);
      assert end == EndOf(pages + 1, limit);
      var rows := NumberWindow(numbers, start, end);
      requests := requests + [Request(start, end - start + 1)];
      OnePageMore(numbers, limit, pages, start, end);
      emptyPages := if rows == [] then emptyPages + 1 else 0;
      counters := counters + rows;
      start := end + 1;
      pages := pages + 1;
    }
  }

  /** A read goes on to the limit or through the first two empty windows in a row. */
  lemma {:induction false} ReadsThroughTheFirstTwoEmpty(numbers: seq<int>, limit: nat, done: nat)
    requires EndOf(done, limit) <= limit && EmptyRun(numbers, limit, done) <= 2
    requires forall page: nat :: page < done ==> EmptyRun(numbers, limit, page) < 2
    ensures var pages := PagesRead(numbers, limit, done);
            && (EndOf(pages, limit) == limit || (pages >= 2 && TwoEmptyFrom(numbers, limit, pages - 2)))
            && forall page: nat :: page + 2 < pages ==> !TwoEmptyFrom(numbers, limit, page)
    decreases limit - EndOf(done, limit)
  {
    hide IsEmpty, TwoEmptyFrom;
    if EndOf(done, limit) >= limit || EmptyRun(numbers, limit, done) >= 2 {
      forall page: nat | page + 2 <= done
        ensures TwoEmptyFrom(numbers, limit, page) <==> EmptyRun(numbers, limit, page + 2) >= 2
      {
        RunsOfTwo(numbers, limit, page);
      }
    } else {
      ReadsThroughTheFirstTwoEmpty(numbers, limit, done + 1);
    }
  }

  lemma OnePageMore(numbers: seq<int>, limit: nat, pages: nat, start: nat, end: nat)
    requires Ascending(numbers) && start == EndOf(pages, limit) + 1 && end == EndOf(pages + 1, limit)
    ensures NumberWindow(numbers, 1, end) == NumberWindow(numbers, 1, start - 1) + NumberWindow(numbers, start, end)
    ensures EmptyRun(numbers, limit, pages + 1)
            == if NumberWindow(numbers, start, end) == [] then EmptyRun(numbers, limit, pages) + 1 else 0
  {
    hide NumberWindow;
    WindowsAdjoin(numbers, 1, start - 1, end);
  }

  lemma RunsOfTwo(numbers: seq<int>, limit: nat, page: nat)
    ensures TwoEmptyFrom(numbers, limit, page) <==> EmptyRun(numbers, limit, page + 2) >= 2
  {
    assert EmptyRun(numbers, limit, page + 1) == if IsEmpty(numbers, limit, page) then EmptyRun(numbers, limit, page) + 1 else 0;
  }

  lemma {:induction false} NothingReadYet(numbers: seq<int>, limit: nat)
    ensures NumberWindow(numbers, 1, 0) == [] && EmptyRun(numbers, limit, 0) == 0
  {
    if numbers != [] {
      NothingReadYet(numbers[1..], limit);
    }
  }

  lemma EndsAscend(a: nat, b: nat, limit: nat)
    requires a <= b
    ensures EndOf(a, limit) <= EndOf(b, limit)
  {
  }

  ghost predicate NobodyIn(numbers: seq<int>, after: int, upTo: int) {
    forall i :: 0 <= i < |numbers| ==> !(after < numbers[i] <= upTo)
  }

  /** Nobody is numbered beyond a hundred numbers, from a multiple of fifty on, that nobody has. */
  ghost predicate NobodyAfterAHundred(numbers: seq<int>) {
    forall page: nat :: NobodyIn(numbers, 50 * page, 50 * page + 100) ==> AllUpTo(numbers, 50 * page + 100)
  }

  lemma EmptyMeansNobody(numbers: seq<int>, limit: nat, page: nat)
    requires forall i :: 0 <= i < |numbers| ==> numbers[i] <= limit
    ensures IsEmpty(numbers, limit, page) <==> NobodyIn(numbers, 50 * page, 50 * page + 50)
  {
    var start, end := EndOf(page, limit) + 1, EndOf(page + 1, limit);
    NumberWindowMembers(numbers, start, end);
    var window := NumberWindow(numbers, start, end);
    if window != [] {
      assert window[0] in window;
      var i :| 0 <= i < |numbers| && numbers[i] == window[0];
    }
    forall i | 0 <= i < |numbers| && 50 * page < numbers[i] <= 50 * page + 50
      ensures numbers[i] in window
    {
    }
  }

  lemma TwoEmptyMeansAHundred(numbers: seq<int>, limit: nat, page: nat)
    requires forall i :: 0 <= i < |numbers| ==> numbers[i] <= limit
    ensures TwoEmptyFrom(numbers, limit, page) <==> NobodyIn(numbers, 50 * page, 50 * page + 100)
    ensures AllUpTo(numbers, EndOf(page + 2, limit)) <==> AllUpTo(numbers, 50 * page + 100)
  {
    EmptyMeansNobody(numbers, limit, page);
    EmptyMeansNobody(numbers, limit, page + 1);
    hide IsEmpty;
  }

  ghost predicate AllUpTo(numbers: seq<int>, stop: int) {
    forall i :: 0 <= i < |numbers| ==> numbers[i] <= stop
  }

  /** A read is complete exactly then. */
  lemma NobodyIsMissed(numbers: seq<int>, limit: nat)
    requires Ascending(numbers) && forall i :: 0 <= i < |numbers| ==> 1 <= numbers[i] <= limit
    ensures NumberWindow(numbers, 1, LastRead(numbers, limit)) == numbers <==> NobodyAfterAHundred(numbers)
  {
    hide NumberWindow, TwoEmptyFrom, PagesRead, Ascending, NobodyAfterAHundred, AllUpTo, EndOf, EmptyRun, NobodyIn, IsEmpty;
    CompleteUpTo(numbers, limit, LastRead(numbers, limit));
    WholeRead(numbers, limit);
    StopsBeforeNobody(numbers, limit, PagesRead(numbers, limit, 0));
  }

  lemma WholeRead(numbers: seq<int>, limit: nat)
    ensures var pages := PagesRead(numbers, limit, 0);
            && (EndOf(pages, limit) == limit || (pages >= 2 && TwoEmptyFrom(numbers, limit, pages - 2)))
            && forall page: nat :: page + 2 < pages ==> !TwoEmptyFrom(numbers, limit, page)
  {
    ReadsThroughTheFirstTwoEmpty(numbers, limit, 0);
  }

  lemma StopsBeforeNobody(numbers: seq<int>, limit: nat, pages: nat)
    requires forall i :: 0 <= i < |numbers| ==> numbers[i] <= limit
    requires EndOf(pages, limit) == limit || (pages >= 2 && TwoEmptyFrom(numbers, limit, pages - 2))
    requires forall page: nat :: page + 2 < pages ==> !TwoEmptyFrom(numbers, limit, page)
    ensures NobodyAfterAHundred(numbers) <==> AllUpTo(numbers, EndOf(pages, limit))
  {
    hide TwoEmptyFrom, NobodyIn;
    if AllUpTo(numbers, EndOf(pages, limit)) {
      forall page: nat | NobodyIn(numbers, 50 * page, 50 * page + 100)
        ensures AllUpTo(numbers, 50 * page + 100)
      {
        TwoEmptyMeansAHundred(numbers, limit, page);
        EndsAscend(pages, page + 2, limit);
      }
    } else {
      var page: nat := pages - 2;
      TwoEmptyMeansAHundred(numbers, limit, page);
    }
  }

  lemma CompleteUpTo(numbers: seq<int>, limit: nat, stop: int)
    requires Ascending(numbers) && forall i :: 0 <= i < |numbers| ==> 1 <= numbers[i] <= limit
    ensures NumberWindow(numbers, 1, stop) == numbers <==> AllUpTo(numbers, stop)
  {
    NumberWindowMembers(numbers, 1, stop);
    if AllUpTo(numbers, stop) {
      WholeWindow(numbers, 1, stop);
    } else {
      var i :| 0 <= i < |numbers| && numbers[i] > stop;
      assert numbers[i] in numbers;
    }
  }

  lemma {:induction false} WholeWindow(numbers: seq<int>, start: int, end: int)
    requires forall i :: 0 <= i < |numbers| ==> start <= numbers[i] <= end
    ensures NumberWindow(numbers, start, end) == numbers
  {
    if numbers != [] {
      WholeWindow(numbers[1..], start, end);
    }
  }
}
