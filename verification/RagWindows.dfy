/** Overlapping windows over a page, for retrieval.

    A page is cut into windows of at most 3700 bytes that overlap by 500, so that every
    passage of up to 500 bytes lies whole inside one of them; a short tail is absorbed by the
    window before it. */
module RagWindows {
  import opened Prelude

  const CHUNK: nat := 3200
  const OVERLAP: nat := 500
  const STRIDE: nat := CHUNK - OVERLAP

  datatype Window = Window(page: nat, start: nat, length: nat)

  /** How much of the rest of a page a window takes. */
  function Take(remain: nat): nat {
    if remain < CHUNK then remain
    else if remain > CHUNK && remain - CHUNK <= OVERLAP then remain
    else CHUNK
  }

  /** The windows of a page from `start` on. */
  function PageWindows(page: nat, length: nat, start: nat): seq<Window>
    decreases length - start
  {
    if start >= length then []
    else
      var take := Take(length - start);
      [Window(page, start, take)] + if start + take >= length then [] else PageWindows(page, length, start + STRIDE)
  }

  /** The windows of the first `n` pages; a page of negative length has none. */
  function AllWindows(lengths: seq<int>, n: nat): seq<Window>
    requires n <= |lengths|
  {
    if n == 0 then [] else AllWindows(lengths, n - 1) + PageWindows(n - 1, PageLength(lengths[n - 1]), 0)
  }

  function PageLength(length: int): nat { if length > 0 then length else 0 }

  /** The two loops: every page that has text and is counted, window by window. */
  method BuildWindows(lengths: seq<int>, pages: int) returns (windows: seq<Window>)
    ensures var n := if pages < 0 then 0 else if pages < |lengths| then pages else |lengths|;
            windows == AllWindows(lengths, n)
  {
    windows := [];
    var page := 0;
    while page < pages && page < |lengths|
      invariant 0 <= page <= |lengths| && (page <= pages || page == 0)
      invariant windows == AllWindows(lengths, page)
    {
      var length := if lengths[page] > 0 then lengths[page] else 0;
      var start := 0;
      ghost var before := windows;
      ghost var goal := before + PageWindows(page, length, 0);
      while start < length
        invariant 0 <= start
        invariant windows + PageWindows(page, length, start) == goal
        decreases length - start
      {
        var remain := length - start;
        var take := if remain < CHUNK then remain else CHUNK;
        if remain > CHUNK && remain - CHUNK <= OVERLAP { take := remain; }
        var window := Window(page, start, take);
        ghost var rest := if start + take >= length then [] else PageWindows(page, length, start + STRIDE);
        Associate(windows, [window], rest);
        windows := windows + [window];
        if start + take >= length { start := length; } else { start := start + STRIDE; }
      }
      assert windows + [] == windows;
      page := page + 1;
    }
  }

  /** Every passage of up to 500 bytes of every counted page lies whole inside one window of
      that page. */
  lemma {:induction false} PassageOfAnyPage(lengths: seq<int>, n: nat, page: nat, from: nat, to: nat) returns (k: nat)
    requires page < n <= |lengths| && from < to <= lengths[page] && to - from <= OVERLAP
    ensures k < |AllWindows(lengths, n)|
    ensures var w := AllWindows(lengths, n)[k]; w.page == page && w.start <= from && to <= w.start + w.length <= lengths[page]
  {
    if page == n - 1 {
      k := PassageInOneWindow(page, PageLength(lengths[page]), 0, from, to);
      WindowsCoverPage(page, PageLength(lengths[page]), 0);
      k := k + |AllWindows(lengths, n - 1)|;
    } else {
      k := PassageOfAnyPage(lengths, n - 1, page, from, to);
    }
  }

  /** Every window lies in the text of one of the first `n` pages. */
  ghost predicate InPages(windows: seq<Window>, lengths: seq<int>, n: nat)
    requires n <= |lengths|
  {
    forall k :: 0 <= k < |windows| ==> windows[k].page < n && InPage(windows[k], windows[k].page, PageLength(lengths[windows[k].page]))
  }

  /** Windows come page by page, and within a page from its beginning on. */
  ghost predicate InOrder(windows: seq<Window>) {
    forall j, k :: 0 <= j < k < |windows| ==> Precedes(windows[j], windows[k])
  }

  predicate Precedes(w: Window, later: Window) {
    w.page < later.page || (w.page == later.page && w.start < later.start)
  }

  /** Every window lies in the text of a counted page, and windows come in page order. */
  lemma {:induction false} WindowsOfPages(lengths: seq<int>, n: nat)
    requires n <= |lengths|
    ensures InPages(AllWindows(lengths, n), lengths, n) && InOrder(AllWindows(lengths, n))
  {
    if n > 0 {
      WindowsOfPages(lengths, n - 1);
      var length := PageLength(lengths[n - 1]);
      var own := PageWindows(n - 1, length, 0);
      if length > 0 { WindowsCoverPage(n - 1, length, 0); StartsGrow(own, n - 1, length, 0); }
    }
  }

  lemma StartsGrow(windows: seq<Window>, page: nat, length: nat, start: nat)
    requires Chained(windows, page, length, start)
    ensures forall j, k :: 0 <= j < k < |windows| ==> windows[j].start < windows[k].start
  {
    StepByStep(windows, |windows| - 1);
  }

  lemma {:induction false} StepByStep(windows: seq<Window>, n: nat)
    requires n < |windows| && forall k :: 0 < k < |windows| ==> Linked(windows[k - 1], windows[k])
    ensures forall j, k :: 0 <= j < k <= n ==> windows[j].start < windows[k].start
  {
    if n > 0 {
      StepByStep(windows, n - 1);
      assert Linked(windows[n - 1], windows[n]);
    }
  }

  predicate InPage(w: Window, page: nat, length: nat) {
    w.page == page && 0 < w.length <= CHUNK + OVERLAP && w.start + w.length <= length
  }

  /** A window and the next: a full window that reaches 500 bytes into the next one. */
  predicate Linked(w: Window, next: Window) {
    w.length == CHUNK && next.start == w.start + STRIDE && next.length > 2 * OVERLAP
  }

  /** The windows of a page follow each other at the stride, overlap, and end with it. */
  ghost predicate Chained(windows: seq<Window>, page: nat, length: nat, start: nat) {
    && windows != [] && windows[0].start == start
    && (forall k :: 0 <= k < |windows| ==> InPage(windows[k], page, length))
    && (forall k :: 0 < k < |windows| ==> Linked(windows[k - 1], windows[k]))
    && windows[|windows| - 1].start + windows[|windows| - 1].length == length
  }

  /** Exact cover: windows start at 0, each but the last is 3200 bytes and reaches 500 bytes
      into the next, the last ends with the page, none is longer than 3700 bytes, and only a
      page's single window can be shorter than 1000. */
  lemma {:induction false} WindowsCoverPage(page: nat, length: nat, start: nat)
    requires start < length
    ensures Chained(PageWindows(page, length, start), page, length, start)
    decreases length - start
  {
    var take := Take(length - start);
    if start + take < length {
      WindowsCoverPage(page, length, start + STRIDE);
      var w, rest := Window(page, start, take), PageWindows(page, length, start + STRIDE);
      assert rest[0].length == Take(length - start - STRIDE);
      ChainGrows(w, rest, page, length);
    }
  }

  lemma ChainGrows(w: Window, rest: seq<Window>, page: nat, length: nat)
    requires Chained(rest, page, length, w.start + STRIDE) && InPage(w, page, length) && Linked(w, rest[0])
    ensures Chained([w] + rest, page, length, w.start)
  {
    var all := [w] + rest;
    forall k | 0 < k < |all| ensures Linked(all[k - 1], all[k]) {
      if k > 1 { assert Linked(rest[k - 2], rest[k - 1]); }
    }
  }

  /** Every passage of up to 500 bytes lies whole inside one window. */
  lemma {:induction false} PassageInOneWindow(page: nat, length: nat, start: nat, from: nat, to: nat) returns (k: nat)
    requires start <= from < to <= length && to - from <= OVERLAP
    ensures k < |PageWindows(page, length, start)|
    ensures var w := PageWindows(page, length, start)[k]; w.start <= from && to <= w.start + w.length
    decreases length - start
  {
    var take := Take(length - start);
    if to <= start + take {
      k := 0;
    } else {
      k := PassageInOneWindow(page, length, start + STRIDE, from, to);
      k := k + 1;
    }
  }

  /** Every byte of the page is in a window, and no window reaches beyond the page. */
  lemma EveryByteCovered(page: nat, length: nat, at: nat) returns (k: nat)
    requires at < length
    ensures k < |PageWindows(page, length, 0)|
    ensures var w := PageWindows(page, length, 0)[k]; w.start <= at < w.start + w.length <= length
  {
    k := PassageInOneWindow(page, length, 0, at, at + 1);
    WindowsCoverPage(page, length, 0);
  }
}
