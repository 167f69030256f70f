/** Splitting a character budget over the selected pages of a PDF.

    A page is cut only between UTF-8 characters.  In interactive mode the page bytes that
    reach the prompt never exceed the caller's `max_chars`; a selection that fits is kept
    verbatim; and an excerpt around a query hit contains the hit. */
module PageBudget {
  import opened Prelude
  import WireString

  const TEXT_MIN_CHARS := 24
  const TOTAL_CAP: nat := 160 * 1024
  const INTERACTIVE_CAP_MIN: nat := 8 * 1024
  const INTERACTIVE_CAP_MAX: nat := 64 * 1024
  const INTERACTIVE_MAX_PAGES: nat := 48
  const SEMANTIC_MAX_PAGES: nat := 6
  const QUOTA_FLOOR: nat := 32

  // ----- Cutting between characters -----

  predicate Continuation(page: bytes, i: nat) {
    i < |page| && 0x80 <= page[i] < 0xc0
  }

  /** A cut at `i` does not fall inside a character. */
  predicate Boundary(page: bytes, i: nat) {
    i == 0 || !Continuation(page, i)
  }

  ghost predicate FirstBoundaryFrom(page: bytes, pos: nat, start: nat) {
    pos <= start <= |page| && !Continuation(page, start) && forall i :: pos <= i < start ==> Continuation(page, i)
  }

  ghost predicate LastBoundaryTo(page: bytes, pos: nat, end: nat) {
    end <= pos && Boundary(page, end) && forall i :: end < i <= pos ==> Continuation(page, i)
  }

  method SafeStart(page: bytes, pos: nat) returns (start: nat)
    requires pos <= |page|
    ensures FirstBoundaryFrom(page, pos, start)
  {
    start := pos;
    while start < |page| && 0x80 <= page[start] < 0xc0
      invariant pos <= start <= |page|
      invariant forall i :: pos <= i < start ==> Continuation(page, i)
    {
      start := start + 1;
    }
  }

  /** The byte after the page is a separator, never a continuation byte. */
  method SafeEnd(page: bytes, pos: nat) returns (end: nat)
    requires pos <= |page|
    ensures LastBoundaryTo(page, pos, end)
  {
    end := pos;
    while end > 0 && end < |page| && 0x80 <= page[end] < 0xc0
      invariant 0 <= end <= pos
      invariant forall i :: end < i <= pos ==> Continuation(page, i)
    {
      end := end - 1;
    }
  }

  /** What is kept of a page. */
  datatype Excerpt =
    | Whole
    | Window(start: nat, end: nat)
    | HeadTail(head: nat, tail: nat)

  /** Both cut points lie in the page and between characters. */
  ghost predicate CleanCut(page: bytes, e: Excerpt) {
    match e
    case Whole => true
    case Window(start, end) => start <= end <= |page| && Boundary(page, start) && Boundary(page, end)
    case HeadTail(head, tail) => head <= |page| && tail <= |page| && Boundary(page, head) && Boundary(page, tail)
  }

  /** Page bytes kept. */
  function Size(page: bytes, e: Excerpt): int {
    match e
    case Whole => |page|
    case Window(start, end) => end - start
    case HeadTail(head, tail) => head + |page| - tail
  }

  /** The text sent for the page, with its elision marks. */
  function Render(page: bytes, e: Excerpt): bytes
    requires e.Window? ==> e.start <= e.end <= |page|
    requires e.HeadTail? ==> e.head <= |page| && e.tail <= |page|
  {
    match e
    case Whole => page
    case Window(start, end) =>
      (if start == 0 then [] else Ascii("[...]")) + page[start..end] + (if end == |page| then [] else Ascii("[...]"))
    case HeadTail(head, tail) => page[..head] + Ascii("\n[... excerpt ...]\n") + page[tail..]
  }

  function Room(quota: nat): nat {
    if quota < QUOTA_FLOOR then QUOTA_FLOOR else quota
  }

  /** Where a window of `room` bytes with a third of it before the hit starts. */
  function RawStart(length: nat, room: nat, matchAt: nat): nat
    requires room <= length
  {
    var start: nat := if matchAt > room / 3 then matchAt - room / 3 else 0;
    if start + room > length then length - room else start
  }

  function Min(a: nat, b: nat): nat { if a < b then a else b }

  /** The excerpt that a quota and a hit position call for. */
  ghost predicate Cut(page: bytes, quota: nat, matchAt: int, e: Excerpt)
    requires quota >= |page| || |page| >= TEXT_MIN_CHARS
    requires matchAt >= 0 && quota < |page| ==> |page| >= QUOTA_FLOOR
  {
    match e
    case Whole => quota >= |page|
    case Window(start, end) =>
      && quota < |page| && matchAt >= 0
      && FirstBoundaryFrom(page, RawStart(|page|, Room(quota), matchAt), start)
      && LastBoundaryTo(page, Min(start + Room(quota), |page|), end)
    case HeadTail(head, tail) =>
      && quota < |page| && matchAt < 0
      && LastBoundaryTo(page, Room(quota) * 2 / 3, head)
      && FirstBoundaryFrom(page, |page| - (Room(quota) - Room(quota) * 2 / 3), tail)
  }

  /** All of a page that fits the quota, a window around `matchAt`, or head and tail.  The
      planner only asks for pages with a text layer, and for a window only of a page that
      exceeds the quota floor. */
  method CutPage(page: bytes, quota: nat, matchAt: int) returns (e: Excerpt)
    requires quota >= |page| || |page| >= TEXT_MIN_CHARS
    requires matchAt >= 0 && quota < |page| ==> |page| >= QUOTA_FLOOR
    ensures Cut(page, quota, matchAt, e)
  {
    if quota >= |page| { return Whole; }
    var room := if quota < QUOTA_FLOOR then QUOTA_FLOOR else quota;
    if matchAt >= 0 {
      var before := room / 3;
      var start := if matchAt > before then matchAt - before else 0;
      if start + room > |page| { start := |page| - room; }
      start := SafeStart(page, start);
      var end := if start + room < |page| then start + room else |page|;
      end := SafeEnd(page, end);
      return Window(start, end);
    }
    var head := room * 2 / 3;
    var tail := room - head;
    head := SafeEnd(page, head);
    var tailStart := SafeStart(page, |page| - tail);
    return HeadTail(head, tailStart);
  }

  /** An excerpt is cut between characters and, above the floor, never exceeds its quota. */
  lemma CutIsClean(page: bytes, quota: nat, matchAt: int, e: Excerpt)
    requires quota >= |page| || |page| >= TEXT_MIN_CHARS
    requires matchAt >= 0 && quota < |page| ==> |page| >= QUOTA_FLOOR
    requires Cut(page, quota, matchAt, e)
    ensures CleanCut(page, e)
    ensures 0 <= Size(page, e) <= if quota >= |page| then |page| else Room(quota)
    ensures |page| >= QUOTA_FLOOR && e.HeadTail? ==> e.head <= e.tail
  {
    if e.Window? {
      // The start is itself a boundary, so the end cannot retreat past it.
      assert !Continuation(page, e.start);
    }
  }

  /** Head and tail of a page without a hit: two thirds of the room for the head, a third for
      the tail, each cut back by less than a character. */
  lemma HeadIsTwoThirds(page: bytes, quota: nat, e: Excerpt)
    requires WireString.WellFormed(page) && quota < |page| && |page| >= TEXT_MIN_CHARS
    requires Cut(page, quota, -1, e) && Room(quota) <= |page|
    ensures e.HeadTail?
    ensures 3 * e.head <= 2 * Room(quota) < 3 * (e.head + 4)
    ensures 3 * (|page| - e.tail) < Room(quota) + 3 && Room(quota) <= 3 * (|page| - e.tail + 3)
  {
    var room := Room(quota);
    EndMovesLittle(page, room * 2 / 3, e.head);
    StartMovesLittle(page, |page| - (room - room * 2 / 3), e.tail);
  }

  // ----- Cuts of well-formed text -----

  /** In UTF-8 text a boundary is a character boundary: both sides are UTF-8 text. */
  lemma {:induction false} SplitWellFormed(s: bytes, i: nat)
    requires WireString.WellFormed(s) && i <= |s| && Boundary(s, i)
    ensures WireString.WellFormed(s[..i]) && WireString.WellFormed(s[i..])
    decreases |s|
  {
    if i == 0 {
      assert s[0..] == s;
    } else {
      var n := WireString.SequenceLength(s[0]);
      FirstSequence(s);
      if i >= n {
        assert Boundary(s[n..], i - n);
        SplitWellFormed(s[n..], i - n);
        CutTwice(s, n, i);
        WireString.SamePrefixWellFormed(s[..i], s, n);
      }
    }
  }

  /** The first character: its lead byte starts it and only its tail continues. */
  lemma FirstSequence(s: bytes)
    requires WireString.WellFormed(s) && s != []
    ensures var n := WireString.SequenceLength(s[0]);
            1 <= n <= 4 && n <= |s| && !Continuation(s, 0) && (forall i :: 1 <= i < n ==> Continuation(s, i))
            && (n < |s| ==> !Continuation(s, n)) && WireString.WellFormed(s[n..])
  {
    var n := WireString.SequenceLength(s[0]);
    TailContinues(s);
    if n < |s| {
      LeadStarts(s[n..]);
      assert s[n..][0] == s[n];
    }
  }

  lemma LeadStarts(s: bytes)
    requires WireString.WellFormed(s) && s != []
    ensures !Continuation(s, 0) && 1 <= WireString.SequenceLength(s[0]) <= |s|
  {
  }

  lemma TailContinues(s: bytes)
    requires WireString.WellFormed(s) && s != []
    ensures var n := WireString.SequenceLength(s[0]);
            1 <= n <= 4 && n <= |s| && !Continuation(s, 0) && WireString.WellFormed(s[n..])
            && forall i :: 1 <= i < n ==> Continuation(s, i)
  {
    LeadStarts(s);
  }

  /** A start moves forward, and an end back, by at most three bytes. */
  lemma {:induction false} StartMovesLittle(s: bytes, pos: nat, start: nat)
    requires WireString.WellFormed(s) && FirstBoundaryFrom(s, pos, start)
    ensures start <= pos + 3
    decreases |s|
  {
    if s != [] {
      var n := WireString.SequenceLength(s[0]);
      FirstSequence(s);
      if pos >= n {
        forall i | pos - n <= i < start - n ensures Continuation(s[n..], i) { assert Continuation(s, i + n); }
        StartMovesLittle(s[n..], pos - n, start - n);
      }
    }
  }

  lemma {:induction false} EndMovesLittle(s: bytes, pos: nat, end: nat)
    requires WireString.WellFormed(s) && pos <= |s| && LastBoundaryTo(s, pos, end)
    ensures pos <= end + 3
    decreases |s|
  {
    if s != [] {
      var n := WireString.SequenceLength(s[0]);
      FirstSequence(s);
      if pos >= n {
        assert end < n ==> Continuation(s, n);
        forall i | end - n < i <= pos - n ensures Continuation(s[n..], i) { assert Continuation(s, i + n); }
        assert Boundary(s[n..], end - n);
        EndMovesLittle(s[n..], pos - n, end - n);
      }
    }
  }

  /** The excerpt around a hit contains the hit. */
  lemma WindowContainsMatch(page: bytes, quota: nat, matchAt: nat, e: Excerpt)
    requires WireString.WellFormed(page)
    requires matchAt < |page| && (quota < |page| ==> |page| >= QUOTA_FLOOR)
    requires quota >= |page| || |page| >= TEXT_MIN_CHARS
    requires Cut(page, quota, matchAt, e)
    ensures e.Whole? || (e.Window? && e.start <= matchAt < e.end)
  {
    if e.Window? {
      var room := Room(quota);
      var raw := RawStart(|page|, room, matchAt);
      StartMovesLittle(page, raw, e.start);
      if raw == 0 { FirstSequence(page); }
      EndMovesLittle(page, Min(e.start + room, |page|), e.end);
      assert e.start + room >= |page| ==> e.end == |page| by {
        assert !Continuation(page, |page|);
      }
    }
  }

  /** Every kept piece of a UTF-8 page is UTF-8 text. */
  lemma KeptTextIsWellFormed(page: bytes, e: Excerpt)
    requires WireString.WellFormed(page) && CleanCut(page, e)
    ensures e.Window? ==> WireString.WellFormed(page[e.start..e.end])
    ensures e.HeadTail? ==> WireString.WellFormed(page[..e.head]) && WireString.WellFormed(page[e.tail..])
  {
    match e
    case Whole =>
    case Window(start, end) =>
      SplitWellFormed(page, end);
      assert Boundary(page[..end], start);
      SplitWellFormed(page[..end], start);
      assert page[..end][start..] == page[start..end];
    case HeadTail(head, tail) =>
      SplitWellFormed(page, head);
      SplitWellFormed(page, tail);
  }

  // ----- The budget -----

  const INT_MIN := -0x8000_0000
  const INT_MAX := 0x7fff_ffff

  /** One page of the requested range.  A page without a usable text layer has few visible
      bytes; `score` is None where the C code stores INT_MIN. */
  datatype Page = Page(text: bytes, visible: nat, selected: bool, score: Option<int>, matchAt: int)

  predicate Readable(p: Page) { p.selected && p.visible >= TEXT_MIN_CHARS }

  predicate Scored(p: Page) { p.selected && p.score.Some? }

  /** Text bytes of the readable pages among the first `n`. */
  function TextBytes(pages: seq<Page>, n: nat): nat
    requires n <= |pages|
  {
    if n == 0 then 0 else TextBytes(pages, n - 1) + if Readable(pages[n - 1]) then |pages[n - 1].text| else 0
  }

  /** The readable pages among the first `n`, in order. */
  function Readables(pages: seq<Page>, n: nat): (list: seq<nat>)
    requires n <= |pages|
    ensures forall k :: 0 <= k < |list| ==> list[k] < n && Readable(pages[list[k]])
    ensures forall j, k :: 0 <= j < k < |list| ==> list[j] < list[k]
  {
    if n == 0 then [] else Readables(pages, n - 1) + if Readable(pages[n - 1]) then [n - 1] else []
  }

  /** A request: interactive reads are an overview or a semantic read; the others take the
      whole range up to a fixed cap. */
  datatype Job = Job(pages: seq<Page>, semantic: bool, interactive: bool, cap: nat)

  ghost predicate PageOk(p: Page, semantic: bool) {
    && p.visible <= |p.text|
    && (Readable(p) ==> p.matchAt < |p.text|)
    && (!semantic ==> p.matchAt < 0)
    && (p.score.Some? ==> INT_MIN < p.score.value <= INT_MAX)
  }

  /** What page selection and request checking hand over: an interactive overview has at
      most one page per 512 bytes of budget, a semantic read at most six pages. */
  ghost predicate JobOk(job: Job) {
    && (forall i :: 0 <= i < |job.pages| ==> PageOk(job.pages[i], job.semantic))
    && (job.semantic ==> job.interactive)
    && (if job.interactive
        then INTERACTIVE_CAP_MIN <= job.cap <= INTERACTIVE_CAP_MAX
             && (Fits(job) || |Readables(job.pages, |job.pages|)| <= PageLimit(job))
        else job.cap == TOTAL_CAP)
  }

  function PageLimit(job: Job): nat {
    if job.semantic then SEMANTIC_MAX_PAGES else Min(job.cap / 512, INTERACTIVE_MAX_PAGES)
  }

  predicate Fits(job: Job) { TextBytes(job.pages, |job.pages|) <= job.cap }

  /** The lowest and highest score of a selected page. */
  ghost predicate ScoreBounds(pages: seq<Page>, lo: int, hi: int) {
    && (forall i :: 0 <= i < |pages| && Scored(pages[i]) ==> lo <= pages[i].score.value <= hi)
    && ((exists i :: 0 <= i < |pages| && Scored(pages[i])) ==>
          (exists i :: 0 <= i < |pages| && Scored(pages[i]) && pages[i].score.value == lo)
          && (exists i :: 0 <= i < |pages| && Scored(pages[i]) && pages[i].score.value == hi))
  }

  method FindScoreBounds(pages: seq<Page>) returns (lo: int, hi: int)
    requires forall i :: 0 <= i < |pages| && Scored(pages[i]) ==> INT_MIN < pages[i].score.value <= INT_MAX
    ensures ScoreBounds(pages, lo, hi)
  {
    lo, hi := INT_MAX, INT_MIN;
    for i := 0 to |pages|
      invariant forall j :: 0 <= j < i && Scored(pages[j]) ==> lo <= pages[j].score.value <= hi
      invariant forall j :: 0 <= j < i && Scored(pages[j]) ==>
                  (exists k :: 0 <= k < i && Scored(pages[k]) && pages[k].score.value == lo)
                  && (exists k :: 0 <= k < i && Scored(pages[k]) && pages[k].score.value == hi)
      invariant lo <= INT_MAX && hi >= INT_MIN
      invariant lo == INT_MAX || exists k :: 0 <= k < i && Scored(pages[k]) && pages[k].score.value == lo
      invariant hi == INT_MIN || exists k :: 0 <= k < i && Scored(pages[k]) && pages[k].score.value == hi
    {
      if Scored(pages[i]) {
        if pages[i].score.value < lo { lo := pages[i].score.value; }
        if pages[i].score.value > hi { hi := pages[i].score.value; }
      }
    }
  }

  /** A page's weight: a semantic hit counts 3 to 6 by its score, a neighbour page 1; in an
      overview the first page counts 6, the second and the last 2. */
  function Weight(job: Job, lo: int, hi: int, i: nat): int
    requires i < |job.pages|
  {
    var p := job.pages[i];
    if job.semantic then
      if p.score.None? then 1 else 3 + if hi > lo then 3 * (p.score.value - lo) / (hi - lo) else 0
    else if i == 0 then 6
    else if i == 1 || i == |job.pages| - 1 then 2
    else 1
  }

  function TotalWeight(job: Job, lo: int, hi: int, n: nat): int
    requires n <= |job.pages|
  {
    if n == 0 then 0 else TotalWeight(job, lo, hi, n - 1) + if Readable(job.pages[n - 1]) then Weight(job, lo, hi, n - 1) else 0
  }

  /** What a page weighs.  A hit weighs 3 and as many thirds of the span between the weakest and
      the best score as it lies above the weakest, rounded down; a page without a hit 1.  In an
      overview the first page weighs 6, the second and the last 2, any other 1. */
  lemma WeightMeaning(job: Job, lo: int, hi: int, i: nat)
    requires i < |job.pages| && ScoreBounds(job.pages, lo, hi) && job.pages[i].selected
    ensures var w := Weight(job, lo, hi, i);
            if job.semantic then
              match job.pages[i].score
              case None => w == 1
              case Some(s) => if hi > lo then (w - 3) * (hi - lo) <= 3 * (s - lo) < (w - 2) * (hi - lo) else w == 3
            else w == if i == 0 then 6 else if i == 1 || i + 1 == |job.pages| then 2 else 1
  {
    var p := job.pages[i];
    if job.semantic && p.score.Some? && hi > lo {
      RoundedDown(3 * (p.score.value - lo), hi - lo);
    }
  }

  lemma RoundedDown(x: int, d: int)
    requires 0 < d
    ensures x / d * d <= x < (x / d + 1) * d
  {
    assert x == x / d * d + x % d;
    assert (x / d + 1) * d == x / d * d + d;
  }

  /** A weight is 1 to 6; the best of several hits weighs twice the weakest. */
  lemma WeightBounds(job: Job, lo: int, hi: int, i: nat)
    requires i < |job.pages| && ScoreBounds(job.pages, lo, hi) && job.pages[i].selected
    ensures 1 <= Weight(job, lo, hi, i) <= 6
    ensures job.semantic && job.pages[i].score == Some(hi) && hi > lo ==> Weight(job, lo, hi, i) == 6
    ensures job.semantic && job.pages[i].score == Some(lo) ==> Weight(job, lo, hi, i) == 3
  {
    var p := job.pages[i];
    if job.semantic && p.score.Some? && hi > lo {
      Thirds(p.score.value - lo, hi - lo);
    }
  }

  lemma Thirds(x: int, d: int)
    requires 0 <= x <= d && 0 < d
    ensures 0 <= 3 * x / d <= 3
    ensures x == d ==> 3 * x / d == 3
  {
    var q := 3 * x / d;
    assert 3 * x == q * d + 3 * x % d;
    if q >= 4 { TimesGrows(4, q, d); }
    if q < 0 { TimesGrows(q, -1, d); }
    if q <= 2 { TimesGrows(q, 2, d); }
  }

  lemma TimesGrows(a: int, b: int, d: int)
    requires a <= b && 0 < d
    ensures a * d <= b * d
  {
    assert b * d - a * d == (b - a) * d;
  }

  /** The total weight is at most the page count plus seven, or six per hit. */
  lemma {:induction false} TotalWeightBounds(job: Job, lo: int, hi: int, n: nat)
    requires n <= |job.pages| && ScoreBounds(job.pages, lo, hi)
    ensures TotalWeight(job, lo, hi, n) >= |Readables(job.pages, n)|
    ensures job.semantic ==> TotalWeight(job, lo, hi, n) <= 6 * |Readables(job.pages, n)|
    ensures !job.semantic ==>
              TotalWeight(job, lo, hi, n) <= |Readables(job.pages, n)| + (if n > 0 then 5 else 0)
                                             + (if n > 1 then 1 else 0) + (if n == |job.pages| then 1 else 0)
  {
    if n > 0 {
      TotalWeightBounds(job, lo, hi, n - 1);
      if Readable(job.pages[n - 1]) { WeightBounds(job, lo, hi, n - 1); }
    }
  }

  /** An exact description of `cap * weight / total`. */
  predicate FairShare(cap: nat, weight: int, total: int, share: nat) {
    share * total <= cap * weight < (share + 1) * total
  }

  lemma FairShareIsDivision(cap: nat, weight: nat, total: nat, share: nat)
    requires total > 0 && FairShare(cap, weight, total, share)
    ensures share == cap * weight / total
  {
    var x := cap * weight;
    RoundedDown(x, total);
    if share < x / total { TimesGrows(share + 1, x / total, total); }
    if share > x / total { TimesGrows(x / total + 1, share, total); }
  }

  /** The 32-byte floor never binds: 32 bytes per unit of weight fit in the budget. */
  lemma FloorNeverBinds(job: Job, lo: int, hi: int)
    requires JobOk(job) && job.interactive && !Fits(job) && ScoreBounds(job.pages, lo, hi)
    ensures var total := TotalWeight(job, lo, hi, |job.pages|);
            0 < total && QUOTA_FLOOR * total <= job.cap
  {
    var n := |Readables(job.pages, |job.pages|)|;
    TotalWeightBounds(job, lo, hi, |job.pages|);
    if n == 0 { NoTextWithoutPages(job.pages, |job.pages|); }
  }

  lemma {:induction false} NoTextWithoutPages(pages: seq<Page>, n: nat)
    requires n <= |pages|
    ensures Readables(pages, n) == [] ==> TextBytes(pages, n) == 0
  {
    if n > 0 { NoTextWithoutPages(pages, n - 1); }
  }

  lemma ShareClearsFloor(x: int, total: int, share: int)
    requires 0 < total && QUOTA_FLOOR * total <= x < (share + 1) * total
    ensures share >= QUOTA_FLOOR
  {
    assert share + 1 <= QUOTA_FLOOR ==> (share + 1) * total <= QUOTA_FLOOR * total;
  }

  lemma AtLeastOneShare(cap: nat, weight: int)
    requires 1 <= weight
    ensures cap <= cap * weight
  {
    assert cap * weight == cap + cap * (weight - 1);
  }

  lemma DivisionIsFair(x: nat, total: int)
    requires 0 < total
    ensures 0 <= x / total && (x / total) * total <= x < (x / total + 1) * total
  {
    assert x == (x / total) * total + x % total;
    assert (x / total + 1) * total == (x / total) * total + total;
  }

  method Share(cap: nat, weight: int, total: int) returns (share: nat)
    requires 1 <= weight && 0 < total && QUOTA_FLOOR * total <= cap
    ensures FairShare(cap, weight, total, share) && share >= QUOTA_FLOOR
  {
    AtLeastOneShare(cap, weight);
    var due := cap * weight;
    DivisionIsFair(due, total);
    share := due / total;
    ShareClearsFloor(due, total, share);
  }

  /** `used` is no more than the part of `cap` due to `weight` out of `total`. */
  predicate InShare(used: nat, total: int, cap: nat, weight: int) {
    used * total <= cap * weight
  }

  lemma WholeShare(used: nat, total: int, cap: nat)
    requires 0 < total && InShare(used, total, cap, total)
    ensures used <= cap
  {
    assert used > cap ==> used * total >= (cap + 1) * total;
  }

  /** What is sent of one page. */
  datatype Part = Part(page: nat, quota: nat, excerpt: Excerpt)

  function MatchOf(job: Job, i: nat): int
    requires i < |job.pages|
  {
    if !job.semantic && i == 0 && job.pages[i].matchAt < 0 then 0 else job.pages[i].matchAt
  }

  function PagesOf(parts: seq<Part>): (list: seq<nat>)
    ensures |list| == |parts| && forall k :: 0 <= k < |parts| ==> list[k] == parts[k].page
  {
    seq(|parts|, k requires 0 <= k < |parts| => parts[k].page)
  }

  function Emitted(job: Job, parts: seq<Part>): int
    requires forall p :: p in parts ==> p.page < |job.pages|
  {
    if parts == [] then 0
    else Emitted(job, parts[..|parts| - 1]) + Size(job.pages[parts[|parts| - 1].page].text, parts[|parts| - 1].excerpt)
  }

  ghost predicate PartOk(job: Job, p: Part) {
    && p.page < |job.pages| && Readable(job.pages[p.page])
    && p.quota <= |job.pages[p.page].text| && TEXT_MIN_CHARS <= |job.pages[p.page].text|
    && (MatchOf(job, p.page) >= 0 && p.quota < |job.pages[p.page].text| ==> |job.pages[p.page].text| >= QUOTA_FLOOR)
    && Cut(job.pages[p.page].text, p.quota, MatchOf(job, p.page), p.excerpt)
  }

  /** The page's quota is its exact share of the budget, or the whole page if that is less. */
  ghost predicate ShareOk(job: Job, lo: int, hi: int, p: Part)
    requires p.page < |job.pages|
  {
    exists share: nat ::
      && FairShare(job.cap, Weight(job, lo, hi, p.page), TotalWeight(job, lo, hi, |job.pages|), share)
      && QUOTA_FLOOR <= share && p.quota == Min(share, |job.pages[p.page].text|)
  }

  ghost predicate Sharing(job: Job) { job.interactive && !Fits(job) }

  /** The plan for the first `n` pages. */
  ghost predicate Progress(job: Job, lo: int, hi: int, n: nat, parts: seq<Part>, skipped: nat, textBytes: nat) {
    && n <= |job.pages|
    && |parts| + skipped == |Readables(job.pages, n)|
    && PagesOf(parts) == Readables(job.pages, n)[..|parts|]
    && (forall p :: p in parts ==> PartOk(job, p))
    && (if Sharing(job) then
          && skipped == 0
          && (forall p :: p in parts ==> ShareOk(job, lo, hi, p))
          && InShare(textBytes, TotalWeight(job, lo, hi, |job.pages|), job.cap, TotalWeight(job, lo, hi, n))
          && Emitted(job, parts) <= textBytes
        else
          && textBytes == Min(job.cap, TextBytes(job.pages, n))
          && (skipped > 0 ==> textBytes == job.cap && TextBytes(job.pages, n) > job.cap)
          && (TextBytes(job.pages, n) <= job.cap ==>
                Emitted(job, parts) == textBytes && forall p :: p in parts ==> p.excerpt.Whole?)
          && Emitted(job, parts) < textBytes + QUOTA_FLOOR)
  }

  lemma EmittedStep(job: Job, parts: seq<Part>, p: Part)
    requires forall q :: q in parts + [p] ==> q.page < |job.pages|
    ensures Emitted(job, parts + [p]) == Emitted(job, parts) + Size(job.pages[p.page].text, p.excerpt)
    ensures PagesOf(parts + [p]) == PagesOf(parts) + [p.page]
  {
    assert (parts + [p])[..|parts|] == parts;
  }

  lemma StepShare(job: Job, lo: int, hi: int, n: nat, parts: seq<Part>, textBytes: nat, p: Part, share: nat)
    requires JobOk(job) && ScoreBounds(job.pages, lo, hi) && Sharing(job)
    requires n < |job.pages| && Readable(job.pages[n]) && Progress(job, lo, hi, n, parts, 0, textBytes)
    requires p.page == n && PartOk(job, p)
    requires FairShare(job.cap, Weight(job, lo, hi, n), TotalWeight(job, lo, hi, |job.pages|), share)
    requires QUOTA_FLOOR <= share && p.quota == Min(share, |job.pages[n].text|)
    ensures Progress(job, lo, hi, n + 1, parts + [p], 0, textBytes + p.quota)
  {
    var total := TotalWeight(job, lo, hi, |job.pages|);
    FloorNeverBinds(job, lo, hi);
    EmittedStep(job, parts, p);
    CutIsClean(job.pages[n].text, p.quota, MatchOf(job, n), p.excerpt);
    assert ShareOk(job, lo, hi, p);
    ShareStep(job.cap, total, TotalWeight(job, lo, hi, n), Weight(job, lo, hi, n), textBytes, p.quota, share);
  }

  /** The shares of a budget add up to no more than the budget. */
  lemma ShareStep(cap: nat, total: int, before: int, weight: int, textBytes: nat, quota: nat, share: nat)
    requires 0 < total && FairShare(cap, weight, total, share) && quota <= share
    requires InShare(textBytes, total, cap, before)
    ensures InShare(textBytes + quota, total, cap, before + weight)
  {
    assert quota * total <= share * total;
    assert cap * (before + weight) == cap * before + cap * weight;
    assert (textBytes + quota) * total == textBytes * total + quota * total;
  }

  lemma StepVerbatim(job: Job, lo: int, hi: int, n: nat, parts: seq<Part>, textBytes: nat, p: Part)
    requires JobOk(job) && !Sharing(job)
    requires n < |job.pages| && Readable(job.pages[n]) && Progress(job, lo, hi, n, parts, 0, textBytes)
    requires textBytes < job.cap
    requires p.page == n && PartOk(job, p) && p.quota == Min(|job.pages[n].text|, job.cap - textBytes)
    ensures Progress(job, lo, hi, n + 1, parts + [p], 0, textBytes + p.quota)
  {
    EmittedStep(job, parts, p);
    CutIsClean(job.pages[n].text, p.quota, MatchOf(job, n), p.excerpt);
  }

  lemma StepSkip(job: Job, lo: int, hi: int, n: nat, parts: seq<Part>, skipped: nat, textBytes: nat)
    requires JobOk(job) && !Sharing(job)
    requires n < |job.pages| && Readable(job.pages[n]) && Progress(job, lo, hi, n, parts, skipped, textBytes)
    requires textBytes >= job.cap
    ensures Progress(job, lo, hi, n + 1, parts, skipped + 1, textBytes)
  {
  }

  method SumWeights(job: Job, lo: int, hi: int) returns (total: int)
    ensures total == TotalWeight(job, lo, hi, |job.pages|)
  {
    total := 0;
    for i := 0 to |job.pages|
      invariant total == TotalWeight(job, lo, hi, i)
    {
      if Readable(job.pages[i]) { total := total + Weight(job, lo, hi, i); }
    }
  }

  method SumText(pages: seq<Page>) returns (total: nat)
    ensures total == TextBytes(pages, |pages|)
  {
    total := 0;
    for i := 0 to |pages|
      invariant total == TextBytes(pages, i)
    {
      if Readable(pages[i]) { total := total + |pages[i].text|; }
    }
  }

  lemma StepUnread(job: Job, lo: int, hi: int, n: nat, parts: seq<Part>, skipped: nat, textBytes: nat)
    requires n < |job.pages| && !Readable(job.pages[n]) && Progress(job, lo, hi, n, parts, skipped, textBytes)
    ensures Progress(job, lo, hi, n + 1, parts, skipped, textBytes)
  {
  }

  /** One page under weighted shares. */
  method TakeShare(job: Job, lo: int, hi: int, total: int, n: nat, ghost parts: seq<Part>, ghost textBytes: nat)
    returns (p: Part)
    requires JobOk(job) && ScoreBounds(job.pages, lo, hi) && Sharing(job)
    requires total == TotalWeight(job, lo, hi, |job.pages|)
    requires n < |job.pages| && Readable(job.pages[n]) && Progress(job, lo, hi, n, parts, 0, textBytes)
    ensures Progress(job, lo, hi, n + 1, parts + [p], 0, textBytes + p.quota)
  {
    var page := job.pages[n].text;
    WeightBounds(job, lo, hi, n);
    FloorNeverBinds(job, lo, hi);
    var take := Share(job.cap, Weight(job, lo, hi, n), total);
    ghost var share := take;
    if take < QUOTA_FLOOR { take := QUOTA_FLOOR; }
    if take > |page| { take := |page|; }
    var e := CutPage(page, take, MatchOf(job, n));
    p := Part(n, take, e);
    StepShare(job, lo, hi, n, parts, textBytes, p, share);
  }

  /** One page that may use all that is left of the cap. */
  method TakeRest(job: Job, lo: int, hi: int, n: nat, ghost parts: seq<Part>, textBytes: nat) returns (p: Part)
    requires JobOk(job) && !Sharing(job)
    requires n < |job.pages| && Readable(job.pages[n]) && Progress(job, lo, hi, n, parts, 0, textBytes)
    requires textBytes < job.cap
    ensures Progress(job, lo, hi, n + 1, parts + [p], 0, textBytes + p.quota)
  {
    var page := job.pages[n].text;
    var take := if textBytes + |page| > job.cap then job.cap - textBytes else |page|;
    FittingPrefix(job.pages, n + 1, |job.pages|);
    var e := CutPage(page, take, MatchOf(job, n));
    p := Part(n, take, e);
    StepVerbatim(job, lo, hi, n, parts, textBytes, p);
  }

  lemma {:induction false} FittingPrefix(pages: seq<Page>, m: nat, n: nat)
    requires m <= n <= |pages|
    ensures TextBytes(pages, m) <= TextBytes(pages, n)
  {
    if m < n { FittingPrefix(pages, m, n - 1); }
  }

  lemma NothingPlanned(job: Job, lo: int, hi: int)
    requires JobOk(job) && ScoreBounds(job.pages, lo, hi)
    ensures Progress(job, lo, hi, 0, [], 0, 0)
    ensures Sharing(job) ==> TotalWeight(job, lo, hi, |job.pages|) > 0
  {
    if Sharing(job) { FloorNeverBinds(job, lo, hi); }
  }

  /** One turn of the budget loop. */
  method TakePage(job: Job, lo: int, hi: int, total: int, shares: bool, i: nat, before: seq<Part>, passed: nat, used: nat)
    returns (parts: seq<Part>, skipped: nat, textBytes: nat)
    requires JobOk(job) && ScoreBounds(job.pages, lo, hi) && i < |job.pages|
    requires total == TotalWeight(job, lo, hi, |job.pages|) && (shares <==> Sharing(job))
    requires Progress(job, lo, hi, i, before, passed, used)
    ensures Progress(job, lo, hi, i + 1, parts, skipped, textBytes)
  {
    parts, skipped, textBytes := before, passed, used;
    if !Readable(job.pages[i]) {
      StepUnread(job, lo, hi, i, parts, skipped, textBytes);
    } else if shares {
      var p := TakeShare(job, lo, hi, total, i, parts, textBytes);
      parts, textBytes := parts + [p], textBytes + p.quota;
    } else if textBytes >= job.cap {
      StepSkip(job, lo, hi, i, parts, skipped, textBytes);
      skipped := skipped + 1;
    } else {
      var p := TakeRest(job, lo, hi, i, parts, textBytes);
      parts, textBytes := parts + [p], textBytes + p.quota;
    }
  }

  /** The reading plan: which pages, how many bytes of each, cut where. */
  method Plan(job: Job) returns (lo: int, hi: int, parts: seq<Part>, skipped: nat, textBytes: nat)
    requires JobOk(job)
    ensures ScoreBounds(job.pages, lo, hi)
    ensures Progress(job, lo, hi, |job.pages|, parts, skipped, textBytes)
  {
    lo, hi := FindScoreBounds(job.pages);
    var selectedBytes := SumText(job.pages);
    var total := SumWeights(job, lo, hi);
    parts, skipped, textBytes := [], 0, 0;
    NothingPlanned(job, lo, hi);
    var shares := job.interactive && !(selectedBytes <= job.cap) && total > 0;
    for i := 0 to |job.pages|
      invariant Progress(job, lo, hi, i, parts, skipped, textBytes)
    {
      parts, skipped, textBytes := TakePage(job, lo, hi, total, shares, i, parts, skipped, textBytes);
    }
  }

  /** The three promises of a plan.  Interactive reads stay within `max_chars`; a selection
      that fits is kept verbatim, every readable page of it; a range read may pass its cap
      only by what the 32-byte floor adds to the page it stops in. */
  lemma PlanWithinBudget(job: Job, lo: int, hi: int, parts: seq<Part>, skipped: nat, textBytes: nat)
    requires JobOk(job) && ScoreBounds(job.pages, lo, hi)
    requires Progress(job, lo, hi, |job.pages|, parts, skipped, textBytes)
    ensures job.interactive ==> skipped == 0 && Emitted(job, parts) <= textBytes <= job.cap
    ensures Fits(job) ==>
              PagesOf(parts) == Readables(job.pages, |job.pages|) && forall p :: p in parts ==> p.excerpt.Whole?
    ensures !job.interactive ==> textBytes <= job.cap && Emitted(job, parts) < job.cap + QUOTA_FLOOR
  {
    if Sharing(job) {
      FloorNeverBinds(job, lo, hi);
      WholeShare(textBytes, TotalWeight(job, lo, hi, |job.pages|), job.cap);
    }
  }

  /** Every kept piece of a planned page is UTF-8 text, and a page that is not sent whole is
      sent with its query hit in it; the first page of an overview without a hit is sent from
      its beginning, and any other page without a hit as head and tail. */
  lemma PlannedPageKeepsItsHit(job: Job, p: Part)
    requires JobOk(job) && PartOk(job, p) && WireString.WellFormed(job.pages[p.page].text)
    ensures CleanCut(job.pages[p.page].text, p.excerpt)
    ensures var hit := job.pages[p.page].matchAt;
            if p.quota >= |job.pages[p.page].text| then p.excerpt.Whole?
            else if hit >= 0 then p.excerpt.Window? && p.excerpt.start <= hit < p.excerpt.end
            else if p.page == 0 && !job.semantic then p.excerpt.Window? && p.excerpt.start == 0 < p.excerpt.end
            else p.excerpt.HeadTail?
  {
    var page := job.pages[p.page].text;
    CutIsClean(page, p.quota, MatchOf(job, p.page), p.excerpt);
    if MatchOf(job, p.page) >= 0 { WindowContainsMatch(page, p.quota, MatchOf(job, p.page), p.excerpt); }
  }
}
