/** Section headings and explicit references in a PDF's text.

    Headings are lines that start with a label and a dotted number.  A reference such as
    "see section 3.2" becomes a link only if the whole document has exactly one heading of
    that kind and number, and it is on another page.  At most 128 headings are collected; when
    the table is full, uniqueness is unknown and there are no links at all. */
module Sections {
  import opened Prelude

  const HEADINGS_MAX: nat := 128
  const LINKS_MAX: nat := 128
  const NUMBER_MAX: nat := 32
  const TITLE_MAX: nat := 160
  const KINDS: nat := 4
  const DOT: byte := 0x2e
  const NEWLINE: byte := 10

  // ----- Dotted numbers -----

  predicate IsAlnum(c: byte) { IsDigit(c) || 0x41 <= c <= 0x5a || 0x61 <= c <= 0x7a }

  /** Digits in groups separated by single dots. */
  predicate Dotted(s: bytes) {
    && s != [] && IsDigit(s[0]) && IsDigit(s[|s| - 1])
    && (forall i :: 0 <= i < |s| ==> IsDigit(s[i]) || s[i] == DOT)
    && (forall i :: 0 < i < |s| ==> s[i] == DOT ==> IsDigit(s[i - 1]))
  }

  /** Nothing that follows continues the number. */
  predicate Ends(s: bytes, n: nat) {
    n <= |s| && (n == |s| || (!IsDigit(s[n]) && !(s[n] == DOT && n + 1 < |s| && IsDigit(s[n + 1]))))
  }

  predicate NumberAt(s: bytes, n: nat) {
    n <= |s| && Dotted(s[..n]) && Ends(s, n) && n < NUMBER_MAX && (n < |s| ==> !IsAlnum(s[n]))
  }

  function Dots(s: bytes): nat {
    if s == [] then 0 else Dots(s[..|s| - 1]) + if s[|s| - 1] == DOT then 1 else 0
  }

  method SkipDigits(s: bytes, from: nat) returns (upTo: nat)
    requires from <= |s|
    ensures from <= upTo <= |s| && (forall i :: from <= i < upTo ==> IsDigit(s[i])) && (upTo < |s| ==> !IsDigit(s[upTo]))
  {
    upTo := from;
    while upTo < |s| && IsDigit(s[upTo])
      invariant from <= upTo <= |s| && forall i :: from <= i < upTo ==> IsDigit(s[i])
    {
      upTo := upTo + 1;
    }
  }

  /** The length of the section number at the front, 0 for none, and its depth. */
  method SectionNumber(s: bytes) returns (n: nat, level: nat)
    ensures if n > 0 then NumberAt(s, n) && level == 1 + Dots(s[..n]) else forall k :: 0 < k <= |s| ==> !NumberAt(s, k)
  {
    level := 1;
    if s == [] || !IsDigit(s[0]) {
      forall k | 0 < k <= |s| ensures !NumberAt(s, k) { assert s[..k][0] == s[0]; }
      return 0, 1;
    }
    n := SkipDigits(s, 0);
    DigitsAddNoDots(s, 0, n);
    assert s[..0] == [];
    DottedGrows(s, 0, n);
    while |s| - n > 1 && s[n] == DOT && IsDigit(s[n + 1])
      invariant 0 < n <= |s| && Dotted(s[..n]) && level == 1 + Dots(s[..n]) && (n < |s| ==> !IsDigit(s[n]))
      decreases |s| - n
    {
      var next := SkipDigits(s, n + 1);
      DigitsAddNoDots(s, n + 1, next);
      assert s[..n + 1][..n] == s[..n];
      DottedGrows(s, n, next);
      n, level := next, level + 1;
    }
    forall k | 0 < k <= |s| && k != n ensures !NumberAt(s, k) { OnlyOneEnd(s, n, k); }
    if n >= NUMBER_MAX || (n < |s| && IsAlnum(s[n])) { n := 0; }
  }

  lemma {:induction false} DigitsAddNoDots(s: bytes, from: nat, upTo: nat)
    requires from <= upTo <= |s| && forall i :: from <= i < upTo ==> IsDigit(s[i])
    ensures Dots(s[..upTo]) == Dots(s[..from])
    decreases upTo - from
  {
    if from < upTo {
      DigitsAddNoDots(s, from, upTo - 1);
      assert s[..upTo][..upTo - 1] == s[..upTo - 1];
    }
  }

  /** Another group of digits after a dot, or the first group. */
  lemma DottedGrows(s: bytes, n: nat, next: nat)
    requires n < next <= |s|
    requires n == 0 || (Dotted(s[..n]) && s[n] == DOT && n + 1 < next)
    requires forall i :: (if n == 0 then 0 else n + 1) <= i < next ==> IsDigit(s[i])
    ensures Dotted(s[..next])
  {
    var all, head := s[..next], s[..n];
    forall i | 0 <= i < |all| ensures IsDigit(all[i]) || all[i] == DOT {
      if i < n { assert all[i] == head[i]; }
    }
    forall i | 0 < i < |all| ensures all[i] == DOT ==> IsDigit(all[i - 1]) {
      if i < n { assert all[i] == head[i] && all[i - 1] == head[i - 1]; }
      if i == n && n > 0 { assert all[i - 1] == head[n - 1]; }
    }
    if n > 0 { assert all[0] == head[0]; }
  }

  /** A dotted run with a longer one around it has not ended. */
  lemma LongerRunContinues(s: bytes, n: nat, k: nat)
    requires 0 < n < k <= |s| && Dotted(s[..n]) && Dotted(s[..k])
    ensures !Ends(s, n)
  {
    var run := s[..k];
    assert run[n] == s[n] && run[k - 1] == s[k - 1];
    if s[n] == DOT { assert run[n + 1] == s[n + 1]; }
  }

  lemma OnlyOneEnd(s: bytes, n: nat, k: nat)
    requires 0 < n <= |s| && Dotted(s[..n]) && Ends(s, n) && 0 < k <= |s| && k != n
    ensures !(Dotted(s[..k]) && Ends(s, k))
  {
    if Dotted(s[..k]) && k < n { LongerRunContinues(s, k, n); }
    if !Dotted(s[..k]) || k < n {
    } else {
      LongerRunContinues(s, n, k);
    }
  }

  lemma OneNumber(s: bytes, n: nat, m: nat)
    requires n > 0 && m > 0 && NumberAt(s, n) && NumberAt(s, m)
    ensures n == m
  {
    if n != m { OnlyOneEnd(s, n, m); }
  }

  // ----- Headings -----

  function Lower(c: byte): byte { if 0x41 <= c <= 0x5a then c + 0x20 else c }

  /** "chapter ", "section ", "capitolo ", "sezione ". */
  function Label(kind: nat): bytes
    requires kind < KINDS
  {
    match kind
    case 0 => [0x63, 0x68, 0x61, 0x70, 0x74, 0x65, 0x72, 0x20]
    case 1 => [0x73, 0x65, 0x63, 0x74, 0x69, 0x6f, 0x6e, 0x20]
    case 2 => [0x63, 0x61, 0x70, 0x69, 0x74, 0x6f, 0x6c, 0x6f, 0x20]
    case _ => [0x73, 0x65, 0x7a, 0x69, 0x6f, 0x6e, 0x65, 0x20]
  }

  /** "see " before the English labels, "vedi " before the Italian ones. */
  function Reference(kind: nat): bytes
    requires kind < KINDS
  {
    (if kind < 2 then [0x73, 0x65, 0x65, 0x20] else [0x76, 0x65, 0x64, 0x69, 0x20]) + Label(kind)
  }

  /** A case-insensitive comparison with a lower-case prefix. */
  predicate Starts(s: bytes, prefix: bytes) {
    |prefix| <= |s| && forall i :: 0 <= i < |prefix| ==> Lower(s[i]) == prefix[i]
  }

  datatype Heading = Heading(page: nat, kind: nat, number: bytes, level: nat, title: bytes)

  /** `line` is a heading of the kind with a number of `n` bytes. */
  predicate HeadingLine(line: bytes, kind: nat, n: nat) {
    && kind < KINDS && |Label(kind)| < |line| <= TITLE_MAX && Starts(line, Label(kind))
    && n > 0 && NumberAt(line[|Label(kind)|..], n)
  }

  /** At most one kind fits a line, and one number length. */
  lemma OneHeading(line: bytes, kind: nat, n: nat, otherKind: nat, m: nat)
    requires HeadingLine(line, kind, n) && HeadingLine(line, otherKind, m)
    ensures kind == otherKind && n == m
  {
    if kind != otherKind {
      LabelsDiffer(kind, otherKind, line);
    } else {
      OneNumber(line[|Label(kind)|..], n, m);
    }
  }

  lemma LabelsDiffer(a: nat, b: nat, line: bytes)
    requires a < KINDS && b < KINDS && a != b && Starts(line, Label(a))
    ensures !Starts(line, Label(b))
  {
    assert Lower(line[1]) == Label(a)[1] && Lower(line[2]) == Label(a)[2];
    assert Label(a)[1] != Label(b)[1] || Label(a)[2] != Label(b)[2];
  }

  function Space(line: bytes): bytes
    decreases |line|
  {
    if line != [] && IsSpace(line[|line| - 1]) then Space(line[..|line| - 1]) else line
  }

  function Indent(line: bytes): bytes {
    if line != [] && (line[0] == 32 || line[0] == 9) then Indent(line[1..]) else line
  }

  /** A line without indentation and trailing white space. */
  function Trimmed(line: bytes): bytes { Space(Indent(line)) }

  /** The kind and number length of a heading line. */
  ghost function KindOf(line: bytes): (r: Option<(nat, nat)>)
    ensures r.Some? ==> HeadingLine(line, r.value.0, r.value.1)
    ensures r.None? ==> forall kind: nat, n: nat :: !HeadingLine(line, kind, n)
  {
    if exists kind: nat, n: nat :: HeadingLine(line, kind, n) then
      var kind: nat, n: nat :| HeadingLine(line, kind, n);
      Some((kind, n))
    else None
  }

  function MakeHeading(line: bytes, page: nat, kind: nat, n: nat): Heading
    requires HeadingLine(line, kind, n)
  {
    var number := line[|Label(kind)|..][..n];
    Heading(page, kind, number, 1 + Dots(number), line)
  }

  /** What a line contributes: its heading, if it is one. */
  ghost function HeadingOf(line: bytes, page: nat): (found: seq<Heading>)
    ensures |found| <= 1
  {
    var r := KindOf(line);
    if r.None? then [] else [MakeHeading(line, page, r.value.0, r.value.1)]
  }

  method ReadHeading(line: bytes, page: nat) returns (found: seq<Heading>)
    ensures found == HeadingOf(line, page)
  {
    found := [];
    for kind := 0 to KINDS
      invariant found == [] && forall k: nat, n: nat :: k < kind ==> !HeadingLine(line, k, n)
    {
      found := ReadKind(line, page, kind);
      if found != [] { return; }
    }
    assert forall k: nat, n: nat :: !HeadingLine(line, k, n);
  }

  method ReadKind(line: bytes, page: nat, kind: nat) returns (found: seq<Heading>)
    requires kind < KINDS
    ensures found == [] ==> forall n: nat :: !HeadingLine(line, kind, n)
    ensures found != [] ==> found == HeadingOf(line, page)
  {
    var prefix := Label(kind);
    if |prefix| >= |line| || |line| > TITLE_MAX || !Starts(line, prefix) { return []; }
    var rest := line[|prefix|..];
    var n, level := SectionNumber(rest);
    if n == 0 { return []; }
    OnlyKind(line, kind, n);
    return [Heading(page, kind, rest[..n], level, line)];
  }

  lemma OnlyKind(line: bytes, kind: nat, n: nat)
    requires HeadingLine(line, kind, n)
    ensures KindOf(line) == Some((kind, n))
  {
    OneHeading(line, kind, n, KindOf(line).value.0, KindOf(line).value.1);
  }

  // ----- The headings of the document -----

  function LineEnd(text: bytes, from: nat): (end: nat)
    requires from <= |text|
    ensures from <= end <= |text|
    decreases |text| - from
  {
    if from == |text| || text[from] == NEWLINE then from else LineEnd(text, from + 1)
  }

  function NextLine(text: bytes, from: nat): (next: nat)
    requires from < |text|
    ensures from < next <= |text|
  {
    var end := LineEnd(text, from);
    if end < |text| then end + 1 else end
  }

  ghost function LineHeading(text: bytes, page: nat, from: nat): (found: seq<Heading>)
    requires from <= |text|
    ensures |found| <= 1
  {
    HeadingOf(Trimmed(text[from..LineEnd(text, from)]), page)
  }

  /** The headings of a page from a line start on; pages are numbered from 1. */
  ghost function PageHeadings(text: bytes, page: nat, from: nat): seq<Heading>
    requires from <= |text|
    decreases |text| - from
  {
    if from == |text| then []
    else
      LineHeading(text, page, from) + PageHeadings(text, page, NextLine(text, from))
  }

  ghost function AllHeadings(pages: seq<bytes>, n: nat): seq<Heading>
    requires n <= |pages|
  {
    if n == 0 then [] else AllHeadings(pages, n - 1) + PageHeadings(pages[n - 1], n, 0)
  }

  function Take<T>(s: seq<T>, n: nat): seq<T> { if |s| <= n then s else s[..n] }

  method FindLineEnd(text: bytes, from: nat) returns (end: nat)
    requires from <= |text|
    ensures end == LineEnd(text, from)
  {
    end := from;
    while end < |text| && text[end] != NEWLINE
      invariant from <= end <= |text| && LineEnd(text, end) == LineEnd(text, from)
    {
      end := end + 1;
    }
  }

  method Trim(line: bytes) returns (trimmed: bytes)
    ensures trimmed == Trimmed(line)
  {
    var from := 0;
    while from < |line| && (line[from] == 32 || line[from] == 9)
      invariant 0 <= from <= |line| && Indent(line[from..]) == Indent(line)
    {
      assert line[from..][1..] == line[from + 1..];
      from := from + 1;
    }
    trimmed := line[from..];
    ghost var indented := trimmed;
    while trimmed != [] && IsSpace(trimmed[|trimmed| - 1])
      invariant Space(trimmed) == Space(indented)
      decreases |trimmed|
    {
      trimmed := trimmed[..|trimmed| - 1];
    }
  }

  /** Collect headings line by line until the table is full. */
  method CollectHeadings(pages: seq<bytes>) returns (headings: seq<Heading>)
    ensures headings == Take(AllHeadings(pages, |pages|), HEADINGS_MAX)
  {
    headings := [];
    ghost var all := AllHeadings(pages, |pages|);
    for p := 0 to |pages|
      invariant |headings| <= HEADINGS_MAX
      invariant headings == Take(AllHeadings(pages, p), HEADINGS_MAX)
    {
      headings := CollectPage(pages[p], p + 1, headings, AllHeadings(pages, p));
    }
  }

  method ReadLine(text: bytes, page: nat, from: nat) returns (found: seq<Heading>, next: nat)
    requires from < |text|
    ensures found == LineHeading(text, page, from) && next == NextLine(text, from)
  {
    var end := FindLineEnd(text, from);
    var line := Trim(text[from..end]);
    found := ReadHeading(line, page);
    next := if end < |text| then end + 1 else end;
  }

  method CollectPage(text: bytes, page: nat, before: seq<Heading>, ghost all: seq<Heading>) returns (headings: seq<Heading>)
    requires |before| <= HEADINGS_MAX && before == Take(all, HEADINGS_MAX)
    ensures |headings| <= HEADINGS_MAX && headings == Take(all + PageHeadings(text, page, 0), HEADINGS_MAX)
  {
    headings := before;
    var from := 0;
    ghost var goal := all + PageHeadings(text, page, 0);
    ghost var done := all;
    while from < |text| && |headings| < HEADINGS_MAX
      invariant 0 <= from <= |text| && |headings| <= HEADINGS_MAX && headings == Take(done, HEADINGS_MAX)
      invariant done + PageHeadings(text, page, from) == goal
      decreases |text| - from
    {
      var found, next := ReadLine(text, page, from);
      Associate(done, found, PageHeadings(text, page, next));
      assert done == headings;
      headings, done, from := headings + found, done + found, next;
    }
    if from == |text| { assert done + [] == done; }
    TakeFull(done, PageHeadings(text, page, from), HEADINGS_MAX);
  }

  lemma TakeFull<T>(done: seq<T>, rest: seq<T>, n: nat)
    ensures |Take(done, n)| == n ==> Take(done + rest, n) == Take(done, n)
    ensures rest == [] ==> done + rest == done
  {
  }

  // ----- References -----

  /** A reference of the kind at `at`, with a number of `n` bytes. */
  predicate RefAt(text: bytes, at: nat, kind: nat, n: nat) {
    && at <= |text| && kind < KINDS && (at > 0 ==> !IsAlnum(text[at - 1]))
    && |Reference(kind)| < |text| - at && Starts(text[at..], Reference(kind))
    && n > 0 && NumberAt(text[at + |Reference(kind)|..], n)
  }

  /** At most one reference stands at a position. */
  lemma OneReference(text: bytes, at: nat, kind: nat, n: nat, otherKind: nat, m: nat)
    requires RefAt(text, at, kind, n) && RefAt(text, at, otherKind, m)
    ensures kind == otherKind && n == m
  {
    hide Starts, NumberAt, Reference;
    if kind != otherKind {
      ReferencesDiffer(kind, otherKind, text[at..]);
    } else {
      OneNumber(text[at + |Reference(kind)|..], n, m);
    }
  }

  lemma ReferencesDiffer(a: nat, b: nat, s: bytes)
    requires a < KINDS && b < KINDS && a != b && Starts(s, Reference(a))
    ensures !Starts(s, Reference(b))
  {
    var i := if (a < 2) != (b < 2) then 0 else if a < 2 then 4 else 5;
    assert Lower(s[i]) == Reference(a)[i];
    assert Reference(a)[i] != Reference(b)[i];
  }

  /** The kind and number length of the reference at a position. */
  ghost function ReferenceAt(text: bytes, at: nat): (r: Option<(nat, nat)>)
    ensures r.Some? ==> RefAt(text, at, r.value.0, r.value.1)
    ensures r.None? ==> forall kind: nat, n: nat :: !RefAt(text, at, kind, n)
  {
    if exists kind: nat, n: nat :: RefAt(text, at, kind, n) then
      var kind: nat, n: nat :| RefAt(text, at, kind, n);
      Some((kind, n))
    else None
  }

  method ReadReference(text: bytes, at: nat) returns (r: Option<(nat, nat)>)
    requires at < |text|
    ensures r == ReferenceAt(text, at)
  {
    r := None;
    if at > 0 && IsAlnum(text[at - 1]) { return; }
    for kind := 0 to KINDS
      invariant r == None && forall k: nat, n: nat :: k < kind ==> !RefAt(text, at, k, n)
    {
      var n := ReadReferenceKind(text, at, kind);
      if n > 0 {
        OnlyReference(text, at, kind, n);
        return Some((kind, n));
      }
    }
  }

  method ReadReferenceKind(text: bytes, at: nat, kind: nat) returns (n: nat)
    requires at < |text| && kind < KINDS && (at > 0 ==> !IsAlnum(text[at - 1]))
    ensures if n > 0 then RefAt(text, at, kind, n) else forall m: nat :: !RefAt(text, at, kind, m)
  {
    hide Dotted, Label;
    var prefix := Reference(kind);
    if |prefix| >= |text| - at || !Starts(text[at..], prefix) { return 0; }
    var rest, level := text[at + |prefix|..], 0;
    n, level := SectionNumber(rest);
  }

  lemma OnlyReference(text: bytes, at: nat, kind: nat, n: nat)
    requires RefAt(text, at, kind, n)
    ensures ReferenceAt(text, at) == Some((kind, n))
  {
    OneReference(text, at, kind, n, ReferenceAt(text, at).value.0, ReferenceAt(text, at).value.1);
  }

  // ----- Targets -----

  predicate Fits(h: Heading, kind: nat, number: bytes) { h.kind == kind && h.number == number }

  /** The only heading of the kind and number. */
  ghost predicate OnlyHeading(headings: seq<Heading>, kind: nat, number: bytes, j: nat) {
    && j < |headings| && Fits(headings[j], kind, number)
    && forall i :: 0 <= i < |headings| && i != j ==> !Fits(headings[i], kind, number)
  }

  ghost function TargetOf(headings: seq<Heading>, kind: nat, number: bytes): (r: Option<nat>)
    ensures r.Some? ==> OnlyHeading(headings, kind, number, r.value)
    ensures r.None? ==> forall j: nat :: !OnlyHeading(headings, kind, number, j)
  {
    if exists j: nat :: OnlyHeading(headings, kind, number, j) then
      var j: nat :| OnlyHeading(headings, kind, number, j);
      Some(j)
    else None
  }

  /** Count the headings that fit and remember the last. */
  method FindTarget(headings: seq<Heading>, kind: nat, number: bytes) returns (r: Option<nat>)
    ensures r == TargetOf(headings, kind, number)
  {
    var matches: nat, target: nat := 0, 0;
    for j := 0 to |headings|
      invariant matches == 0 ==> forall i :: 0 <= i < j ==> !Fits(headings[i], kind, number)
      invariant matches == 1 ==> target < j && Fits(headings[target], kind, number)
                                 && forall i :: 0 <= i < j && i != target ==> !Fits(headings[i], kind, number)
      invariant matches > 1 ==> exists a, b :: 0 <= a < b < j && Fits(headings[a], kind, number) && Fits(headings[b], kind, number)
    {
      if Fits(headings[j], kind, number) {
        matches, target := matches + 1, j;
      }
    }
    if matches != 1 { return None; }
    assert OnlyHeading(headings, kind, number, target);
    return Some(target);
  }

  // ----- Links -----

  datatype Link = Link(page: nat, targetPage: nat, kind: nat, number: bytes, quote: bytes, title: bytes)

  function RefNumber(text: bytes, at: nat, kind: nat, n: nat): bytes
    requires RefAt(text, at, kind, n)
  {
    text[at + |Reference(kind)|..][..n]
  }

  function MakeLink(text: bytes, page: nat, at: nat, kind: nat, n: nat, target: Heading): Link
    requires RefAt(text, at, kind, n)
  {
    Link(page, target.page, kind, RefNumber(text, at, kind, n), text[at..][..|Reference(kind)| + n], target.title)
  }

  /** The link of a reference at `at` on a page, if its target is unique and elsewhere. */
  ghost function LinkAt(text: bytes, page: nat, headings: seq<Heading>, at: nat): (found: seq<Link>)
    requires at <= |text|
    ensures |found| <= 1
  {
    var r := ReferenceAt(text, at);
    if r.None? then []
    else
      var (kind, n) := r.value;
      var j := TargetOf(headings, kind, RefNumber(text, at, kind, n));
      if j.None? || headings[j.value].page == page then [] else [MakeLink(text, page, at, kind, n, headings[j.value])]
  }

  /** The links of a page from `at` on, and of the first `n` pages. */
  ghost function PageLinks(text: bytes, page: nat, headings: seq<Heading>, at: nat): seq<Link>
    requires at <= |text|
    decreases |text| - at
  {
    if at == |text| then [] else LinkAt(text, page, headings, at) + PageLinks(text, page, headings, at + 1)
  }

  ghost function AllLinks(pages: seq<bytes>, headings: seq<Heading>, n: nat): seq<Link>
    requires n <= |pages|
  {
    if n == 0 then [] else AllLinks(pages, headings, n - 1) + PageLinks(pages[n - 1], n, headings, 0)
  }

  method ReadLink(text: bytes, page: nat, headings: seq<Heading>, at: nat) returns (found: seq<Link>)
    requires at < |text|
    ensures found == LinkAt(text, page, headings, at)
  {
    var r := ReadReference(text, at);
    if r.None? { return []; }
    var (kind, n) := r.value;
    var j := FindTarget(headings, kind, RefNumber(text, at, kind, n));
    if j.None? || headings[j.value].page == page { return []; }
    return [MakeLink(text, page, at, kind, n, headings[j.value])];
  }

  method CollectPageLinks(text: bytes, page: nat, headings: seq<Heading>, before: seq<Link>, ghost all: seq<Link>)
    returns (links: seq<Link>)
    requires |before| <= LINKS_MAX && before == Take(all, LINKS_MAX)
    ensures |links| <= LINKS_MAX && links == Take(all + PageLinks(text, page, headings, 0), LINKS_MAX)
  {
    links := before;
    var at := 0;
    ghost var goal := all + PageLinks(text, page, headings, 0);
    ghost var done := all;
    while at < |text| && |links| < LINKS_MAX
      invariant 0 <= at <= |text| && |links| <= LINKS_MAX && links == Take(done, LINKS_MAX)
      invariant done + PageLinks(text, page, headings, at) == goal
      decreases |text| - at
    {
      var found := ReadLink(text, page, headings, at);
      Associate(done, found, PageLinks(text, page, headings, at + 1));
      assert done == links;
      links, done := links + found, done + found;
      at := at + 1;
    }
    if at == |text| { assert done + [] == done; }
    TakeFull(done, PageLinks(text, page, headings, at), LINKS_MAX);
  }

  /** The links of the whole document: none when the heading table is full. */
  method CollectLinks(pages: seq<bytes>) returns (links: seq<Link>)
    ensures var headings := AllHeadings(pages, |pages|);
            links == if |headings| >= HEADINGS_MAX then [] else Take(AllLinks(pages, headings, |pages|), LINKS_MAX)
    ensures forall k :: 0 <= k < |links| ==> 1 <= links[k].page <= |pages| && LinkOk(AllHeadings(pages, |pages|), links[k])
  {
    var headings := CollectHeadings(pages);
    if |headings| >= HEADINGS_MAX { return []; }
    links := LinksTo(pages, headings);
    LinksHaveUniqueTargets(pages, headings, |pages|);
  }

  method LinksTo(pages: seq<bytes>, headings: seq<Heading>) returns (links: seq<Link>)
    ensures |links| <= LINKS_MAX && links == Take(AllLinks(pages, headings, |pages|), LINKS_MAX)
  {
    links := [];
    for p := 0 to |pages|
      invariant |links| <= LINKS_MAX && links == Take(AllLinks(pages, headings, p), LINKS_MAX)
    {
      links := CollectPageLinks(pages[p], p + 1, headings, links, AllLinks(pages, headings, p));
    }
  }

  /** What a link promises: its kind and number belong to exactly one heading of the whole
      document, which is on the page it names, and that is another page. */
  ghost predicate LinkOk(headings: seq<Heading>, l: Link) {
    l.targetPage != l.page
    && exists j: nat :: OnlyHeading(headings, l.kind, l.number, j) && headings[j].page == l.targetPage && headings[j].title == l.title
  }

  lemma {:induction false} PageLinksOk(text: bytes, page: nat, headings: seq<Heading>, at: nat)
    requires at <= |text|
    ensures forall k :: 0 <= k < |PageLinks(text, page, headings, at)| ==>
              PageLinks(text, page, headings, at)[k].page == page && LinkOk(headings, PageLinks(text, page, headings, at)[k])
    decreases |text| - at
  {
    if at < |text| {
      PageLinksOk(text, page, headings, at + 1);
      var found := LinkAt(text, page, headings, at);
      if found != [] {
        var j := TargetOf(headings, found[0].kind, found[0].number);
        assert OnlyHeading(headings, found[0].kind, found[0].number, j.value);
      }
    }
  }

  /** Every emitted link has a unique target in the whole document. */
  lemma {:induction false} LinksHaveUniqueTargets(pages: seq<bytes>, headings: seq<Heading>, n: nat)
    requires n <= |pages|
    ensures forall k :: 0 <= k < |AllLinks(pages, headings, n)| ==>
              1 <= AllLinks(pages, headings, n)[k].page <= n && LinkOk(headings, AllLinks(pages, headings, n)[k])
  {
    if n > 0 {
      LinksHaveUniqueTargets(pages, headings, n - 1);
      PageLinksOk(pages[n - 1], n, headings, 0);
    }
  }

  /** Without the rule about the full table a link could be wrong: a heading beyond the first
      128 may share the number of one among them. */
  lemma FullTableHidesDuplicates(headings: seq<Heading>, kind: nat, number: bytes, j: nat, late: nat)
    requires j < HEADINGS_MAX <= late < |headings| && Fits(headings[late], kind, number)
    requires OnlyHeading(Take(headings, HEADINGS_MAX), kind, number, j)
    ensures TargetOf(Take(headings, HEADINGS_MAX), kind, number).Some? && TargetOf(headings, kind, number).None?
  {
    assert Take(headings, HEADINGS_MAX)[j] == headings[j];
    forall i: nat ensures !OnlyHeading(headings, kind, number, i) {
      if i == late { assert Fits(headings[j], kind, number); }
    }
  }
}
