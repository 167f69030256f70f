/** Framing of native progress records.

    The native program rewrites one status line: records are separated by carriage returns
    or newlines and the last one has no terminator.  Output arrives in arbitrary chunks; a
    poll after a quiet interval, or at the end, commits the unterminated tail.  What comes
    out is the records of the whole text with consecutive repeats removed. */
module Progress {
  import opened Prelude
  import Frames

  const NEWLINE: byte := 10
  const RETURN: byte := 13

  // ----- Splitting -----

  predicate IsBreak(c: byte) { c == NEWLINE || c == RETURN }

  /** The terminated pieces of a text, and what follows the last break. */
  function Pieces(s: bytes): seq<bytes> {
    if s == [] then []
    else if IsBreak(s[|s| - 1]) then Pieces(s[..|s| - 1]) + [Tail(s[..|s| - 1])]
    else Pieces(s[..|s| - 1])
  }

  function Tail(s: bytes): bytes {
    if s == [] || IsBreak(s[|s| - 1]) then [] else Tail(s[..|s| - 1]) + [s[|s| - 1]]
  }

  /** Splitting what was left over together with what comes next continues the splitting. */
  lemma {:induction false} SplitContinues(a: bytes, b: bytes)
    ensures Pieces(a + b) == Pieces(a) + Pieces(Tail(a) + b)
    ensures Tail(a + b) == Tail(Tail(a) + b)
    decreases |b|
  {
    if b == [] {
      assert a + b == a && Tail(a) + b == Tail(a);
      TailHasNoPieces(a);
    } else {
      var init, last := b[..|b| - 1], b[|b| - 1];
      SplitContinues(a, init);
      SplitAlike(Pieces(a), a + init, Tail(a) + init, last);
      assert b == init + [last];
      Associate(a, init, [last]);
      Associate(Tail(a), init, [last]);
    }
  }

  /** One more byte on two texts that ended alike. */
  lemma SplitAlike(before: seq<bytes>, a: bytes, b: bytes, c: byte)
    requires Pieces(a) == before + Pieces(b) && Tail(a) == Tail(b)
    ensures Pieces(a + [c]) == before + Pieces(b + [c]) && Tail(a + [c]) == Tail(b + [c])
  {
    SplitStep(a, c);
    SplitStep(b, c);
  }

  lemma SplitStep(s: bytes, c: byte)
    ensures Pieces(s + [c]) == Pieces(s) + if IsBreak(c) then [Tail(s)] else []
    ensures Tail(s + [c]) == if IsBreak(c) then [] else Tail(s) + [c]
  {
    assert (s + [c])[..|s|] == s;
  }

  lemma {:induction false} TailHasNoPieces(s: bytes)
    ensures Pieces(Tail(s)) == [] && Tail(Tail(s)) == Tail(s)
  {
    if s != [] && !IsBreak(s[|s| - 1]) {
      TailHasNoPieces(s[..|s| - 1]);
      SplitStep(Tail(s[..|s| - 1]), s[|s| - 1]);
    }
  }

  /** One pass over the text. */
  method Split(s: bytes) returns (pieces: seq<bytes>, tail: bytes)
    ensures pieces == Pieces(s) && tail == Tail(s)
  {
    pieces, tail := [], [];
    for i := 0 to |s|
      invariant pieces == Pieces(s[..i]) && tail == Tail(s[..i])
    {
      assert s[..i + 1] == s[..i] + [s[i]];
      SplitStep(s[..i], s[i]);
      if IsBreak(s[i]) {
        pieces, tail := pieces + [tail], [];
      } else {
        tail := tail + [s[i]];
      }
    }
    assert s[..|s|] == s;
  }

  // ----- Records -----

  datatype Record = Record(phase: bytes, completed: nat, total: nat)

  type Reader = bytes -> Option<Record>

  function Read(parse: Reader, piece: bytes): seq<Record> {
    if parse(piece).Some? then [parse(piece).value] else []
  }

  function Records(parse: Reader, pieces: seq<bytes>): seq<Record> {
    if pieces == [] then [] else Records(parse, pieces[..|pieces| - 1]) + Read(parse, pieces[|pieces| - 1])
  }

  lemma RecordsStep(parse: Reader, pieces: seq<bytes>, piece: bytes)
    ensures Records(parse, pieces + [piece]) == Records(parse, pieces) + Read(parse, piece)
  {
    assert (pieces + [piece])[..|pieces|] == pieces;
  }

  lemma {:induction false} RecordsAppend(parse: Reader, a: seq<bytes>, b: seq<bytes>)
    ensures Records(parse, a + b) == Records(parse, a) + Records(parse, b)
    decreases |b|
  {
    if b == [] {
      assert a + b == a;
    } else {
      var init, last := b[..|b| - 1], b[|b| - 1];
      assert b == init + [last] && a + b == (a + init) + [last];
      RecordsAppend(parse, a, init);
      RecordsStep(parse, a + init, last);
    }
  }

  /** The records of a whole text: of every piece, the unterminated one included. */
  function AllRecords(parse: Reader, text: bytes): seq<Record> { Records(parse, Pieces(text)) + Read(parse, Tail(text)) }

  /** Consecutive repeats removed. */
  function Distinct(rs: seq<Record>): (r: seq<Record>)
    ensures (rs == [] <==> r == []) && (rs != [] ==> r[|r| - 1] == rs[|rs| - 1])
  {
    if rs == [] then []
    else
      var init, last := Distinct(rs[..|rs| - 1]), rs[|rs| - 1];
      if init != [] && init[|init| - 1] == last then init else init + [last]
  }

  lemma DistinctStep(rs: seq<Record>, r: Record)
    ensures Distinct(rs + [r]) == if rs != [] && rs[|rs| - 1] == r then Distinct(rs) else Distinct(rs) + [r]
  {
    var whole := rs + [r];
    assert whole[..|whole| - 1] == rs && whole[|whole| - 1] == r;
  }

  /** No two neighbours are equal. */
  lemma {:induction false} DistinctHasNoRepeats(rs: seq<Record>)
    ensures forall i :: 0 < i < |Distinct(rs)| ==> Distinct(rs)[i - 1] != Distinct(rs)[i]
  {
    if rs != [] { DistinctHasNoRepeats(rs[..|rs| - 1]); }
  }

  // ----- One record -----

  const SLASH: byte := 0x2f
  const SPACE: byte := 0x20

  /** What `\s` matches, among ASCII characters. */
  predicate IsBlank(c: byte) { 0x09 <= c <= 0x0d || 0x1c <= c <= 0x20 }

  predicate IsLetter(c: byte) { 0x41 <= c <= 0x5a || 0x61 <= c <= 0x7a }

  predicate Blanks(s: bytes) { forall i :: 0 <= i < |s| ==> IsBlank(s[i]) }

  predicate Number(s: bytes) { s != [] && forall i :: 0 <= i < |s| ==> IsDigit(s[i]) }

  /** A phase: a letter, then letters, digits and spaces, not ending in a space. */
  predicate IsName(s: bytes) {
    && s != [] && IsLetter(s[0]) && s[|s| - 1] != SPACE
    && forall i :: 0 <= i < |s| ==> IsLetter(s[i]) || IsDigit(s[i]) || s[i] == SPACE
  }

  /** The parts of a record: `phase 12 / 34`, with any blanks around and between. */
  datatype Spelling = Spelling(
    lead: bytes, name: bytes, gap: bytes, completed: bytes, beforeSlash: bytes, afterSlash: bytes, total: bytes, trail: bytes)

  ghost predicate Spelled(s: bytes, p: Spelling) {
    && IsName(p.name) && Number(p.completed) && Number(p.total) && p.gap != []
    && Blanks(p.lead) && Blanks(p.gap) && Blanks(p.beforeSlash) && Blanks(p.afterSlash) && Blanks(p.trail)
    && s == p.lead + p.name + p.gap + p.completed + p.beforeSlash + [SLASH] + p.afterSlash + p.total + p.trail
  }

  function RecordOf(p: Spelling): Record
    requires Number(p.completed) && Number(p.total)
  {
    Record(p.name, Frames.DecimalValue(p.completed), Frames.DecimalValue(p.total))
  }

  function TrimEnd(s: bytes): (r: bytes)
    ensures r == [] || !IsBlank(r[|r| - 1])
    ensures |r| <= |s| && r == s[..|r|] && Blanks(s[|r|..])
  {
    if s != [] && IsBlank(s[|s| - 1]) then TrimEnd(s[..|s| - 1]) else s
  }

  function TrimStart(s: bytes): (r: bytes)
    ensures r == [] || !IsBlank(r[0])
    ensures |r| <= |s| && r == s[|s| - |r|..] && Blanks(s[..|s| - |r|])
  {
    if s != [] && IsBlank(s[0]) then TrimStart(s[1..]) else s
  }

  function TrailingDigits(s: bytes): (n: nat)
    ensures n <= |s| && forall i :: |s| - n <= i < |s| ==> IsDigit(s[i])
    ensures n < |s| ==> !IsDigit(s[|s| - n - 1])
  {
    if s != [] && IsDigit(s[|s| - 1]) then 1 + TrailingDigits(s[..|s| - 1]) else 0
  }

  /** The number at the end of a text, blanks aside, and what is before it. */
  function LastNumber(s: bytes): (r: Option<(bytes, bytes)>)
    ensures r.Some? ==> Number(r.value.1)
  {
    var t := TrimEnd(s);
    var n := TrailingDigits(t);
    if n == 0 then None else Some((t[..|t| - n], t[|t| - n..]))
  }

  /** The total, and what is before its slash. */
  function SplitTotal(s: bytes): (r: Option<(bytes, bytes)>)
    ensures r.Some? ==> Number(r.value.1)
  {
    match LastNumber(s)
    case None => None
    case Some((front, total)) =>
      var slashed := TrimEnd(front);
      if slashed != [] && slashed[|slashed| - 1] == SLASH then Some((slashed[..|slashed| - 1], total)) else None
  }

  /** The phase and the completed count. */
  function SplitName(s: bytes): (r: Option<(bytes, bytes)>)
    ensures r.Some? ==> Number(r.value.1)
  {
    match LastNumber(s)
    case None => None
    case Some((named, completed)) =>
      var name := TrimStart(TrimEnd(named));
      if named != [] && IsBlank(named[|named| - 1]) && IsName(name) then Some((name, completed)) else None
  }

  /** The record pattern, read from its end. */
  function ParseRecord(fragment: bytes): Option<Record> {
    match SplitTotal(fragment)
    case None => None
    case Some((front, total)) =>
      match SplitName(front)
      case None => None
      case Some((name, completed)) => Some(Record(name, Frames.DecimalValue(completed), Frames.DecimalValue(total)))
  }

  lemma {:induction false} TrimEndOf(u: bytes, w: bytes)
    requires Blanks(w) && (u == [] || !IsBlank(u[|u| - 1]))
    ensures TrimEnd(u + w) == u
    decreases |w|
  {
    if w == [] {
      assert u + w == u;
    } else {
      assert (u + w)[..|u + w| - 1] == u + w[..|w| - 1];
      TrimEndOf(u, w[..|w| - 1]);
    }
  }

  lemma {:induction false} TrimStartOf(w: bytes, u: bytes)
    requires Blanks(w) && (u == [] || !IsBlank(u[0]))
    ensures TrimStart(w + u) == u
    decreases |w|
  {
    if w == [] {
      assert w + u == u;
    } else {
      assert (w + u)[1..] == w[1..] + u;
      TrimStartOf(w[1..], u);
    }
  }

  lemma {:induction false} DigitsAtEnd(u: bytes, d: bytes)
    requires (forall i :: 0 <= i < |d| ==> IsDigit(d[i])) && (u == [] || !IsDigit(u[|u| - 1]))
    ensures TrailingDigits(u + d) == |d|
    decreases |d|
  {
    if d == [] {
      assert u + d == u;
    } else {
      assert (u + d)[..|u + d| - 1] == u + d[..|d| - 1];
      DigitsAtEnd(u, d[..|d| - 1]);
    }
  }

  /** The last number is found when there is one. */
  lemma NumberFound(front: bytes, number: bytes, blanks: bytes)
    requires Blanks(blanks) && Number(number) && (front == [] || !IsDigit(front[|front| - 1]))
    ensures LastNumber(front + number + blanks) == Some((front, number))
  {
    var t := front + number;
    assert t[|t| - 1] == number[|number| - 1];
    TrimEndOf(t, blanks);
    DigitsAtEnd(front, number);
    assert t[..|front|] == front && t[|front|..] == number;
  }

  lemma NumberParts(s: bytes) returns (blanks: bytes)
    requires LastNumber(s).Some?
    ensures s == LastNumber(s).value.0 + LastNumber(s).value.1 + blanks && Blanks(blanks)
  {
    blanks := s[|TrimEnd(s)|..];
  }

  lemma LastByte(u: bytes, v: bytes)
    requires v != []
    ensures u + v != [] && (u + v)[|u + v| - 1] == v[|v| - 1]
  {
  }

  lemma TotalFound(front: bytes, w: bytes, total: bytes, trail: bytes)
    requires Blanks(w) && Number(total) && Blanks(trail)
    ensures SplitTotal(front + [SLASH] + w + total + trail) == Some((front, total))
  {
    var slashed := front + [SLASH];
    LastByte(front, [SLASH]);
    if w == [] { assert slashed + w == slashed; } else { LastByte(slashed, w); }
    hide LastNumber, Number;
    NumberFound(slashed + w, total, trail);
    TrimEndOf(slashed, w);
    assert slashed[..|slashed| - 1] == front;
  }

  lemma NameFound(lead: bytes, name: bytes, gap: bytes, completed: bytes, w: bytes)
    requires Blanks(lead) && IsName(name) && Blanks(gap) && gap != [] && Number(completed) && Blanks(w)
    ensures SplitName(lead + name + gap + completed + w) == Some((name, completed))
  {
    var bare := lead + name;
    LastByte(bare, gap);
    LastByte(lead, name);
    hide LastNumber, Number;
    NumberFound(bare + gap, completed, w);
    TrimEndOf(bare, gap);
    TrimStartOf(lead, name);
  }

  lemma SpelledIsParsed(s: bytes, p: Spelling)
    requires Spelled(s, p)
    ensures ParseRecord(s) == Some(RecordOf(p))
  {
    var front := p.lead + p.name + p.gap + p.completed + p.beforeSlash;
    hide SplitTotal, SplitName, Number, IsName, Blanks;
    TotalFound(front, p.afterSlash, p.total, p.trail);
    NameFound(p.lead, p.name, p.gap, p.completed, p.beforeSlash);
  }

  lemma TotalParts(s: bytes) returns (w: bytes, trail: bytes)
    requires SplitTotal(s).Some?
    ensures s == SplitTotal(s).value.0 + [SLASH] + w + SplitTotal(s).value.1 + trail && Blanks(w) && Blanks(trail)
  {
    trail := NumberParts(s);
    var front := LastNumber(s).value.0;
    hide LastNumber;
    w := front[|TrimEnd(front)|..];
    assert front == TrimEnd(front) + w;
  }

  lemma NamedParts(named: bytes) returns (lead: bytes, gap: bytes)
    requires named != [] && IsBlank(named[|named| - 1])
    ensures named == lead + TrimStart(TrimEnd(named)) + gap && Blanks(lead) && Blanks(gap) && gap != []
  {
    var bare := TrimEnd(named);
    gap := named[|bare|..];
    lead := bare[..|bare| - |TrimStart(bare)|];
    hide TrimEnd, TrimStart, Blanks;
    assert named == bare + gap && bare == lead + TrimStart(bare);
    assert gap == [] ==> bare == named;
  }

  lemma NameParts(s: bytes) returns (lead: bytes, gap: bytes, w: bytes)
    requires SplitName(s).Some?
    ensures s == lead + SplitName(s).value.0 + gap + SplitName(s).value.1 + w
    ensures Blanks(lead) && Blanks(gap) && gap != [] && Blanks(w) && IsName(SplitName(s).value.0)
  {
    w := NumberParts(s);
    hide LastNumber, TrimEnd, TrimStart, Blanks, IsName, Number;
    lead, gap := NamedParts(LastNumber(s).value.0);
  }

  lemma ParsedIsSpelled(s: bytes) returns (p: Spelling)
    requires ParseRecord(s).Some?
    ensures Spelled(s, p) && ParseRecord(s) == Some(RecordOf(p))
  {
    hide SplitTotal, SplitName, Number, IsName, Blanks;
    var (front, total) := SplitTotal(s).value;
    var w, trail := TotalParts(s);
    var (name, completed) := SplitName(front).value;
    var lead, gap, v := NameParts(front);
    p := Spelling(lead, name, gap, completed, v, w, total, trail);
  }

  /** The reader accepts exactly the texts of the pattern, with the record they spell. */
  lemma ParsesExactly(s: bytes, r: Record)
    ensures ParseRecord(s) == Some(r) <==> exists p :: Spelled(s, p) && RecordOf(p) == r
  {
    if ParseRecord(s) == Some(r) { var p := ParsedIsSpelled(s); }
    forall p | Spelled(s, p) ensures ParseRecord(s) == Some(RecordOf(p)) { SpelledIsParsed(s, p); }
  }

  // ----- The parser -----

  class Parser {
    const parse: Reader
    const quiet: int
    var fragment: bytes
    var lastDataAt: int
    var lastEmitted: Option<Record>

    // all text fed, every record looked at, and everything emitted
    ghost var text: bytes
    ghost var seen: seq<Record>
    ghost var emitted: seq<Record>

    ghost predicate Valid()
      reads this
    {
      && fragment == Tail(text) && emitted == Distinct(seen)
      && lastEmitted == if seen == [] then None else Some(seen[|seen| - 1])
    }

    constructor (parse: Reader, quiet: int)
      ensures Valid() && text == [] && seen == [] && this.parse == parse
    {
      this.parse, this.quiet := parse, if quiet < 0 then 0 else quiet;
      fragment, lastDataAt, lastEmitted := [], 0, None;
      text, seen, emitted := [], [], [];
    }

    /** Emit a record unless it repeats the last one. */
    method Emit(record: Option<Record>) returns (out: seq<Record>)
      requires Valid()
      modifies this`lastEmitted, this`seen, this`emitted
      ensures Valid() && emitted == old(emitted) + out
      ensures seen == old(seen) + if record.Some? then [record.value] else []
    {
      if record.None? { return []; }
      DistinctStep(seen, record.value);
      seen := seen + [record.value];
      if record == lastEmitted { return []; }
      emitted := emitted + [record.value];
      lastEmitted := record;
      return [record.value];
    }

    /** New output: every piece it completes is read and emitted. */
    method Feed(chunk: bytes, now: int) returns (out: seq<Record>)
      requires Valid()
      modifies this
      ensures Valid() && text == old(text) + chunk && emitted == old(emitted) + out
      ensures seen == old(seen) + Records(parse, Pieces(old(fragment) + chunk))
    {
      var pieces, tail := Split(fragment + chunk);
      SplitContinues(text, chunk);
      text := text + chunk;
      fragment, lastDataAt := tail, now;
      out := EmitAll(pieces);
    }

    method EmitAll(pieces: seq<bytes>) returns (out: seq<Record>)
      requires Valid()
      modifies this`lastEmitted, this`seen, this`emitted
      ensures Valid() && emitted == old(emitted) + out && seen == old(seen) + Records(parse, pieces)
    {
      out := [];
      for i := 0 to |pieces|
        invariant Valid() && emitted == old(emitted) + out && seen == old(seen) + Records(parse, pieces[..i])
      {
        var one := Emit(parse(pieces[i]));
        assert pieces[..i + 1] == pieces[..i] + [pieces[i]];
        RecordsStep(parse, pieces[..i], pieces[i]);
        Associate(old(seen), Records(parse, pieces[..i]), Read(parse, pieces[i]));
        Associate(old(emitted), out, one);
        out := out + one;
      }
      assert pieces[..|pieces|] == pieces;
    }

    /** After a quiet interval, or when forced, the tail is read as it stands. */
    method Poll(now: int, force: bool) returns (out: seq<Record>)
      requires Valid()
      modifies this`lastEmitted, this`seen, this`emitted
      ensures Valid() && emitted == old(emitted) + out
      ensures seen == old(seen) + if force || now - lastDataAt >= quiet then Read(parse, fragment) else []
    {
      if !force && now - lastDataAt < quiet { return []; }
      out := Emit(parse(fragment));
    }
  }

  // ----- Whole runs -----

  datatype Action = Feed(chunk: bytes) | Poll

  /** The text fed by a run, and every record it looks at.  A poll that comes too early looks
      at nothing and is left out. */
  function Fed(actions: seq<Action>): bytes {
    if actions == [] then []
    else
      var last := actions[|actions| - 1];
      Fed(actions[..|actions| - 1]) + if last.Feed? then last.chunk else []
  }

  function Observed(parse: Reader, actions: seq<Action>): seq<Record> {
    if actions == [] then []
    else
      var before, last := actions[..|actions| - 1], actions[|actions| - 1];
      Observed(parse, before)
      + if last.Feed? then Records(parse, Pieces(Tail(Fed(before)) + last.chunk)) else Read(parse, Tail(Fed(before)))
  }

  // ----- Polls that come too early -----

  function LastOf(rs: seq<Record>): Option<Record> { if rs == [] then None else Some(rs[|rs| - 1]) }

  function FirstOf(rs: seq<Record>): Option<Record> { if rs == [] then None else Some(rs[0]) }

  /** The record a poll in place `k` reads is none, or the last one seen, or the next one of
      the text: the first that the fragment and all later output hold. */
  ghost predicate PollOk(parse: Reader, actions: seq<Action>, k: nat)
    requires k < |actions|
  {
    var fragment := Tail(Fed(actions[..k]));
    var record := parse(fragment);
    || record.None? || record == LastOf(Observed(parse, actions[..k]))
    || record == FirstOf(AllRecords(parse, fragment + Fed(actions[k + 1..])))
  }

  ghost predicate PollsOk(parse: Reader, actions: seq<Action>, from: nat) {
    forall k :: from <= k < |actions| && actions[k].Poll? ==> PollOk(parse, actions, k)
  }

  /** A record looked at: one of the text, or an extra one that a poll has read. */
  datatype Mark = Mark(record: Record, extra: bool)

  function Marked(rs: seq<Record>, extra: bool): seq<Mark> {
    if rs == [] then [] else [Mark(rs[0], extra)] + Marked(rs[1..], extra)
  }

  function All(m: seq<Mark>): seq<Record> {
    if m == [] then [] else [m[0].record] + All(m[1..])
  }

  function Kept(m: seq<Mark>): seq<Record> {
    if m == [] then [] else (if m[0].extra then [] else [m[0].record]) + Kept(m[1..])
  }

  /** The records that differ from the one before; `last` is before the first. */
  function Changes(last: Option<Record>, rs: seq<Record>): seq<Record>
    decreases |rs|
  {
    if rs == [] then [] else (if last == Some(rs[0]) then [] else [rs[0]]) + Changes(Some(rs[0]), rs[1..])
  }

  lemma {:induction false} ChangesAppend(last: Option<Record>, a: seq<Record>, r: Record)
    ensures Changes(last, a + [r]) == Changes(last, a) + if (if a == [] then last else LastOf(a)) == Some(r) then [] else [r]
    decreases |a|
  {
    if a == [] {
      assert a + [r] == [r] && [r][1..] == [];
    } else {
      ChangesAppend(Some(a[0]), a[1..], r);
      assert (a + [r])[1..] == a[1..] + [r];
    }
  }

  lemma {:induction false} ChangesAreDistinct(rs: seq<Record>)
    ensures Changes(None, rs) == Distinct(rs)
    decreases |rs|
  {
    if rs != [] {
      var init, last := rs[..|rs| - 1], rs[|rs| - 1];
      assert rs == init + [last];
      ChangesAreDistinct(init);
      ChangesAppend(None, init, last);
      DistinctStep(init, last);
    }
  }

  /** Every extra record repeats the one before it or comes before its equal of the text. */
  ghost predicate Absorbed(last: Option<Record>, m: seq<Mark>)
    decreases |m|
  {
    m != [] ==>
      && (m[0].extra ==> last == Some(m[0].record) || FirstOf(Kept(m[1..])) == Some(m[0].record))
      && Absorbed(Some(m[0].record), m[1..])
  }

  /** Extra records change nothing exactly when they are absorbed; otherwise the result is
      longer.  `last` was seen last, `kept` is the last one of the text. */
  lemma {:induction false} ExtraRecords(last: Option<Record>, kept: Option<Record>, m: seq<Mark>)
    requires last.None? ==> kept.None?
    ensures var missing: nat := if last == kept then 0 else 1;
            && |Changes(last, All(m))| + missing >= |Changes(kept, Kept(m))|
            && (|Changes(last, All(m))| + missing == |Changes(kept, Kept(m))|
                <==> Absorbed(last, m) && (last == kept || FirstOf(Kept(m)) == last))
    ensures Absorbed(last, m) && last == kept ==> Changes(last, All(m)) == Changes(kept, Kept(m))
    ensures Absorbed(last, m) && last != kept && FirstOf(Kept(m)) == last ==>
              [last.value] + Changes(last, All(m)) == Changes(kept, Kept(m))
    decreases |m|
  {
    if m != [] {
      var r, rest := m[0].record, m[1..];
      assert All(m)[0] == r && All(m)[1..] == All(rest);
      if m[0].extra {
        assert Kept(m) == Kept(rest);
        ExtraRecords(Some(r), kept, rest);
      } else {
        assert Kept(m)[0] == r && Kept(m)[1..] == Kept(rest);
        ExtraRecords(Some(r), Some(r), rest);
      }
    }
  }

  // ----- The marks of a run -----

  /** The records a run looks at, from a given fragment on, its final poll included. */
  function Marks(parse: Reader, fragment: bytes, actions: seq<Action>): seq<Mark>
    decreases |actions|
  {
    if actions == [] then Marked(Read(parse, fragment), false)
    else
      match actions[0]
      case Feed(chunk) =>
        Marked(Records(parse, Pieces(fragment + chunk)), false) + Marks(parse, Tail(fragment + chunk), actions[1..])
      case Poll => Marked(Read(parse, fragment), true) + Marks(parse, fragment, actions[1..])
  }

  lemma MarkPlus(mark: Mark, m: seq<Mark>)
    ensures All([mark] + m) == [mark.record] + All(m)
    ensures Kept([mark] + m) == (if mark.extra then [] else [mark.record]) + Kept(m)
  {
    assert ([mark] + m)[1..] == m;
  }

  lemma MarkedFirst(rs: seq<Record>, extra: bool, m: seq<Mark>)
    requires rs != []
    ensures Marked(rs, extra) + m == [Mark(rs[0], extra)] + (Marked(rs[1..], extra) + m)
  {
    Associate([Mark(rs[0], extra)], Marked(rs[1..], extra), m);
  }

  lemma {:induction false} MarkedPlus(rs: seq<Record>, extra: bool, m: seq<Mark>)
    ensures All(Marked(rs, extra) + m) == rs + All(m)
    ensures Kept(Marked(rs, extra) + m) == (if extra then [] else rs) + Kept(m)
    decreases |rs|
  {
    if rs == [] {
      assert Marked(rs, extra) + m == m && rs + All(m) == All(m) && rs + Kept(m) == Kept(m);
    } else {
      hide *;
      MarkedFirst(rs, extra, m);
      MarkPlus(Mark(rs[0], extra), Marked(rs[1..], extra) + m);
      MarkedPlus(rs[1..], extra, m);
      assert rs == [rs[0]] + rs[1..];
      Associate([rs[0]], rs[1..], All(m));
      Associate([rs[0]], rs[1..], Kept(m));
      assert [] + ([] + Kept(m)) == [] + Kept(m);
    }
  }

  lemma {:induction false} KeptIsAbsorbed(last: Option<Record>, rs: seq<Record>, m: seq<Mark>)
    ensures Absorbed(last, Marked(rs, false) + m) <==> Absorbed(if rs == [] then last else LastOf(rs), m)
    decreases |rs|
  {
    if rs == [] {
      assert Marked(rs, false) + m == m;
    } else {
      var rest := Marked(rs[1..], false) + m;
      KeptIsAbsorbed(Some(rs[0]), rs[1..], m);
      AbsorbedStep(last, Mark(rs[0], false), rest);
      assert Marked(rs, false) + m == [Mark(rs[0], false)] + rest;
    }
  }

  lemma AbsorbedStep(last: Option<Record>, mark: Mark, rest: seq<Mark>)
    ensures Absorbed(last, [mark] + rest)
            <==> (mark.extra ==> last == Some(mark.record) || FirstOf(Kept(rest)) == Some(mark.record)) && Absorbed(Some(mark.record), rest)
  {
    var m := [mark] + rest;
    assert m[0] == mark && m[1..] == rest;
  }

  lemma {:induction false} FedFirst(actions: seq<Action>)
    requires actions != []
    ensures Fed(actions) == (if actions[0].Feed? then actions[0].chunk else []) + Fed(actions[1..])
    decreases |actions|
  {
    var init := actions[..|actions| - 1];
    if init == [] {
      assert actions[1..] == [];
    } else {
      FedFirst(init);
      assert init[1..] == actions[1..][..|actions[1..]| - 1] && init[0] == actions[0];
      var last := actions[|actions| - 1];
      Associate(if init[0].Feed? then init[0].chunk else [], Fed(init[1..]), if last.Feed? then last.chunk else []);
    }
  }

  lemma MarkedEnd(rs: seq<Record>)
    ensures All(Marked(rs, false)) == rs && Kept(Marked(rs, false)) == rs
    ensures forall last :: Absorbed(last, Marked(rs, false))
  {
    MarkedPlus(rs, false, []);
    forall last ensures Absorbed(last, Marked(rs, false) + []) { KeptIsAbsorbed(last, rs, []); }
    assert Marked(rs, false) + [] == Marked(rs, false) && rs + [] == rs;
  }

  lemma BatchGoesOn(parse: Reader, fragment: bytes, chunk: bytes, rest: bytes)
    ensures AllRecords(parse, fragment + (chunk + rest))
            == Records(parse, Pieces(fragment + chunk)) + AllRecords(parse, Tail(fragment + chunk) + rest)
  {
    var next := Tail(fragment + chunk);
    Associate(fragment, chunk, rest);
    SplitContinues(fragment + chunk, rest);
    hide Pieces, Tail, Records;
    RecordsAppend(parse, Pieces(fragment + chunk), Pieces(next + rest));
    Associate(Records(parse, Pieces(fragment + chunk)), Records(parse, Pieces(next + rest)), Read(parse, Tail(next + rest)));
  }

  /** The marks that count are the records of the whole text. */
  lemma {:induction false} KeptIsBatch(parse: Reader, fragment: bytes, actions: seq<Action>)
    requires Pieces(fragment) == [] && Tail(fragment) == fragment
    ensures Kept(Marks(parse, fragment, actions)) == AllRecords(parse, fragment + Fed(actions))
    decreases |actions|
  {
    if actions == [] {
      assert fragment + [] == fragment && Records(parse, []) + Read(parse, fragment) == Read(parse, fragment);
      MarkedEnd(Read(parse, fragment));
    } else {
      FedFirst(actions);
      hide Pieces, Tail, Records, Fed, Marked, Kept;
      var rest := actions[1..];
      match actions[0]
      case Feed(chunk) =>
        var next := Tail(fragment + chunk);
        TailHasNoPieces(fragment + chunk);
        KeptIsBatch(parse, next, rest);
        MarkedPlus(Records(parse, Pieces(fragment + chunk)), false, Marks(parse, next, rest));
        BatchGoesOn(parse, fragment, chunk, Fed(rest));
      case Poll =>
        KeptIsBatch(parse, fragment, rest);
        MarkedPlus(Read(parse, fragment), true, Marks(parse, fragment, rest));
        assert [] + Fed(rest) == Fed(rest) && [] + Kept(Marks(parse, fragment, rest)) == Kept(Marks(parse, fragment, rest));
    }
  }

  lemma Onward(actions: seq<Action>, i: nat)
    requires i < |actions|
    ensures actions[i..][0] == actions[i] && actions[i..][1..] == actions[i + 1..]
    ensures actions[..i + 1] == actions[..i] + [actions[i]]
  {
  }

  /** All marks of a run are what it looks at. */
  lemma {:induction false} AllIsObserved(parse: Reader, actions: seq<Action>, i: nat)
    requires i <= |actions|
    ensures Observed(parse, actions[..i]) + All(Marks(parse, Tail(Fed(actions[..i])), actions[i..]))
            == Observed(parse, actions) + Read(parse, Tail(Fed(actions)))
    decreases |actions| - i
  {
    var fragment := Tail(Fed(actions[..i]));
    if i == |actions| {
      assert actions[..i] == actions && actions[i..] == [];
      MarkedEnd(Read(parse, fragment));
    } else {
      Onward(actions, i);
      AllIsObserved(parse, actions, i + 1);
      ActionStep(parse, actions[..i], actions[i]);
      NextFragment(actions, i);
      var looked := if actions[i].Feed? then Records(parse, Pieces(fragment + actions[i].chunk)) else Read(parse, fragment);
      var later := Marks(parse, Tail(Fed(actions[..i + 1])), actions[i + 1..]);
      MarkedPlus(looked, actions[i].Poll?, later);
      Associate(Observed(parse, actions[..i]), looked, All(later));
    }
  }

  lemma NextFragment(actions: seq<Action>, i: nat)
    requires i < |actions|
    ensures Tail(Fed(actions[..i + 1]))
            == if actions[i].Feed? then Tail(Tail(Fed(actions[..i])) + actions[i].chunk) else Tail(Fed(actions[..i]))
  {
    Onward(actions, i);
    ActionStep(_ => None, actions[..i], actions[i]);
    if actions[i].Feed? {
      SplitContinues(Fed(actions[..i]), actions[i].chunk);
    } else {
      assert Fed(actions[..i]) + [] == Fed(actions[..i]);
    }
  }

  /** The marks from action `i` on are absorbed exactly when the polls from there on are. */
  lemma {:induction false} AbsorbedPolls(parse: Reader, actions: seq<Action>, i: nat)
    requires i <= |actions|
    ensures Absorbed(LastOf(Observed(parse, actions[..i])), Marks(parse, Tail(Fed(actions[..i])), actions[i..]))
            <==> PollsOk(parse, actions, i)
    decreases |actions| - i
  {
    hide AllRecords, Fed, Pieces, Tail, Records, Observed, Marked;
    var fragment, last := Tail(Fed(actions[..i])), LastOf(Observed(parse, actions[..i]));
    if i == |actions| {
      MarkedEnd(Read(parse, fragment));
    } else {
      Onward(actions, i);
      AbsorbedPolls(parse, actions, i + 1);
      ActionStep(parse, actions[..i], actions[i]);
      NextFragment(actions, i);
      var later := Marks(parse, Tail(Fed(actions[..i + 1])), actions[i + 1..]);
      if actions[i].Feed? {
        KeptIsAbsorbed(last, Records(parse, Pieces(fragment + actions[i].chunk)), later);
      } else {
        TailHasNoPieces(Fed(actions[..i]));
        KeptIsBatch(parse, fragment, actions[i + 1..]);
        AbsorbedPoll(parse, fragment, last, later);
      }
    }
  }

  lemma AbsorbedPoll(parse: Reader, fragment: bytes, last: Option<Record>, later: seq<Mark>)
    ensures var record := parse(fragment);
            Absorbed(last, Marked(Read(parse, fragment), true) + later)
            <==> (record.None? || record == last || record == FirstOf(Kept(later)))
                 && Absorbed(if record.Some? then record else last, later)
  {
    if parse(fragment).Some? {
      var mark := Mark(parse(fragment).value, true);
      assert Read(parse, fragment)[1..] == [] && Marked(Read(parse, fragment)[1..], true) == [];
      assert Marked(Read(parse, fragment), true) + later == [mark] + later;
      AbsorbedStep(last, mark, later);
    } else {
      assert Marked(Read(parse, fragment), true) + later == later;
    }
  }

  /** For every chunking of the output and all polls in between: the records emitted by the
      run and a final forced poll are those of the whole text without consecutive repeats
      exactly when every poll reads nothing, the last record again, or the next one of the
      text. */
  lemma FramingIsExact(parse: Reader, actions: seq<Action>)
    ensures Distinct(Observed(parse, actions + [Poll])) == Distinct(AllRecords(parse, Fed(actions))) <==> PollsOk(parse, actions, 0)
  {
    var m := Marks(parse, [], actions);
    ExtraRecords(None, None, m);
    assert actions[..0] == [] && actions[0..] == actions && [] + Fed(actions) == Fed(actions);
    KeptIsBatch(parse, [], actions);
    AllIsObserved(parse, actions, 0);
    AbsorbedPolls(parse, actions, 0);
    assert Observed(parse, []) + All(m) == All(m);
    ActionStep(parse, actions, Poll);
    ChangesAreDistinct(All(m));
    ChangesAreDistinct(Kept(m));
  }

  /** What a caller can check before a poll: it would emit nothing, because the fragment is no
      record or repeats the last one. */
  ghost predicate Silent(parse: Reader, actions: seq<Action>, k: nat)
    requires k < |actions|
  {
    var record := parse(Tail(Fed(actions[..k])));
    record.None? || record == LastOf(Observed(parse, actions[..k]))
  }

  /** Polls that would emit nothing, and polls after the last output, are harmless. */
  lemma SilentPollsAreHarmless(parse: Reader, actions: seq<Action>)
    requires forall k :: 0 <= k < |actions| && actions[k].Poll? ==> Silent(parse, actions, k) || Fed(actions[k + 1..]) == []
    ensures Distinct(Observed(parse, actions + [Poll])) == Distinct(AllRecords(parse, Fed(actions)))
  {
    hide Observed, Tail, AllRecords, Distinct;
    forall k | 0 <= k < |actions| && actions[k].Poll? ensures PollOk(parse, actions, k) {
      if Fed(actions[k + 1..]) == [] { LastPollIsOk(parse, actions, k); }
    }
    FramingIsExact(parse, actions);
  }

  lemma LastPollIsOk(parse: Reader, actions: seq<Action>, k: nat)
    requires k < |actions| && Fed(actions[k + 1..]) == []
    ensures PollOk(parse, actions, k)
  {
    var fragment := Tail(Fed(actions[..k]));
    TailHasNoPieces(Fed(actions[..k]));
    assert fragment + [] == fragment;
    assert Records(parse, []) + Read(parse, fragment) == Read(parse, fragment);
  }

  /** A tail taken at `n` is no record, or is a whole piece of the full text. */
  predicate Harmless(parse: Reader, full: bytes, n: nat) {
    n <= |full| && (parse(Tail(full[..n])).None? || n == |full| || IsBreak(full[n]))
  }

  ghost predicate PollsHarmless(parse: Reader, actions: seq<Action>, full: bytes) {
    forall k :: 0 <= k < |actions| && actions[k].Poll? ==> Harmless(parse, full, |Fed(actions[..k])|)
  }

  /** When a break follows, the tail is the next piece. */
  lemma TailFirst(parse: Reader, tail: bytes, rest: bytes)
    requires rest == [] || IsBreak(rest[0])
    requires Pieces(tail) == [] && Tail(tail) == tail && parse(tail).Some?
    ensures FirstOf(AllRecords(parse, tail + rest)) == parse(tail)
  {
    if rest == [] {
      assert tail + rest == tail;
    } else {
      var more := rest[1..];
      assert tail + rest == (tail + [rest[0]]) + more;
      SplitStep(tail, rest[0]);
      SplitContinues(tail + [rest[0]], more);
      RecordsAppend(parse, [tail], Pieces(Tail(tail + [rest[0]]) + more));
      RecordsStep(parse, [], tail);
      assert [] + [tail] == [tail];
    }
  }

  lemma {:induction false} FedSplits(actions: seq<Action>, k: nat)
    requires k <= |actions|
    ensures Fed(actions) == Fed(actions[..k]) + Fed(actions[k..])
    decreases |actions| - k
  {
    if k == |actions| {
      assert actions[..k] == actions && actions[k..] == [];
    } else {
      FedSplits(actions, k + 1);
      Onward(actions, k);
      FedFirst(actions[k..]);
      ActionStep(_ => None, actions[..k], actions[k]);
      Associate(Fed(actions[..k]), if actions[k].Feed? then actions[k].chunk else [], Fed(actions[k + 1..]));
    }
  }

  /** In particular polls are harmless when the fragment is no record, or turns out to be a
      whole one. */
  lemma FramingIsBatchSplit(parse: Reader, actions: seq<Action>)
    requires PollsHarmless(parse, actions, Fed(actions))
    ensures Distinct(Observed(parse, actions + [Poll])) == Distinct(AllRecords(parse, Fed(actions)))
  {
    hide Pieces, Tail, Records, Observed, AllRecords, Distinct, Harmless, PollOk;
    forall k | 0 <= k < |actions| && actions[k].Poll? ensures PollOk(parse, actions, k) {
      assert Harmless(parse, Fed(actions), |Fed(actions[..k])|);
      HarmlessIsOk(parse, actions, k);
    }
    FramingIsExact(parse, actions);
  }

  lemma HarmlessIsOk(parse: Reader, actions: seq<Action>, k: nat)
    requires k < |actions| && actions[k].Poll? && Harmless(parse, Fed(actions), |Fed(actions[..k])|)
    ensures PollOk(parse, actions, k)
  {
    var before, rest := Fed(actions[..k]), Fed(actions[k + 1..]);
    FedSplits(actions, k);
    Onward(actions, k);
    FedFirst(actions[k..]);
    hide Fed, Observed, AllRecords, Records, Pieces, Tail;
    assert Fed(actions) == before + rest;
    assert Fed(actions)[..|before|] == before && (rest != [] ==> Fed(actions)[|before|] == rest[0]);
    TailHasNoPieces(before);
    if parse(Tail(before)).Some? {
      TailFirst(parse, Tail(before), rest);
      NextIsSame(parse, actions, k, Tail(before), rest);
    }
  }

  method Perform(parser: Parser, ghost before: seq<Action>, action: Action, now: int) returns (out: seq<Record>)
    requires parser.Valid() && parser.text == Fed(before) && parser.seen == Observed(parser.parse, before)
    modifies parser
    ensures parser.Valid() && parser.emitted == old(parser.emitted) + out
    ensures parser.text == Fed(before + [action]) && parser.seen == Observed(parser.parse, before + [action])
  {
    ActionStep(parser.parse, before, action);
    assert parser.text + [] == parser.text;
    match action {
      case Feed(chunk) => out := parser.Feed(chunk, now);
      case Poll => out := parser.Poll(now, true);
    }
  }

  /** Drive a fresh parser through a run and its forced final poll. */
  method Drive(parser: Parser, actions: seq<Action>) returns (out: seq<Record>)
    requires parser.Valid() && parser.text == [] && parser.seen == []
    modifies parser
    ensures out == Distinct(Observed(parser.parse, actions + [Poll]))
    ensures out == Distinct(AllRecords(parser.parse, Fed(actions))) <==> PollsOk(parser.parse, actions, 0)
  {
    out := PerformAll(parser, actions);
    var last := Perform(parser, actions, Poll, |actions|);
    out := out + last;
    FramingIsExact(parser.parse, actions);
  }

  method PerformAll(parser: Parser, actions: seq<Action>) returns (out: seq<Record>)
    requires parser.Valid() && parser.text == [] && parser.seen == []
    modifies parser
    ensures parser.Valid() && parser.text == Fed(actions) && parser.seen == Observed(parser.parse, actions)
    ensures out == parser.emitted
  {
    out := [];
    for i := 0 to |actions|
      invariant parser.Valid() && parser.text == Fed(actions[..i]) && parser.seen == Observed(parser.parse, actions[..i])
      invariant out == parser.emitted
    {
      var one := Perform(parser, actions[..i], actions[i], i);
      assert actions[..i + 1] == actions[..i] + [actions[i]];
      out := out + one;
    }
    assert actions[..|actions|] == actions;
  }

  /** A poll that is not harmless can invent a record: if "1/2" arrives, is polled, and then
      becomes "1/20", both are emitted though the text holds only the second. */
  lemma EarlyPollInvents(parse: Reader, a: bytes, c: byte)
    requires Pieces(a) == [] && Tail(a) == a && !IsBreak(c)
    requires parse(a).Some? && parse(a + [c]).Some? && parse(a) != parse(a + [c])
    ensures var run := [Feed(a), Poll] + [Feed([c])] + [Poll];
            && Distinct(Observed(parse, run)) == [parse(a).value, parse(a + [c]).value]
            && AllRecords(parse, Fed(run)) == [parse(a + [c]).value]
  {
    FirstTwo(parse, a);
    LastTwo(parse, a, c, [Feed(a), Poll]);
    SplitStep(a, c);
    TwoDiffer(parse(a).value, parse(a + [c]).value);
  }

  /** "denoise" */
  function Phase(): bytes { Ascii("denoise") }

  /** "denoise 1/": the parts of a record before its total. */
  function Front(): bytes { [] + Phase() + [SPACE] + [0x31] + [] + [SLASH] + [] }

  /** "denoise 1/" with the digits of a total. */
  function Denoise(total: bytes): bytes { Front() + total }

  lemma PhaseIsName()
    ensures IsName(Phase())
  {
  }

  lemma NumberIsUnbroken(total: bytes)
    requires Number(total)
    ensures forall i :: 0 <= i < |Denoise(total)| ==> !IsBreak(Denoise(total)[i])
  {
    var phase := Phase();
    PhaseIsName();
    hide Phase;
    assert Front() == phase + [SPACE, 0x31, SLASH];
  }

  lemma {:induction false} UnbrokenTail(s: bytes)
    requires forall i :: 0 <= i < |s| ==> !IsBreak(s[i])
    ensures Pieces(s) == [] && Tail(s) == s
    decreases |s|
  {
    if s != [] {
      UnbrokenTail(s[..|s| - 1]);
      assert s == s[..|s| - 1] + [s[|s| - 1]];
    }
  }

  lemma DenoiseParses(total: bytes, trail: bytes)
    requires Number(total) && Blanks(trail)
    ensures ParseRecord(Denoise(total) + trail) == Some(Record(Phase(), 1, Frames.DecimalValue(total)))
  {
    hide Phase, IsName, ParseRecord, Number, Blanks, Frames.DecimalValue;
    PhaseIsName();
    OneDigit(0x31);
    NoBlanks();
    SpelledIsParsed(Denoise(total) + trail, Spelling([], Phase(), [SPACE], [0x31], [], [], total, trail));
  }

  lemma NoBlanks()
    ensures Blanks([]) && Blanks([SPACE])
  {
  }

  lemma OneDigit(c: byte)
    requires IsDigit(c)
    ensures Number([c]) && Frames.DecimalValue([c]) == c - 0x30
  {
    assert [c][..0] == [];
  }

  lemma TwoDigits(c: byte, d: byte)
    requires IsDigit(c) && IsDigit(d)
    ensures Number([c, d]) && Frames.DecimalValue([c, d]) == 10 * (c - 0x30) + (d - 0x30)
  {
    OneDigit(c);
    assert [c, d][..1] == [c];
  }

  /** "denoise 1/2" is one unterminated piece; it, the same with a blank, and "denoise 1/20"
      are records. */
  lemma DenoiseRecords()
    ensures var a := Denoise([0x32]);
            && Pieces(a) == [] && Tail(a) == a && ParseRecord(a) == Some(Record(Phase(), 1, 2))
            && ParseRecord(a + [0x30]) == Some(Record(Phase(), 1, 20))
            && ParseRecord(a + [SPACE]) == Some(Record(Phase(), 1, 2))
  {
    hide Phase, IsName, ParseRecord, Front, Number, Blanks, Pieces, Tail, Frames.DecimalValue;
    OneDigit(0x32);
    TwoDigits(0x32, 0x30);
    NoBlanks();
    NumberIsUnbroken([0x32]);
    UnbrokenTail(Denoise([0x32]));
    DenoiseParses([0x32], []);
    DenoiseParses([0x32, 0x30], []);
    DenoiseParses([0x32], [SPACE]);
    Associate(Front(), [0x32], [0x30]);
    assert [0x32] + [0x30] == [0x32, 0x30];
    assert Denoise([0x32]) + [] == Denoise([0x32]) && Denoise([0x32, 0x30]) + [] == Denoise([0x32, 0x30]);
  }

  /** With the pattern of the native program: "denoise 1/2" is polled, then a "0" arrives.
      Both records come out, though the text is "denoise 1/20". */
  lemma EarlyPollInventsDenoise()
    ensures var run := [Feed(Denoise([0x32])), Poll] + [Feed([0x30])] + [Poll];
            && Distinct(Observed(ParseRecord, run)) == [Record(Phase(), 1, 2), Record(Phase(), 1, 20)]
            && AllRecords(ParseRecord, Fed(run)) == [Record(Phase(), 1, 20)]
  {
    DenoiseRecords();
    hide Phase, ParseRecord, Denoise;
    EarlyPollInvents(ParseRecord, Denoise([0x32]), 0x30);
  }

  /** A poll of a record that stays the same when one more byte arrives is harmless. */
  lemma EarlyPollAbsorbed(parse: Reader, a: bytes, c: byte)
    requires Pieces(a) == [] && Tail(a) == a && !IsBreak(c) && parse(a).Some? && parse(a + [c]) == parse(a)
    ensures var run := [Feed(a), Poll, Feed([c])];
            Distinct(Observed(parse, run + [Poll])) == Distinct(AllRecords(parse, Fed(run)))
  {
    var run := [Feed(a), Poll, Feed([c])];
    SplitStep(a, c);
    assert AllRecords(parse, a + [c]) == [] + [parse(a).value];
    OnePoll(a, c);
    hide Fed, Observed, AllRecords, Records, Pieces, Tail, Distinct, PollOk;
    NextIsSame(parse, run, 1, a, [c]);
    FramingIsExact(parse, run);
  }

  lemma OnePoll(a: bytes, c: byte)
    ensures var run := [Feed(a), Poll, Feed([c])]; Fed(run[..1]) == a && Fed(run[2..]) == [c]
  {
    var run := [Feed(a), Poll, Feed([c])];
    assert run[..1] == [] + [Feed(a)] && run[2..] == [] + [Feed([c])];
    ActionStep(_ => None, [], Feed(a));
    ActionStep(_ => None, [], Feed([c]));
    assert [] + a == a && [] + [c] == [c];
  }

  lemma NextIsSame(parse: Reader, actions: seq<Action>, k: nat, fragment: bytes, rest: bytes)
    requires k < |actions| && Tail(Fed(actions[..k])) == fragment && Fed(actions[k + 1..]) == rest
    requires FirstOf(AllRecords(parse, fragment + rest)) == parse(fragment)
    ensures PollOk(parse, actions, k)
  {
  }

  /** So the same poll is harmless when a blank arrives instead of the digit. */
  lemma EarlyPollBeforeBlank()
    ensures var run := [Feed(Denoise([0x32])), Poll, Feed([SPACE])];
            Distinct(Observed(ParseRecord, run + [Poll])) == Distinct(AllRecords(ParseRecord, Fed(run)))
  {
    DenoiseRecords();
    hide Phase, ParseRecord, Denoise;
    EarlyPollAbsorbed(ParseRecord, Denoise([0x32]), SPACE);
  }

  lemma TwoDiffer(first: Record, second: Record)
    requires first != second
    ensures Distinct([first] + [second]) == [first, second]
  {
    DistinctStep([first], second);
    DistinctStep([], first);
    assert [] + [first] == [first];
  }

  lemma FirstTwo(parse: Reader, a: bytes)
    requires Pieces(a) == [] && Tail(a) == a && parse(a).Some?
    ensures Fed([Feed(a), Poll]) == a && Observed(parse, [Feed(a), Poll]) == [parse(a).value]
  {
    ActionStep(parse, [], Feed(a));
    ActionStep(parse, [Feed(a)], Poll);
    assert [] + [Feed(a)] == [Feed(a)] && [Feed(a)] + [Poll] == [Feed(a), Poll];
    assert [] + a == a && a + [] == a;
  }

  lemma LastTwo(parse: Reader, a: bytes, c: byte, before: seq<Action>)
    requires Pieces(a) == [] && Tail(a) == a && !IsBreak(c) && parse(a + [c]).Some? && Fed(before) == a
    ensures Fed(before + [Feed([c])] + [Poll]) == a + [c]
    ensures Observed(parse, before + [Feed([c])] + [Poll]) == Observed(parse, before) + [parse(a + [c]).value]
  {
    SplitStep(a, c);
    ActionStep(parse, before, Feed([c]));
    ActionStep(parse, before + [Feed([c])], Poll);
    assert a + [c] + [] == a + [c] && Observed(parse, before) + [] == Observed(parse, before);
  }

  lemma ActionStep(parse: Reader, actions: seq<Action>, a: Action)
    ensures Fed(actions + [a]) == Fed(actions) + if a.Feed? then a.chunk else []
    ensures Observed(parse, actions + [a])
            == Observed(parse, actions)
               + if a.Feed? then Records(parse, Pieces(Tail(Fed(actions)) + a.chunk)) else Read(parse, Tail(Fed(actions)))
  {
    assert (actions + [a])[..|actions|] == actions;
  }
}
