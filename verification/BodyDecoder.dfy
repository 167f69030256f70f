/** The worker's request body: one JSON string read from a pipe in arbitrary pieces.

    The envelope on the wire is a quoted string, a closing brace and a newline.  The
    worker decodes it byte by byte and keeps an unfinished escape or UTF-8 scalar in a
    small unit buffer across reads.  `Accepts` is the whole-input definition, written with
    the one-shot string decoder; `WorkerBody` is proved to meet it for every way the
    bytes can be cut into reads. */
module BodyDecoder {
  import opened Prelude
  import opened WireString

  const BODY_MAX: nat := 16 * 1024 * 1024
  const WIRE_MAX: nat := 6 * BODY_MAX + 4
  const INPUT_SIZE: nat := 16384
  const BRACE: byte := 0x7d
  const NEWLINE: byte := 0x0a

  /** What the worker answers. */
  datatype Verdict = Body(body: bytes) | NotAnObject | Oversized | Invalid

  // ----- The whole-input definition -----

  /** `wire` is an opening quote, string content that decodes to `body`, and `tail`. */
  ghost predicate Reads(wire: bytes, content: bytes, tail: bytes, body: bytes) {
    wire == [QUOTE] + content + tail && DecodeContent(content) == Some(body)
  }

  ghost predicate ReadsAs(wire: bytes, tail: bytes, body: bytes) {
    |body| <= BODY_MAX && exists content :: Reads(wire, content, tail, body)
  }

  /** `wire` is an envelope whose string decodes to `body`, within the limit. */
  ghost predicate Accepts(wire: bytes, body: bytes) {
    ReadsAs(wire, [QUOTE, BRACE, NEWLINE], body)
  }

  function Concat(pieces: seq<bytes>): bytes {
    if pieces == [] then [] else Concat(pieces[..|pieces| - 1]) + pieces[|pieces| - 1]
  }

  // ----- The byte automaton -----

  /** How many bytes the pending unit needs before it can be decoded; fixed by the
      bytes seen so far. */
  function Need(pending: bytes): nat
    requires |pending| >= 1
  {
    if pending[0] == BACKSLASH then
      if |pending| < 2 || pending[1] != 0x75 then 2
      else if |pending| >= 6 && Hex4(pending[2..]).Some? && HighSurrogate(Hex4(pending[2..]).value) then 12
      else 6
    else LeadLength(pending[0])
  }

  datatype State =
    | Start
    | InString(body: bytes, pending: bytes)
    | AfterString(body: bytes)
    | AfterBrace(body: bytes)
    | Complete(body: bytes)
    | Failed(oversized: bool)

  function Feed(body: bytes, pending: bytes): State
    requires |pending| >= 1
  {
    if |pending| != Need(pending) then InString(body, pending)
    else
      match DecodeContent(pending)
      case None => Failed(false)
      case Some(text) =>
        if |text| > BODY_MAX - |body| then Failed(true) else InString(body + text, [])
  }

  function Step(state: State, c: byte): State {
    match state
    case Start => if c == QUOTE then InString([], []) else Failed(false)
    case AfterString(body) => if c == BRACE then AfterBrace(body) else Failed(false)
    case AfterBrace(body) => if c == NEWLINE then Complete(body) else Failed(false)
    case Complete(_) => Failed(false)
    case Failed(_) => state
    case InString(body, pending) =>
      if pending != [] then Feed(body, pending + [c])
      else if c == QUOTE then AfterString(body)
      else if c < 0x20 then Failed(false)
      else if c < 0x80 && c != BACKSLASH then
        if |body| >= BODY_MAX then Failed(true) else InString(body + [c], [])
      else if Need([c]) == 0 then Failed(false)
      else Feed(body, [c])
  }

  function Run(state: State, s: bytes): State {
    if s == [] then state else Step(Run(state, s[..|s| - 1]), s[|s| - 1])
  }

  lemma {:induction false} RunAppend(state: State, a: bytes, b: bytes)
    ensures Run(state, a + b) == Run(Run(state, a), b)
    decreases |b|
  {
    if b == [] {
      assert a + b == a;
    } else {
      assert (a + b)[..|a + b| - 1] == a + b[..|b| - 1];
      RunAppend(state, a, b[..|b| - 1]);
    }
  }

  // ----- Soundness: what a state says about the bytes that led to it -----

  /** `wire` read so far explains `state`. */
  ghost predicate Explains(state: State, wire: bytes) {
    match state
    case Start => wire == []
    case InString(body, pending) =>
      (pending != [] ==> |pending| < Need(pending) && |pending| < 12) && ReadsAs(wire, pending, body)
    case AfterString(body) => ReadsAs(wire, [QUOTE], body)
    case AfterBrace(body) => ReadsAs(wire, [QUOTE, BRACE], body)
    case Complete(body) => Accepts(wire, body)
    case Failed(_) => true
  }

  lemma TailGrows(wire: bytes, tail: bytes, body: bytes, c: byte)
    requires ReadsAs(wire, tail, body)
    ensures ReadsAs(wire + [c], tail + [c], body)
  {
    var content :| Reads(wire, content, tail, body);
    assert [QUOTE] + content + tail + [c] == [QUOTE] + content + (tail + [c]);
    assert Reads(wire + [c], content, tail + [c], body);
  }

  lemma MoveTail(content: bytes, tail: bytes)
    ensures [QUOTE] + content + tail == [QUOTE] + (content + tail) + []
  {
  }

  /** A decoded tail becomes part of the content. */
  lemma TailDecodes(wire: bytes, tail: bytes, body: bytes, text: bytes)
    requires ReadsAs(wire, tail, body)
    requires DecodeContent(tail) == Some(text) && |body| + |text| <= BODY_MAX
    ensures ReadsAs(wire, [], body + text)
  {
    var content :| Reads(wire, content, tail, body);
    DecodePair(content, tail, body, text);
    MoveTail(content, tail);
    assert Reads(wire, content + tail, [], body + text);
  }

  lemma FeedExplained(body: bytes, pending: bytes, wire: bytes)
    requires 1 <= |pending| <= 12 && |pending| <= Need(pending) <= 12
    requires ReadsAs(wire, pending, body)
    ensures Explains(Feed(body, pending), wire)
  {
    if |pending| == Need(pending) && DecodeContent(pending).Some? && |DecodeContent(pending).value| <= BODY_MAX - |body| {
      TailDecodes(wire, pending, body, DecodeContent(pending).value);
    }
  }

  /** Adding one byte to an unfinished unit never overshoots its need. */
  lemma NeedIsStable(pending: bytes, c: byte)
    requires |pending| >= 1 && |pending| < Need(pending)
    ensures |pending + [c]| <= Need(pending + [c]) <= 12
  {
    var longer := pending + [c];
    if pending[0] == BACKSLASH && |pending| >= 2 {
      assert longer[1] == pending[1];
      if |pending| >= 6 {
        assert Hex4(longer[2..]) == Hex4(pending[2..]);
      }
    }
  }

  lemma InStringStepExplained(body: bytes, pending: bytes, wire: bytes, c: byte)
    requires Explains(InString(body, pending), wire)
    ensures Explains(Step(InString(body, pending), c), wire + [c])
  {
    TailGrows(wire, pending, body, c);
    if pending != [] {
      NeedIsStable(pending, c);
      FeedExplained(body, pending + [c], wire + [c]);
    } else {
      assert pending + [c] == [c];
      if 0x20 <= c < 0x80 && c != BACKSLASH && c != QUOTE {
        DecodeOne([c]);
        if |body| < BODY_MAX { TailDecodes(wire + [c], [c], body, [c]); }
      } else if c >= 0x20 && c != QUOTE && Need([c]) != 0 {
        FeedExplained(body, [c], wire + [c]);
      }
    }
  }

  lemma StepExplained(state: State, wire: bytes, c: byte)
    requires Explains(state, wire)
    ensures Explains(Step(state, c), wire + [c])
  {
    match state
    case Start =>
      assert wire + [c] == [c];
      assert Reads([QUOTE], [], [], []);
    case InString(body, pending) => InStringStepExplained(body, pending, wire, c);
    case AfterString(body) =>
      TailGrows(wire, [QUOTE], body, c);
      assert [QUOTE] + [BRACE] == [QUOTE, BRACE];
    case AfterBrace(body) =>
      TailGrows(wire, [QUOTE, BRACE], body, c);
      assert [QUOTE, BRACE] + [NEWLINE] == [QUOTE, BRACE, NEWLINE];
    case Complete(_) =>
    case Failed(_) =>
  }

  lemma {:induction false} RunExplained(wire: bytes)
    ensures Explains(Run(Start, wire), wire)
    decreases |wire|
  {
    if wire != [] {
      var n := |wire| - 1;
      RunExplained(wire[..n]);
      StepExplained(Run(Start, wire[..n]), wire[..n], wire[n]);
      assert wire[..n] + [wire[n]] == wire;
    }
  }

  // ----- Completeness: an acceptable envelope is never refused -----

  /** A complete unit is recognised at its last byte and not before. */
  lemma NeedOfUnit(s: bytes, k: nat)
    requires |s| >= 1 && FirstUnit(s).Some?
    requires s[0] == BACKSLASH || s[0] >= 0x80
    requires 1 <= k <= FirstUnit(s).value.taken
    ensures Need(s[..k]) == k <==> k == FirstUnit(s).value.taken
    ensures Need(s[..k]) != 0
  {
    var u := s[..k];
    assert u[0] == s[0];
    if s[0] == BACKSLASH && k >= 2 {
      assert u[1] == s[1];
      if k >= 6 {
        assert Hex4(u[2..]) == Hex4(s[2..]);
      }
    }
  }

  lemma FeedUnit(body: bytes, s: bytes, k: nat)
    requires |s| >= 1 && FirstUnit(s).Some?
    requires s[0] == BACKSLASH || s[0] >= 0x80
    requires |body| + |FirstUnit(s).value.text| <= BODY_MAX
    requires 1 <= k <= FirstUnit(s).value.taken
    ensures Feed(body, s[..k]) == AfterBytes(body, s, k)
  {
    NeedOfUnit(s, k);
    if k == FirstUnit(s).value.taken {
      FirstUnitOfItsBytes(s);
      DecodeOne(s[..k]);
    }
  }

  /** State after `k` bytes of the unit at the front of `s`. */
  function AfterBytes(body: bytes, s: bytes, k: nat): State
    requires |s| >= 1 && FirstUnit(s).Some?
    requires k <= FirstUnit(s).value.taken
  {
    if k == FirstUnit(s).value.taken then InString(body + FirstUnit(s).value.text, []) else InString(body, s[..k])
  }

  /** Feeding one whole unit from a clean position. */
  lemma {:induction false} RunUnit(body: bytes, s: bytes, k: nat)
    requires |s| >= 1 && FirstUnit(s).Some?
    requires |body| + |FirstUnit(s).value.text| <= BODY_MAX
    requires k <= FirstUnit(s).value.taken
    ensures Run(InString(body, []), s[..k]) == AfterBytes(body, s, k)
    decreases k
  {
    if k > 0 {
      RunUnit(body, s, k - 1);
      assert s[..k][..k - 1] == s[..k - 1] && s[..k - 1] + [s[k - 1]] == s[..k];
      if s[0] == BACKSLASH || s[0] >= 0x80 {
        FeedUnit(body, s, k);
        if k == 1 { NeedOfUnit(s, 1); }
      }
    }
  }

  lemma {:induction false} RunContent(body: bytes, s: bytes)
    requires DecodeContent(s).Some?
    requires |body| + |DecodeContent(s).value| <= BODY_MAX
    ensures Run(InString(body, []), s) == InString(body + DecodeContent(s).value, [])
    decreases |s|
  {
    hide FirstUnit, Feed, Step;
    if s == [] {
      assert body + [] == body;
    } else {
      var unit := FirstUnit(s).value;
      RunUnit(body, s, unit.taken);
      RunContent(body + unit.text, s[unit.taken..]);
      assert s == s[..unit.taken] + s[unit.taken..];
      RunAppend(InString(body, []), s[..unit.taken], s[unit.taken..]);
      Associate(body, unit.text, DecodeContent(s[unit.taken..]).value);
    }
  }

  lemma RunEnvelope(wire: bytes, content: bytes, body: bytes)
    requires Reads(wire, content, [QUOTE, BRACE, NEWLINE], body) && |body| <= BODY_MAX
    ensures Run(Start, wire) == Complete(body)
  {
    RunContent([], content);
    assert [] + body == body;
    RunAppend(Start, [QUOTE], content);
    RunAppend(Start, [QUOTE] + content, [QUOTE, BRACE, NEWLINE]);
    assert [QUOTE][..0] == [] && [QUOTE, BRACE, NEWLINE][..2] == [QUOTE, BRACE] && [QUOTE, BRACE][..1] == [QUOTE];
    assert Run(Start, [QUOTE]) == InString([], []);
    var afterContent := Run(Start, [QUOTE] + content);
    assert afterContent == InString(body, []);
    assert Run(afterContent, [QUOTE]) == AfterString(body);
    assert Run(afterContent, [QUOTE, BRACE]) == AfterBrace(body);
  }

  /** The automaton and the whole-input definition accept the same bytes with the same body. */
  lemma CompleteExactlyWhenAccepted(wire: bytes, body: bytes)
    ensures Run(Start, wire) == Complete(body) <==> Accepts(wire, body)
  {
    RunExplained(wire);
    if Accepts(wire, body) {
      var content :| Reads(wire, content, [QUOTE, BRACE, NEWLINE], body);
      RunEnvelope(wire, content, body);
    }
  }

  /** At most one body can be read out of given wire bytes. */
  lemma AcceptedBodyUnique(wire: bytes, a: bytes, b: bytes)
    requires Accepts(wire, a) && Accepts(wire, b)
    ensures a == b
  {
    CompleteExactlyWhenAccepted(wire, a);
    CompleteExactlyWhenAccepted(wire, b);
  }

  /** The wire limit leaves room for every body within the decoded limit. */
  lemma WireLimitNeverBinds(wire: bytes, body: bytes)
    requires Accepts(wire, body)
    ensures |wire| <= WIRE_MAX
  {
    var content :| Reads(wire, content, [QUOTE, BRACE, NEWLINE], body);
    DecodeRatio(content);
  }

  // ----- Reads -----

  /** Some sequence of whole reads makes up an acceptable envelope. */
  ghost predicate AcceptsReads(input: seq<bytes>, body: bytes) {
    exists k :: 0 <= k <= |input| && Accepts(Concat(input[..k]), body)
  }

  lemma {:induction false} ConcatPrefix(input: seq<bytes>, j: nat, k: nat)
    requires j <= k <= |input|
    ensures |Concat(input[..j])| <= |Concat(input[..k])|
    ensures Concat(input[..j]) == Concat(input[..k])[..|Concat(input[..j])|]
    decreases k
  {
    if j < k {
      ConcatPrefix(input, j, k - 1);
      assert input[..k][..k - 1] == input[..k - 1];
    }
  }

  lemma DeadStep(s: bytes, c: byte)
    requires Run(Start, s).Failed? || Run(Start, s).Complete?
    ensures Run(Start, s + [c]) == if Run(Start, s).Failed? then Run(Start, s) else Failed(false)
  {
    assert (s + [c])[..|s + [c]| - 1] == s;
  }

  /** A prefix that has failed, or is already complete, cannot be extended to an envelope,
      and the kind of failure stays. */
  lemma {:induction false} DeadPrefix(wire: bytes, n: nat)
    requires n < |wire|
    requires Run(Start, wire[..n]).Failed? || Run(Start, wire[..n]).Complete?
    ensures Run(Start, wire) == if Run(Start, wire[..n]).Failed? then Run(Start, wire[..n]) else Failed(false)
    decreases |wire|
  {
    var s, c := wire[..|wire| - 1], wire[|wire| - 1];
    assert wire == s + [c];
    if n < |s| {
      assert s[..n] == wire[..n];
      DeadPrefix(s, n);
    } else {
      assert s == wire[..n];
    }
    DeadStep(s, c);
  }

  /** The bytes `prefix` decode past the body limit. */
  ghost predicate RunsOver(prefix: bytes) {
    Run(Start, prefix) == Failed(true)
  }

  ghost predicate GoesOver(wire: bytes) {
    exists n :: 0 <= n <= |wire| && RunsOver(wire[..n])
  }

  /** Bytes that fail otherwise, complete, or are read to the end without failing never
      pass the limit. */
  lemma NeverOver(wire: bytes, r: nat)
    requires r <= |wire|
    requires var s := Run(Start, wire[..r]); s == Failed(false) || s.Complete? || (r == |wire| && !s.Failed?)
    ensures !GoesOver(wire)
  {
    forall n | 0 <= n <= |wire| ensures !RunsOver(wire[..n]) {
      if n < r && RunsOver(wire[..n]) {
        assert wire[..r][..n] == wire[..n];
        DeadPrefix(wire[..r], n);
      } else if r < n {
        assert wire[..n][..r] == wire[..r];
        DeadPrefix(wire[..n], r);
      }
    }
  }

  /** None of the first `k` reads completes an acceptable envelope. */
  ghost predicate NoneAccepted(input: seq<bytes>, k: nat)
    requires k <= |input|
  {
    forall j, body :: 0 <= j <= k ==> !Accepts(Concat(input[..j]), body)
  }

  lemma NothingRead(input: seq<bytes>)
    ensures Concat(input[..0]) == [] && Run(Start, Concat(input[..0])) == Start && NoneAccepted(input, 0)
  {
  }

  lemma AllRead(input: seq<bytes>)
    requires NoneAccepted(input, |input|)
    ensures forall body :: !AcceptsReads(input, body)
  {
  }

  lemma NotYet(input: seq<bytes>, k: nat)
    requires k < |input| && NoneAccepted(input, k)
    requires !Run(Start, Concat(input[..k + 1])).Complete?
    ensures NoneAccepted(input, k + 1)
  {
    forall j, body | 0 <= j <= k + 1 ensures !Accepts(Concat(input[..j]), body) {
      CompleteExactlyWhenAccepted(Concat(input[..j]), body);
    }
  }

  /** The read that would pass the wire limit rules out every envelope. */
  lemma OverlongReads(input: seq<bytes>, k: nat)
    requires k < |input| && NoneAccepted(input, k)
    requires |Concat(input[..k + 1])| > WIRE_MAX
    ensures forall body :: !AcceptsReads(input, body)
  {
    forall j, body | 0 <= j <= |input| ensures !Accepts(Concat(input[..j]), body) {
      if j > k && Accepts(Concat(input[..j]), body) {
        ConcatPrefix(input, k + 1, j);
        WireLimitNeverBinds(Concat(input[..j]), body);
      }
    }
  }

  lemma WholePrefix(input: seq<bytes>, k: nat, n: nat, j: nat)
    requires k < j <= |input| && n <= |input[k]|
    ensures var read := Concat(input[..k]) + input[k][..n];
            |read| <= |Concat(input[..j])| && Concat(input[..j])[..|read|] == read
  {
    assert input[..k + 1][..k] == input[..k];
    var upTo, whole, read := Concat(input[..k + 1]), Concat(input[..j]), Concat(input[..k]) + input[k][..n];
    ConcatPrefix(input, k + 1, j);
    assert upTo[..|read|] == read;
    assert whole[..|read|] == whole[..|upTo|][..|read|];
  }

  /** A failure inside read `k`, or bytes after the envelope in it, rule out every envelope. */
  lemma DeadInside(input: seq<bytes>, k: nat, n: nat)
    requires k < |input| && NoneAccepted(input, k) && n <= |input[k]|
    requires var s := Run(Start, Concat(input[..k]) + input[k][..n]);
             s.Failed? || (s.Complete? && n < |input[k]|)
    ensures forall body :: !AcceptsReads(input, body)
  {
    var read := Concat(input[..k]) + input[k][..n];
    forall j, body | 0 <= j <= |input| ensures !Accepts(Concat(input[..j]), body) {
      if j > k {
        var wire := Concat(input[..j]);
        WholePrefix(input, k, n, j);
        WholePrefix(input, k, |input[k]|, j);
        CompleteExactlyWhenAccepted(wire, body);
        if |read| < |wire| { DeadPrefix(wire, |read|); } else { assert wire[..|read|] == wire; }
      }
    }
  }

  /** The envelope that completes with read `k` is the only one. */
  lemma AcceptedHere(input: seq<bytes>, k: nat, body: bytes)
    requires k < |input| && NoneAccepted(input, k)
    requires forall j :: 0 <= j < |input| ==> input[j] != []
    requires Run(Start, Concat(input[..k + 1])) == Complete(body)
    ensures forall b :: AcceptsReads(input, b) <==> b == body
  {
    var wire := Concat(input[..k + 1]);
    CompleteExactlyWhenAccepted(wire, body);
    forall j, b | 0 <= j <= |input| && Accepts(Concat(input[..j]), b) ensures b == body {
      var longer := Concat(input[..j]);
      CompleteExactlyWhenAccepted(longer, b);
      if j > k + 1 {
        ConcatPrefix(input, k + 1, j - 1);
        assert input[..j][..j - 1] == input[..j - 1];
        assert longer[..|wire|] == wire;
        DeadPrefix(longer, |wire|);
      }
    }
  }

  /** No envelope is completed before the last byte: nothing follows the newline. */
  ghost predicate NothingAfterEnvelope(wire: bytes) {
    forall n :: 0 <= n < |wire| ==> !Run(Start, wire[..n]).Complete?
  }

  lemma ProperPrefix(input: seq<bytes>, k: nat)
    requires k < |input| && forall j :: 0 <= j < |input| ==> input[j] != []
    ensures |Concat(input[..k])| < |Concat(input)|
    ensures Concat(input[..k]) == Concat(input)[..|Concat(input[..k])|]
  {
    assert input[..|input|] == input;
    ConcatPrefix(input, k, |input| - 1);
    ConcatPrefix(input, k, |input|);
  }

  /** For an envelope that ends at its newline the cut into reads is irrelevant. */
  lemma FragmentationIndependent(input: seq<bytes>, body: bytes)
    requires forall j :: 0 <= j < |input| ==> input[j] != []
    requires NothingAfterEnvelope(Concat(input))
    ensures AcceptsReads(input, body) <==> Accepts(Concat(input), body)
  {
    assert input[..|input|] == input;
    forall k | 0 <= k < |input| ensures !Accepts(Concat(input[..k]), body) {
      ProperPrefix(input, k);
      CompleteExactlyWhenAccepted(Concat(input[..k]), body);
    }
  }

  /** With bytes after the newline the cut does matter: an envelope in reads of its own is
      accepted, the same bytes in one read are not. */
  lemma TrailingBytesDependOnTheCut(wire: bytes, tail: bytes, body: bytes)
    requires Accepts(wire, body) && tail != []
    ensures AcceptsReads([wire, tail], body)
    ensures forall b :: !AcceptsReads([wire + tail], b)
  {
    var apart, together := [wire, tail], [wire + tail];
    assert apart[..1] == [wire] && [wire][..0] == [] && Concat([wire]) == [] + wire == wire;
    assert Accepts(Concat(apart[..1]), body);
    CompleteExactlyWhenAccepted(wire, body);
    assert (wire + tail)[..|wire|] == wire;
    DeadPrefix(wire + tail, |wire|);
    forall k, b | 0 <= k <= 1 ensures !Accepts(Concat(together[..k]), b) {
      if k == 0 {
        assert together[..0] == [];
      } else {
        assert together[..1] == together && together[..0] == [] && Concat(together) == wire + tail;
      }
      CompleteExactlyWhenAccepted(Concat(together[..k]), b);
    }
  }

  // ----- When the cut matters -----

  /** `input` is a way to read `text`. */
  ghost predicate Cuts(input: seq<bytes>, text: bytes) {
    Concat(input) == text && forall j :: 0 <= j < |input| ==> 0 < |input[j]| <= INPUT_SIZE
  }

  function Singles(text: bytes): seq<bytes> {
    seq(|text|, i requires 0 <= i < |text| => [text[i]])
  }

  lemma {:induction false} ConcatSingles(text: bytes)
    ensures Concat(Singles(text)) == text
  {
    if text != [] {
      var n := |text| - 1;
      ConcatSingles(text[..n]);
      assert Singles(text)[..n] == Singles(text[..n]);
    }
  }

  lemma {:induction false} ConcatAppend(a: seq<bytes>, b: seq<bytes>)
    ensures Concat(a + b) == Concat(a) + Concat(b)
    decreases |b|
  {
    if b == [] {
      assert a + b == a;
    } else {
      assert (a + b)[..|a + b| - 1] == a + b[..|b| - 1];
      ConcatAppend(a, b[..|b| - 1]);
    }
  }

  /** Reads that stop at `n`. */
  lemma CutThere(text: bytes, n: nat) returns (input: seq<bytes>)
    requires n <= |text|
    ensures Cuts(input, text) && n <= |input| && Concat(input[..n]) == text[..n]
  {
    input := Singles(text);
    ConcatSingles(text);
    ConcatSingles(text[..n]);
    assert input[..n] == Singles(text[..n]);
  }

  lemma ConcatOne(piece: bytes)
    ensures Concat([piece]) == piece
  {
    assert [piece][..0] == [];
  }

  lemma ThreeParts(text: bytes, n: nat)
    requires 0 < n < |text|
    ensures text[..n - 1] + text[n - 1..n + 1] + text[n + 1..] == text
  {
  }

  /** Reads that do not stop at `n`. */
  lemma CutElsewhere(text: bytes, n: nat) returns (input: seq<bytes>)
    requires 0 < n < |text|
    ensures Cuts(input, text) && forall j :: 0 <= j <= |input| ==> |Concat(input[..j])| != n
  {
    hide Concat;
    var front, pair, rest := Singles(text[..n - 1]), [text[n - 1..n + 1]], Singles(text[n + 1..]);
    input := front + pair + rest;
    ConcatSingles(text[..n - 1]);
    ConcatSingles(text[n + 1..]);
    ConcatOne(text[n - 1..n + 1]);
    ConcatAppend(front, pair);
    ConcatAppend(front + pair, rest);
    ThreeParts(text, n);
    assert input[..n - 1] == front && input[..n] == front + pair;
    forall j | 0 <= j <= |input| ensures |Concat(input[..j])| != n {
      if j < n { ConcatPrefix(input, j, n - 1); } else { ConcatPrefix(input, n, j); }
    }
  }

  /** Reads that do not stop where the envelope ends accept nothing. */
  lemma MissedEnd(input: seq<bytes>, n: nat)
    requires n <= |Concat(input)| && Run(Start, Concat(input)[..n]).Complete?
    requires forall j :: 0 <= j <= |input| ==> |Concat(input[..j])| != n
    ensures forall body :: !AcceptsReads(input, body)
  {
    var text := Concat(input);
    assert input[..|input|] == input;
    forall j, body | 0 <= j <= |input| ensures !Accepts(Concat(input[..j]), body) {
      var read := Concat(input[..j]);
      ConcatPrefix(input, j, |input|);
      CompleteExactlyWhenAccepted(read, body);
      if |read| < n {
        assert text[..n][..|read|] == read;
        if Run(Start, read).Complete? { DeadPrefix(text[..n], |read|); }
      } else {
        assert read[..n] == text[..n];
        DeadPrefix(read, n);
      }
    }
  }

  lemma NotEmpty(wire: bytes)
    requires Run(Start, wire).Complete?
    ensures |wire| > 0
  {
  }

  /** The cut into reads is irrelevant exactly when nothing follows the envelope. */
  lemma CutMattersExactlyWhenSomethingFollows(text: bytes)
    ensures NothingAfterEnvelope(text)
            <==> forall a, b, body :: Cuts(a, text) && Cuts(b, text) ==> (AcceptsReads(a, body) <==> AcceptsReads(b, body))
  {
    if NothingAfterEnvelope(text) {
      forall a, b, body | Cuts(a, text) && Cuts(b, text) ensures AcceptsReads(a, body) <==> AcceptsReads(b, body) {
        FragmentationIndependent(a, body);
        FragmentationIndependent(b, body);
      }
    } else {
      var n :| 0 <= n < |text| && Run(Start, text[..n]).Complete?;
      var body := Run(Start, text[..n]).body;
      CompleteExactlyWhenAccepted(text[..n], body);
      NotEmpty(text[..n]);
      var a := CutThere(text, n);
      var b := CutElsewhere(text, n);
      assert AcceptsReads(a, body);
      MissedEnd(b, n);
      assert Cuts(a, text) && Cuts(b, text) && !AcceptsReads(b, body);
    }
  }

  // ----- The answer -----

  /** The worker's answer to a sequence of reads.  A read refused whole at the wire limit is
      the one case in which bytes that pass the body limit are not answered as oversized. */
  ghost predicate Answers(input: seq<bytes>, isObject: bytes -> bool, verdict: Verdict) {
    && (forall body :: verdict == Body(body) <==> AcceptsReads(input, body) && isObject(body))
    && (verdict == NotAnObject <==> exists body :: AcceptsReads(input, body) && !isObject(body))
    && (verdict == Oversized ==> GoesOver(Concat(input)))
    && (|Concat(input)| <= WIRE_MAX && GoesOver(Concat(input)) ==> verdict == Oversized)
  }

  /** What the automaton says of a whole text. */
  function Answer(text: bytes, isObject: bytes -> bool): Verdict {
    match Run(Start, text)
    case Complete(body) => if isObject(body) then Body(body) else NotAnObject
    case Failed(true) => Oversized
    case _ => Invalid
  }

  /** Within the wire limit, and with nothing after the envelope, the answer is one function
      of the bytes, whichever reads bring them. */
  lemma AnswerOfText(input: seq<bytes>, isObject: bytes -> bool, verdict: Verdict)
    requires Answers(input, isObject, verdict) && Cuts(input, Concat(input))
    requires NothingAfterEnvelope(Concat(input)) && |Concat(input)| <= WIRE_MAX
    ensures verdict == Answer(Concat(input), isObject)
  {
    var text := Concat(input);
    assert text[..|text|] == text;
    forall body ensures AcceptsReads(input, body) <==> Run(Start, text) == Complete(body) {
      FragmentationIndependent(input, body);
      CompleteExactlyWhenAccepted(text, body);
    }
    if Run(Start, text) == Failed(true) {
      assert RunsOver(text[..|text|]);
    } else {
      NeverOver(text, |text|);
    }
    if Run(Start, text).Complete? { assert AcceptsReads(input, Run(Start, text).body); }
  }

  /** A unit that decodes is a single unit, so its text fits the four-byte scratch. */
  lemma UnitIsSingle(pending: bytes)
    requires 1 <= |pending| == Need(pending)
    requires pending[0] == BACKSLASH || pending[0] >= 0x80
    requires DecodeContent(pending).Some?
    ensures 1 <= |DecodeContent(pending).value| <= 4
  {
    assert FirstUnit(pending).value.taken == |pending|;
    DecodeOne(pending);
  }

  /** The need after the unit grew to `longer`, from the need before. */
  function NextNeed(longer: bytes, need: nat): nat {
    var first := if |longer| == 2 && longer[0] == BACKSLASH && longer[1] == 0x75 then 6 else need;
    if |longer| == 6 && first == 6 && Hex4(longer[2..6]).Some? && HighSurrogate(Hex4(longer[2..6]).value) then 12 else first
  }

  /** The incremental rule computes the need that the bytes determine. */
  lemma NextNeedIsNeed(pending: bytes, c: byte, need: nat)
    requires if pending == [] then need == Need([c]) && need > 0 else |pending| < need == Need(pending)
    requires pending == [] ==> c == BACKSLASH || c >= 0x80
    requires pending != [] ==> pending[0] == BACKSLASH || pending[0] >= 0x80
    ensures NextNeed(pending + [c], need) == Need(pending + [c])
  {
    var longer := pending + [c];
    if pending == [] {
      assert longer == [c];
    } else {
      assert longer[0] == pending[0];
      if |pending| >= 2 { assert longer[1] == pending[1]; }
      if |pending| >= 5 { assert Hex4(longer[2..]) == Hex4(longer[2..6]); }
      if |pending| >= 6 { assert Hex4(longer[2..]) == Hex4(pending[2..]); }
    }
  }

  datatype Progress = More | Finished(body: bytes) | Stop(failure: Verdict)

  /** The worker's private buffers: the decoded body, the pending unit behind its opening
      quote, and the position in the envelope. */
  class BodyReader {
    const body: array<byte>
    const unit: array<byte>
    var used: nat
    var have: nat
    var need: nat
    var phase: nat

    ghost predicate Valid()
      reads this, body, unit
    {
      && body != unit
      && body.Length == BODY_MAX + 1 && unit.Length == 16
      && used <= BODY_MAX && have < 12 && phase <= 3
      && (phase != 1 ==> have == 0)
      && (have > 0 ==> unit[0] == QUOTE && have < need == Need(unit[1..1 + have]))
      && (have > 0 ==> unit[1] == BACKSLASH || unit[1] >= 0x80)
    }

    /** The automaton state the fields stand for. */
    ghost function State(): (s: State)
      requires Valid()
      reads this, body, unit
      ensures s.Start? || s.InString? || s.AfterString? || s.AfterBrace?
    {
      if phase == 0 then Start
      else if phase == 1 then InString(body[..used], unit[1..1 + have])
      else if phase == 2 then AfterString(body[..used])
      else AfterBrace(body[..used])
    }

    constructor ()
      ensures Valid() && State() == Start
      ensures fresh(body) && fresh(unit)
    {
      body := new byte[BODY_MAX + 1];
      unit := new byte[16];
      used, have, need, phase := 0, 0, 0, 0;
    }

    /** One byte of the envelope; `last` says that it ends its read. */
    method Byte(c: byte, last: bool) returns (outcome: Progress)
      requires Valid()
      modifies this, body, unit
      ensures outcome.More? ==> Valid() && State() == Step(old(State()), c)
      ensures outcome.Finished? ==> last && Step(old(State()), c) == Complete(outcome.body)
      ensures outcome.Stop? ==> outcome.failure in {Oversized, Invalid}
      ensures outcome.Stop? ==>
                || Step(old(State()), c) == Failed(outcome.failure.Oversized?)
                || (outcome.failure == Invalid && Step(old(State()), c).Complete? && !last)
    {
      if phase == 0 {
        if c != QUOTE { return Stop(Invalid); }
        phase, used := 1, 0;
        assert body[..used] == [] && unit[1..1] == [];
        return More;
      }
      if phase == 2 {
        if c != BRACE { return Stop(Invalid); }
        phase := 3;
        return More;
      }
      if phase == 3 {
        if c != NEWLINE || !last { return Stop(Invalid); }
        return Finished(body[..used]);
      }
      var failure := StringByte(c);
      return match failure case None => More case Some(f) => Stop(f);
    }

    /** Append `text` to the decoded body. */
    method Store(text: bytes)
      requires Valid() && have == 0 && used + |text| <= BODY_MAX
      modifies this`used, body
      ensures Valid() && body[..used] == old(body[..used]) + text && used == old(used) + |text|
    {
      forall i | 0 <= i < |text| { body[used + i] := text[i]; }
      used := used + |text|;
    }

    /** A byte inside the quoted string.  None means go on. */
    method StringByte(c: byte) returns (failure: Option<Verdict>)
      requires Valid() && phase == 1
      modifies this, body, unit
      ensures failure.None? ==> Valid() && State() == Step(old(State()), c)
      ensures failure.Some? ==> failure.value in {Oversized, Invalid}
                                && Step(old(State()), c) == Failed(failure.value.Oversized?)
    {
      hide DecodeContent, Hex4;
      ghost var before := State();
      if have == 0 {
        if c == QUOTE { phase := 2; return None; }
        if c < 0x20 { return Some(Invalid); }
        if c < 0x80 && c != BACKSLASH {
          if used == BODY_MAX { return Some(Oversized); }
          Store([c]);
          return None;
        }
        need := if c == BACKSLASH || 0xc2 <= c <= 0xdf then 2
                else if 0xe0 <= c <= 0xef then 3 else if 0xf0 <= c <= 0xf4 then 4 else 0;
        assert need == Need([c]);
        if need == 0 { return Some(Invalid); }
        unit[0] := QUOTE;
      }
      ghost var pending := unit[1..1 + have];
      unit[1 + have] := c;
      have := have + 1;
      assert unit[1..1 + have] == pending + [c];
      failure := Settle(pending, c);
    }

    /** Close the pending unit with a quote and decode it. */
    method DecodeUnit(ghost pending: bytes) returns (decoded: Option<bytes>)
      requires body != unit && unit.Length == 16
      requires 1 <= have <= 12 && |pending| == have == Need(pending)
      requires unit[0] == QUOTE && unit[1..1 + have] == pending
      requires unit[1] == BACKSLASH || unit[1] >= 0x80
      modifies unit
      ensures decoded == DecodeContent(pending)
    {
      unit[1 + have] := QUOTE;
      var quoted := unit[..have + 2];
      assert quoted[1..|quoted| - 1] == pending;
      assert pending[0] == unit[1];
      if DecodeContent(pending).Some? { UnitIsSingle(pending); }
      decoded := StringDecode(quoted, 5);
    }

    /** Decide whether the unit just extended is complete, and decode it if so. */
    method Settle(ghost pending: bytes, c: byte) returns (failure: Option<Verdict>)
      requires body != unit && body.Length == BODY_MAX + 1 && unit.Length == 16
      requires phase == 1 && used <= BODY_MAX && 1 <= have <= 12
      requires unit[0] == QUOTE && unit[1..1 + have] == pending + [c]
      requires unit[1] == BACKSLASH || unit[1] >= 0x80
      requires if pending == [] then need == Need([c]) && need > 0 else |pending| < need == Need(pending)
      modifies this, body, unit
      ensures failure.None? ==> Valid() && State() == Feed(old(body[..used]), pending + [c])
      ensures failure.Some? ==> failure.value in {Oversized, Invalid}
                                && Feed(old(body[..used]), pending + [c]) == Failed(failure.value.Oversized?)
    {
      hide DecodeContent, LeadLength;
      ghost var longer := unit[1..1 + have];
      if pending != [] {
        NeedIsStable(pending, c);
        assert longer[0] == pending[0];
      }
      NextNeedIsNeed(pending, c, need);
      if have == 2 && unit[1] == BACKSLASH && unit[2] == 0x75 { need := 6; }
      if have == 6 && need == 6 {
        var scalar := Hex4(unit[3..7]);
        assert unit[3..7] == longer[2..6];
        if scalar.Some? && HighSurrogate(scalar.value) { need := 12; }
      }
      assert need == Need(longer);
      if have == need {
        var decoded := DecodeUnit(longer);
        if decoded.None? { return Some(Invalid); }
        if |decoded.value| > BODY_MAX - used { return Some(Oversized); }
        have, need := 0, 0;
        Store(decoded.value);
      }
      return None;
    }
  }

  /** The decoding loop over the reads of one request.  End of input is the end of
      `input`; `isObject` is the JSON validator of the decoded body. */
  method WorkerBody(input: seq<bytes>, isObject: bytes -> bool) returns (verdict: Verdict)
    requires forall k :: 0 <= k < |input| ==> 0 < |input[k]| <= INPUT_SIZE
    ensures Answers(input, isObject, verdict)
  {
    hide Run, Accepts, AcceptsReads, BodyReader.Valid, BodyReader.State;
    var reader := new BodyReader();
    var wire := 0;
    var k := 0;
    NothingRead(input);
    while k < |input|
      invariant 0 <= k <= |input|
      invariant fresh(reader) && fresh(reader.body) && fresh(reader.unit)
      invariant reader.Valid() && reader.State() == Run(Start, Concat(input[..k]))
      invariant wire == |Concat(input[..k])| <= WIRE_MAX
      invariant NoneAccepted(input, k)
    {
      var piece := input[k];
      assert input[..k + 1][..k] == input[..k];
      if |piece| > WIRE_MAX - wire {
        OverlongReads(input, k);
        assert input[..|input|] == input;
        ConcatPrefix(input, k + 1, |input|);
        return Invalid;
      }
      wire := wire + |piece|;
      var outcome;
      ghost var read;
      outcome, read := ReadPiece(reader, piece, Concat(input[..k]));
      match outcome {
        case More =>
          NotYet(input, k);
        case Finished(body) =>
          AcceptedHere(input, k, body);
          WholePrefix(input, k, |piece|, |input|);
          assert input[..|input|] == input && piece[..|piece|] == piece;
          NeverOver(Concat(input), |Concat(input[..k + 1])|);
          return if isObject(body) then Body(body) else NotAnObject;
        case Stop(failure) =>
          DeadInside(input, k, read);
          WholePrefix(input, k, read, |input|);
          assert input[..|input|] == input;
          if failure == Oversized {
            assert RunsOver(Concat(input)[..|Concat(input[..k]) + piece[..read]|]);
          } else {
            NeverOver(Concat(input), |Concat(input[..k]) + piece[..read]|);
          }
          return failure;
      }
      k := k + 1;
    }
    assert input[..|input|] == input && Concat(input)[..|Concat(input)|] == Concat(input);
    NeverOver(Concat(input), |Concat(input)|);
    AllRead(input);
    return Invalid;
  }

  /** One read: feed its bytes until it is used up, fails, or completes the envelope.
      `read` is how many bytes were looked at. */
  method ReadPiece(reader: BodyReader, piece: bytes, ghost before: bytes) returns (outcome: Progress, ghost read: nat)
    requires piece != []
    requires reader.Valid() && reader.State() == Run(Start, before)
    modifies reader, reader.body, reader.unit
    ensures read <= |piece|
    ensures outcome.More? ==> read == |piece| && reader.Valid() && reader.State() == Run(Start, before + piece)
    ensures outcome.Finished? ==> read == |piece| && Run(Start, before + piece) == Complete(outcome.body)
    ensures outcome.Stop? ==> outcome.failure in {Oversized, Invalid}
    ensures outcome.Stop? ==>
              || Run(Start, before + piece[..read]) == Failed(outcome.failure.Oversized?)
              || (outcome.failure == Invalid && Run(Start, before + piece[..read]).Complete? && read < |piece|)
  {
    var i := 0;
    read := 0;
    assert before + piece[..0] == before && piece[..|piece|] == piece;
    while i < |piece|
      invariant 0 <= i <= |piece| && read == i
      invariant reader.Valid() && reader.State() == Run(Start, before + piece[..i])
    {
      RunNext(before, piece, i);
      outcome := reader.Byte(piece[i], i + 1 == |piece|);
      i := i + 1;
      read := i;
      if !outcome.More? { return; }
    }
    outcome := More;
  }

  lemma RunNext(before: bytes, piece: bytes, i: nat)
    requires i < |piece|
    ensures Run(Start, before + piece[..i + 1]) == Step(Run(Start, before + piece[..i]), piece[i])
  {
    var longer := before + piece[..i + 1];
    assert longer[..|longer| - 1] == before + piece[..i];
  }
}
