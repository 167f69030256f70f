/** The JSON tokenizer shared by the host and its runtime.

    A document is a tree together with the blanks, colons and commas between its parts.
    Tokenizing its text yields the tokens of the tree in preorder, each with its text range,
    its number of children and the index of its parent. */
module JsonTokens {
  import opened Prelude

  const QUOTE: byte := 0x22
  const BACKSLASH: byte := 0x5c
  const COMMA: byte := 0x2c
  const COLON: byte := 0x3a
  const OPEN_OBJECT: byte := 0x7b
  const CLOSE_OBJECT: byte := 0x7d
  const OPEN_ARRAY: byte := 0x5b
  const CLOSE_ARRAY: byte := 0x5d

  // ----- Documents -----

  /** A string or a bare word by its raw text; a container by its parts and the blanks
      before its closing bracket.  In an object keys and values alternate. */
  datatype Node =
    | String(raw: bytes)
    | Word(raw: bytes)
    | Container(list: bool, parts: Parts, close: bytes)

  datatype Parts = End | Then(filler: bytes, first: Node, rest: Parts)

  function Opening(list: bool): byte { if list then OPEN_ARRAY else OPEN_OBJECT }

  function Closing(list: bool): byte { if list then CLOSE_ARRAY else CLOSE_OBJECT }

  function Render(n: Node): (text: bytes)
    ensures !n.Word? ==> |text| >= 2
  {
    match n
    case String(raw) => [QUOTE] + raw + [QUOTE]
    case Word(raw) => raw
    case Container(list, parts, close) => [Opening(list)] + RenderParts(parts) + close + [Closing(list)]
  }

  function RenderParts(parts: Parts): bytes {
    match parts
    case End => []
    case Then(filler, first, rest) => filler + Render(first) + RenderParts(rest)
  }

  predicate Blank(s: bytes) { forall i :: 0 <= i < |s| ==> IsSpace(s[i]) }

  /** One separator between blanks. */
  predicate Separated(s: bytes, c: byte) {
    exists i :: 0 <= i < |s| && s[i] == c && Blank(s[..i]) && Blank(s[i + 1..])
  }

  predicate IsHex(c: byte) { 0x30 <= c <= 0x39 || 0x61 <= c <= 0x66 || 0x41 <= c <= 0x46 }

  predicate SimpleEscape(c: byte) { c == QUOTE || c == 0x2f || c == BACKSLASH || c in [0x62, 0x66, 0x6e, 0x72, 0x74] }

  predicate UnicodeEscape(s: bytes) {
    |s| >= 6 && s[1] == 0x75 && IsHex(s[2]) && IsHex(s[3]) && IsHex(s[4]) && IsHex(s[5])
  }

  /** The raw text of a string: no bare quote or control character, and valid escapes. */
  predicate RawOk(s: bytes) {
    if s == [] then true
    else if s[0] != BACKSLASH then s[0] != QUOTE && s[0] >= 0x20 && RawOk(s[1..])
    else if UnicodeEscape(s) then RawOk(s[6..])
    else |s| >= 2 && SimpleEscape(s[1]) && RawOk(s[2..])
  }

  predicate Delimiter(c: byte) { IsSpace(c) || c == COMMA || c == CLOSE_ARRAY || c == CLOSE_OBJECT }

  predicate WordByte(c: byte) {
    0x20 < c < 0x7f && !Delimiter(c) && c != COLON && c != OPEN_ARRAY && c != OPEN_OBJECT && c != QUOTE
  }

  predicate WordOk(s: bytes) { s != [] && forall i :: 0 <= i < |s| ==> WordByte(s[i]) }

  /** The grammar: RFC 8259, section 2, with a bare word for any number or literal. */
  predicate IsJson(n: Node) {
    match n
    case String(raw) => RawOk(raw)
    case Word(raw) => WordOk(raw)
    case Container(list, parts, close) =>
      Blank(close) && if list then Elements(parts, true) else Members(parts, true)
  }

  predicate Elements(parts: Parts, first: bool) {
    parts.Then? ==>
      && (if first then Blank(parts.filler) else Separated(parts.filler, COMMA))
      && IsJson(parts.first) && Elements(parts.rest, false)
  }

  predicate Members(parts: Parts, first: bool) {
    parts.Then? ==>
      && (if first then Blank(parts.filler) else Separated(parts.filler, COMMA))
      && parts.first.String? && IsJson(parts.first)
      && parts.rest.Then? && Separated(parts.rest.filler, COLON) && IsJson(parts.rest.first)
      && Members(parts.rest.rest, false)
  }

  // ----- Tokens -----

  datatype Kind = ObjectToken | ArrayToken | StringToken | WordToken

  /** `end` is -1 while a container is open; the range of a string excludes its quotes. */
  datatype Token = Token(kind: Kind, start: int, end: int, size: nat, parent: int)

  function ContainerKind(list: bool): Kind { if list then ArrayToken else ObjectToken }

  function Count(parts: Parts): nat {
    if parts.End? then 0 else 1 + Count(parts.rest)
  }

  function Size(n: Node): (size: nat)
    ensures size >= 1
  {
    if n.Container? then 1 + PartsSize(n.parts) else 1
  }

  function PartsSize(parts: Parts): nat {
    if parts.End? then 0 else Size(parts.first) + PartsSize(parts.rest)
  }

  /** Closed tokens whose parents precede them. */
  predicate Closed(tokens: seq<Token>, parent: int, base: nat) {
    forall k :: 0 <= k < |tokens| ==> tokens[k].end >= 0 && parent <= tokens[k].parent < base + k
  }

  /** The tokens of a tree in preorder, when its text starts at `at` and its first token has
      index `base`. */
  function Preorder(n: Node, parent: int, base: nat, at: nat): (tokens: seq<Token>)
    requires -1 <= parent < base as int
    ensures |tokens| == Size(n) && tokens[0].parent == parent && Closed(tokens, parent, base)
  {
    match n
    case String(raw) => [Token(StringToken, at + 1, at + 1 + |raw|, 0, parent)]
    case Word(raw) => [Token(WordToken, at, at + |raw|, 0, parent)]
    case Container(list, parts, close) =>
      [Token(ContainerKind(list), at, at + |Render(n)|, Count(parts), parent)] + PreorderParts(parts, base, base + 1, at + 1)
  }

  function PreorderParts(parts: Parts, parent: int, base: nat, at: nat): (tokens: seq<Token>)
    requires -1 <= parent < base as int
    ensures |tokens| == PartsSize(parts) && Closed(tokens, parent, base)
  {
    match parts
    case End => []
    case Then(filler, first, rest) =>
      Preorder(first, parent, base, at + |filler|)
      + PreorderParts(rest, parent, base + Size(first), at + |filler| + |Render(first)|)
  }

  // ----- The scanner -----

  /** The scanner's state; `super` is the innermost open container, or -1. */
  datatype Scan = Scan(pos: nat, tokens: seq<Token>, super: int)

  predicate ScanOk(s: Scan) {
    -1 <= s.super < |s.tokens| && forall i :: 0 <= i < |s.tokens| ==> -1 <= s.tokens[i].parent < i
  }

  /** The closing quote of a string whose text starts at `pos`. */
  function StringEnd(json: bytes, pos: nat): (end: Option<nat>)
    requires pos <= |json|
    ensures end.Some? ==> pos <= end.value < |json|
    decreases |json| - pos
  {
    if pos == |json| then None
    else if json[pos] == QUOTE then Some(pos)
    else if json[pos] < 0x20 then None
    else if json[pos] != BACKSLASH then StringEnd(json, pos + 1)
    else if pos + 1 >= |json| then None
    else if json[pos + 1] == 0x75 then
      if pos + 6 <= |json| && IsHex(json[pos + 2]) && IsHex(json[pos + 3]) && IsHex(json[pos + 4]) && IsHex(json[pos + 5])
      then StringEnd(json, pos + 6) else None
    else if SimpleEscape(json[pos + 1]) then StringEnd(json, pos + 2)
    else None
  }

  /** The end of a bare word. */
  function WordEnd(json: bytes, pos: nat): (end: Option<nat>)
    requires pos <= |json|
    ensures end.Some? ==> pos <= end.value <= |json|
    decreases |json| - pos
  {
    if pos == |json| || Delimiter(json[pos]) then Some(pos)
    else if WordByte(json[pos]) then WordEnd(json, pos + 1)
    else None
  }

  function Bump(tokens: seq<Token>, super: int, more: nat): seq<Token>
    requires super < |tokens|
  {
    if super >= 0 then tokens[super := tokens[super].(size := tokens[super].size + more)] else tokens
  }

  /** The last open token below `n`, or -1. */
  function LastOpen(tokens: seq<Token>, n: nat): (i: int)
    requires n <= |tokens|
    ensures -1 <= i < n && (i >= 0 ==> tokens[i].end < 0)
  {
    if n == 0 then -1 else if tokens[n - 1].end < 0 then n - 1 else LastOpen(tokens, n - 1)
  }

  function Add(s: Scan, cap: nat, token: Token, pos: nat, super: int): Option<Scan>
    requires ScanOk(s)
  {
    if |s.tokens| >= cap then None else Some(Scan(pos, Bump(s.tokens, s.super, 1) + [token], super))
  }

  /** One lexeme. */
  function Advance(json: bytes, cap: nat, s: Scan): (next: Option<Scan>)
    requires ScanOk(s) && s.pos < |json|
    ensures next.Some? ==> ScanOk(next.value) && s.pos < next.value.pos <= |json|
  {
    var c := json[s.pos];
    if IsSpace(c) || c == COLON || c == COMMA then Some(s.(pos := s.pos + 1))
    else if c == OPEN_OBJECT || c == OPEN_ARRAY then
      Add(s, cap, Token(ContainerKind(c == OPEN_ARRAY), s.pos, -1, 0, s.super), s.pos + 1, |s.tokens|)
    else if c == CLOSE_OBJECT || c == CLOSE_ARRAY then
      var i := LastOpen(s.tokens, |s.tokens|);
      if i < 0 || s.tokens[i].kind != ContainerKind(c == CLOSE_ARRAY) then None
      else Some(Scan(s.pos + 1, s.tokens[i := s.tokens[i].(end := s.pos + 1)], s.tokens[i].parent))
    else if c == QUOTE then
      var end := StringEnd(json, s.pos + 1);
      if end.None? then None
      else Add(s, cap, Token(StringToken, s.pos + 1, end.value, 0, s.super), end.value + 1, s.super)
    else
      var end := WordEnd(json, s.pos);
      if end.None? || end.value == s.pos then None
      else Add(s, cap, Token(WordToken, s.pos, end.value, 0, s.super), end.value, s.super)
  }

  function Run(json: bytes, cap: nat, s: Scan): Option<Scan>
    requires ScanOk(s) && s.pos <= |json|
    decreases |json| - s.pos
  {
    if s.pos == |json| then Some(s)
    else
      var next := Advance(json, cap, s);
      if next.None? then None else Run(json, cap, next.value)
  }

  const START := Scan(0, [], -1)

  function Tokenize(json: bytes, cap: nat): Option<seq<Token>> {
    var end := Run(json, cap, START);
    if end.None? || end.value.tokens == [] || LastOpen(end.value.tokens, |end.value.tokens|) >= 0 then None else Some(end.value.tokens)
  }

  // ----- Scanning a document -----

  predicate At(json: bytes, pos: nat, text: bytes) {
    pos + |text| <= |json| && forall i :: 0 <= i < |text| ==> json[pos + i] == text[i]
  }

  lemma AtSplit(json: bytes, pos: nat, a: bytes, b: bytes)
    requires At(json, pos, a + b)
    ensures At(json, pos, a) && At(json, pos + |a|, b)
  {
    forall i | 0 <= i < |a| ensures json[pos + i] == a[i] { assert a[i] == (a + b)[i]; }
    forall i | 0 <= i < |b| ensures json[pos + |a| + i] == b[i] { assert b[i] == (a + b)[|a| + i]; }
  }

  lemma AtIndex(json: bytes, pos: nat, text: bytes, i: nat)
    requires At(json, pos, text) && i < |text|
    ensures json[pos + i] == text[i]
  {
  }

  predicate Ignored(c: byte) { IsSpace(c) || c == COLON || c == COMMA }

  predicate Skippable(s: bytes) { forall i :: 0 <= i < |s| ==> Ignored(s[i]) }

  lemma {:induction false} SkipFiller(json: bytes, cap: nat, s: Scan, filler: bytes)
    requires ScanOk(s) && At(json, s.pos, filler) && Skippable(filler)
    ensures Run(json, cap, s) == Run(json, cap, s.(pos := s.pos + |filler|))
    decreases |filler|
  {
    if filler != [] {
      AtIndex(json, s.pos, filler, 0);
      assert filler == [filler[0]] + filler[1..];
      AtSplit(json, s.pos, [filler[0]], filler[1..]);
      SkipOne(json, cap, s);
      SkipFiller(json, cap, s.(pos := s.pos + 1), filler[1..]);
    }
  }

  lemma SkipOne(json: bytes, cap: nat, s: Scan)
    requires ScanOk(s) && s.pos < |json| && Ignored(json[s.pos])
    ensures Run(json, cap, s) == Run(json, cap, s.(pos := s.pos + 1))
  {
  }

  lemma {:induction false} StringEndsAtQuote(json: bytes, pos: nat, raw: bytes)
    requires RawOk(raw) && At(json, pos, raw + [QUOTE])
    ensures StringEnd(json, pos) == Some(pos + |raw|)
    decreases |raw|
  {
    if raw == [] {
      AtIndex(json, pos, raw + [QUOTE], 0);
    } else {
      var n := if raw[0] != BACKSLASH then 1 else if UnicodeEscape(raw) then 6 else 2;
      assert raw + [QUOTE] == raw[..n] + (raw[n..] + [QUOTE]);
      AtSplit(json, pos, raw[..n], raw[n..] + [QUOTE]);
      StringEndsAtQuote(json, pos + n, raw[n..]);
      StringUnit(json, pos, raw);
    }
  }

  /** One character or escape of a string. */
  lemma StringUnit(json: bytes, pos: nat, raw: bytes)
    requires raw != [] && RawOk(raw) && At(json, pos, raw + [QUOTE])
    ensures var n := if raw[0] != BACKSLASH then 1 else if UnicodeEscape(raw) then 6 else 2;
            n <= |raw| && StringEnd(json, pos) == StringEnd(json, pos + n)
  {
    forall i | 0 <= i < |raw| ensures json[pos + i] == raw[i] { AtIndex(json, pos, raw + [QUOTE], i); }
  }

  lemma {:induction false} WordEndsAtDelimiter(json: bytes, pos: nat, raw: bytes)
    requires (forall i :: 0 <= i < |raw| ==> WordByte(raw[i])) && At(json, pos, raw)
    requires pos + |raw| == |json| || Delimiter(json[pos + |raw|])
    ensures WordEnd(json, pos) == Some(pos + |raw|)
    decreases |raw|
  {
    if raw != [] {
      assert raw == [raw[0]] + raw[1..];
      AtSplit(json, pos, [raw[0]], raw[1..]);
      assert json[pos] == json[pos..pos + 1][0];
      WordEndsAtDelimiter(json, pos + 1, raw[1..]);
    }
  }

  /** The state after the text of a node. */
  function After(n: Node, s: Scan): (next: Scan)
    requires ScanOk(s)
    ensures ScanOk(next)
  {
    Scan(s.pos + |Render(n)|, Bump(s.tokens, s.super, 1) + Preorder(n, s.super, |s.tokens|, s.pos), s.super)
  }

  /** The state after the parts of the innermost open container. */
  function AfterParts(parts: Parts, s: Scan): (next: Scan)
    requires ScanOk(s) && s.super >= 0
    ensures ScanOk(next)
  {
    Scan(s.pos + |RenderParts(parts)|,
         Bump(s.tokens, s.super, Count(parts)) + PreorderParts(parts, s.super, |s.tokens|, s.pos), s.super)
  }

  predicate Followed(json: bytes, pos: nat) {
    pos == |json| || (pos < |json| && Delimiter(json[pos]))
  }

  /** What scanning needs of the fillers. */
  predicate Scannable(parts: Parts) {
    parts.Then? ==>
      && Skippable(parts.filler) && IsJson(parts.first)
      && (parts.first.Word? && parts.rest.Then? ==> parts.rest.filler != [] && Delimiter(parts.rest.filler[0]))
      && Scannable(parts.rest)
  }

  lemma SeparatorIgnored(s: bytes, c: byte)
    requires Separated(s, c) && Ignored(c)
    ensures s != [] && Skippable(s)
    ensures c == COMMA ==> Delimiter(s[0])
  {
    var k :| 0 <= k < |s| && s[k] == c && Blank(s[..k]) && Blank(s[k + 1..]);
    assert forall i :: 0 <= i < k ==> s[i] == s[..k][i];
    assert forall i :: k < i < |s| ==> s[i] == s[k + 1..][i - k - 1];
  }

  lemma {:induction false} ElementsScannable(parts: Parts, first: bool)
    requires Elements(parts, first)
    ensures Scannable(parts)
  {
    if parts.Then? {
      if !first { SeparatorIgnored(parts.filler, COMMA); }
      if parts.rest.Then? { SeparatorIgnored(parts.rest.filler, COMMA); }
      ElementsScannable(parts.rest, false);
    }
  }

  lemma {:induction false} MembersScannable(parts: Parts, first: bool)
    requires Members(parts, first)
    ensures Scannable(parts)
  {
    if parts.Then? {
      if !first { SeparatorIgnored(parts.filler, COMMA); }
      SeparatorIgnored(parts.rest.filler, COLON);
      if parts.rest.rest.Then? { SeparatorIgnored(parts.rest.rest.filler, COMMA); }
      MembersScannable(parts.rest.rest, false);
    }
  }

  /** A leaf becomes one token. */
  lemma ScanLeaf(json: bytes, cap: nat, n: Node, s: Scan)
    requires ScanOk(s) && !n.Container? && IsJson(n) && At(json, s.pos, Render(n))
    requires n.Word? ==> Followed(json, s.pos + |Render(n)|)
    ensures Run(json, cap, s) == if |s.tokens| < cap then Run(json, cap, After(n, s)) else None
  {
    AtIndex(json, s.pos, Render(n), 0);
    LeafStep(json, cap, n, s);
    RunStep(json, cap, s);
  }

  lemma LeafStep(json: bytes, cap: nat, n: Node, s: Scan)
    requires ScanOk(s) && !n.Container? && IsJson(n) && At(json, s.pos, Render(n)) && s.pos < |json|
    requires n.Word? ==> Followed(json, s.pos + |Render(n)|)
    ensures Advance(json, cap, s) == if |s.tokens| < cap then Some(After(n, s)) else None
  {
    AtIndex(json, s.pos, Render(n), 0);
    match n
    case String(raw) =>
      assert [QUOTE] + raw + [QUOTE] == [QUOTE] + (raw + [QUOTE]);
      AtSplit(json, s.pos, [QUOTE], raw + [QUOTE]);
      StringEndsAtQuote(json, s.pos + 1, raw);
    case Word(raw) =>
      WordEndsAtDelimiter(json, s.pos, raw);
  }

  lemma {:induction false} LastOpenAt(tokens: seq<Token>, n: nat, i: nat)
    requires i < n <= |tokens| && tokens[i].end < 0 && forall k :: i < k < n ==> tokens[k].end >= 0
    ensures LastOpen(tokens, n) == i
  {
    if i < n - 1 { LastOpenAt(tokens, n - 1, i); }
  }

  function Opened(n: Node, s: Scan): (next: Scan)
    requires ScanOk(s) && n.Container?
    ensures ScanOk(next) && next.super == |s.tokens|
  {
    Scan(s.pos + 1, Bump(s.tokens, s.super, 1) + [Token(ContainerKind(n.list), s.pos, -1, 0, s.super)], |s.tokens|)
  }

  function OpenToken(n: Node, s: Scan): Token
    requires n.Container?
  {
    Token(ContainerKind(n.list), s.pos, -1, Count(n.parts), s.super)
  }

  function Inside(n: Node, s: Scan): (tokens: seq<Token>)
    requires ScanOk(s) && n.Container?
    ensures forall k :: 0 <= k < |tokens| ==> tokens[k].end >= 0
  {
    PreorderParts(n.parts, |s.tokens|, |s.tokens| + 1, s.pos + 1)
  }

  lemma BumpLast(before: seq<Token>, t: Token, more: nat)
    ensures Bump(before + [t], |before|, more) == before + [t.(size := t.size + more)]
  {
  }

  lemma TokensInside(n: Node, s: Scan)
    requires ScanOk(s) && n.Container?
    ensures AfterParts(n.parts, Opened(n, s)).tokens == Bump(s.tokens, s.super, 1) + [OpenToken(n, s)] + Inside(n, s)
  {
    BumpLast(Bump(s.tokens, s.super, 1), OpenToken(n, s).(size := 0), Count(n.parts));
  }

  lemma TokensClosed(n: Node, s: Scan)
    requires ScanOk(s) && n.Container?
    ensures After(n, s).tokens
            == Bump(s.tokens, s.super, 1) + [OpenToken(n, s).(end := s.pos + |Render(n)|)] + Inside(n, s)
  {
    assert Preorder(n, s.super, |s.tokens|, s.pos) == [OpenToken(n, s).(end := s.pos + |Render(n)|)] + Inside(n, s);
    Associate(Bump(s.tokens, s.super, 1), [OpenToken(n, s).(end := s.pos + |Render(n)|)], Inside(n, s));
  }

  lemma CloseLast(before: seq<Token>, t: Token, after: seq<Token>, end: nat)
    requires t.end < 0 && forall k :: 0 <= k < |after| ==> after[k].end >= 0
    ensures var all := before + [t] + after;
            LastOpen(all, |all|) == |before| && all[|before|] == t
            && all[|before| := t.(end := end)] == before + [t.(end := end)] + after
  {
    var all := before + [t] + after;
    LastOpenAt(all, |all|, |before|);
  }

  /** Where the parts of a container and its closing bracket lie. */
  lemma Layout(json: bytes, pos: nat, n: Node)
    requires n.Container? && Blank(n.close) && At(json, pos, Render(n))
    ensures var parts := RenderParts(n.parts);
            && pos < |json| && json[pos] == Opening(n.list)
            && At(json, pos + 1, parts) && At(json, pos + 1 + |parts|, n.close)
            && pos + 1 + |parts| + |n.close| < |json|
            && json[pos + 1 + |parts| + |n.close|] == Closing(n.list)
            && Followed(json, pos + 1 + |parts|)
  {
    var open, parts, close := [Opening(n.list)], RenderParts(n.parts), [Closing(n.list)];
    ContainerText(n);
    FourPieces(json, pos, open, parts, n.close, close);
    AtIndex(json, pos, open, 0);
    AtIndex(json, pos + 1 + |parts|, n.close + close, 0);
    AtIndex(json, pos + 1 + |parts| + |n.close|, close, 0);
  }

  lemma ContainerText(n: Node)
    requires n.Container?
    ensures Render(n) == [Opening(n.list)] + (RenderParts(n.parts) + (n.close + [Closing(n.list)]))
  {
  }

  lemma FourPieces(json: bytes, pos: nat, a: bytes, b: bytes, c: bytes, d: bytes)
    requires At(json, pos, a + (b + (c + d)))
    ensures At(json, pos, a) && At(json, pos + |a|, b) && At(json, pos + |a| + |b|, c + d)
    ensures At(json, pos + |a| + |b|, c) && At(json, pos + |a| + |b| + |c|, d)
  {
    AtSplit(json, pos, a, b + (c + d));
    AtSplit(json, pos + |a|, b, c + d);
    AtSplit(json, pos + |a| + |b|, c, d);
  }

  lemma OpenStep(json: bytes, cap: nat, n: Node, s: Scan)
    requires ScanOk(s) && n.Container? && s.pos < |json| && json[s.pos] == Opening(n.list)
    ensures Advance(json, cap, s) == if |s.tokens| < cap then Some(Opened(n, s)) else None
  {
  }

  lemma Closes(json: bytes, cap: nat, at: Scan, list: bool, i: nat)
    requires ScanOk(at) && at.pos < |json| && json[at.pos] == Closing(list)
    requires LastOpen(at.tokens, |at.tokens|) == i && at.tokens[i].kind == ContainerKind(list)
    ensures Advance(json, cap, at)
            == Some(Scan(at.pos + 1, at.tokens[i := at.tokens[i].(end := at.pos + 1)], at.tokens[i].parent))
  {
  }

  lemma CloseStep(json: bytes, cap: nat, n: Node, s: Scan, at: Scan)
    requires ScanOk(s) && n.Container? && ScanOk(at)
    requires at.pos == s.pos + |Render(n)| - 1 && at.tokens == Bump(s.tokens, s.super, 1) + [OpenToken(n, s)] + Inside(n, s)
    requires at.pos < |json| && json[at.pos] == Closing(n.list)
    ensures Advance(json, cap, at) == Some(After(n, s))
  {
    TokensClosed(n, s);
    CloseTokens(json, cap, at, n.list, Bump(s.tokens, s.super, 1), OpenToken(n, s), Inside(n, s));
  }

  /** The closing bracket completes the one token that is open. */
  lemma CloseTokens(json: bytes, cap: nat, at: Scan, list: bool, before: seq<Token>, t: Token, after: seq<Token>)
    requires ScanOk(at) && at.pos < |json| && json[at.pos] == Closing(list) && at.tokens == before + [t] + after
    requires t.kind == ContainerKind(list) && t.end < 0 && forall k :: 0 <= k < |after| ==> after[k].end >= 0
    ensures Advance(json, cap, at) == Some(Scan(at.pos + 1, before + [t.(end := at.pos + 1)] + after, t.parent))
  {
    CloseLast(before, t, after, at.pos + 1);
    Closes(json, cap, at, list, |before|);
  }

  /** One lexeme at a time. */
  lemma RunStep(json: bytes, cap: nat, s: Scan)
    requires ScanOk(s) && s.pos < |json|
    ensures Run(json, cap, s) == if Advance(json, cap, s).Some? then Run(json, cap, Advance(json, cap, s).value) else None
  {
  }

  /** From the end of the parts to the end of the container. */
  lemma ScanClose(json: bytes, cap: nat, n: Node, s: Scan)
    requires ScanOk(s) && n.Container? && IsJson(n) && At(json, s.pos, Render(n))
    ensures s.pos + 1 + |RenderParts(n.parts)| <= |json|
    ensures Run(json, cap, AfterParts(n.parts, Opened(n, s))) == Run(json, cap, After(n, s))
  {
    Layout(json, s.pos, n);
    var inside := AfterParts(n.parts, Opened(n, s));
    SkipFiller(json, cap, inside, n.close);
    var at := inside.(pos := inside.pos + |n.close|);
    TokensInside(n, s);
    CloseStep(json, cap, n, s, at);
    RunStep(json, cap, at);
  }

  /** Tokenizing appends the tokens of a node, or fails because there is no room. */
  lemma {:induction false} ScanNode(json: bytes, cap: nat, n: Node, s: Scan)
    requires ScanOk(s) && IsJson(n) && At(json, s.pos, Render(n))
    requires n.Word? ==> Followed(json, s.pos + |Render(n)|)
    ensures Run(json, cap, s) == if |s.tokens| + Size(n) <= cap then Run(json, cap, After(n, s)) else None
    decreases n, 2
  {
    if !n.Container? {
      ScanLeaf(json, cap, n, s);
    } else {
      Layout(json, s.pos, n);
      OpenStep(json, cap, n, s);
      RunStep(json, cap, s);
      if |s.tokens| < cap {
        if n.list { ElementsScannable(n.parts, true); } else { MembersScannable(n.parts, true); }
        assert PartsAt(json, n.parts, Opened(n, s));
        ScanParts(json, cap, n.parts, Opened(n, s));
        assert PartsRun(json, cap, n.parts, Opened(n, s));
        ScanClose(json, cap, n, s);
      }
    }
  }

  /** The parts of the innermost open container lie ahead of the scanner. */
  predicate PartsAt(json: bytes, parts: Parts, s: Scan) {
    && ScanOk(s) && s.super >= 0 && Scannable(parts) && At(json, s.pos, RenderParts(parts))
    && Followed(json, s.pos + |RenderParts(parts)|)
  }

  /** Scanning goes on after the parts, or fails because there is no room. */
  predicate PartsRun(json: bytes, cap: nat, parts: Parts, s: Scan)
    requires PartsAt(json, parts, s)
  {
    Run(json, cap, s) == if |s.tokens| + PartsSize(parts) <= cap then Run(json, cap, AfterParts(parts, s)) else None
  }

  lemma {:induction false} ScanParts(json: bytes, cap: nat, parts: Parts, s: Scan)
    requires PartsAt(json, parts, s) && |s.tokens| <= cap
    ensures PartsRun(json, cap, parts, s)
    decreases parts, 1
  {
    if parts.End? {
      NoParts(s);
    } else {
      PartsLayout(json, parts, s);
      ScanFirst(json, cap, parts.filler, parts.first, s);
      if |s.tokens| + Size(parts.first) <= cap { ScanParts(json, cap, parts.rest, AfterFirst(parts, s)); }
      PartsCompose(json, cap, parts, s);
    }
  }

  function AfterFirst(parts: Parts, s: Scan): (next: Scan)
    requires ScanOk(s) && parts.Then?
    ensures ScanOk(next) && next.super == s.super && |next.tokens| == |s.tokens| + Size(parts.first)
    ensures next.pos == s.pos + |parts.filler| + |Render(parts.first)|
  {
    After(parts.first, s.(pos := s.pos + |parts.filler|))
  }

  lemma NoParts(s: Scan)
    requires ScanOk(s) && s.super >= 0
    ensures AfterParts(End, s) == s
  {
  }

  /** Scanning the first part and then the rest is scanning the parts. */
  lemma PartsCompose(json: bytes, cap: nat, parts: Parts, s: Scan)
    requires parts.Then? && PartsAt(json, parts, s) && PartsAt(json, parts.rest, AfterFirst(parts, s))
    requires FirstAt(json, parts.filler, parts.first, s) && FirstRun(json, cap, parts.filler, parts.first, s)
    requires |s.tokens| + Size(parts.first) <= cap ==> PartsRun(json, cap, parts.rest, AfterFirst(parts, s))
    ensures PartsRun(json, cap, parts, s)
  {
    PartsStep(parts, s);
  }

  /** A filler and a node lie ahead of the scanner. */
  predicate FirstAt(json: bytes, filler: bytes, n: Node, s: Scan) {
    && ScanOk(s) && IsJson(n) && Skippable(filler)
    && At(json, s.pos, filler) && At(json, s.pos + |filler|, Render(n))
    && (n.Word? ==> Followed(json, s.pos + |filler| + |Render(n)|))
  }

  predicate FirstRun(json: bytes, cap: nat, filler: bytes, n: Node, s: Scan)
    requires FirstAt(json, filler, n, s)
  {
    Run(json, cap, s) == if |s.tokens| + Size(n) <= cap then Run(json, cap, After(n, s.(pos := s.pos + |filler|))) else None
  }

  /** A filler and the node after it. */
  lemma {:induction false} ScanFirst(json: bytes, cap: nat, filler: bytes, n: Node, s: Scan)
    requires FirstAt(json, filler, n, s)
    ensures FirstRun(json, cap, filler, n, s)
    decreases n, 3
  {
    SkipFiller(json, cap, s, filler);
    ScanNode(json, cap, n, s.(pos := s.pos + |filler|));
  }

  lemma PartsLayout(json: bytes, parts: Parts, s: Scan)
    requires parts.Then? && PartsAt(json, parts, s)
    ensures FirstAt(json, parts.filler, parts.first, s)
    ensures PartsAt(json, parts.rest, AfterFirst(parts, s))
  {
    PartsText(json, s.pos, parts);
    var next := s.pos + |parts.filler| + |Render(parts.first)|;
    if parts.first.Word? && parts.rest.Then? { AtIndex(json, next, RenderParts(parts.rest), 0); }
  }

  /** Where the first part and the others lie. */
  lemma PartsText(json: bytes, pos: nat, parts: Parts)
    requires parts.Then? && At(json, pos, RenderParts(parts))
    ensures At(json, pos, parts.filler) && At(json, pos + |parts.filler|, Render(parts.first))
    ensures var next := pos + |parts.filler| + |Render(parts.first)|;
            At(json, next, RenderParts(parts.rest)) && next + |RenderParts(parts.rest)| == pos + |RenderParts(parts)|
  {
    RenderThen(parts);
    AtSplit(json, pos, parts.filler, Render(parts.first) + RenderParts(parts.rest));
    AtSplit(json, pos + |parts.filler|, Render(parts.first), RenderParts(parts.rest));
  }

  lemma RenderThen(parts: Parts)
    requires parts.Then?
    ensures RenderParts(parts) == parts.filler + (Render(parts.first) + RenderParts(parts.rest))
    ensures |RenderParts(parts)| == |parts.filler| + |Render(parts.first)| + |RenderParts(parts.rest)|
    ensures Count(parts) == 1 + Count(parts.rest)
  {
  }

  lemma PartsStep(parts: Parts, s: Scan)
    requires ScanOk(s) && s.super >= 0 && parts.Then?
    ensures AfterParts(parts.rest, AfterFirst(parts, s)) == AfterParts(parts, s)
  {
    var at := s.pos + |parts.filler|;
    var node := Preorder(parts.first, s.super, |s.tokens|, at);
    var rest := PreorderParts(parts.rest, s.super, |s.tokens| + Size(parts.first), at + |Render(parts.first)|);
    RenderThen(parts);
    BumpTwice(s.tokens, s.super, node, Count(parts.rest));
    Associate(Bump(s.tokens, s.super, Count(parts)), node, rest);
  }

  lemma BumpTwice(tokens: seq<Token>, super: nat, more: seq<Token>, n: nat)
    requires super < |tokens|
    ensures Bump(Bump(tokens, super, 1) + more, super, n) == Bump(tokens, super, 1 + n) + more
  {
  }

  /** The tokens of a document are its tree in preorder, unless they do not fit. */
  lemma TokenizeDocument(n: Node, before: bytes, after: bytes, cap: nat)
    requires IsJson(n) && Blank(before) && Blank(after)
    ensures Tokenize(before + Render(n) + after, cap)
            == if Size(n) <= cap then Some(Preorder(n, -1, 0, |before|)) else None
  {
    var json := before + Render(n) + after;
    DocumentLayout(n, before, after);
    RunDocument(json, n, before, after, cap);
    NoneOpen(Preorder(n, -1, 0, |before|), Size(n));
  }

  lemma RunDocument(json: bytes, n: Node, before: bytes, after: bytes, cap: nat)
    requires IsJson(n) && Blank(before) && Blank(after) && |json| == |before| + |Render(n)| + |after|
    requires At(json, 0, before) && At(json, |before|, Render(n)) && At(json, |before| + |Render(n)|, after)
    requires Followed(json, |before| + |Render(n)|)
    ensures Run(json, cap, START)
            == if Size(n) <= cap then Some(Scan(|json|, Preorder(n, -1, 0, |before|), -1)) else None
  {
    RootAhead(json, n, before);
    ScanFirst(json, cap, before, n, START);
    RunRest(json, n, before, after, cap);
  }

  /** The blanks before a document and the document itself lie ahead. */
  lemma RootAhead(json: bytes, n: Node, before: bytes)
    requires IsJson(n) && Blank(before) && At(json, 0, before) && At(json, |before|, Render(n))
    requires Followed(json, |before| + |Render(n)|)
    ensures FirstAt(json, before, n, START)
  {
    BlankSkippable(before);
  }

  lemma AfterRoot(n: Node, at: nat)
    ensures After(n, START.(pos := at)) == Scan(at + |Render(n)|, Preorder(n, -1, 0, at), -1)
  {
  }

  lemma RunRest(json: bytes, n: Node, before: bytes, after: bytes, cap: nat)
    requires Blank(after) && |json| == |before| + |Render(n)| + |after| && At(json, |before| + |Render(n)|, after)
    ensures Run(json, cap, After(n, START.(pos := |before|))) == Some(Scan(|json|, Preorder(n, -1, 0, |before|), -1))
  {
    hide Run, Render, Blank, Preorder;
    AfterRoot(n, |before|);
    RunTrailer(json, cap, After(n, START.(pos := |before|)), after);
  }

  lemma RunTrailer(json: bytes, cap: nat, s: Scan, after: bytes)
    requires ScanOk(s) && Blank(after) && At(json, s.pos, after) && s.pos + |after| == |json|
    ensures Run(json, cap, s) == Some(s.(pos := |json|))
  {
    BlankSkippable(after);
    SkipFiller(json, cap, s, after);
  }

  lemma BlankSkippable(s: bytes)
    requires Blank(s)
    ensures Skippable(s)
  {
  }

  lemma DocumentLayout(n: Node, before: bytes, after: bytes)
    requires Blank(after)
    ensures var json, end := before + Render(n) + after, |before| + |Render(n)|;
            At(json, 0, before) && At(json, |before|, Render(n)) && At(json, end, after) && Followed(json, end)
  {
    var json, end := before + Render(n) + after, |before| + |Render(n)|;
    assert json[0..|before|] == before && json[|before|..end] == Render(n) && json[end..end + |after|] == after;
    if after != [] { AtIndex(json, end, after, 0); }
  }

  lemma {:induction false} NoneOpen(tokens: seq<Token>, n: nat)
    requires n <= |tokens| && forall k :: 0 <= k < n ==> tokens[k].end >= 0
    ensures LastOpen(tokens, n) == -1
  {
    if n > 0 { NoneOpen(tokens, n - 1); }
  }

  // ----- The tokenizer's loops -----

  method FindStringEnd(json: bytes, pos: nat) returns (end: Option<nat>)
    requires pos <= |json|
    ensures end == StringEnd(json, pos)
  {
    var i := pos;
    while i < |json|
      invariant pos <= i <= |json| && StringEnd(json, i) == StringEnd(json, pos)
    {
      var c := json[i];
      if c == QUOTE { return Some(i); }
      if c < 0x20 { return None; }
      if c != BACKSLASH {
        i := i + 1;
      } else {
        if i + 1 >= |json| { return None; }
        if json[i + 1] == 0x75 {
          if i + 6 > |json| || !(IsHex(json[i + 2]) && IsHex(json[i + 3]) && IsHex(json[i + 4]) && IsHex(json[i + 5])) {
            return None;
          }
          i := i + 6;
        } else {
          if !SimpleEscape(json[i + 1]) { return None; }
          i := i + 2;
        }
      }
    }
    return None;
  }

  method FindWordEnd(json: bytes, pos: nat) returns (end: Option<nat>)
    requires pos <= |json|
    ensures end == WordEnd(json, pos)
  {
    var i := pos;
    while i < |json| && !Delimiter(json[i])
      invariant pos <= i <= |json| && WordEnd(json, i) == WordEnd(json, pos)
    {
      if !WordByte(json[i]) { return None; }
      i := i + 1;
    }
    return Some(i);
  }

  /** The innermost container that is still open. */
  method FindOpen(tokens: array<Token>, next: nat) returns (found: int)
    requires next <= tokens.Length
    ensures found == LastOpen(tokens[..next], next)
  {
    var i := next;
    ghost var all := tokens[..next];
    while i > 0 && tokens[i - 1].end >= 0
      invariant 0 <= i <= next && LastOpen(all, i) == LastOpen(all, next)
    {
      assert all[i - 1] == tokens[i - 1];
      i := i - 1;
    }
    assert i > 0 ==> all[i - 1] == tokens[i - 1];
    found := i - 1;
  }

  /** Add a token under `super`, if the buffer has room. */
  method Allocate(tokens: array<Token>, next: nat, super: int, token: Token) returns (ok: bool)
    requires next <= tokens.Length && -1 <= super < next
    modifies tokens
    ensures ok <==> next < tokens.Length
    ensures ok ==> tokens[..next + 1] == Bump(old(tokens[..next]), super, 1) + [token]
    ensures !ok ==> tokens[..] == old(tokens[..])
  {
    if next >= tokens.Length { return false; }
    tokens[next] := token;
    if super >= 0 { tokens[super] := tokens[super].(size := tokens[super].size + 1); }
    return true;
  }

  /** One lexeme, in the buffer. */
  method AdvanceInPlace(json: bytes, tokens: array<Token>, pos: nat, next: nat, super: int)
    returns (ok: bool, pos': nat, next': nat, super': int)
    requires next <= tokens.Length && pos < |json| && ScanOk(Scan(pos, tokens[..next], super))
    modifies tokens
    ensures next' <= tokens.Length
    ensures ok ==> Advance(json, tokens.Length, Scan(pos, old(tokens[..next]), super)) == Some(Scan(pos', tokens[..next'], super'))
    ensures !ok ==> Advance(json, tokens.Length, Scan(pos, old(tokens[..next]), super)) == None
  {
    ok, pos', next', super' := true, pos, next, super;
    var c := json[pos];
    if IsSpace(c) || c == COLON || c == COMMA {
      pos' := pos + 1;
    } else if c == OPEN_OBJECT || c == OPEN_ARRAY {
      ok := Allocate(tokens, next, super, Token(ContainerKind(c == OPEN_ARRAY), pos, -1, 0, super));
      if ok { pos', next', super' := pos + 1, next + 1, next; }
    } else if c == CLOSE_OBJECT || c == CLOSE_ARRAY {
      var found := FindOpen(tokens, next);
      if found < 0 || tokens[found].kind != ContainerKind(c == CLOSE_ARRAY) { ok := false; return; }
      tokens[found] := tokens[found].(end := pos + 1);
      assert tokens[..next] == old(tokens[..next])[found := tokens[found]];
      pos', super' := pos + 1, tokens[found].parent;
    } else if c == QUOTE {
      var end := FindStringEnd(json, pos + 1);
      if end.None? { ok := false; return; }
      ok := Allocate(tokens, next, super, Token(StringToken, pos + 1, end.value, 0, super));
      if ok { pos', next' := end.value + 1, next + 1; }
    } else {
      var end := FindWordEnd(json, pos);
      if end.None? || end.value == pos { ok := false; return; }
      ok := Allocate(tokens, next, super, Token(WordToken, pos, end.value, 0, super));
      if ok { pos', next' := end.value, next + 1; }
    }
  }

  /** Fill the caller's buffer; -1 for a text that is no document or does not fit. */
  method TokenizeInto(json: bytes, tokens: array<Token>) returns (count: int)
    modifies tokens
    ensures count <= tokens.Length
    ensures Tokenize(json, tokens.Length) == if count < 0 then None else Some(tokens[..count])
  {
    var pos: nat, next: nat, super := 0, 0, -1;
    assert tokens[..0] == [];
    ghost var cap := tokens.Length;
    while pos < |json|
      invariant pos <= |json| && next <= tokens.Length && ScanOk(Scan(pos, tokens[..next], super))
      invariant Run(json, cap, Scan(pos, tokens[..next], super)) == Run(json, cap, START)
      decreases |json| - pos
    {
      ghost var before := Scan(pos, tokens[..next], super);
      RunStep(json, cap, before);
      var ok;
      ok, pos, next, super := AdvanceInPlace(json, tokens, pos, next, super);
      if !ok { return -1; }
      assert ScanOk(Advance(json, cap, before).value);
    }
    var open := FindOpen(tokens, next);
    if open >= 0 || next == 0 { return -1; }
    return next;
  }
}
