/** The syntax check that comes before a document is tokenized.

    A recursive descent over the text.  It accepts exactly the texts of the grammar: one
    document between blanks, every bare word a number or a literal, nested at most 64 deep. */
module JsonGrammar {
  import opened Prelude
  import opened JsonTokens

  const DEPTH_MAX: nat := 64
  const MINUS: byte := 0x2d
  const POINT: byte := 0x2e
  const TRUE_WORD: bytes := [0x74, 0x72, 0x75, 0x65]
  const FALSE_WORD: bytes := [0x66, 0x61, 0x6c, 0x73, 0x65]
  const NULL_WORD: bytes := [0x6e, 0x75, 0x6c, 0x6c]

  // ----- The grammar of bare words -----

  predicate AllDigits(s: bytes) { forall i :: 0 <= i < |s| ==> IsDigit(s[i]) }

  predicate IsMinus(s: bytes) { s == [] || s == [MINUS] }

  predicate IsWhole(s: bytes) { s == [0x30] || (s != [] && s[0] != 0x30 && AllDigits(s)) }

  predicate IsFraction(s: bytes) { s == [] || (|s| >= 2 && s[0] == POINT && AllDigits(s[1..])) }

  predicate Exponential(c: byte) { c == 0x65 || c == 0x45 }

  predicate Sign(c: byte) { c == 0x2b || c == MINUS }

  predicate IsExponent(s: bytes) {
    s == [] || ((s[0] == 0x65 || s[0] == 0x45)
                && var digits := if |s| > 1 && (s[1] == 0x2b || s[1] == 0x2d) then s[2..] else s[1..];
                   digits != [] && AllDigits(digits))
  }

  predicate NumberParts(w: bytes, minus: bytes, whole: bytes, fraction: bytes, exponent: bytes) {
    w == minus + whole + fraction + exponent
    && IsMinus(minus) && IsWhole(whole) && IsFraction(fraction) && IsExponent(exponent)
  }

  /** RFC 8259, section 6. */
  ghost predicate IsNumber(w: bytes) {
    exists minus, whole, fraction, exponent :: NumberParts(w, minus, whole, fraction, exponent)
  }

  predicate IsLiteral(w: bytes) { w == TRUE_WORD || w == FALSE_WORD || w == NULL_WORD }

  /** Every bare word is a number or a literal, and there is room for the nesting. */
  ghost predicate Proper(n: Node, room: int) {
    room >= 0 &&
    match n
    case String(_) => true
    case Word(raw) => IsNumber(raw) || IsLiteral(raw)
    case Container(_, parts, _) => ProperParts(parts, room - 1)
  }

  ghost predicate ProperParts(parts: Parts, room: int) {
    parts.Then? ==> Proper(parts.first, room) && ProperParts(parts.rest, room)
  }

  // ----- The scan -----

  /** The first byte at or after `pos` that is no blank. */
  function SkipBlank(json: bytes, pos: nat): (next: nat)
    requires pos <= |json|
    ensures pos <= next <= |json| && (next < |json| ==> !IsSpace(json[next]))
    ensures forall i :: pos <= i < next ==> IsSpace(json[i])
    decreases |json| - pos
  {
    if pos < |json| && IsSpace(json[pos]) then SkipBlank(json, pos + 1) else pos
  }

  function SkipDigits(json: bytes, pos: nat): (next: nat)
    requires pos <= |json|
    ensures pos <= next <= |json| && (next < |json| ==> !IsDigit(json[next]))
    ensures forall i :: pos <= i < next ==> IsDigit(json[i])
    decreases |json| - pos
  {
    if pos < |json| && IsDigit(json[pos]) then SkipDigits(json, pos + 1) else pos
  }

  predicate DigitAt(json: bytes, pos: nat) { pos < |json| && IsDigit(json[pos]) }

  function WholeEnd(json: bytes, pos: nat): (end: Option<nat>)
    requires pos <= |json|
    ensures end.Some? ==> pos < end.value <= |json|
  {
    if !DigitAt(json, pos) then None
    else if json[pos] == 0x30 then Some(pos + 1)
    else Some(SkipDigits(json, pos + 1))
  }

  function FractionEnd(json: bytes, pos: nat): (end: Option<nat>)
    requires pos <= |json|
    ensures end.Some? ==> pos <= end.value <= |json|
  {
    if pos == |json| || json[pos] != POINT then Some(pos)
    else if DigitAt(json, pos + 1) then Some(SkipDigits(json, pos + 1))
    else None
  }

  function ExponentEnd(json: bytes, pos: nat): (end: Option<nat>)
    requires pos <= |json|
    ensures end.Some? ==> pos <= end.value <= |json|
  {
    if pos == |json| || !Exponential(json[pos]) then Some(pos)
    else
      var digits := if pos + 1 < |json| && Sign(json[pos + 1]) then pos + 2 else pos + 1;
      if DigitAt(json, digits) then Some(SkipDigits(json, digits)) else None
  }

  function NumberEnd(json: bytes, pos: nat): (end: Option<nat>)
    requires pos <= |json|
    ensures end.Some? ==> pos < end.value <= |json|
  {
    var whole := WholeEnd(json, if pos < |json| && json[pos] == MINUS then pos + 1 else pos);
    if whole.None? then None
    else
      var fraction := FractionEnd(json, whole.value);
      if fraction.None? then None else ExponentEnd(json, fraction.value)
  }

  predicate Begins(json: bytes, pos: nat, word: bytes) { pos + |word| <= |json| && json[pos..pos + |word|] == word }

  function LiteralEnd(json: bytes, pos: nat): (end: Option<nat>)
    ensures end.Some? ==> pos < end.value <= |json|
  {
    if Begins(json, pos, TRUE_WORD) then Some(pos + 4)
    else if Begins(json, pos, FALSE_WORD) then Some(pos + 5)
    else if Begins(json, pos, NULL_WORD) then Some(pos + 4)
    else None
  }

  predicate ByteAt(json: bytes, pos: nat, c: byte) { pos < |json| && json[pos] == c }

  /** The end of the value that starts at or after `pos`. */
  function EndOfValue(json: bytes, pos: nat, depth: nat): (end: Option<nat>)
    requires pos <= |json|
    ensures end.Some? ==> SkipBlank(json, pos) < end.value <= |json|
    decreases |json| - pos, 0
  {
    var p := SkipBlank(json, pos);
    if depth > DEPTH_MAX || p == |json| then None
    else if json[p] == QUOTE then
      var end := StringEnd(json, p + 1);
      if end.None? then None else Some(end.value + 1)
    else if json[p] == OPEN_OBJECT then
      var q := SkipBlank(json, p + 1);
      if ByteAt(json, q, CLOSE_OBJECT) then Some(q + 1) else EndOfMembers(json, q, depth)
    else if json[p] == OPEN_ARRAY then
      var q := SkipBlank(json, p + 1);
      if ByteAt(json, q, CLOSE_ARRAY) then Some(q + 1) else EndOfElements(json, q, depth)
    else if json[p] == MINUS || IsDigit(json[p]) then NumberEnd(json, p)
    else LiteralEnd(json, p)
  }

  /** The end of an array, when an element is due. */
  function EndOfElements(json: bytes, pos: nat, depth: nat): (end: Option<nat>)
    requires pos <= |json|
    ensures end.Some? ==> pos < end.value <= |json|
    decreases |json| - pos, 1
  {
    var v := EndOfValue(json, pos, depth + 1);
    if v.None? then None
    else
      var q := SkipBlank(json, v.value);
      if ByteAt(json, q, COMMA) then EndOfElements(json, SkipBlank(json, q + 1), depth)
      else if ByteAt(json, q, CLOSE_ARRAY) then Some(q + 1)
      else None
  }

  /** The end of an object, when a member is due. */
  function EndOfMembers(json: bytes, pos: nat, depth: nat): (end: Option<nat>)
    requires pos <= |json|
    ensures end.Some? ==> pos < end.value <= |json|
    decreases |json| - pos, 1
  {
    var v := EndOfMember(json, pos, depth);
    if v.None? then None
    else
      var q := SkipBlank(json, v.value);
      if ByteAt(json, q, COMMA) then EndOfMembers(json, SkipBlank(json, q + 1), depth)
      else if ByteAt(json, q, CLOSE_OBJECT) then Some(q + 1)
      else None
  }

  /** One key, a colon, one value. */
  function EndOfMember(json: bytes, pos: nat, depth: nat): (end: Option<nat>)
    requires pos <= |json|
    ensures end.Some? ==> pos < end.value <= |json|
    decreases |json| - pos, 0
  {
    if !ByteAt(json, pos, QUOTE) || StringEnd(json, pos + 1).None? then None
    else
      var colon := SkipBlank(json, StringEnd(json, pos + 1).value + 1);
      if ByteAt(json, colon, COLON) then EndOfValue(json, colon + 1, depth + 1) else None
  }

  /** The whole check; `first` is the byte the document has to start with. */
  predicate ValidText(json: bytes, first: byte) {
    var p := SkipBlank(json, 0);
    var end := EndOfValue(json, p, 0);
    ByteAt(json, p, first) && end.Some? && SkipBlank(json, end.value) == |json|
  }

  // ----- Everything the scan accepts is in the grammar -----

  lemma SkipTwice(json: bytes, pos: nat)
    requires pos <= |json|
    ensures SkipBlank(json, SkipBlank(json, pos)) == SkipBlank(json, pos)
  {
  }

  lemma SliceJoin(json: bytes, a: nat, b: nat, c: nat)
    requires a <= b <= c <= |json|
    ensures json[a..b] + json[b..c] == json[a..c]
  {
  }

  lemma BlankSlice(json: bytes, pos: nat)
    requires pos <= |json|
    ensures Blank(json[pos..SkipBlank(json, pos)])
  {
  }

  /** A separator found between two blanks. */
  lemma SeparatorFound(json: bytes, a: nat, c: byte)
    requires a <= |json| && !IsSpace(c) && ByteAt(json, SkipBlank(json, a), c)
    ensures var q := SkipBlank(json, a);
            Separated(json[a..SkipBlank(json, q + 1)], c)
  {
    var q := SkipBlank(json, a);
    var r := SkipBlank(json, q + 1);
    var s := json[a..r];
    BlankSlice(json, a);
    BlankSlice(json, q + 1);
    assert s[q - a] == c && s[..q - a] == json[a..q] && s[q - a + 1..] == json[q + 1..r];
  }

  lemma {:induction false} RawFound(json: bytes, pos: nat)
    requires pos <= |json| && StringEnd(json, pos).Some?
    ensures RawOk(json[pos..StringEnd(json, pos).value]) && json[StringEnd(json, pos).value] == QUOTE
    decreases |json| - pos
  {
    var end := StringEnd(json, pos).value;
    if json[pos] != QUOTE {
      var n := if json[pos] != BACKSLASH then 1 else if json[pos + 1] == 0x75 then 6 else 2;
      RawFound(json, pos + n);
      assert json[pos..end][n..] == json[pos + n..end];
    }
  }

  /** The string whose opening quote stands at `pos`. */
  lemma StringFound(json: bytes, pos: nat) returns (n: Node)
    requires ByteAt(json, pos, QUOTE) && StringEnd(json, pos + 1).Some?
    ensures n.String? && IsJson(n) && json[pos..StringEnd(json, pos + 1).value + 1] == Render(n)
  {
    var end := StringEnd(json, pos + 1).value;
    RawFound(json, pos + 1);
    n := String(json[pos + 1..end]);
    assert json[pos..end + 1] == [QUOTE] + json[pos + 1..end] + [QUOTE];
  }

  lemma WholeFound(json: bytes, pos: nat)
    requires pos <= |json| && WholeEnd(json, pos).Some?
    ensures IsWhole(json[pos..WholeEnd(json, pos).value])
  {
  }

  lemma FractionFound(json: bytes, pos: nat)
    requires pos <= |json| && FractionEnd(json, pos).Some?
    ensures IsFraction(json[pos..FractionEnd(json, pos).value])
  {
    var s := json[pos..FractionEnd(json, pos).value];
    if s != [] { assert s[1..] == json[pos + 1..pos + |s|]; }
  }

  lemma ExponentFound(json: bytes, pos: nat)
    requires pos <= |json| && ExponentEnd(json, pos).Some?
    ensures IsExponent(json[pos..ExponentEnd(json, pos).value])
  {
    var s := json[pos..ExponentEnd(json, pos).value];
    if s != [] {
      assert s[0] == json[pos] && s[1..] == json[pos + 1..pos + |s|];
      if |s| > 1 { assert s[1] == json[pos + 1] && s[2..] == json[pos + 2..pos + |s|]; }
    }
  }

  lemma NumberFound(json: bytes, pos: nat)
    requires pos < |json| && NumberEnd(json, pos).Some?
    ensures IsNumber(json[pos..NumberEnd(json, pos).value])
  {
    hide IsWhole, IsFraction, IsExponent, WholeEnd, FractionEnd, ExponentEnd;
    var a := if json[pos] == MINUS then pos + 1 else pos;
    assert IsMinus(json[pos..a]);
    var b := WholeEnd(json, a).value;
    var c := FractionEnd(json, b).value;
    var d := ExponentEnd(json, c).value;
    WholeFound(json, a);
    FractionFound(json, b);
    ExponentFound(json, c);
    SliceJoin(json, pos, a, b);
    SliceJoin(json, pos, b, c);
    SliceJoin(json, pos, c, d);
    assert NumberParts(json[pos..d], json[pos..a], json[a..b], json[b..c], json[c..d]);
  }

  lemma LiteralFound(json: bytes, pos: nat)
    requires LiteralEnd(json, pos).Some?
    ensures IsLiteral(json[pos..LiteralEnd(json, pos).value])
  {
  }

  /** What is a number or a literal is a bare word. */
  lemma WordsAreWords(w: bytes)
    requires IsNumber(w) || IsLiteral(w)
    ensures WordOk(w)
  {
    if IsNumber(w) {
      var minus, whole, fraction, exponent :| NumberParts(w, minus, whole, fraction, exponent);
      NumberBytes(minus, whole, fraction, exponent);
    }
  }

  lemma NumberBytes(minus: bytes, whole: bytes, fraction: bytes, exponent: bytes)
    requires IsMinus(minus) && IsWhole(whole) && IsFraction(fraction) && IsExponent(exponent)
    ensures WordOk(minus + whole + fraction + exponent)
  {
    DigitsAreWordBytes(whole);
    forall i | 0 <= i < |fraction| ensures WordByte(fraction[i]) {
      if i > 0 { assert fraction[i] == fraction[1..][i - 1]; }
    }
    forall i | 0 <= i < |exponent| ensures WordByte(exponent[i]) {
      if i == 1 && Sign(exponent[1]) {
      } else if i > 0 {
        assert i > 1 ==> exponent[i] == exponent[2..][i - 2];
        assert exponent[i] == exponent[1..][i - 1];
      }
    }
  }

  lemma DigitsAreWordBytes(s: bytes)
    requires IsWhole(s)
    ensures WordOk(s)
  {
  }

  /** The value the scan passed over. */
  lemma {:induction false} ValueFound(json: bytes, pos: nat, depth: nat) returns (n: Node)
    requires pos <= |json| && EndOfValue(json, pos, depth).Some?
    ensures IsJson(n) && Proper(n, DEPTH_MAX - depth)
    ensures json[SkipBlank(json, pos)..EndOfValue(json, pos, depth).value] == Render(n)
    decreases |json| - pos, 1
  {
    var p, end := SkipBlank(json, pos), EndOfValue(json, pos, depth).value;
    if json[p] == QUOTE {
      n := StringFound(json, p);
    } else if json[p] == OPEN_OBJECT {
      n := ObjectFound(json, p, depth);
    } else if json[p] == OPEN_ARRAY {
      n := ArrayFound(json, p, depth);
    } else {
      n := Word(json[p..end]);
      if json[p] == MINUS || IsDigit(json[p]) { NumberFound(json, p); } else { LiteralFound(json, p); }
      WordsAreWords(json[p..end]);
    }
  }

  /** The array whose bracket stands at `p`. */
  lemma {:induction false} ArrayFound(json: bytes, p: nat, depth: nat) returns (n: Node)
    requires ByteAt(json, p, OPEN_ARRAY) && depth <= DEPTH_MAX
    requires var q := SkipBlank(json, p + 1); !ByteAt(json, q, CLOSE_ARRAY) ==> EndOfElements(json, q, depth).Some?
    ensures var q := SkipBlank(json, p + 1);
            IsJson(n) && Proper(n, DEPTH_MAX - depth)
            && json[p..if ByteAt(json, q, CLOSE_ARRAY) then q + 1 else EndOfElements(json, q, depth).value] == Render(n)
    decreases |json| - p, 0
  {
    var q := SkipBlank(json, p + 1);
    BlankSlice(json, p + 1);
    if ByteAt(json, q, CLOSE_ARRAY) {
      n := Container(true, End, json[p + 1..q]);
      assert json[p..q + 1] == [OPEN_ARRAY] + json[p + 1..q] + [CLOSE_ARRAY];
    } else {
      var first, rest, close := ElementsFound(json, q, depth);
      n := Container(true, Then(json[p + 1..q], first, rest), close);
      Enclose(json, p, q, EndOfElements(json, q, depth).value, first, rest, close, CLOSE_ARRAY);
    }
  }

  /** The object whose brace stands at `p`. */
  lemma {:induction false} ObjectFound(json: bytes, p: nat, depth: nat) returns (n: Node)
    requires ByteAt(json, p, OPEN_OBJECT) && depth <= DEPTH_MAX
    requires var q := SkipBlank(json, p + 1); !ByteAt(json, q, CLOSE_OBJECT) ==> EndOfMembers(json, q, depth).Some?
    ensures var q := SkipBlank(json, p + 1);
            IsJson(n) && Proper(n, DEPTH_MAX - depth)
            && json[p..if ByteAt(json, q, CLOSE_OBJECT) then q + 1 else EndOfMembers(json, q, depth).value] == Render(n)
    decreases |json| - p, 0
  {
    var q := SkipBlank(json, p + 1);
    BlankSlice(json, p + 1);
    if ByteAt(json, q, CLOSE_OBJECT) {
      n := Container(false, End, json[p + 1..q]);
      assert json[p..q + 1] == [OPEN_OBJECT] + json[p + 1..q] + [CLOSE_OBJECT];
    } else {
      var key, value, close := MembersFound(json, q, depth);
      n := Container(false, Then(json[p + 1..q], key, value), close);
      Enclose(json, p, q, EndOfMembers(json, q, depth).value, key, value, close, CLOSE_OBJECT);
    }
  }

  /** The text of a container from its pieces. */
  lemma Enclose(json: bytes, p: nat, q: nat, end: nat, first: Node, rest: Parts, close: bytes, bracket: byte)
    requires p < q < end <= |json| && json[q..end] == Render(first) + RenderParts(rest) + (close + [bracket])
    ensures json[p..end] == [json[p]] + RenderParts(Then(json[p + 1..q], first, rest)) + close + [bracket]
  {
    SliceJoin(json, p, p + 1, q);
    SliceJoin(json, p, q, end);
    Flat([json[p]], json[p + 1..q], Render(first), RenderParts(rest), close, [bracket]);
    Associate(Render(first) + RenderParts(rest), close, [bracket]);
  }

  lemma Flat(a: bytes, b: bytes, c: bytes, d: bytes, e: bytes, f: bytes)
    ensures a + b + (c + d + e + f) == a + (b + c + d) + e + f
  {
  }

  /** One node, then a separator and the parts after it. */
  lemma Prepend(json: bytes, pos: nat, v: nat, r: nat, end: nat, text: bytes, second: Node, others: Parts, close: bytes)
    requires pos <= v <= r <= end <= |json| && json[pos..v] == text
    requires json[r..end] == Render(second) + RenderParts(others) + close
    ensures json[pos..end] == text + RenderParts(Then(json[v..r], second, others)) + close
  {
    SliceJoin(json, pos, v, r);
    SliceJoin(json, pos, r, end);
    Flat(text, json[v..r], Render(second), RenderParts(others), close, []);
    assert Render(second) + RenderParts(others) + close + [] == Render(second) + RenderParts(others) + close;
    assert text + RenderParts(Then(json[v..r], second, others)) + close + [] == text + RenderParts(Then(json[v..r], second, others)) + close;
  }

  lemma CloseSlice(json: bytes, pos: nat, v: nat, q: nat, text: bytes, bracket: byte)
    requires pos <= v <= q && ByteAt(json, q, bracket) && json[pos..v] == text
    ensures json[pos..q + 1] == text + RenderParts(End) + (json[v..q] + [bracket])
  {
    SliceJoin(json, pos, v, q + 1);
    assert json[v..q + 1] == json[v..q] + [bracket];
  }

  // The scan, one element or member at a time.
  lemma ElementsScan(json: bytes, pos: nat, depth: nat)
    requires pos <= |json|
    ensures var v := EndOfValue(json, pos, depth + 1);
            if v.None? then EndOfElements(json, pos, depth) == None
            else
              var q := SkipBlank(json, v.value);
              EndOfElements(json, pos, depth)
              == if ByteAt(json, q, COMMA) then EndOfElements(json, SkipBlank(json, q + 1), depth)
                 else if ByteAt(json, q, CLOSE_ARRAY) then Some(q + 1) else None
  {
  }

  lemma MembersScan(json: bytes, pos: nat, depth: nat)
    requires pos <= |json|
    ensures var v := EndOfMember(json, pos, depth);
            if v.None? then EndOfMembers(json, pos, depth) == None
            else
              var q := SkipBlank(json, v.value);
              EndOfMembers(json, pos, depth)
              == if ByteAt(json, q, COMMA) then EndOfMembers(json, SkipBlank(json, q + 1), depth)
                 else if ByteAt(json, q, CLOSE_OBJECT) then Some(q + 1) else None
  {
  }

  lemma MemberScan(json: bytes, pos: nat, depth: nat)
    requires pos <= |json| && EndOfMember(json, pos, depth).Some?
    ensures ByteAt(json, pos, QUOTE) && StringEnd(json, pos + 1).Some?
    ensures var q := SkipBlank(json, StringEnd(json, pos + 1).value + 1);
            ByteAt(json, q, COLON) && EndOfMember(json, pos, depth) == EndOfValue(json, q + 1, depth + 1)
  {
  }

  /** The elements from `pos` to the end of the array. */
  lemma {:induction false} ElementsFound(json: bytes, pos: nat, depth: nat) returns (first: Node, rest: Parts, close: bytes)
    requires pos <= |json| && SkipBlank(json, pos) == pos && EndOfElements(json, pos, depth).Some?
    ensures IsJson(first) && Proper(first, DEPTH_MAX - depth - 1) && Blank(close)
    ensures Elements(rest, false) && ProperParts(rest, DEPTH_MAX - depth - 1)
    ensures json[pos..EndOfElements(json, pos, depth).value] == Render(first) + RenderParts(rest) + (close + [CLOSE_ARRAY])
    decreases |json| - pos, 2
  {
    hide Render, RenderParts, Separated, Blank, Proper, SkipBlank, EndOfElements, EndOfValue, IsJson;
    ElementsScan(json, pos, depth);
    first := ValueFound(json, pos, depth + 1);
    var v, end := EndOfValue(json, pos, depth + 1).value, EndOfElements(json, pos, depth).value;
    var q := SkipBlank(json, v);
    BlankSlice(json, v);
    if ByteAt(json, q, COMMA) {
      var r := SkipBlank(json, q + 1);
      SkipTwice(json, q + 1);
      SeparatorFound(json, v, COMMA);
      var second, others;
      second, others, close := ElementsFound(json, r, depth);
      rest := Then(json[v..r], second, others);
      Prepend(json, pos, v, r, end, Render(first), second, others, close + [CLOSE_ARRAY]);
    } else {
      rest, close := End, json[v..q];
      CloseSlice(json, pos, v, q, Render(first), CLOSE_ARRAY);
    }
  }

  /** The members from `pos` to the end of the object: the first key and all that follows it. */
  lemma {:induction false} MembersFound(json: bytes, pos: nat, depth: nat) returns (key: Node, rest: Parts, close: bytes)
    requires pos <= |json| && SkipBlank(json, pos) == pos && EndOfMembers(json, pos, depth).Some?
    ensures key.String? && IsJson(key) && Blank(close) && Proper(key, DEPTH_MAX - depth - 1)
    ensures rest.Then? && Separated(rest.filler, COLON) && IsJson(rest.first) && Members(rest.rest, false)
    ensures ProperParts(rest, DEPTH_MAX - depth - 1)
    ensures json[pos..EndOfMembers(json, pos, depth).value] == Render(key) + RenderParts(rest) + (close + [CLOSE_OBJECT])
    decreases |json| - pos, 2
  {
    hide Render, RenderParts, Separated, Blank, Proper, SkipBlank, EndOfMembers, EndOfMember, IsJson;
    MembersScan(json, pos, depth);
    var v, end := EndOfMember(json, pos, depth).value, EndOfMembers(json, pos, depth).value;
    var colon, value;
    key, colon, value := MemberFound(json, pos, depth);
    var q := SkipBlank(json, v);
    BlankSlice(json, v);
    if ByteAt(json, q, COMMA) {
      var r := SkipBlank(json, q + 1);
      SkipTwice(json, q + 1);
      SeparatorFound(json, v, COMMA);
      var second, others;
      second, others, close := MembersFound(json, r, depth);
      rest := Then(colon, value, Then(json[v..r], second, others));
      Prepend(json, pos, v, r, end, Render(key) + (colon + Render(value)), second, others, close + [CLOSE_OBJECT]);
    } else {
      rest, close := Then(colon, value, End), json[v..q];
      CloseSlice(json, pos, v, q, Render(key) + (colon + Render(value)), CLOSE_OBJECT);
    }
    Associate(Render(key), colon + Render(value), RenderParts(rest.rest));
    PairText(key, rest);
  }

  lemma PairText(key: Node, rest: Parts)
    requires rest.Then?
    ensures RenderParts(rest) == rest.filler + Render(rest.first) + RenderParts(rest.rest)
  {
  }

  lemma {:induction false} MemberFound(json: bytes, pos: nat, depth: nat) returns (key: Node, colon: bytes, value: Node)
    requires pos <= |json| && EndOfMember(json, pos, depth).Some?
    ensures key.String? && IsJson(key) && Separated(colon, COLON) && IsJson(value)
    ensures Proper(key, DEPTH_MAX - depth - 1) && Proper(value, DEPTH_MAX - depth - 1)
    ensures json[pos..EndOfMember(json, pos, depth).value] == Render(key) + (colon + Render(value))
    decreases |json| - pos, 0
  {
    hide Render, Separated, Proper, IsJson, StringEnd, SkipBlank, EndOfMember, EndOfValue;
    MemberScan(json, pos, depth);
    key := StringFound(json, pos);
    var k := StringEnd(json, pos + 1).value + 1;
    var q := SkipBlank(json, k);
    SeparatorFound(json, k, COLON);
    value := ValueFound(json, q + 1, depth + 1);
    KeyProper(key, value, DEPTH_MAX - depth - 1);
    var r, end := SkipBlank(json, q + 1), EndOfMember(json, pos, depth).value;
    colon := json[k..r];
    SliceJoin(json, k, r, end);
    SliceJoin(json, pos, k, end);
  }

  lemma KeyProper(key: Node, value: Node, room: int)
    requires key.String? && Proper(value, room)
    ensures Proper(key, room)
  {
  }

  // ----- Everything in the grammar is accepted -----

  /** Blanks lie ahead, and what follows them is none. */
  lemma {:induction false} BlankSkipped(json: bytes, pos: nat, blank: bytes)
    requires Blank(blank) && At(json, pos, blank) && (pos + |blank| < |json| ==> !IsSpace(json[pos + |blank|]))
    ensures SkipBlank(json, pos) == pos + |blank|
  {
    forall i | pos <= i < pos + |blank| ensures IsSpace(json[i]) { AtIndex(json, pos, blank, i - pos); }
  }

  lemma SkipAround(json: bytes, pos: nat, a: bytes, c: byte, b: bytes)
    requires Blank(a) && Blank(b) && !IsSpace(c) && At(json, pos, a) && ByteAt(json, pos + |a|, c)
    requires At(json, pos + |a| + 1, b) && pos + |a| + 1 + |b| < |json| && !IsSpace(json[pos + |a| + 1 + |b|])
    ensures var q := SkipBlank(json, pos); ByteAt(json, q, c) && SkipBlank(json, q + 1) == pos + |a| + 1 + |b|
  {
    hide Blank, At;
    BlankSkipped(json, pos, a);
    BlankSkipped(json, pos + |a| + 1, b);
  }

  lemma SeparatorSkipped(json: bytes, pos: nat, filler: bytes, c: byte)
    requires Separated(filler, c) && !IsSpace(c) && At(json, pos, filler)
    requires pos + |filler| < |json| && !IsSpace(json[pos + |filler|])
    ensures var q := SkipBlank(json, pos); ByteAt(json, q, c) && SkipBlank(json, q + 1) == pos + |filler|
  {
    var i :| 0 <= i < |filler| && filler[i] == c && Blank(filler[..i]) && Blank(filler[i + 1..]);
    SkipAround(json, pos, filler[..i], c, filler[i + 1..]);
  }

  lemma DigitsSkipped(json: bytes, pos: nat, digits: bytes)
    requires AllDigits(digits) && At(json, pos, digits) && !DigitAt(json, pos + |digits|)
    ensures SkipDigits(json, pos) == pos + |digits|
  {
    forall i | pos <= i < pos + |digits| ensures IsDigit(json[i]) { AtIndex(json, pos, digits, i - pos); }
  }

  lemma WholeAccepted(json: bytes, pos: nat, whole: bytes)
    requires IsWhole(whole) && At(json, pos, whole) && !DigitAt(json, pos + |whole|)
    ensures WholeEnd(json, pos) == Some(pos + |whole|)
  {
    AtIndex(json, pos, whole, 0);
    if whole[0] != 0x30 {
      assert whole == [whole[0]] + whole[1..];
      AtSplit(json, pos, [whole[0]], whole[1..]);
      DigitsSkipped(json, pos + 1, whole[1..]);
    }
  }

  lemma FractionAccepted(json: bytes, pos: nat, fraction: bytes)
    requires IsFraction(fraction) && At(json, pos, fraction) && !DigitAt(json, pos + |fraction|)
    requires fraction == [] ==> !ByteAt(json, pos, POINT)
    ensures FractionEnd(json, pos) == Some(pos + |fraction|)
  {
    if fraction != [] {
      AtIndex(json, pos, fraction, 0);
      AtIndex(json, pos, fraction, 1);
      assert fraction[1..][0] == fraction[1];
      assert fraction == [fraction[0]] + fraction[1..];
      AtSplit(json, pos, [fraction[0]], fraction[1..]);
      DigitsSkipped(json, pos + 1, fraction[1..]);
    }
  }

  lemma ExponentAccepted(json: bytes, pos: nat, exponent: bytes)
    requires IsExponent(exponent) && At(json, pos, exponent) && !DigitAt(json, pos + |exponent|)
    requires exponent == [] ==> pos == |json| || !Exponential(json[pos])
    ensures ExponentEnd(json, pos) == Some(pos + |exponent|)
  {
    hide At, AllDigits, SkipDigits;
    if exponent != [] {
      AtIndex(json, pos, exponent, 0);
      AtIndex(json, pos, exponent, 1);
      var n := if |exponent| > 1 && Sign(exponent[1]) then 2 else 1;
      assert exponent == exponent[..n] + exponent[n..];
      AtSplit(json, pos, exponent[..n], exponent[n..]);
      AtIndex(json, pos + n, exponent[n..], 0);
      DigitsSkipped(json, pos + n, exponent[n..]);
    }
  }

  /** A number that ends where a word may end is accepted as a whole. */
  lemma NumberAccepted(json: bytes, pos: nat, w: bytes)
    requires IsNumber(w) && At(json, pos, w) && Followed(json, pos + |w|)
    ensures NumberEnd(json, pos) == Some(pos + |w|) && pos < |json| && (json[pos] == MINUS || IsDigit(json[pos]))
  {
    var minus, whole, fraction, exponent :| NumberParts(w, minus, whole, fraction, exponent);
    hide At, NumberEnd, Followed, IsMinus, IsWhole, IsFraction, IsExponent;
    RightNested(minus, whole, fraction, exponent);
    FourPieces(json, pos, minus, whole, fraction, exponent);
    PartsAccepted(json, pos, minus, whole, fraction, exponent);
  }

  lemma RightNested(a: bytes, b: bytes, c: bytes, d: bytes)
    ensures a + b + c + d == a + (b + (c + d)) && |a + b + c + d| == |a| + |b| + |c| + |d|
  {
  }

  lemma PartsAccepted(json: bytes, pos: nat, minus: bytes, whole: bytes, fraction: bytes, exponent: bytes)
    requires IsMinus(minus) && IsWhole(whole) && IsFraction(fraction) && IsExponent(exponent)
    requires var a := pos + |minus|; var b := a + |whole|; var c := b + |fraction|;
             At(json, pos, minus) && At(json, a, whole) && At(json, b, fraction) && At(json, c, exponent) && Followed(json, c + |exponent|)
    ensures NumberEnd(json, pos) == Some(pos + |minus| + |whole| + |fraction| + |exponent|)
    ensures pos < |json| && (json[pos] == MINUS || IsDigit(json[pos]))
  {
    hide At, WholeEnd, FractionEnd, ExponentEnd;
    var a := pos + |minus|;
    var b := a + |whole|;
    var c := b + |fraction|;
    AtIndex(json, a, whole, 0);
    if fraction != [] { AtIndex(json, b, fraction, 0); }
    if exponent != [] { AtIndex(json, c, exponent, 0); }
    if minus != [] { AtIndex(json, pos, minus, 0); }
    WholeAccepted(json, a, whole);
    FractionAccepted(json, b, fraction);
    ExponentAccepted(json, c, exponent);
  }

  lemma LiteralAccepted(json: bytes, pos: nat, w: bytes)
    requires IsLiteral(w) && At(json, pos, w)
    ensures LiteralEnd(json, pos) == Some(pos + |w|)
    ensures pos < |json| && json[pos] in [0x74, 0x66, 0x6e]
  {
    assert json[pos..pos + |w|] == w;
    assert json[pos] == w[0];
    if w != TRUE_WORD { DiffersAt(json, pos, TRUE_WORD); }
    if w == NULL_WORD { DiffersAt(json, pos, FALSE_WORD); }
  }

  lemma DiffersAt(json: bytes, pos: nat, w: bytes)
    requires w != [] && pos < |json| && json[pos] != w[0]
    ensures !Begins(json, pos, w)
  {
    if pos + |w| <= |json| { assert json[pos..pos + |w|][0] == json[pos]; }
  }

  /** No node begins with a blank. */
  lemma NodeBegins(json: bytes, pos: nat, n: Node)
    requires IsJson(n) && At(json, pos, Render(n))
    ensures pos < |json| && !IsSpace(json[pos]) && SkipBlank(json, pos) == pos
    ensures Render(n) != []
  {
    AtIndex(json, pos, Render(n), 0);
  }

  /** The rest of a container, from its first part on. */
  predicate Ahead(json: bytes, pos: nat, first: Node, rest: Parts, close: bytes, bracket: byte) {
    var a := pos + |Render(first)|;
    var b := a + |RenderParts(rest)|;
    At(json, pos, Render(first)) && At(json, a, RenderParts(rest)) && At(json, b, close) && ByteAt(json, b + |close|, bracket)
  }

  function AheadEnd(pos: nat, first: Node, rest: Parts, close: bytes): nat {
    pos + |Render(first)| + |RenderParts(rest)| + |close| + 1
  }

  /** What follows the last part: blanks and the bracket. */
  lemma CloseSkipped(json: bytes, pos: nat, close: bytes, bracket: byte)
    requires Blank(close) && At(json, pos, close) && ByteAt(json, pos + |close|, bracket) && !IsSpace(bracket)
    ensures SkipBlank(json, pos) == pos + |close|
    ensures Delimiter(bracket) ==> Followed(json, pos)
  {
    BlankSkipped(json, pos, close);
    if close != [] { AtIndex(json, pos, close, 0); }
  }

  lemma StringAccepted(json: bytes, pos: nat, raw: bytes)
    requires RawOk(raw) && At(json, pos, Render(String(raw)))
    ensures ByteAt(json, pos, QUOTE) && pos + |raw| + 2 <= |json| && StringEnd(json, pos + 1) == Some(pos + 1 + |raw|)
  {
    AtIndex(json, pos, Render(String(raw)), 0);
    assert Render(String(raw)) == [QUOTE] + (raw + [QUOTE]);
    AtSplit(json, pos, [QUOTE], raw + [QUOTE]);
    StringEndsAtQuote(json, pos + 1, raw);
  }

  lemma ContainerScan(json: bytes, pos: nat, depth: nat, list: bool)
    requires ByteAt(json, pos, Opening(list)) && depth <= DEPTH_MAX
    ensures var q := SkipBlank(json, pos + 1);
            EndOfValue(json, pos, depth)
            == if ByteAt(json, q, Closing(list)) then Some(q + 1)
               else if list then EndOfElements(json, q, depth) else EndOfMembers(json, q, depth)
  {
  }

  lemma {:induction false} ValueAccepted(json: bytes, pos: nat, depth: nat, n: Node)
    requires IsJson(n) && Proper(n, DEPTH_MAX - depth) && At(json, pos, Render(n))
    requires n.Word? ==> Followed(json, pos + |Render(n)|)
    ensures EndOfValue(json, pos, depth) == Some(pos + |Render(n)|)
    decreases n, 1
  {
    hide At, EndOfElements, EndOfMembers, IsNumber, RawOk;
    NodeBegins(json, pos, n);
    match n
    case String(raw) =>
      StringAccepted(json, pos, raw);
    case Word(raw) =>
      if IsNumber(raw) { NumberAccepted(json, pos, raw); } else { LiteralAccepted(json, pos, raw); }
    case Container(list, parts, close) =>
      ContainerAccepted(json, pos, depth, n);
  }

  lemma {:induction false} ContainerAccepted(json: bytes, pos: nat, depth: nat, n: Node)
    requires n.Container? && IsJson(n) && Proper(n, DEPTH_MAX - depth) && At(json, pos, Render(n))
    ensures EndOfValue(json, pos, depth) == Some(pos + |Render(n)|)
    decreases n, 0
  {
    hide At, Blank, EndOfElements, EndOfMembers, EndOfValue, SkipBlank, Separated, Followed, Render;
    Layout(json, pos, n);
    ContainerText(n);
    ContainerScan(json, pos, depth, n.list);
    if n.parts.End? {
      CloseSkipped(json, pos + 1, n.close, Closing(n.list));
    } else {
      PartsText(json, pos + 1, n.parts);
      var q := pos + 1 + |n.parts.filler|;
      NodeBegins(json, q, n.parts.first);
      BlankSkipped(json, pos + 1, n.parts.filler);
      BracketBegins(json, q, n.parts.first);
      if n.list { ElementsAccepted(json, q, depth, n.parts, n.close); } else { MembersAccepted(json, q, depth, n.parts, n.close); }
    }
  }

  /** No node begins with a closing bracket. */
  lemma BracketBegins(json: bytes, pos: nat, n: Node)
    requires IsJson(n) && At(json, pos, Render(n))
    ensures !ByteAt(json, pos, CLOSE_ARRAY) && !ByteAt(json, pos, CLOSE_OBJECT)
  {
    NodeBegins(json, pos, n);
    AtIndex(json, pos, Render(n), 0);
  }

  /** From the end of one part over the comma to the next. */
  lemma NextAhead(json: bytes, v: nat, rest: Parts, close: bytes, bracket: byte)
    requires rest.Then? && Separated(rest.filler, COMMA) && IsJson(rest.first)
    requires At(json, v, RenderParts(rest)) && At(json, v + |RenderParts(rest)|, close)
    requires ByteAt(json, v + |RenderParts(rest)| + |close|, bracket)
    ensures var q, r := SkipBlank(json, v), v + |rest.filler|;
            && Followed(json, v) && ByteAt(json, q, COMMA) && SkipBlank(json, q + 1) == r
            && Ahead(json, r, rest.first, rest.rest, close, bracket)
            && AheadEnd(r, rest.first, rest.rest, close) == v + |RenderParts(rest)| + |close| + 1
  {
    hide At, SkipBlank, Separated, IsJson, Render;
    PartsText(json, v, rest);
    NodeBegins(json, v + |rest.filler|, rest.first);
    SeparatorSkipped(json, v, rest.filler, COMMA);
    SeparatorIgnored(rest.filler, COMMA);
    AtIndex(json, v, rest.filler, 0);
  }

  lemma {:induction false} ElementsAccepted(json: bytes, pos: nat, depth: nat, parts: Parts, close: bytes)
    requires parts.Then? && IsJson(parts.first) && Elements(parts.rest, false) && ProperParts(parts, DEPTH_MAX - depth - 1)
    requires Blank(close) && Ahead(json, pos, parts.first, parts.rest, close, CLOSE_ARRAY)
    ensures EndOfElements(json, pos, depth) == Some(AheadEnd(pos, parts.first, parts.rest, close))
    decreases parts, 1
  {
    hide At, Blank, EndOfValue, EndOfElements, SkipBlank, Separated, IsJson, Proper, Render, Followed, ByteAt;
    var rest, v := parts.rest, pos + |Render(parts.first)|;
    NodeBegins(json, pos, parts.first);
    ElementsScan(json, pos, depth);
    if rest.End? {
      CloseSkipped(json, v, close, CLOSE_ARRAY);
      ValueAccepted(json, pos, depth + 1, parts.first);
      NotComma(json, v + |close|, CLOSE_ARRAY);
    } else {
      NextAhead(json, v, rest, close, CLOSE_ARRAY);
      ValueAccepted(json, pos, depth + 1, parts.first);
      ElementsAccepted(json, v + |rest.filler|, depth, rest, close);
    }
  }

  lemma NotComma(json: bytes, pos: nat, bracket: byte)
    requires ByteAt(json, pos, bracket) && bracket != COMMA
    ensures !ByteAt(json, pos, COMMA)
  {
  }

  lemma {:induction false} MembersAccepted(json: bytes, pos: nat, depth: nat, parts: Parts, close: bytes)
    requires parts.Then? && parts.first.String? && IsJson(parts.first)
    requires parts.rest.Then? && Separated(parts.rest.filler, COLON) && IsJson(parts.rest.first) && Members(parts.rest.rest, false)
    requires ProperParts(parts, DEPTH_MAX - depth - 1) && Blank(close)
    requires Ahead(json, pos, parts.first, parts.rest, close, CLOSE_OBJECT)
    ensures EndOfMembers(json, pos, depth) == Some(AheadEnd(pos, parts.first, parts.rest, close))
    decreases parts, 1
  {
    hide At, Blank, EndOfValue, EndOfMember, EndOfMembers, SkipBlank, Separated, IsJson, Proper, Render, Followed, ByteAt;
    var rest, c := parts.rest, pos + |Render(parts.first)|;
    NodeBegins(json, pos, parts.first);
    MembersScan(json, pos, depth);
    PartsText(json, c, rest);
    var v, others := c + |rest.filler| + |Render(rest.first)|, rest.rest;
    if others.End? {
      CloseSkipped(json, v, close, CLOSE_OBJECT);
      MemberAccepted(json, pos, depth, parts.first, rest.filler, rest.first);
      NotComma(json, v + |close|, CLOSE_OBJECT);
    } else {
      NextAhead(json, v, others, close, CLOSE_OBJECT);
      MemberAccepted(json, pos, depth, parts.first, rest.filler, rest.first);
      MembersAccepted(json, v + |others.filler|, depth, others, close);
    }
  }

  lemma {:induction false} MemberAccepted(json: bytes, pos: nat, depth: nat, key: Node, colon: bytes, value: Node)
    requires key.String? && IsJson(key) && Separated(colon, COLON) && IsJson(value) && Proper(value, DEPTH_MAX - depth - 1)
    requires At(json, pos, Render(key)) && At(json, pos + |Render(key)|, colon)
    requires var u := pos + |Render(key)| + |colon|;
             At(json, u, Render(value)) && (value.Word? ==> Followed(json, u + |Render(value)|))
    ensures EndOfMember(json, pos, depth) == Some(pos + |Render(key)| + |colon| + |Render(value)|)
    decreases value, 2
  {
    hide At, Separated, EndOfValue, SkipBlank, Proper, RawOk, StringEnd;
    var c := pos + |Render(key)|;
    var u := c + |colon|;
    StringAccepted(json, pos, key.raw);
    NodeBegins(json, u, value);
    SeparatorSkipped(json, c, colon, COLON);
    ValueAccepted(json, u, depth + 1, value);
    assert u < |json| && SkipBlank(json, c) < u;
    BlankGap(json, SkipBlank(json, c) + 1, depth + 1);
    BlankGap(json, u, depth + 1);
  }

  /** Where a value starts matters only up to blanks. */
  lemma BlankGap(json: bytes, pos: nat, depth: nat)
    requires pos <= |json|
    ensures EndOfValue(json, pos, depth) == EndOfValue(json, SkipBlank(json, pos), depth)
  {
    SkipTwice(json, pos);
  }

  // ----- Exactly -----

  /** The text is one document of the grammar, between blanks, that starts with `first`. */
  ghost predicate Complete(json: bytes, first: byte, n: Node, before: bytes, after: bytes) {
    && IsJson(n) && Proper(n, DEPTH_MAX) && Blank(before) && Blank(after)
    && json == before + Render(n) + after && Render(n) != [] && Render(n)[0] == first
  }

  lemma DocumentFound(json: bytes, first: byte) returns (n: Node, before: bytes, after: bytes)
    requires ValidText(json, first)
    ensures Complete(json, first, n, before, after)
  {
    hide EndOfValue, SkipBlank, Render, IsJson, Proper;
    var p := SkipBlank(json, 0);
    var end := EndOfValue(json, p, 0).value;
    SkipTwice(json, 0);
    n := ValueFound(json, p, 0);
    before, after := json[0..p], json[end..|json|];
    BlankSlice(json, 0);
    BlankSlice(json, end);
    SliceJoin(json, 0, p, end);
    SliceJoin(json, 0, end, |json|);
    assert json[p..end][0] == json[p] && json[0..|json|] == json && Render(n) == json[p..end];
  }

  lemma DocumentAccepted(json: bytes, first: byte, n: Node, before: bytes, after: bytes)
    requires Complete(json, first, n, before, after)
    ensures ValidText(json, first)
  {
    hide At, EndOfValue, Proper, IsJson, Blank;
    DocumentLayout(n, before, after);
    NodeBegins(json, |before|, n);
    BlankSkipped(json, 0, before);
    AtIndex(json, |before|, Render(n), 0);
    ValueAccepted(json, |before|, 0, n);
    BlankSkipped(json, |before| + |Render(n)|, after);
  }

  /** The check accepts exactly the complete documents. */
  lemma ValidExactly(json: bytes, first: byte)
    ensures ValidText(json, first) <==> exists n, before, after :: Complete(json, first, n, before, after)
  {
    if ValidText(json, first) {
      var n, before, after := DocumentFound(json, first);
    }
    forall n, before, after | Complete(json, first, n, before, after) ensures ValidText(json, first) {
      DocumentAccepted(json, first, n, before, after);
    }
  }

  /** What starts with a brace is an object. */
  lemma ObjectBegins(n: Node)
    requires IsJson(n) && Render(n) != [] && Render(n)[0] == OPEN_OBJECT
    ensures n.Container? && !n.list
  {
  }

  // ----- The check in its loops -----

  method PassBlank(json: bytes, pos: nat) returns (next: nat)
    requires pos <= |json|
    ensures next == SkipBlank(json, pos)
  {
    next := pos;
    while next < |json| && IsSpace(json[next])
      invariant pos <= next <= |json| && SkipBlank(json, next) == SkipBlank(json, pos)
    {
      next := next + 1;
    }
  }

  method PassDigits(json: bytes, pos: nat) returns (next: nat)
    requires pos <= |json|
    ensures next == SkipDigits(json, pos)
  {
    next := pos;
    while next < |json| && IsDigit(json[next])
      invariant pos <= next <= |json| && SkipDigits(json, next) == SkipDigits(json, pos)
    {
      next := next + 1;
    }
  }

  method PassWhole(json: bytes, pos: nat) returns (end: Option<nat>)
    requires pos <= |json|
    ensures end == WholeEnd(json, pos)
  {
    if !DigitAt(json, pos) { return None; }
    if json[pos] == 0x30 { return Some(pos + 1); }
    var p := PassDigits(json, pos + 1);
    return Some(p);
  }

  method PassExponent(json: bytes, pos: nat) returns (end: Option<nat>)
    requires pos <= |json|
    ensures end == ExponentEnd(json, pos)
  {
    var p := pos;
    if p < |json| && Exponential(json[p]) {
      p := p + 1;
      if p < |json| && Sign(json[p]) { p := p + 1; }
      if !DigitAt(json, p) { return None; }
      p := PassDigits(json, p);
    }
    return Some(p);
  }

  method PassNumber(json: bytes, pos: nat) returns (end: Option<nat>)
    requires pos < |json|
    ensures end == NumberEnd(json, pos)
  {
    hide WholeEnd, ExponentEnd, SkipDigits;
    var p := pos;
    if json[p] == MINUS { p := p + 1; }
    var whole := PassWhole(json, p);
    if whole.None? { return None; }
    p := whole.value;
    if p < |json| && json[p] == POINT {
      if !DigitAt(json, p + 1) { return None; }
      p := PassDigits(json, p + 1);
    }
    end := PassExponent(json, p);
  }

  method PassValue(json: bytes, pos: nat, depth: nat) returns (end: Option<nat>)
    requires pos <= |json|
    ensures end == EndOfValue(json, pos, depth)
    decreases |json| - pos, 1
  {
    if depth > DEPTH_MAX { return None; }
    var p := PassBlank(json, pos);
    if p == |json| { return None; }
    if json[p] == QUOTE {
      var close := FindStringEnd(json, p + 1);
      return if close.None? then None else Some(close.value + 1);
    }
    if json[p] == OPEN_OBJECT { end := PassObject(json, p, depth); return; }
    if json[p] == OPEN_ARRAY { end := PassArray(json, p, depth); return; }
    if json[p] == MINUS || IsDigit(json[p]) { end := PassNumber(json, p); return; }
    return LiteralEnd(json, p);
  }

  method PassArray(json: bytes, pos: nat, depth: nat) returns (end: Option<nat>)
    requires ByteAt(json, pos, OPEN_ARRAY) && depth <= DEPTH_MAX
    ensures end == EndOfValue(json, pos, depth)
    decreases |json| - pos, 0
  {
    hide EndOfValue, EndOfElements, SkipBlank;
    ContainerScan(json, pos, depth, true);
    var p := PassBlank(json, pos + 1);
    if ByteAt(json, p, CLOSE_ARRAY) { return Some(p + 1); }
    while true
      invariant pos < p <= |json| && EndOfElements(json, p, depth) == EndOfValue(json, pos, depth)
      decreases |json| - p
    {
      ElementsScan(json, p, depth);
      var v := PassValue(json, p, depth + 1);
      if v.None? { return None; }
      var q := PassBlank(json, v.value);
      if !ByteAt(json, q, COMMA) { return if ByteAt(json, q, CLOSE_ARRAY) then Some(q + 1) else None; }
      p := PassBlank(json, q + 1);
    }
  }

  method PassObject(json: bytes, pos: nat, depth: nat) returns (end: Option<nat>)
    requires ByteAt(json, pos, OPEN_OBJECT) && depth <= DEPTH_MAX
    ensures end == EndOfValue(json, pos, depth)
    decreases |json| - pos, 0
  {
    hide EndOfValue, EndOfMembers, EndOfMember, SkipBlank;
    ContainerScan(json, pos, depth, false);
    var p := PassBlank(json, pos + 1);
    if ByteAt(json, p, CLOSE_OBJECT) { return Some(p + 1); }
    while true
      invariant pos < p <= |json| && EndOfMembers(json, p, depth) == EndOfValue(json, pos, depth)
      decreases |json| - p
    {
      MembersScan(json, p, depth);
      var v := PassMember(json, p, depth);
      if v.None? { return None; }
      var q := PassBlank(json, v.value);
      if !ByteAt(json, q, COMMA) { return if ByteAt(json, q, CLOSE_OBJECT) then Some(q + 1) else None; }
      p := PassBlank(json, q + 1);
    }
  }

  method PassMember(json: bytes, pos: nat, depth: nat) returns (end: Option<nat>)
    requires pos <= |json|
    ensures end == EndOfMember(json, pos, depth)
    decreases |json| - pos, 0
  {
    if !ByteAt(json, pos, QUOTE) { return None; }
    var key := FindStringEnd(json, pos + 1);
    if key.None? { return None; }
    var colon := PassBlank(json, key.value + 1);
    if !ByteAt(json, colon, COLON) { return None; }
    end := PassValue(json, colon + 1, depth + 1);
  }

  method Validate(json: bytes, first: byte) returns (ok: bool)
    ensures ok <==> ValidText(json, first)
  {
    var p := PassBlank(json, 0);
    if !ByteAt(json, p, first) { return false; }
    var end := PassValue(json, p, 0);
    if end.None? { return false; }
    var rest := PassBlank(json, end.value);
    return rest == |json|;
  }
}
