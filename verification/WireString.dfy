/** JSON string content on the private wire.

    `DecodeContent` is the one decoder shared by the relay and the runtime pipe: JSON
    escapes (RFC 8259, section 7) with paired surrogates, literal UTF-8 (RFC 3629,
    sections 3 and 4), no raw control byte, no unescaped quote and no NUL.  `Escape` is
    the encoder used for every published field.  The bit operations on code points are
    written as arithmetic on octets. */
module WireString {
  import opened Prelude

  const QUOTE: byte := 0x22
  const BACKSLASH: byte := 0x5c

  /** One decoded unit: how many content bytes it took and the UTF-8 bytes it stands for. */
  datatype Unit = Unit(taken: nat, text: bytes)

  function HexValue(c: byte): Option<nat> {
    if 0x30 <= c <= 0x39 then Some(c - 0x30)
    else if 0x61 <= c <= 0x66 then Some(c - 0x61 + 10)
    else if 0x41 <= c <= 0x46 then Some(c - 0x41 + 10)
    else None
  }

  /** Four hexadecimal digits, or None. */
  function Hex4(s: bytes): (r: Option<nat>)
    requires |s| >= 4
    ensures r.Some? ==> r.value < 0x10000
  {
    match (HexValue(s[0]), HexValue(s[1]), HexValue(s[2]), HexValue(s[3]))
    case (Some(a), Some(b), Some(c), Some(d)) => Some(((a * 16 + b) * 16 + c) * 16 + d)
    case _ => None
  }

  predicate HighSurrogate(cp: nat) { 0xd800 <= cp <= 0xdbff }

  predicate LowSurrogate(cp: nat) { 0xdc00 <= cp <= 0xdfff }

  predicate IsScalar(cp: nat) { cp <= 0x10ffff && !HighSurrogate(cp) && !LowSurrogate(cp) }

  /** A continuation byte carrying the low six bits of `n`. */
  function Tail(n: nat): (c: byte)
    ensures Continuation(c) && c == 0x80 + n % 64
  {
    0x80 + n % 64
  }

  /** UTF-8 of one Unicode scalar. */
  function Utf8(cp: nat): (text: bytes)
    requires IsScalar(cp)
    ensures 1 <= |text| <= 4
  {
    if cp < 0x80 then [cp]
    else if cp < 0x800 then [0xc0 + cp / 64, Tail(cp)]
    else if cp < 0x10000 then [0xe0 + cp / 4096, Tail(cp / 64), Tail(cp)]
    else [0xf0 + cp / 262144, Tail(cp / 4096), Tail(cp / 64), Tail(cp)]
  }

  predicate Continuation(c: byte) { 0x80 <= c < 0xc0 }

  function Low6(c: byte): nat
    requires Continuation(c)
  {
    c - 0x80
  }

  /** Length announced by a UTF-8 lead byte; 0 when it leads nothing. */
  function LeadLength(c: byte): nat {
    if 0xc2 <= c <= 0xdf then 2
    else if 0xe0 <= c <= 0xef then 3
    else if 0xf0 <= c <= 0xf4 then 4
    else 0
  }

  /** A literal multi-byte scalar at the front of `s`. */
  function LiteralUnit(s: bytes): Option<Unit>
    requires |s| >= 1 && s[0] >= 0x80
  {
    var n := LeadLength(s[0]);
    if n == 0 || |s| < n || !(forall i :: 1 <= i < n ==> Continuation(s[i])) then None
    else
      var cp: nat :=
        if n == 2 then (s[0] as int - 0xc0) * 64 + Low6(s[1])
        else if n == 3 then ((s[0] as int - 0xe0) * 64 + Low6(s[1])) * 64 + Low6(s[2])
        else (((s[0] as int - 0xf0) * 64 + Low6(s[1])) * 64 + Low6(s[2])) * 64 + Low6(s[3]);
      var minimum := if n == 2 then 0x80 else if n == 3 then 0x800 else 0x10000;
      if cp < minimum || !IsScalar(cp) then None else Some(Unit(n, Utf8(cp)))
  }

  function ScalarUnit(taken: nat, cp: nat): Option<Unit> {
    if cp == 0 || !IsScalar(cp) then None else Some(Unit(taken, Utf8(cp)))
  }

  /** A backslash escape at the front of `s`. */
  function EscapeUnit(s: bytes): Option<Unit>
    requires |s| >= 1 && s[0] == BACKSLASH
  {
    if |s| < 2 then None
    else if s[1] == 0x22 || s[1] == BACKSLASH || s[1] == 0x2f then Some(Unit(2, [s[1]]))
    else if s[1] == 0x62 then Some(Unit(2, [0x08]))
    else if s[1] == 0x66 then Some(Unit(2, [0x0c]))
    else if s[1] == 0x6e then Some(Unit(2, [0x0a]))
    else if s[1] == 0x72 then Some(Unit(2, [0x0d]))
    else if s[1] == 0x74 then Some(Unit(2, [0x09]))
    else if s[1] != 0x75 || |s| < 6 then None
    else
      match Hex4(s[2..])
      case None => None
      case Some(high) =>
        if !HighSurrogate(high) then ScalarUnit(6, high)
        else if |s| < 12 || s[6] != BACKSLASH || s[7] != 0x75 then None
        else
          match Hex4(s[8..])
          case None => None
          case Some(low) =>
            if !LowSurrogate(low) then None
            else ScalarUnit(12, 0x10000 + (high - 0xd800) * 1024 + (low - 0xdc00))
  }

  /** The unit at the front of nonempty content. */
  function FirstUnit(s: bytes): (r: Option<Unit>)
    requires |s| >= 1
    ensures r.Some? ==> 1 <= r.value.taken <= |s| && r.value.taken <= 12
    ensures r.Some? ==> 1 <= |r.value.text| <= 4
  {
    var c := s[0];
    if c < 0x20 || c == QUOTE then None
    else if c == BACKSLASH then EscapeUnit(s)
    else if c < 0x80 then Some(Unit(1, [c]))
    else LiteralUnit(s)
  }

  /** The bytes between two quotes, decoded; None when any unit is malformed. */
  function DecodeContent(s: bytes): Option<bytes>
  {
    if s == [] then Some([])
    else
      match FirstUnit(s)
      case None => None
      case Some(unit) =>
        match DecodeContent(s[unit.taken..])
        case None => None
        case Some(rest) => Some(unit.text + rest)
  }

  /** The decoder's entry point: a quoted string whose text, with its terminator, fits
      `capacity` bytes. */
  function StringDecode(quoted: bytes, capacity: nat): Option<bytes> {
    if |quoted| < 2 || quoted[0] != QUOTE || quoted[|quoted| - 1] != QUOTE then None
    else
      match DecodeContent(quoted[1..|quoted| - 1])
      case Some(text) => if |text| < capacity then Some(text) else None
      case None => None
  }

  // ----- Units and concatenation -----

  /** Bytes after a complete unit do not change it. */
  lemma FirstUnitIgnoresTail(s: bytes, tail: bytes)
    requires |s| >= 1 && FirstUnit(s).Some?
    ensures FirstUnit(s + tail) == FirstUnit(s)
  {
    var t := s + tail;
    assert t[0] == s[0];
    if s[0] == BACKSLASH {
      assert t[1] == s[1];
      if |s| >= 6 { assert t[2] == s[2] && t[3] == s[3] && t[4] == s[4] && t[5] == s[5]; }
      if |s| >= 12 {
        assert t[6] == s[6] && t[7] == s[7] && t[8] == s[8] && t[9] == s[9] && t[10] == s[10] && t[11] == s[11];
      }
    } else if s[0] >= 0x80 {
      var n := LeadLength(s[0]);
      assert forall i :: 1 <= i < n ==> t[i] == s[i];
    }
  }

  /** A unit is determined by the bytes it takes. */
  lemma FirstUnitOfItsBytes(s: bytes)
    requires |s| >= 1 && FirstUnit(s).Some?
    ensures FirstUnit(s[..FirstUnit(s).value.taken]) == FirstUnit(s)
  {
    var n := FirstUnit(s).value.taken;
    var u := s[..n];
    assert u[0] == s[0];
    if s[0] >= 0x80 {
      assert forall i :: 1 <= i < n ==> u[i] == s[i];
    }
  }

  lemma {:induction false} DecodeAppend(a: bytes, b: bytes)
    requires DecodeContent(a).Some?
    ensures DecodeContent(a + b) ==
            match DecodeContent(b)
            case None => None
            case Some(t) => Some(DecodeContent(a).value + t)
    decreases |a|
  {
    if a == [] {
      assert a + b == b;
      if DecodeContent(b).Some? { assert [] + DecodeContent(b).value == DecodeContent(b).value; }
    } else {
      var unit := FirstUnit(a).value;
      FirstUnitIgnoresTail(a, b);
      assert (a + b)[unit.taken..] == a[unit.taken..] + b;
      DecodeAppend(a[unit.taken..], b);
      if DecodeContent(b).Some? {
        Associate(unit.text, DecodeContent(a[unit.taken..]).value, DecodeContent(b).value);
      }
    }
  }

  lemma DecodePair(a: bytes, b: bytes, x: bytes, y: bytes)
    requires DecodeContent(a) == Some(x) && DecodeContent(b) == Some(y)
    ensures DecodeContent(a + b) == Some(x + y)
  {
    DecodeAppend(a, b);
  }

  lemma DecodeOne(u: bytes)
    requires |u| >= 1 && FirstUnit(u).Some? && FirstUnit(u).value.taken == |u|
    ensures DecodeContent(u) == Some(FirstUnit(u).value.text)
  {
    assert u[|u|..] == [];
    assert FirstUnit(u).value.text + [] == FirstUnit(u).value.text;
  }

  /** Content never grows under decoding by more than the escape ratio, and never to nothing. */
  lemma {:induction false} DecodeRatio(s: bytes)
    requires DecodeContent(s).Some?
    ensures |DecodeContent(s).value| <= |s| <= 6 * |DecodeContent(s).value|
    decreases |s|
  {
    if s != [] {
      var unit := FirstUnit(s).value;
      DecodeRatio(s[unit.taken..]);
      UnitRatio(s);
    }
  }

  lemma UnitRatio(s: bytes)
    requires |s| >= 1 && FirstUnit(s).Some?
    ensures |FirstUnit(s).value.text| <= FirstUnit(s).value.taken <= 6 * |FirstUnit(s).value.text|
  {
  }

  // ----- Well-formed text and the escape round trip -----

  /** NUL-free UTF-8 by the UTF8-octets grammar of RFC 3629, section 4: an independent
      description that names byte ranges and never a code point. */
  predicate WellFormedAt(s: bytes, n: nat)
    requires |s| >= 1
  {
    && n <= |s|
    && ((n == 1 && 0x01 <= s[0] <= 0x7f)
        || (n == 2 && 0xc2 <= s[0] <= 0xdf && Continuation(s[1]))
        || (n == 3 && s[0] == 0xe0 && 0xa0 <= s[1] <= 0xbf && Continuation(s[2]))
        || (n == 3 && 0xe1 <= s[0] <= 0xec && Continuation(s[1]) && Continuation(s[2]))
        || (n == 3 && s[0] == 0xed && 0x80 <= s[1] <= 0x9f && Continuation(s[2]))
        || (n == 3 && 0xee <= s[0] <= 0xef && Continuation(s[1]) && Continuation(s[2]))
        || (n == 4 && s[0] == 0xf0 && 0x90 <= s[1] <= 0xbf && Continuation(s[2]) && Continuation(s[3]))
        || (n == 4 && 0xf1 <= s[0] <= 0xf3 && Continuation(s[1]) && Continuation(s[2]) && Continuation(s[3]))
        || (n == 4 && s[0] == 0xf4 && 0x80 <= s[1] <= 0x8f && Continuation(s[2]) && Continuation(s[3])))
  }

  function SequenceLength(lead: byte): nat {
    if lead < 0x80 then 1 else if lead < 0xe0 then 2 else if lead < 0xf0 then 3 else 4
  }

  predicate WellFormed(s: bytes) {
    s == [] ||
    (var n := SequenceLength(s[0]); WellFormedAt(s, n) && WellFormed(s[n..]))
  }

  /** The literal decoder accepts exactly the sequences of the grammar and keeps their bytes. */
  lemma LiteralKeepsBytes(s: bytes)
    requires |s| >= 1 && s[0] >= 0x80
    ensures LiteralUnit(s).Some? <==> WellFormedAt(s, SequenceLength(s[0]))
    ensures LiteralUnit(s).Some? ==>
              LiteralUnit(s).value == Unit(SequenceLength(s[0]), s[..SequenceLength(s[0])])
  {
    var n := LeadLength(s[0]);
    if n == 2 { TwoByteLiteral(s); }
    if n == 3 { ThreeByteLiteral(s); }
    if n == 4 { FourByteLiteral(s); }
  }

  lemma TwoByteLiteral(s: bytes)
    requires |s| >= 1 && LeadLength(s[0]) == 2
    ensures LiteralUnit(s).Some? <==> WellFormedAt(s, 2)
    ensures LiteralUnit(s).Some? ==> LiteralUnit(s).value == Unit(2, s[..2])
  {
    if |s| >= 2 && Continuation(s[1]) {
      assert forall i :: 1 <= i < 2 ==> Continuation(s[i]);
      assert LiteralUnit(s).value.text == s[..2];
    }
  }

  lemma ThreeByteLiteral(s: bytes)
    requires |s| >= 1 && LeadLength(s[0]) == 3
    ensures LiteralUnit(s).Some? <==> WellFormedAt(s, 3)
    ensures LiteralUnit(s).Some? ==> LiteralUnit(s).value == Unit(3, s[..3])
  {
    if |s| >= 3 && Continuation(s[1]) && Continuation(s[2]) {
      assert forall i :: 1 <= i < 3 ==> Continuation(s[i]);
      ThreeByteInverse(s[0], s[1], s[2]);
      if LiteralUnit(s).Some? { assert LiteralUnit(s).value.text == s[..3]; }
    }
  }

  lemma FourByteLiteral(s: bytes)
    requires |s| >= 1 && LeadLength(s[0]) == 4
    ensures LiteralUnit(s).Some? <==> WellFormedAt(s, 4)
    ensures LiteralUnit(s).Some? ==> LiteralUnit(s).value == Unit(4, s[..4])
  {
    if |s| >= 4 && Continuation(s[1]) && Continuation(s[2]) && Continuation(s[3]) {
      assert forall i :: 1 <= i < 4 ==> Continuation(s[i]);
      FourByteInverse(s[0], s[1], s[2], s[3]);
      if LiteralUnit(s).Some? { assert LiteralUnit(s).value.text == s[..4]; }
    }
  }

  lemma ThreeByteInverse(a: byte, b: byte, c: byte)
    requires 0xe0 <= a <= 0xef && Continuation(b) && Continuation(c)
    ensures var cp := ((a as int - 0xe0) * 64 + Low6(b)) * 64 + Low6(c);
            0xe0 + cp / 4096 == a && 0x80 + cp / 64 % 64 == b && 0x80 + cp % 64 == c
  {
  }

  lemma FourByteInverse(a: byte, b: byte, c: byte, d: byte)
    requires 0xf0 <= a <= 0xf4 && Continuation(b) && Continuation(c) && Continuation(d)
    ensures var cp := (((a as int - 0xf0) * 64 + Low6(b)) * 64 + Low6(c)) * 64 + Low6(d);
            0xf0 + cp / 262144 == a && 0x80 + cp / 4096 % 64 == b && 0x80 + cp / 64 % 64 == c && 0x80 + cp % 64 == d
  {
    var first := a as int - 0xf0;
    var second := first * 64 + Low6(b);
    var third := second * 64 + Low6(c);
    var cp := third * 64 + Low6(d);
    assert cp / 64 == third && third / 64 == second && second / 64 == first;
    assert cp / 4096 == second && cp / 262144 == first;
  }

  function HexDigit(n: nat): byte
    requires n < 16
  {
    if n < 10 then 0x30 + n else 0x61 + n - 10
  }

  function EscapeByte(c: byte): bytes {
    if c == QUOTE then [BACKSLASH, QUOTE]
    else if c == BACKSLASH then [BACKSLASH, BACKSLASH]
    else if c == 0x0a then [BACKSLASH, 0x6e]
    else if c == 0x0d then [BACKSLASH, 0x72]
    else if c == 0x09 then [BACKSLASH, 0x74]
    else if c < 0x20 then [BACKSLASH, 0x75, 0x30, 0x30, HexDigit(c / 16), HexDigit(c % 16)]
    else [c]
  }

  /** The content between the quotes of a published string. */
  function Escape(s: bytes): bytes {
    if s == [] then [] else EscapeByte(s[0]) + Escape(s[1..])
  }

  /** The escaping loop of the published fields, quotes included. */
  method PutEscaped(s: bytes) returns (out: bytes)
    ensures out == [QUOTE] + Escape(s) + [QUOTE]
  {
    out := [QUOTE];
    var i := 0;
    while i < |s|
      invariant 0 <= i <= |s|
      invariant out + Escape(s[i..]) == [QUOTE] + Escape(s)
    {
      assert s[i..][1..] == s[i + 1..];
      assert out + (EscapeByte(s[i]) + Escape(s[i + 1..])) == (out + EscapeByte(s[i])) + Escape(s[i + 1..]);
      out := out + EscapeByte(s[i]);
      i := i + 1;
    }
    assert s[|s|..] == [] && out + [] == out;
    out := out + [QUOTE];
  }

  lemma {:induction false} EscapeAppend(a: bytes, b: bytes)
    ensures Escape(a + b) == Escape(a) + Escape(b)
    decreases |a|
  {
    if a == [] {
      assert a + b == b;
    } else {
      assert (a + b)[1..] == a[1..] + b;
      EscapeAppend(a[1..], b);
    }
  }

  lemma EscapeByteDecodes(c: byte)
    requires 0 < c < 0x80
    ensures DecodeContent(EscapeByte(c)) == Some([c])
  {
    var e := EscapeByte(c);
    assert FirstUnit(e) == Some(Unit(|e|, [c])) by {
      if c < 0x20 && c != 0x0a && c != 0x0d && c != 0x09 {
        assert e[2..] == [0x30, 0x30, HexDigit(c / 16), HexDigit(c % 16)];
      }
    }
    DecodeOne(e);
  }

  lemma PlainRoundTrip(s: bytes)
    requires s != [] && 0 < s[0] < 0x80
    ensures DecodeContent(Escape(s[..1])) == Some(s[..1])
  {
    hide FirstUnit, DecodeContent;
    assert s[..1] == [s[0]] && s[..1][1..] == [];
    assert Escape(s[..1]) == EscapeByte(s[0]) + [] == EscapeByte(s[0]);
    EscapeByteDecodes(s[0]);
  }

  lemma LiteralRoundTrip(s: bytes, n: nat)
    requires WellFormed(s) && s != [] && n == SequenceLength(s[0]) > 1
    ensures n <= |s| && DecodeContent(Escape(s[..n])) == Some(s[..n])
  {
    HighBytesEscapeToThemselves(s[..n]);
    LiteralKeepsBytes(s);
    FirstUnitOfItsBytes(s);
    DecodeOne(s[..n]);
  }

  /** The first character of a UTF-8 text, escaped and decoded. */
  lemma FrontRoundTrip(s: bytes)
    requires WellFormed(s) && s != []
    ensures 1 <= SequenceLength(s[0]) <= |s| && WellFormed(s[SequenceLength(s[0])..])
    ensures DecodeContent(Escape(s[..SequenceLength(s[0])])) == Some(s[..SequenceLength(s[0])])
  {
    hide FirstUnit, DecodeContent, Escape;
    if SequenceLength(s[0]) == 1 { PlainRoundTrip(s); } else { LiteralRoundTrip(s, SequenceLength(s[0])); }
  }

  lemma JoinRoundTrip(s: bytes, n: nat)
    requires n <= |s| && DecodeContent(Escape(s[..n])) == Some(s[..n]) && DecodeContent(Escape(s[n..])) == Some(s[n..])
    ensures DecodeContent(Escape(s)) == Some(s)
  {
    hide *;
    assert s == s[..n] + s[n..];
    EscapeAppend(s[..n], s[n..]);
    DecodePair(Escape(s[..n]), Escape(s[n..]), s[..n], s[n..]);
  }

  /** Publishing and decoding again restores every well-formed text byte for byte. */
  lemma {:induction false} EscapeRoundTrip(s: bytes)
    requires WellFormed(s)
    ensures DecodeContent(Escape(s)) == Some(s)
    decreases |s|
  {
    hide FirstUnit, EscapeByte, WellFormed;
    if s != [] {
      FrontRoundTrip(s);
      EscapeRoundTrip(s[SequenceLength(s[0])..]);
      JoinRoundTrip(s, SequenceLength(s[0]));
    }
  }

  lemma {:induction false} HighBytesEscapeToThemselves(s: bytes)
    requires forall i :: 0 <= i < |s| ==> s[i] >= 0x80
    ensures Escape(s) == s
    decreases |s|
  {
    if s != [] {
      HighBytesEscapeToThemselves(s[1..]);
      assert s == [s[0]] + s[1..];
    }
  }

  /** Text that is not well formed is never accepted back: the round trip is exact. */
  lemma {:induction false} EscapedDecodesOnlyWellFormed(s: bytes)
    ensures DecodeContent(Escape(s)).Some? ==> WellFormed(s)
    decreases |s|
  {
    if s != [] && s[0] == 0 {
      NulIsNeverDecoded(s);
    } else if s != [] && DecodeContent(Escape(s)).Some? {
      var e := Escape(s);
      if s[0] < 0x80 {
        EscapeByteDecodes(s[0]);
        DecodeAppend(EscapeByte(s[0]), Escape(s[1..]));
        EscapedDecodesOnlyWellFormed(s[1..]);
      } else {
        LeadingLiteral(s);
        var n := SequenceLength(s[0]);
        EscapedDecodesOnlyWellFormed(s[n..]);
      }
    }
  }

  lemma FrontLiteral(e: bytes)
    requires e != [] && e[0] >= 0x80
    requires DecodeContent(e).Some?
    ensures WellFormedAt(e, SequenceLength(e[0]))
    ensures forall i :: 0 <= i < SequenceLength(e[0]) ==> e[i] >= 0x80
    ensures DecodeContent(e[SequenceLength(e[0])..]).Some?
  {
    LiteralKeepsBytes(e);
  }

  lemma EscapeTail(s: bytes, n: nat)
    requires n <= |s| && forall i :: 0 <= i < n ==> s[i] >= 0x80
    ensures |Escape(s)| >= n && Escape(s)[n..] == Escape(s[n..])
  {
    assert s == s[..n] + s[n..];
    EscapeAppend(s[..n], s[n..]);
    HighBytesEscapeToThemselves(s[..n]);
  }

  /** The published form decodes back to the text exactly when the text is well formed. */
  lemma RoundTripExactly(s: bytes)
    ensures DecodeContent(Escape(s)) == Some(s) <==> WellFormed(s)
    ensures DecodeContent(Escape(s)).Some? <==> WellFormed(s)
  {
    EscapedDecodesOnlyWellFormed(s);
    if WellFormed(s) { EscapeRoundTrip(s); }
  }

  /** A literal at the front of an escaped text is a literal at the front of the text. */
  lemma LeadingLiteral(s: bytes)
    requires s != [] && s[0] >= 0x80
    requires DecodeContent(Escape(s)).Some?
    ensures var n := SequenceLength(s[0]);
            WellFormedAt(s, n) && DecodeContent(Escape(s[n..])).Some?
  {
    EscapeFirst(s);
    LeadingPrefix(s, Escape(s));
    FrontLiteral(Escape(s));
    EscapeTail(s, SequenceLength(s[0]));
  }

  lemma EscapeFirst(s: bytes)
    requires s != [] && s[0] >= 0x80
    ensures Escape(s) != [] && Escape(s)[0] == s[0]
  {
  }

  lemma LeadingPrefix(s: bytes, e: bytes)
    requires s != [] && s[0] >= 0x80 && e == Escape(s) && e != [] && e[0] == s[0]
    requires DecodeContent(e).Some?
    ensures var n := SequenceLength(s[0]);
            WellFormedAt(s, n) && n <= |s| && forall i :: 0 <= i < n ==> s[i] >= 0x80
  {
    var n := SequenceLength(e[0]);
    FrontLiteral(e);
    HighPrefix(s, n);
    SamePrefixWellFormed(s, e, n);
    SamePrefixBytes(s, e, n);
  }

  lemma SamePrefixBytes(s: bytes, t: bytes, n: nat)
    requires n <= |s| && n <= |t| && s[..n] == t[..n]
    ensures forall i :: 0 <= i < n ==> s[i] == t[i]
  {
    assert forall i :: 0 <= i < n ==> s[i] == s[..n][i] == t[i];
  }

  lemma SamePrefixWellFormed(s: bytes, t: bytes, n: nat)
    requires 1 <= n <= |s| && n <= |t| && s[..n] == t[..n]
    requires WellFormedAt(t, n)
    ensures WellFormedAt(s, n)
  {
    assert forall i :: 0 <= i < n ==> s[i] == s[..n][i] == t[i];
  }

  lemma NulIsNeverDecoded(s: bytes)
    requires s != [] && s[0] == 0
    ensures DecodeContent(Escape(s)) == None
  {
    var e := EscapeByte(0) + Escape(s[1..]);
    assert e[2] == e[3] == e[4] == e[5] == 0x30;
    assert Hex4(e[2..]) == Some(0);
  }

  /** Leading bytes above 0x7f of an escaped text are its own leading bytes. */
  lemma {:induction false} HighPrefix(s: bytes, n: nat)
    requires n <= |Escape(s)|
    requires forall i :: 0 <= i < n ==> Escape(s)[i] >= 0x80
    ensures n <= |s| && s[..n] == Escape(s)[..n]
    decreases n
  {
    if n > 0 {
      var e := Escape(s);
      assert e[0] == EscapeByte(s[0])[0];
      assert e == [s[0]] + Escape(s[1..]);
      assert forall i :: 0 <= i < n - 1 ==> Escape(s[1..])[i] == e[i + 1];
      HighPrefix(s[1..], n - 1);
      assert s[..n] == [s[0]] + s[1..][..n - 1];
      assert e[..n] == [s[0]] + Escape(s[1..])[..n - 1];
    }
  }

  // ----- Decoded text is well formed -----

  lemma TwoByteScalar(cp: nat)
    requires 0x80 <= cp < 0x800
    ensures 2 <= cp / 64 < 32
  {
  }

  lemma ThreeByteScalar(cp: nat)
    requires 0x800 <= cp < 0x10000 && IsScalar(cp)
    ensures cp / 4096 < 16
    ensures cp / 4096 == 0 ==> cp / 64 % 64 >= 32
    ensures cp / 4096 == 13 ==> cp / 64 % 64 < 32
  {
    var top, middle := cp / 4096, cp / 64 % 64;
    assert cp / 64 == top * 64 + middle;
    assert cp == (top * 64 + middle) * 64 + cp % 64;
  }

  lemma FourByteScalar(cp: nat)
    requires 0x10000 <= cp <= 0x10ffff
    ensures cp / 262144 < 5
    ensures cp / 262144 == 0 ==> cp / 4096 % 64 >= 16
    ensures cp / 262144 == 4 ==> cp / 4096 % 64 < 16
  {
    var top, second := cp / 262144, cp / 4096 % 64;
    assert cp / 4096 == top * 64 + second;
    assert cp == (top * 64 + second) * 4096 + cp % 4096;
  }

  lemma ScalarWellFormed(cp: nat)
    requires 0 < cp && IsScalar(cp)
    ensures WellFormed(Utf8(cp))
  {
    var u := Utf8(cp);
    if cp < 0x80 {
      assert u[1..] == [];
    } else if cp < 0x800 {
      TwoByteScalar(cp);
      assert u[2..] == [];
    } else if cp < 0x10000 {
      ThreeByteScalar(cp);
      assert u[3..] == [];
    } else {
      FourByteScalar(cp);
      assert u[4..] == [];
    }
  }

  lemma PrefixOfSum(a: bytes, b: bytes, n: nat)
    requires n <= |a|
    ensures (a + b)[..n] == a[..n] && (a + b)[n..] == a[n..] + b
  {
  }

  lemma {:induction false} WellFormedAppend(a: bytes, b: bytes)
    requires WellFormed(a) && WellFormed(b)
    ensures WellFormed(a + b)
    decreases |a|
  {
    if a == [] {
      assert a + b == b;
    } else {
      var n := SequenceLength(a[0]);
      WellFormedAppend(a[n..], b);
      PrefixOfSum(a, b, n);
      SamePrefixWellFormed(a + b, a, n);
    }
  }

  lemma UnitWellFormed(s: bytes)
    requires s != [] && FirstUnit(s).Some?
    ensures WellFormed(FirstUnit(s).value.text)
  {
    var text := FirstUnit(s).value.text;
    if |text| == 1 && 0 < text[0] < 0x80 {
      assert text[1..] == [];
    } else {
      var cp: nat :| 0 < cp && IsScalar(cp) && text == Utf8(cp);
      ScalarWellFormed(cp);
    }
  }

  /** Whatever the decoder returns is NUL-free UTF-8. */
  lemma {:induction false} DecodedIsWellFormed(s: bytes)
    requires DecodeContent(s).Some?
    ensures WellFormed(DecodeContent(s).value)
    decreases |s|
  {
    if s != [] {
      var unit := FirstUnit(s).value;
      UnitWellFormed(s);
      DecodedIsWellFormed(s[unit.taken..]);
      WellFormedAppend(unit.text, DecodeContent(s[unit.taken..]).value);
    }
  }

  // ----- What a text may be spelt with -----

  /** The bytes of RFC 3629, section 3: the value is in the low bits of each. */
  lemma Utf8Bits(cp: nat)
    requires IsScalar(cp)
    ensures var t := Utf8(cp);
            || (|t| == 1 && cp < 0x80 && t[0] == cp)
            || (|t| == 2 && 0x80 <= cp < 0x800 && Continuation(t[1]) && cp == (t[0] as int - 0xc0) * 64 + Low6(t[1]))
            || (|t| == 3 && 0x800 <= cp < 0x10000 && Continuation(t[1]) && Continuation(t[2])
                && cp == (t[0] as int - 0xe0) * 4096 + Low6(t[1]) * 64 + Low6(t[2]))
            || (|t| == 4 && 0x10000 <= cp && Continuation(t[1]) && Continuation(t[2]) && Continuation(t[3])
                && cp == (t[0] as int - 0xf0) * 262144 + Low6(t[1]) * 4096 + Low6(t[2]) * 64 + Low6(t[3]))
  {
    SixBits(cp);
    SixBits(cp / 64);
    SixBits(cp / 4096);
    assert cp / 64 / 64 == cp / 4096 && cp / 4096 / 64 == cp / 262144;
  }

  lemma SixBits(n: nat)
    ensures n == n / 64 * 64 + n % 64
  {
  }

  /** A hexadecimal digit, in either case. */
  predicate IsHexOf(c: byte, digit: nat) {
    if digit < 10 then c == 0x30 + digit else digit < 16 && (c == 0x61 + (digit - 10) || c == 0x41 + (digit - 10))
  }

  /** A backslash, a u and the four digits of a 16-bit number. */
  predicate IsUnicode(s: bytes, value: nat) {
    && |s| == 6 && s[0] == BACKSLASH && s[1] == 0x75 && value < 0x10000
    && IsHexOf(s[2], value / 4096) && IsHexOf(s[3], value / 256 % 16) && IsHexOf(s[4], value / 16 % 16) && IsHexOf(s[5], value % 16)
  }

  /** The two-character escapes of RFC 8259, section 7, and what they stand for. */
  predicate IsShort(c: byte, cp: nat) {
    || (c == 0x22 && cp == 0x22) || (c == BACKSLASH && cp == 0x5c) || (c == 0x2f && cp == 0x2f)
    || (c == 0x62 && cp == 0x08) || (c == 0x66 && cp == 0x0c)
    || (c == 0x6e && cp == 0x0a) || (c == 0x72 && cp == 0x0d) || (c == 0x74 && cp == 0x09)
  }

  /** One way to write one character, and its code point. */
  datatype Spelling = Spelling(written: bytes, cp: nat)

  /** The ways RFC 8259, section 7, allows: the character itself, a short escape, its code
      in hexadecimal, or a surrogate pair.  A zero code point cannot be written. */
  predicate Allowed(x: Spelling) {
    && 0 < x.cp && IsScalar(x.cp)
    && (|| (x.cp >= 0x20 && x.cp != 0x22 && x.cp != 0x5c && x.written == Utf8(x.cp))
        || (|x.written| == 2 && x.written[0] == BACKSLASH && IsShort(x.written[1], x.cp))
        || (x.cp < 0x10000 && IsUnicode(x.written, x.cp))
        || (x.cp >= 0x10000 && |x.written| == 12
            && IsUnicode(x.written[..6], 0xd800 + (x.cp - 0x10000) / 1024)
            && IsUnicode(x.written[6..], 0xdc00 + (x.cp - 0x10000) % 1024)))
  }

  ghost predicate AllAllowed(xs: seq<Spelling>) { forall k :: 0 <= k < |xs| ==> Allowed(xs[k]) }

  function Written(xs: seq<Spelling>): bytes {
    if xs == [] then [] else xs[0].written + Written(xs[1..])
  }

  ghost function Meaning(xs: seq<Spelling>): bytes
    requires AllAllowed(xs)
  {
    if xs == [] then [] else Utf8(xs[0].cp) + Meaning(xs[1..])
  }

  lemma HexOf(c: byte, digit: nat)
    ensures IsHexOf(c, digit) <==> HexValue(c) == Some(digit)
  {
  }

  lemma FourDigits(value: nat)
    requires value < 0x10000
    ensures value == ((value / 4096 * 16 + value / 256 % 16) * 16 + value / 16 % 16) * 16 + value % 16
    ensures value / 4096 < 16
  {
  }

  lemma DigitsOf(a: nat, b: nat, c: nat, d: nat)
    requires a < 16 && b < 16 && c < 16 && d < 16
    ensures var value := ((a * 16 + b) * 16 + c) * 16 + d;
            value < 0x10000 && value / 4096 == a && value / 256 % 16 == b && value / 16 % 16 == c && value % 16 == d
  {
  }

  /** Reading four digits is inverse to writing them. */
  lemma UnicodeRead(s: bytes, value: nat)
    requires |s| >= 6 && s[0] == BACKSLASH && s[1] == 0x75
    ensures IsUnicode(s[..6], value) <==> Hex4(s[2..]) == Some(value)
  {
    HexOf(s[2], value / 4096);
    HexOf(s[3], value / 256 % 16);
    HexOf(s[4], value / 16 % 16);
    HexOf(s[5], value % 16);
    if Hex4(s[2..]) == Some(value) {
      DigitsOf(HexValue(s[2]).value, HexValue(s[3]).value, HexValue(s[4]).value, HexValue(s[5]).value);
    }
    if value < 0x10000 { FourDigits(value); }
  }

  lemma UnicodeUnit(s: bytes, value: nat)
    requires |s| >= 6 && IsUnicode(s[..6], value)
    ensures EscapeUnit(s) == if !HighSurrogate(value) then ScalarUnit(6, value)
                             else if |s| < 12 || s[6] != BACKSLASH || s[7] != 0x75 then None
                             else
                               match Hex4(s[8..])
                               case None => None
                               case Some(low) =>
                                 if !LowSurrogate(low) then None
                                 else ScalarUnit(12, 0x10000 + (value - 0xd800) * 1024 + (low - 0xdc00))
  {
    assert s[..6][0] == s[0] && s[..6][1] == s[1];
    UnicodeRead(s, value);
  }

  lemma PairArithmetic(cp: nat)
    requires 0x10000 <= cp <= 0x10ffff
    ensures var high, low := 0xd800 + (cp - 0x10000) / 1024, 0xdc00 + (cp - 0x10000) % 1024;
            HighSurrogate(high) && LowSurrogate(low) && cp == 0x10000 + (high - 0xd800) * 1024 + (low - 0xdc00)
  {
  }

  lemma PairRead(s: bytes, cp: nat)
    requires |s| == 12 && 0x10000 <= cp <= 0x10ffff
    requires IsUnicode(s[..6], 0xd800 + (cp - 0x10000) / 1024) && IsUnicode(s[6..], 0xdc00 + (cp - 0x10000) % 1024)
    ensures FirstUnit(s) == Some(Unit(12, Utf8(cp)))
  {
    hide Hex4, IsHexOf, Utf8;
    PairArithmetic(cp);
    UnicodeUnit(s, 0xd800 + (cp - 0x10000) / 1024);
    var rest := s[6..];
    assert rest[0] == s[6] && rest[1] == s[7] && rest[..6] == rest && rest[2..] == s[8..];
    UnicodeRead(rest, 0xdc00 + (cp - 0x10000) % 1024);
    assert s[..6][0] == s[0];
  }

  lemma LiteralRead(cp: nat)
    requires 0x20 <= cp && IsScalar(cp) && cp != 0x22 && cp != 0x5c
    ensures FirstUnit(Utf8(cp)) == Some(Unit(|Utf8(cp)|, Utf8(cp)))
  {
    Utf8Bits(cp);
  }

  /** Every allowed spelling is read as its character, whatever follows. */
  lemma SpellingRead(x: Spelling, rest: bytes)
    requires Allowed(x)
    ensures x.written != [] && FirstUnit(x.written + rest) == Some(Unit(|x.written|, Utf8(x.cp)))
  {
    var s := x.written;
    if x.cp >= 0x20 && x.cp != 0x22 && x.cp != 0x5c && s == Utf8(x.cp) {
      LiteralRead(x.cp);
    } else if |s| == 2 && s[0] == BACKSLASH && IsShort(s[1], x.cp) {
    } else if x.cp < 0x10000 && IsUnicode(s, x.cp) {
      assert s[..6] == s;
      UnicodeUnit(s, x.cp);
    } else {
      PairRead(s, x.cp);
    }
    FirstUnitIgnoresTail(s, rest);
  }

  lemma EscapeSpelt(s: bytes) returns (cp: nat)
    requires |s| >= 1 && s[0] == BACKSLASH && EscapeUnit(s).Some?
    ensures var u := EscapeUnit(s).value;
            u.taken <= |s| && Allowed(Spelling(s[..u.taken], cp)) && u.text == Utf8(cp)
  {
    hide Hex4, IsHexOf;
    var u := EscapeUnit(s).value;
    if s[1] != 0x75 {
      cp := u.text[0];
    } else {
      var high := Hex4(s[2..]).value;
      UnicodeRead(s, high);
      if HighSurrogate(high) {
        var low, rest := Hex4(s[8..]).value, s[6..];
        cp := 0x10000 + (high - 0xd800) * 1024 + (low - 0xdc00);
        assert rest[0] == s[6] && rest[1] == s[7] && rest[2..] == s[8..];
        UnicodeRead(rest, low);
        assert s[..12][..6] == s[..6] && s[..12][6..] == rest[..6];
      } else {
        cp := high;
      }
    }
  }

  lemma LiteralSpelt(s: bytes) returns (cp: nat)
    requires |s| >= 1 && s[0] >= 0x80 && LiteralUnit(s).Some?
    ensures var u := LiteralUnit(s).value;
            u.taken <= |s| && Allowed(Spelling(s[..u.taken], cp)) && u.text == Utf8(cp)
  {
    LiteralKeepsBytes(s);
    var n := LeadLength(s[0]);
    cp := if n == 2 then (s[0] as int - 0xc0) * 64 + Low6(s[1])
          else if n == 3 then ((s[0] as int - 0xe0) * 64 + Low6(s[1])) * 64 + Low6(s[2])
          else (((s[0] as int - 0xf0) * 64 + Low6(s[1])) * 64 + Low6(s[2])) * 64 + Low6(s[3]);
  }

  /** Whatever is read was an allowed spelling. */
  lemma UnitSpelt(s: bytes) returns (x: Spelling)
    requires |s| >= 1 && FirstUnit(s).Some?
    ensures Allowed(x) && x.written == s[..FirstUnit(s).value.taken] && FirstUnit(s).value.text == Utf8(x.cp)
  {
    var cp: nat;
    if s[0] == BACKSLASH {
      cp := EscapeSpelt(s);
    } else if s[0] < 0x80 {
      cp := s[0];
    } else {
      cp := LiteralSpelt(s);
    }
    x := Spelling(s[..FirstUnit(s).value.taken], cp);
  }

  lemma {:induction false} TextRead(xs: seq<Spelling>)
    requires AllAllowed(xs)
    ensures DecodeContent(Written(xs)) == Some(Meaning(xs))
  {
    hide FirstUnit, Allowed;
    if xs != [] {
      TextRead(xs[1..]);
      SpellingRead(xs[0], Written(xs[1..]));
      assert (xs[0].written + Written(xs[1..]))[|xs[0].written|..] == Written(xs[1..]);
    }
  }

  lemma {:induction false} TextSpelt(s: bytes) returns (xs: seq<Spelling>)
    requires DecodeContent(s).Some?
    ensures AllAllowed(xs) && s == Written(xs) && DecodeContent(s) == Some(Meaning(xs))
    decreases |s|
  {
    hide FirstUnit, Allowed;
    if s == [] {
      xs := [];
    } else {
      var n := FirstUnit(s).value.taken;
      var x := UnitSpelt(s);
      var rest := TextSpelt(s[n..]);
      xs := [x] + rest;
      assert xs[1..] == rest && s == s[..n] + s[n..];
    }
  }

  /** The decoder, both ways: a content decodes to a text exactly when it is written with
      allowed spellings of the text's characters. */
  lemma DecodesExactly(s: bytes, text: bytes)
    ensures DecodeContent(s) == Some(text) <==> exists xs :: AllAllowed(xs) && s == Written(xs) && text == Meaning(xs)
  {
    if DecodeContent(s) == Some(text) {
      var xs := TextSpelt(s);
    }
    forall xs | AllAllowed(xs) && s == Written(xs) && text == Meaning(xs) ensures DecodeContent(s) == Some(text) {
      TextRead(xs);
    }
  }
}
