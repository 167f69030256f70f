/** Worker-to-owner framing of the model relay.

    The worker writes each record as a header line `D n` or `F n` and n payload bytes;
    `F` is the terminal receipt.  The owner parses the pipe one read at a time.  `Parse`
    says what a prefix of the pipe means; the lemmas show that it inverts the worker's
    writer and that later bytes only extend what earlier bytes said. */
module Frames {
  import opened Prelude

  const FRAME_MAX: nat := 16 * 1024 * 1024
  const FINAL_SIZE: nat := 4096
  const HEADER_SIZE: nat := 32
  const DATA_KIND: byte := 0x44
  const FINAL_KIND: byte := 0x46
  const SPACE: byte := 0x20
  const NEWLINE: byte := 0x0a
  const ULONG_MODULUS: nat := 0x1_0000_0000_0000_0000

  // ----- The count field: strtoul in base 10 -----

  function SkipSpace(s: bytes): bytes {
    if s != [] && IsSpace(s[0]) then SkipSpace(s[1..]) else s
  }

  /** Number of leading digits. */
  function Digits(s: bytes): (n: nat)
    ensures n <= |s|
    ensures forall i :: 0 <= i < n ==> IsDigit(s[i])
    ensures n < |s| ==> !IsDigit(s[n])
  {
    if s != [] && IsDigit(s[0]) then 1 + Digits(s[1..]) else 0
  }

  function DigitValue(c: byte): nat
    requires IsDigit(c)
  {
    c - 0x30
  }

  function DecimalValue(s: bytes): nat
    requires forall i :: 0 <= i < |s| ==> IsDigit(s[i])
  {
    if s == [] then 0 else DecimalValue(s[..|s| - 1]) * 10 + DigitValue(s[|s| - 1])
  }

  /** Value and unread rest; None when there is no digit.  A sign is accepted, overflow
      saturates and a negative value wraps, as the C library does for 64-bit longs. */
  function ParseUnsigned(s: bytes): Option<(nat, bytes)> {
    var t := SkipSpace(s);
    var negative := t != [] && t[0] == 0x2d;
    var u := if t != [] && (t[0] == 0x2b || t[0] == 0x2d) then t[1..] else t;
    var n := Digits(u);
    if n == 0 then None
    else
      var magnitude := DecimalValue(u[..n]);
      var value :=
        if magnitude >= ULONG_MODULUS then ULONG_MODULUS - 1
        else if negative then (ULONG_MODULUS - magnitude) % ULONG_MODULUS
        else magnitude;
      Some((value, u[n..]))
  }

  /** A header line, newline included: terminal flag and payload size. */
  function HeaderFrame(header: bytes): (r: Option<(bool, nat)>)
    ensures r.Some? ==> 0 < r.value.1 <= if r.value.0 then FINAL_SIZE else FRAME_MAX
  {
    if |header| < 2 || (header[0] != DATA_KIND && header[0] != FINAL_KIND) || header[1] != SPACE then None
    else
      match ParseUnsigned(header[2..])
      case None => None
      case Some((count, rest)) =>
        if rest != [NEWLINE] || count == 0 || count > FRAME_MAX || (header[0] == FINAL_KIND && count > FINAL_SIZE)
        then None
        else Some((header[0] == FINAL_KIND, count))
  }

  // ----- What a prefix of the pipe means -----

  datatype Stream =
    | Header(data: bytes, header: bytes)
    | InData(data: bytes, left: nat)
    | InFinal(data: bytes, receipt: bytes, left: nat)
    | Terminal(data: bytes, receipt: bytes)
    | Broken(data: bytes)

  function Next(s: Stream, c: byte): Stream {
    match s
    case Header(data, header) =>
      if |header| + 1 >= HEADER_SIZE then Broken(data)
      else if c != NEWLINE then Header(data, header + [c])
      else
        (match HeaderFrame(header + [c])
         case None => Broken(data)
         case Some((final, count)) => if final then InFinal(data, [], count) else InData(data, count))
    case InData(data, left) => if left <= 1 then Header(data + [c], []) else InData(data + [c], left - 1)
    case InFinal(data, receipt, left) =>
      if left <= 1 then Terminal(data, receipt + [c]) else InFinal(data, receipt + [c], left - 1)
    case Terminal(data, _) => Broken(data)
    case Broken(data) => s
  }

  /** A header line of 31 bytes and more is refused whatever comes; a shorter one grows until
      its newline. */
  lemma HeaderLimit(data: bytes, header: bytes, c: byte)
    ensures |header| >= 31 ==> Next(Header(data, header), c) == Broken(data)
    ensures |header| < 31 && c != 0x0a ==> Next(Header(data, header), c) == Header(data, header + [c])
  {
  }

  function ParseFrom(s: Stream, pipe: bytes): Stream {
    if pipe == [] then s else Next(ParseFrom(s, pipe[..|pipe| - 1]), pipe[|pipe| - 1])
  }

  function Parse(pipe: bytes): Stream {
    ParseFrom(Header([], []), pipe)
  }

  lemma {:induction false} ParseAppend(s: Stream, a: bytes, b: bytes)
    ensures ParseFrom(s, a + b) == ParseFrom(ParseFrom(s, a), b)
    decreases |b|
  {
    if b == [] {
      assert a + b == a;
    } else {
      assert (a + b)[..|a + b| - 1] == a + b[..|b| - 1];
      ParseAppend(s, a, b[..|b| - 1]);
    }
  }

  lemma ParseOne(s: Stream, c: byte)
    ensures ParseFrom(s, [c]) == Next(s, c)
  {
    assert [c][..0] == [];
  }

  /** A chunk inside a data frame is data, however it is cut. */
  lemma {:induction false} ParseData(data: bytes, left: nat, chunk: bytes)
    requires 0 < |chunk| <= left
    ensures ParseFrom(InData(data, left), chunk) ==
            if |chunk| == left then Header(data + chunk, []) else InData(data + chunk, left - |chunk|)
    decreases |chunk|
  {
    var n := |chunk| - 1;
    if n == 0 {
      assert chunk[..0] == [] && chunk == [chunk[0]];
    } else {
      ParseData(data, left, chunk[..n]);
      assert data + chunk[..n] + [chunk[n]] == data + chunk;
    }
  }

  /** A chunk inside the terminal frame is receipt, however it is cut. */
  lemma {:induction false} ParseFinal(data: bytes, receipt: bytes, left: nat, chunk: bytes)
    requires 0 < |chunk| <= left
    ensures ParseFrom(InFinal(data, receipt, left), chunk) ==
            if |chunk| == left then Terminal(data, receipt + chunk)
            else InFinal(data, receipt + chunk, left - |chunk|)
    decreases |chunk|
  {
    var n := |chunk| - 1;
    if n == 0 {
      assert chunk[..0] == [] && chunk == [chunk[0]];
    } else {
      ParseFinal(data, receipt, left, chunk[..n]);
      assert receipt + chunk[..n] + [chunk[n]] == receipt + chunk;
    }
  }

  /** More pipe bytes never take data back. */
  lemma {:induction false} DataGrows(s: Stream, more: bytes)
    ensures s.data <= ParseFrom(s, more).data
    decreases |more|
  {
    if more != [] {
      DataGrows(s, more[..|more| - 1]);
    }
  }

  /** Nothing follows a terminal receipt. */
  lemma {:induction false} BrokenForever(data: bytes, more: bytes)
    ensures ParseFrom(Broken(data), more) == Broken(data)
    decreases |more|
  {
    if more != [] {
      BrokenForever(data, more[..|more| - 1]);
    }
  }

  // ----- Delivery -----

  /** The runtime has received `delivered` of a relay whose worker pipe gave `consumed`:
      a prefix of the data, or all the data and a prefix of the worker's receipt, or a
      prefix of the data and a prefix of the failure receipt the owner composed. */
  ghost predicate DeliveryOk(consumed: bytes, delivered: bytes, failure: Option<bytes>) {
    || delivered <= Parse(consumed).data
    || (Parse(consumed).Terminal? && exists k :: Appended(delivered, Parse(consumed).data, Parse(consumed).receipt, k))
    || (failure.Some? && FailureDelivered(consumed, delivered, failure.value))
  }

  ghost predicate Appended(whole: bytes, front: bytes, tail: bytes, k: nat) {
    k <= |tail| && whole == front + tail[..k]
  }

  ghost predicate FailureDelivered(consumed: bytes, delivered: bytes, receipt: bytes) {
    exists front, k :: front <= Parse(consumed).data && Appended(delivered, front, receipt, k)
  }

  /** End to end: whatever the fragmentation, the runtime gets a prefix of the payloads
      followed by the receipt, and a receipt byte only after every payload byte. */
  lemma DeliveredIsWorkerOutput(payloads: seq<bytes>, receipt: bytes, n: nat, delivered: bytes)
    requires forall i :: 0 <= i < |payloads| ==> 0 < |payloads[i]| <= FRAME_MAX
    requires 0 < |receipt| <= FINAL_SIZE
    requires n <= |Output(payloads, receipt)|
    requires DeliveryOk(Output(payloads, receipt)[..n], delivered, None)
    ensures delivered <= Payload(payloads) + receipt
    ensures |delivered| > |Payload(payloads)| ==> n == |Output(payloads, receipt)|
  {
    ParsePrefixOfOutput(payloads, receipt, n);
    if n == |Output(payloads, receipt)| {
      assert Output(payloads, receipt)[..n] == Output(payloads, receipt);
      ParseOutput(payloads, receipt);
    }
  }

  /** An owner failure adds its receipt after delivered payload bytes, nothing else. */
  lemma FailureFollowsData(payloads: seq<bytes>, receipt: bytes, n: nat, delivered: bytes, failure: bytes)
    requires forall i :: 0 <= i < |payloads| ==> 0 < |payloads[i]| <= FRAME_MAX
    requires 0 < |receipt| <= FINAL_SIZE
    requires n < |Output(payloads, receipt)|
    requires DeliveryOk(Output(payloads, receipt)[..n], delivered, Some(failure))
    ensures delivered <= Payload(payloads)
            || exists front, k :: front <= Payload(payloads) && Appended(delivered, front, failure, k)
  {
    ParsePrefixOfOutput(payloads, receipt, n);
    if FailureDelivered(Output(payloads, receipt)[..n], delivered, failure) {
      var front, k :| front <= Parse(Output(payloads, receipt)[..n]).data && Appended(delivered, front, failure, k);
      assert front <= Payload(payloads);
    }
  }

  // ----- The worker's writer -----

  function Decimal(n: nat): (text: bytes)
    ensures |text| >= 1
    ensures forall i :: 0 <= i < |text| ==> IsDigit(text[i])
  {
    if n < 10 then [0x30 + n] else Decimal(n / 10) + [0x30 + n % 10]
  }

  function HeaderLine(final: bool, size: nat): bytes {
    [if final then FINAL_KIND else DATA_KIND, SPACE] + Decimal(size) + [NEWLINE]
  }

  function Frame(final: bool, payload: bytes): bytes {
    HeaderLine(final, |payload|) + payload
  }

  function Frames(payloads: seq<bytes>): bytes {
    if payloads == [] then [] else Frames(payloads[..|payloads| - 1]) + Frame(false, payloads[|payloads| - 1])
  }

  function Payload(payloads: seq<bytes>): bytes {
    if payloads == [] then [] else Payload(payloads[..|payloads| - 1]) + payloads[|payloads| - 1]
  }

  /** What a worker that sends `payloads` and then `receipt` writes to its pipe. */
  function Output(payloads: seq<bytes>, receipt: bytes): bytes {
    Frames(payloads) + Frame(true, receipt)
  }

  lemma {:induction false} DecimalInverse(n: nat)
    ensures DecimalValue(Decimal(n)) == n
  {
    if n < 10 {
      assert Decimal(n)[..0] == [];
    } else {
      DecimalInverse(n / 10);
      var d := Decimal(n);
      assert d[..|d| - 1] == Decimal(n / 10);
    }
  }

  lemma {:induction false} DecimalLength(n: nat, k: nat, bound: nat)
    requires k >= 1 && n < bound && bound == PowerOfTen(k)
    ensures |Decimal(n)| <= k
    decreases k
  {
    if n >= 10 {
      DecimalLength(n / 10, k - 1, PowerOfTen(k - 1));
    }
  }

  function PowerOfTen(k: nat): nat { if k == 0 then 1 else 10 * PowerOfTen(k - 1) }

  lemma DigitsOf(s: bytes, n: nat)
    requires n <= |s| && (forall i :: 0 <= i < n ==> IsDigit(s[i])) && (n < |s| ==> !IsDigit(s[n]))
    ensures Digits(s) == n
  {
  }

  /** The header reader inverts the header writer within the frame limits. */
  lemma HeaderRoundTrip(final: bool, size: nat)
    requires 0 < size <= if final then FINAL_SIZE else FRAME_MAX
    ensures HeaderFrame(HeaderLine(final, size)) == Some((final, size))
    ensures |HeaderLine(final, size)| < HEADER_SIZE
  {
    var line, text := HeaderLine(final, size), Decimal(size);
    var field := line[2..];
    assert field == text + [NEWLINE];
    assert IsDigit(field[0]) by { assert field[0] == text[0]; }
    DigitsOf(field, |text|);
    assert field[..|text|] == text && field[|text|..] == [NEWLINE];
    DecimalInverse(size);
    assert PowerOfTen(8) == 100000000;
    DecimalLength(size, 8, PowerOfTen(8));
  }

  lemma {:induction false} ParseHeaderBytes(data: bytes, header: bytes, more: bytes)
    requires |header| + |more| < HEADER_SIZE
    requires forall i :: 0 <= i < |more| ==> more[i] != NEWLINE
    ensures ParseFrom(Header(data, header), more) == Header(data, header + more)
    decreases |more|
  {
    if more == [] {
      assert header + more == header;
    } else {
      var n := |more| - 1;
      ParseHeaderBytes(data, header, more[..n]);
      assert header + more[..n] + [more[n]] == header + more;
    }
  }

  lemma ParseHeaderLine(data: bytes, final: bool, size: nat)
    requires 0 < size <= if final then FINAL_SIZE else FRAME_MAX
    ensures ParseFrom(Header(data, []), HeaderLine(final, size)) ==
            if final then InFinal(data, [], size) else InData(data, size)
  {
    var line := HeaderLine(final, size);
    var n := |line| - 1;
    HeaderRoundTrip(final, size);
    HeaderLineShape(final, size);
    ParseHeaderBytes(data, [], line[..n]);
    assert [] + line[..n] == line[..n];
  }

  lemma HeaderLineShape(final: bool, size: nat)
    ensures var line := HeaderLine(final, size);
            var n := |line| - 1;
            n >= 0 && line == line[..n] + [NEWLINE] && forall i :: 0 <= i < n ==> line[i] != NEWLINE
  {
    var line := HeaderLine(final, size);
    forall i | 0 <= i < |line| - 1 ensures line[i] != NEWLINE {
      if i >= 2 { assert line[i] == Decimal(size)[i - 2]; }
    }
  }

  lemma ParseFrame(data: bytes, final: bool, payload: bytes)
    requires 0 < |payload| <= if final then FINAL_SIZE else FRAME_MAX
    ensures ParseFrom(Header(data, []), Frame(final, payload)) ==
            if final then Terminal(data, payload) else Header(data + payload, [])
  {
    ParseHeaderLine(data, final, |payload|);
    ParseAppend(Header(data, []), HeaderLine(final, |payload|), payload);
    if final {
      ParseFinal(data, [], |payload|, payload);
      assert [] + payload == payload;
    } else {
      ParseData(data, |payload|, payload);
    }
  }

  lemma {:induction false} ParseFrames(payloads: seq<bytes>)
    requires forall i :: 0 <= i < |payloads| ==> 0 < |payloads[i]| <= FRAME_MAX
    ensures Parse(Frames(payloads)) == Header(Payload(payloads), [])
    decreases |payloads|
  {
    if payloads != [] {
      var n := |payloads| - 1;
      ParseFrames(payloads[..n]);
      ParseFrame(Payload(payloads[..n]), false, payloads[n]);
      ParseAppend(Header([], []), Frames(payloads[..n]), Frame(false, payloads[n]));
    }
  }

  /** The parser recovers exactly the payloads and the receipt of any worker run. */
  lemma ParseOutput(payloads: seq<bytes>, receipt: bytes)
    requires forall i :: 0 <= i < |payloads| ==> 0 < |payloads[i]| <= FRAME_MAX
    requires 0 < |receipt| <= FINAL_SIZE
    ensures Parse(Output(payloads, receipt)) == Terminal(Payload(payloads), receipt)
  {
    ParseFrames(payloads);
    ParseFrame(Payload(payloads), true, receipt);
    ParseAppend(Header([], []), Frames(payloads), Frame(true, receipt));
  }

  /** A proper prefix of a worker run holds no terminal receipt and only leading data. */
  lemma ParsePrefixOfOutput(payloads: seq<bytes>, receipt: bytes, n: nat)
    requires forall i :: 0 <= i < |payloads| ==> 0 < |payloads[i]| <= FRAME_MAX
    requires 0 < |receipt| <= FINAL_SIZE
    requires n <= |Output(payloads, receipt)|
    ensures Parse(Output(payloads, receipt)[..n]).data <= Payload(payloads)
    ensures Parse(Output(payloads, receipt)[..n]).Terminal? <==> n == |Output(payloads, receipt)|
    ensures !Parse(Output(payloads, receipt)[..n]).Broken?
  {
    hide Output;
    var out := Output(payloads, receipt);
    var s := Parse(out[..n]);
    ParseOutput(payloads, receipt);
    assert out == out[..n] + out[n..];
    ParseAppend(Header([], []), out[..n], out[n..]);
    DataGrows(s, out[n..]);
    if n == |out| {
      assert out[..n] == out;
    } else if s.Terminal? {
      assert out[n..] == [out[n]] + out[n + 1..];
      ParseAppend(s, [out[n]], out[n + 1..]);
      ParseOne(s, out[n]);
      BrokenForever(s.data, out[n + 1..]);
    } else if s.Broken? {
      BrokenForever(s.data, out[n..]);
    }
  }
}
