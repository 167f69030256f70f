/** Tool calls streamed in pieces and published all at once.

    Each delta carries pieces of one or more calls by index.  A call's id, name and arguments
    are the concatenation of its own pieces, in order, however the calls are interleaved.
    Nothing is published until the stream has ended properly and every call is complete. */
module ToolCalls {
  import opened Prelude
  import WireString
  import opened JsonTokens
  import opened JsonLookup

  const CALLS_MAX: nat := 16
  const FIXED_MAX: nat := 129
  const ARGUMENT_MAX: nat := 1024 * 1024
  const BYTES_MAX: nat := 2 * 1024 * 1024
  const REASON_MAX: nat := 32

  // ----- Deltas -----

  /** A field that should hold a string: missing, something else, or the raw text. */
  datatype Field = Missing | Other | Raw(raw: bytes)

  /** One entry of a `tool_calls` delta; `index` is None unless it is an integer 0 to 15. */
  datatype Delta =
    | Malformed
    | Delta(index: Option<nat>, kind: Field, id: Field, callee: Callee)

  /** The `function` object of an entry. */
  datatype Callee = NoCallee | NotAnObject | Callee(name: Field, arguments: Field)

  predicate DeltaOk(d: Delta) { d.Delta? && d.index.Some? && d.index.value < CALLS_MAX }

  /** The decoded text of a field; nothing for a missing one. */
  function TextOf(f: Field): (text: bytes)
    ensures WireString.WellFormed(text)
  {
    if f.Raw? && WireString.DecodeContent(f.raw).Some? then
      WireString.DecodedIsWellFormed(f.raw);
      WireString.DecodeContent(f.raw).value
    else []
  }

  predicate Readable(f: Field) { f.Missing? || (f.Raw? && WireString.DecodeContent(f.raw).Some?) }

  datatype Part = Id | Name | Arguments

  /** What a delta adds to one part of its call. */
  function Piece(d: Delta, part: Part): (text: bytes)
    ensures WireString.WellFormed(text)
  {
    if d.Malformed? then []
    else
      match part
      case Id => TextOf(d.id)
      case Name => if d.callee.Callee? then TextOf(d.callee.name) else []
      case Arguments => if d.callee.Callee? then TextOf(d.callee.arguments) else []
  }

  predicate Concerns(d: Delta, i: nat) { d.Delta? && d.index == Some(i) }

  /** The concatenation of a call's pieces over the deltas received. */
  function Collected(log: seq<Delta>, i: nat, part: Part): (text: bytes)
    ensures WireString.WellFormed(text)
  {
    if log == [] then []
    else
      var last := log[|log| - 1];
      var before := Collected(log[..|log| - 1], i, part);
      if Concerns(last, i) then
        WireString.WellFormedAppend(before, Piece(last, part));
        before + Piece(last, part)
      else before
  }

  predicate Seen(log: seq<Delta>, i: nat) { exists d :: d in log && Concerns(d, i) }

  predicate TypedFunction(log: seq<Delta>, i: nat) { exists d :: d in log && Concerns(d, i) && !d.kind.Missing? }

  predicate ArgumentsSeen(log: seq<Delta>, i: nat) {
    exists d :: d in log && Concerns(d, i) && d.callee.Callee? && !d.callee.arguments.Missing?
  }

  /** The text carried by one delta, and by all of them. */
  function Weight(d: Delta): nat { |Piece(d, Id)| + |Piece(d, Name)| + |Piece(d, Arguments)| }

  function Total(log: seq<Delta>): nat {
    if log == [] then 0 else Total(log[..|log| - 1]) + Weight(log[|log| - 1])
  }

  lemma CollectedStep(log: seq<Delta>, d: Delta, i: nat, part: Part)
    ensures Collected(log + [d], i, part) == Collected(log, i, part) + if Concerns(d, i) then Piece(d, part) else []
    ensures Total(log + [d]) == Total(log) + Weight(d)
  {
    assert (log + [d])[..|log|] == log;
  }

  // ----- The accumulating calls -----

  datatype Call = Call(seen: bool, typed: bool, id: bytes, name: bytes, arguments: Option<bytes>)

  const EMPTY := Call(false, false, [], [], None)

  function PartOf(c: Call, part: Part): bytes {
    match part
    case Id => c.id
    case Name => c.name
    case Arguments => if c.arguments.Some? then c.arguments.value else []
  }

  /** A call slot holds exactly the pieces of its index. */
  ghost predicate Accumulated(c: Call, log: seq<Delta>, i: nat) {
    && c.seen == Seen(log, i) && c.typed == TypedFunction(log, i) && c.arguments.Some? == ArgumentsSeen(log, i)
    && (forall part :: PartOf(c, part) == Collected(log, i, part))
    && |c.id| < FIXED_MAX && |c.name| < FIXED_MAX && (c.arguments.Some? ==> |c.arguments.value| <= ARGUMENT_MAX)
  }

  /** `model_rpc_append_field`: one more piece, within the part's and the batch's limits. */
  function Append(prior: bytes, f: Field, cap: nat, used: nat): (r: Option<(bytes, nat)>)
    requires used <= BYTES_MAX
    ensures r.Some? ==> r.value.0 == prior + TextOf(f) && r.value.1 == used + |TextOf(f)| <= BYTES_MAX
    ensures r.Some? ==> (|prior| < cap ==> |r.value.0| < cap)
    ensures r.None? <==> !Readable(f) || (!f.Missing? && (|prior| + |TextOf(f)| >= cap || used + |TextOf(f)| > BYTES_MAX))
  {
    if f.Missing? then Some((prior + [], used))
    else if !Readable(f) then None
    else
      var n := |TextOf(f)|;
      if n < cap && |prior| < cap - n && n <= BYTES_MAX - used then Some((prior + TextOf(f), used + n)) else None
  }

  const FUNCTION_WORD: bytes := [0x66, 0x75, 0x6e, 0x63, 0x74, 0x69, 0x6f, 0x6e]

  /** One delta entry: the call with its pieces appended, or None where the source gives up. */
  function Absorb(c: Call, d: Delta, used: nat): (r: Option<(Call, nat)>)
    requires used <= BYTES_MAX && d.Delta?
    ensures r.Some? ==> r.value.1 <= BYTES_MAX
  {
    if !d.kind.Missing? && (!Readable(d.kind) || TextOf(d.kind) != FUNCTION_WORD) then None
    else
      var id := Append(c.id, d.id, FIXED_MAX, used);
      if id.None? then None
      else
        var typed := c.typed || !d.kind.Missing?;
        match d.callee
        case NoCallee => Some((Call(true, typed, id.value.0, c.name, c.arguments), id.value.1))
        case NotAnObject => None
        case Callee(nameField, argumentsField) =>
          var name := Append(c.name, nameField, FIXED_MAX, id.value.1);
          if name.None? then None
          else
            var arguments := Append(PartOf(c, Arguments), argumentsField, ARGUMENT_MAX + 1, name.value.1);
            if arguments.None? then None
            else Some((Call(true, typed, id.value.0, name.value.0,
                            if argumentsField.Missing? then c.arguments else Some(arguments.value.0)), arguments.value.1))
  }

  /** An entry is taken exactly when its type, if it has one, is the word function, its callee is
      an object, every text in it can be read, and every text and the batch stay within their
      limits. */
  lemma AbsorbedExactly(c: Call, d: Delta, used: nat)
    requires used <= BYTES_MAX && d.Delta? && |c.id| < FIXED_MAX && |c.name| < FIXED_MAX && |PartOf(c, Arguments)| <= ARGUMENT_MAX
    ensures Absorb(c, d, used).Some?
            <==> && (d.kind.Missing? || (Readable(d.kind) && TextOf(d.kind) == Ascii("function")))
                 && Readable(d.id) && !d.callee.NotAnObject?
                 && (d.callee.Callee? ==> Readable(d.callee.name) && Readable(d.callee.arguments))
                 && |c.id| + |Piece(d, Id)| < FIXED_MAX && |c.name| + |Piece(d, Name)| < FIXED_MAX
                 && |PartOf(c, Arguments)| + |Piece(d, Arguments)| <= ARGUMENT_MAX
                 && used + Weight(d) <= BYTES_MAX
  {
    hide Collected;
    assert Ascii("function") == FUNCTION_WORD;
  }

  lemma AbsorbAccumulates(c: Call, d: Delta, used: nat, log: seq<Delta>, i: nat)
    requires used <= BYTES_MAX && Concerns(d, i) && Accumulated(c, log, i) && Absorb(c, d, used).Some?
    ensures Accumulated(Absorb(c, d, used).value.0, log + [d], i)
    ensures Absorb(c, d, used).value.1 == used + Weight(d) <= BYTES_MAX
  {
    var next := Absorb(c, d, used).value.0;
    SeenStep(log, d, i);
    forall part ensures PartOf(next, part) == Collected(log + [d], i, part) {
      CollectedStep(log, d, i, part);
      AbsorbPart(c, d, used, part);
    }
  }

  lemma AbsorbPart(c: Call, d: Delta, used: nat, part: Part)
    requires used <= BYTES_MAX && d.Delta? && Absorb(c, d, used).Some?
    ensures PartOf(Absorb(c, d, used).value.0, part) == PartOf(c, part) + Piece(d, part)
  {
  }

  lemma SeenStep(log: seq<Delta>, d: Delta, i: nat)
    ensures Seen(log + [d], i) == (Seen(log, i) || Concerns(d, i))
    ensures TypedFunction(log + [d], i) == (TypedFunction(log, i) || (Concerns(d, i) && !d.kind.Missing?))
    ensures ArgumentsSeen(log + [d], i)
            == (ArgumentsSeen(log, i)
                || (Concerns(d, i) && d.callee.Callee? && !d.callee.arguments.Missing?))
  {
    assert d in log + [d];
    assert forall x :: x in log ==> x in log + [d];
  }

  lemma OthersUntouched(c: Call, d: Delta, log: seq<Delta>, i: nat)
    requires Accumulated(c, log, i) && !Concerns(d, i)
    ensures Accumulated(c, log + [d], i)
  {
    CollectedStep(log, d, i, Id);
    CollectedStep(log, d, i, Name);
    CollectedStep(log, d, i, Arguments);
    SeenStep(log, d, i);
    assert forall part :: PartOf(c, part) == Collected(log, i, part);
    forall part ensures PartOf(c, part) == Collected(log + [d], i, part) { CollectedStep(log, d, i, part); }
  }

  // ----- A delta array -----

  /** The entries of one array, in order; no index twice. */
  function AbsorbAll(calls: seq<Call>, used: nat, entries: seq<Delta>, taken: set<nat>): (r: Option<(seq<Call>, nat)>)
    requires |calls| == CALLS_MAX && used <= BYTES_MAX
    decreases |entries|
  {
    if entries == [] then Some((calls, used))
    else
      var d := entries[0];
      if !DeltaOk(d) || d.index.value in taken then None
      else
        var next := Absorb(calls[d.index.value], d, used);
        if next.None? then None
        else AbsorbAll(calls[d.index.value := next.value.0], next.value.1, entries[1..], taken + {d.index.value})
  }

  /** The first entry decides, or leaves the rest to do. */
  lemma AbsorbFirst(calls: seq<Call>, used: nat, entries: seq<Delta>, taken: set<nat>)
    requires |calls| == CALLS_MAX && used <= BYTES_MAX && entries != []
    ensures var d := entries[0];
            AbsorbAll(calls, used, entries, taken)
            == if !DeltaOk(d) || d.index.value in taken || Absorb(calls[d.index.value], d, used).None? then None
               else AbsorbAll(calls[d.index.value := Absorb(calls[d.index.value], d, used).value.0],
                              Absorb(calls[d.index.value], d, used).value.1, entries[1..], taken + {d.index.value})
  {
  }

  lemma NothingToAbsorb(calls: seq<Call>, used: nat)
    requires |calls| == CALLS_MAX && used <= BYTES_MAX
    ensures AbsorbAll(calls, used, [], {}) == Some((calls, used))
  {
  }

  lemma RestOf(entries: seq<Delta>, i: nat)
    requires i < |entries|
    ensures entries[i..][0] == entries[i] && entries[i..][1..] == entries[i + 1..]
    ensures entries[..i + 1] == entries[..i] + [entries[i]]
  {
  }

  /** Every slot holds the pieces of its index. */
  ghost predicate AllAccumulated(calls: seq<Call>, log: seq<Delta>) {
    |calls| == CALLS_MAX && forall i: nat :: i < CALLS_MAX ==> Accumulated(calls[i], log, i)
  }

  lemma EntryAccumulates(calls: seq<Call>, used: nat, d: Delta, log: seq<Delta>)
    requires AllAccumulated(calls, log) && used == Total(log) <= BYTES_MAX && DeltaOk(d)
    requires Absorb(calls[d.index.value], d, used).Some?
    ensures var (call, total) := Absorb(calls[d.index.value], d, used).value;
            AllAccumulated(calls[d.index.value := call], log + [d]) && total == Total(log + [d]) <= BYTES_MAX
  {
    var k := d.index.value;
    var call := Absorb(calls[k], d, used).value.0;
    AbsorbAccumulates(calls[k], d, used, log, k);
    CollectedStep(log, d, k, Id);
    var after := calls[k := call];
    forall i: nat | i < CALLS_MAX ensures Accumulated(after[i], log + [d], i) {
      if i != k { OthersUntouched(calls[i], d, log, i); }
    }
  }

  /** One more than the highest index seen. */
  ghost predicate Counted(log: seq<Delta>, count: nat) {
    && count <= CALLS_MAX
    && (forall i: nat :: Seen(log, i) ==> i < count)
    && (count > 0 ==> Seen(log, count - 1))
  }

  lemma CountStep(log: seq<Delta>, count: nat, d: Delta)
    requires Counted(log, count) && DeltaOk(d)
    ensures Counted(log + [d], if count <= d.index.value then d.index.value + 1 else count)
  {
    SeenStep(log, d, d.index.value);
    forall i: nat | Seen(log + [d], i) ensures i < count || i == d.index.value { SeenStep(log, d, i); }
    if count > 0 { SeenStep(log, d, count - 1); }
  }

  // ----- Completion -----

  const STOP: bytes := [0x73, 0x74, 0x6f, 0x70]
  const TOOL_CALLS: bytes := [0x74, 0x6f, 0x6f, 0x6c, 0x5f, 0x63, 0x61, 0x6c, 0x6c, 0x73]

  /** The pieces of call `i` make a whole call. */
  ghost predicate Whole(log: seq<Delta>, i: nat, valid: bytes -> bool) {
    && Seen(log, i) && TypedFunction(log, i) && ArgumentsSeen(log, i)
    && Collected(log, i, Id) != [] && Collected(log, i, Name) != [] && valid(Collected(log, i, Arguments))
  }

  ghost predicate IdIsNew(log: seq<Delta>, i: nat) {
    forall k: nat :: k < i ==> Collected(log, i, Id) != Collected(log, k, Id)
  }

  /** Calls 0 to count - 1 are whole and have different ids. */
  ghost predicate BatchReady(log: seq<Delta>, count: nat, valid: bytes -> bool) {
    && (forall i: nat :: i < count ==> Whole(log, i, valid))
    && (forall i: nat :: i < count ==> IdIsNew(log, i))
  }

  // ----- The published batch -----

  const ID_KEY: bytes := [0x69, 0x64]
  const TYPE_KEY: bytes := [0x74, 0x79, 0x70, 0x65]
  const NAME_KEY: bytes := [0x6e, 0x61, 0x6d, 0x65]
  const ARGUMENTS_KEY: bytes := [0x61, 0x72, 0x67, 0x75, 0x6d, 0x65, 0x6e, 0x74, 0x73]

  function Escaped(s: bytes): Node { String(WireString.Escape(s)) }

  function Attribute(first: bool, key: bytes, value: Node, rest: Parts): Parts {
    Then(if first then [] else [COMMA], String(key), Then([COLON], value, rest))
  }

  function NameParts(name: bytes, rest: Parts): Parts { Attribute(true, NAME_KEY, Escaped(name), rest) }

  function ArgumentParts(arguments: bytes): Parts { Attribute(false, ARGUMENTS_KEY, Escaped(arguments), End) }

  function CalleeNode(name: bytes, arguments: bytes): Node { Container(false, NameParts(name, ArgumentParts(arguments)), []) }

  function CalleeParts(name: bytes, arguments: bytes): Parts {
    Attribute(false, FUNCTION_WORD, CalleeNode(name, arguments), End)
  }

  function TypeParts(rest: Parts): Parts { Attribute(false, TYPE_KEY, String(FUNCTION_WORD), rest) }

  /** {"id":…,"type":"function","function":{"name":…,"arguments":…}} */
  function CallNode(id: bytes, name: bytes, arguments: bytes): Node {
    Container(false, Attribute(true, ID_KEY, Escaped(id), TypeParts(CalleeParts(name, arguments))), [])
  }

  /** Calls `from` to `count` - 1 as the elements of an array. */
  function CallParts(log: seq<Delta>, from: nat, count: nat): Parts
    decreases count - from
  {
    if from >= count then End
    else Then(if from == 0 then [] else [COMMA],
              CallNode(Collected(log, from, Id), Collected(log, from, Name), Collected(log, from, Arguments)),
              CallParts(log, from + 1, count))
  }

  function BatchNode(log: seq<Delta>, count: nat): Node { Container(true, CallParts(log, 0, count), []) }

  lemma {:induction false} EscapedIsRaw(s: bytes)
    ensures RawOk(WireString.Escape(s))
    decreases |s|
  {
    if s != [] {
      EscapedIsRaw(s[1..]);
      EscapedUnit(s[0], WireString.Escape(s[1..]));
    }
  }

  lemma EscapedUnit(c: byte, rest: bytes)
    requires RawOk(rest)
    ensures RawOk(WireString.EscapeByte(c) + rest)
  {
    var e := WireString.EscapeByte(c);
    assert (e + rest)[|e|..] == rest;
    if |e| == 6 { assert UnicodeEscape(e + rest); }
  }

  lemma OneSeparator(c: byte)
    ensures Separated([c], c)
  {
    assert [c][0] == c && Blank([c][..0]) && Blank([c][1..]);
  }

  lemma PlainKeysAreRaw()
    ensures RawOk(ID_KEY) && RawOk(TYPE_KEY) && RawOk(NAME_KEY) && RawOk(ARGUMENTS_KEY) && RawOk(FUNCTION_WORD)
  {
    LettersAreRaw(ID_KEY);
    LettersAreRaw(TYPE_KEY);
    LettersAreRaw(NAME_KEY);
    LettersAreRaw(ARGUMENTS_KEY);
    LettersAreRaw(FUNCTION_WORD);
  }

  lemma {:induction false} LettersAreRaw(s: bytes)
    requires forall i :: 0 <= i < |s| ==> 0x61 <= s[i] <= 0x7a
    ensures RawOk(s)
  {
    if s != [] { LettersAreRaw(s[1..]); }
  }

  /** One more member in front. */
  lemma AttributeIsMember(first: bool, key: bytes, value: Node, rest: Parts)
    requires RawOk(key) && IsJson(value) && Members(rest, false)
    ensures Members(Attribute(first, key, value, rest), first) && Paired(rest) && Paired(Attribute(first, key, value, rest))
    ensures Pairs(Attribute(first, key, value, rest)) == [(key, value)] + Pairs(rest)
  {
    OneSeparator(COLON);
    OneSeparator(COMMA);
    MembersPaired(rest, false);
    MembersPaired(Attribute(first, key, value, rest), first);
  }

  lemma CalleeIsJson(name: bytes, arguments: bytes)
    ensures var callee := CalleeNode(name, arguments);
            IsJson(callee) && Paired(callee.parts)
            && Pairs(callee.parts) == [(NAME_KEY, Escaped(name)), (ARGUMENTS_KEY, Escaped(arguments))]
  {
    EscapedIsRaw(name);
    EscapedIsRaw(arguments);
    PlainKeysAreRaw();
    AttributeIsMember(false, ARGUMENTS_KEY, Escaped(arguments), End);
    AttributeIsMember(true, NAME_KEY, Escaped(name), ArgumentParts(arguments));
  }

  lemma CallIsJson(id: bytes, name: bytes, arguments: bytes)
    ensures var call := CallNode(id, name, arguments);
            IsJson(call) && Paired(call.parts)
            && Pairs(call.parts) == [(ID_KEY, Escaped(id)), (TYPE_KEY, String(FUNCTION_WORD)), (FUNCTION_WORD, CalleeNode(name, arguments))]
  {
    EscapedIsRaw(id);
    PlainKeysAreRaw();
    CalleeIsJson(name, arguments);
    var callee := CalleeParts(name, arguments);
    AttributeIsMember(false, FUNCTION_WORD, CalleeNode(name, arguments), End);
    AttributeIsMember(false, TYPE_KEY, String(FUNCTION_WORD), callee);
    AttributeIsMember(true, ID_KEY, Escaped(id), TypeParts(callee));
  }

  lemma CallIsDocument(id: bytes, name: bytes, arguments: bytes)
    ensures IsJson(CallNode(id, name, arguments))
  {
    CallIsJson(id, name, arguments);
  }

  lemma {:induction false} CallsAreElements(log: seq<Delta>, from: nat, count: nat)
    ensures Elements(CallParts(log, from, count), from == 0)
    decreases count - from
  {
    if from < count {
      CallIsDocument(Collected(log, from, Id), Collected(log, from, Name), Collected(log, from, Arguments));
      CallsAreElements(log, from + 1, count);
      OneSeparator(COMMA);
    }
  }

  /** What is published is one JSON array. */
  lemma BatchIsJson(log: seq<Delta>, count: nat)
    ensures IsJson(BatchNode(log, count)) && Count(BatchNode(log, count).parts) == count
  {
    CallsAreElements(log, 0, count);
    CountCalls(log, 0, count);
  }

  lemma {:induction false} CountCalls(log: seq<Delta>, from: nat, count: nat)
    ensures Count(CallParts(log, from, count)) == if from < count then count - from else 0
    decreases count - from
  {
    if from < count { CountCalls(log, from + 1, count); }
  }

  /** Every published string decodes back to the pieces received, byte for byte: id, name and
      arguments of each call. */
  lemma PublishedCallDecodes(log: seq<Delta>, i: nat)
    ensures var id, name, arguments := Collected(log, i, Id), Collected(log, i, Name), Collected(log, i, Arguments);
            && Paired(CallNode(id, name, arguments).parts) && Paired(CalleeNode(name, arguments).parts)
            && Pairs(CallNode(id, name, arguments).parts)
               == [(ID_KEY, Escaped(id)), (TYPE_KEY, String(FUNCTION_WORD)), (FUNCTION_WORD, CalleeNode(name, arguments))]
            && Pairs(CalleeNode(name, arguments).parts) == [(NAME_KEY, Escaped(name)), (ARGUMENTS_KEY, Escaped(arguments))]
            && WireKey(Escaped(id).raw) == Some(id) && WireKey(Escaped(name).raw) == Some(name)
            && WireKey(Escaped(arguments).raw) == Some(arguments)
  {
    var id, name, arguments := Collected(log, i, Id), Collected(log, i, Name), Collected(log, i, Arguments);
    CallIsJson(id, name, arguments);
    CalleeIsJson(name, arguments);
    WireString.EscapeRoundTrip(id);
    WireString.EscapeRoundTrip(name);
    WireString.EscapeRoundTrip(arguments);
  }

  // ----- The published text, piece by piece -----

  function Quoted(s: bytes): bytes { [QUOTE] + s + [QUOTE] }

  function AttributeBytes(first: bool, key: bytes, value: bytes): bytes {
    (if first then [] else [COMMA]) + Quoted(key) + [COLON] + value
  }

  lemma AttributeText(first: bool, key: bytes, value: Node, rest: Parts)
    ensures RenderParts(Attribute(first, key, value, rest)) == AttributeBytes(first, key, Render(value)) + RenderParts(rest)
  {
    var comma: bytes := if first then [] else [COMMA];
    var tail := [COLON] + Render(value) + RenderParts(rest);
    assert RenderParts(Attribute(first, key, value, rest)) == comma + Render(String(key)) + tail;
    assert comma + Quoted(key) + tail == comma + Quoted(key) + [COLON] + Render(value) + RenderParts(rest);
  }

  lemma CalleeText(name: bytes, arguments: bytes)
    ensures Render(CalleeNode(name, arguments))
            == [OPEN_OBJECT] + AttributeBytes(true, NAME_KEY, Render(Escaped(name)))
               + AttributeBytes(false, ARGUMENTS_KEY, Render(Escaped(arguments))) + [CLOSE_OBJECT]
  {
    AttributeText(false, ARGUMENTS_KEY, Escaped(arguments), End);
    AttributeText(true, NAME_KEY, Escaped(name), ArgumentParts(arguments));
  }

  lemma CallTextRenders(id: bytes, name: bytes, arguments: bytes)
    ensures Render(CallNode(id, name, arguments))
            == [OPEN_OBJECT] + AttributeBytes(true, ID_KEY, Render(Escaped(id)))
               + AttributeBytes(false, TYPE_KEY, Quoted(FUNCTION_WORD))
               + AttributeBytes(false, FUNCTION_WORD, Render(CalleeNode(name, arguments))) + [CLOSE_OBJECT]
  {
    var callee := CalleeParts(name, arguments);
    AttributeText(false, FUNCTION_WORD, CalleeNode(name, arguments), End);
    AttributeText(false, TYPE_KEY, String(FUNCTION_WORD), callee);
    AttributeText(true, ID_KEY, Escaped(id), TypeParts(callee));
    Flatten([OPEN_OBJECT], AttributeBytes(true, ID_KEY, Render(Escaped(id))), AttributeBytes(false, TYPE_KEY, Quoted(FUNCTION_WORD)),
            AttributeBytes(false, FUNCTION_WORD, Render(CalleeNode(name, arguments))), [CLOSE_OBJECT]);
  }

  lemma Flatten(open: bytes, a: bytes, b: bytes, c: bytes, close: bytes)
    ensures open + (a + (b + (c + []))) + [] + close == open + a + b + c + close
  {
  }

  // ----- The stream -----

  /** The `tool_calls` field of a chunk; null counts as missing. */
  datatype Tools = NoTools | NotArray | Entries(entries: seq<Delta>)

  /** One SSE line, parsed.  `size` is the number of members of the delta object. */
  datatype Line =
    | NotData
    | Done(clean: bool)
    | BadDocument
    | ErrorEvent
    | BadChoices
    | UsageOnly
    | Chunk(size: nat, tools: Tools, reasoning: Field, content: Field, finish: Field)

  /** A `tool_calls` field that can be absorbed. */
  predicate ToolsOk(calls: seq<Call>, used: nat, tools: Tools)
    requires |calls| == CALLS_MAX && used <= BYTES_MAX
  {
    match tools
    case NoTools => true
    case NotArray => false
    case Entries(entries) => |entries| <= CALLS_MAX && AbsorbAll(calls, used, entries, {}).Some?
  }

  /** A finish reason that may stand in a chunk: a short text, and never another one. */
  predicate FinishOk(reason: bytes, finish: Field) {
    finish.Missing?
    || (Readable(finish) && TextOf(finish) != [] && |TextOf(finish)| < REASON_MAX && (reason == [] || reason == TextOf(finish)))
  }

  /** What the source accepts in one line, given the calls and the reason so far. */
  predicate LineOk(calls: seq<Call>, used: nat, reason: bytes, line: Line, delivered: bool)
    requires |calls| == CALLS_MAX && used <= BYTES_MAX
  {
    match line
    case NotData => true
    case UsageOnly => true
    case Done(clean) => clean
    case Chunk(size, tools, reasoning, content, finish) =>
      && (reason != [] ==> size == 0)
      && ToolsOk(calls, used, tools) && Readable(reasoning) && Readable(content) && FinishOk(reason, finish)
      && (TextOf(reasoning) != [] || TextOf(content) != [] ==> delivered)
    case _ => false
  }

  function EntriesOf(line: Line): seq<Delta> {
    if line.Chunk? && line.tools.Entries? then line.tools.entries else []
  }

  function ReasonAfter(reason: bytes, line: Line): bytes {
    if line.Chunk? && !line.finish.Missing? then TextOf(line.finish) else reason
  }

  datatype Completion = Incomplete | PlainText | Batch(text: bytes)

  class Job {
    const calls: array<Call>
    var count: nat
    var used: nat
    var reason: bytes
    var done: bool
    var error: bool

    // every delta entry accepted so far
    ghost var log: seq<Delta>

    ghost predicate Valid()
      reads this, calls
    {
      && calls.Length == CALLS_MAX && used <= BYTES_MAX && |reason| < REASON_MAX
      && (!error ==> AllAccumulated(calls[..], log) && used == Total(log) && Counted(log, count))
      && (error ==> done)
    }

    constructor ()
      ensures Valid() && fresh(calls) && Now() == Some(FRESH) && !error && !done
    {
      calls := new Call[CALLS_MAX](_ => EMPTY);
      count, used, reason, done, error, log := 0, 0, [], false, false, [];
      new;
      assert calls[..] == NoCalls();
    }

    /** Everything collected so far, unless something went wrong. */
    ghost function Now(): (s: Option<Standing>)
      requires Valid()
      reads this, calls
      ensures s.Some? ==> StandingOk(s.value)
    {
      if error then None else Some(Standing(calls[..], used, reason, done, log))
    }

    /** The first error discards the batch for good. */
    method Fail()
      requires calls.Length == CALLS_MAX && used <= BYTES_MAX && |reason| < REASON_MAX
      modifies this`error, this`done
      ensures Valid() && error
    {
      error, done := true, true;
    }

    method AddEntry(d: Delta) returns (ok: bool)
      requires Valid() && !error && DeltaOk(d)
      modifies this`count, this`used, this`log, calls
      ensures ok <==> Absorb(old(calls[d.index.value]), d, old(used)).Some?
      ensures calls.Length == CALLS_MAX && used <= BYTES_MAX
      ensures ok ==> Valid() && log == old(log) + [d]
                     && calls[..] == old(calls[..])[d.index.value := Absorb(old(calls[d.index.value]), d, old(used)).value.0]
                     && used == Absorb(old(calls[d.index.value]), d, old(used)).value.1
    {
      var k := d.index.value;
      var next := Absorb(calls[k], d, used);
      if next.None? { return false; }
      EntryAccumulates(calls[..], used, d, log);
      CountStep(log, count, d);
      calls[k] := next.value.0;
      used, log := next.value.1, log + [d];
      if count <= k { count := k + 1; }
      assert calls[..] == old(calls[..])[k := next.value.0];
      return true;
    }

    /** One `tool_calls` array: all of its entries, or the whole batch is lost. */
    method AddEntries(entries: seq<Delta>)
      requires Valid() && !error
      modifies this, calls
      ensures Valid() && reason == old(reason) && (!error ==> done == old(done))
      ensures error <==> |entries| > CALLS_MAX || AbsorbAll(old(calls[..]), old(used), entries, {}).None?
      ensures !error ==> log == old(log) + entries
      ensures !error ==> Some((calls[..], used)) == AbsorbAll(old(calls[..]), old(used), entries, {})
    {
      if |entries| > CALLS_MAX {
        Fail();
        return;
      }
      var taken: set<nat> := {};
      ghost var goal := AbsorbAll(calls[..], used, entries, {});
      for i := 0 to |entries|
        invariant Valid() && !error && reason == old(reason) && done == old(done)
        invariant log == old(log) + entries[..i]
        invariant AbsorbAll(calls[..], used, entries[i..], taken) == goal
      {
        AbsorbFirst(calls[..], used, entries[i..], taken);
        RestOf(entries, i);
        var ok := DeltaOk(entries[i]) && entries[i].index.value !in taken;
        if ok { ok := AddEntry(entries[i]); }
        if !ok {
          Fail();
          return;
        }
        taken := taken + {entries[i].index.value};
      }
      assert entries[..|entries|] == entries && entries[|entries|..] == [];
    }

    /** One line of the stream; `delivered` says whether display text reached its reader. */
    method Take(line: Line, delivered: bool)
      requires Valid()
      modifies this, calls
      ensures Valid()
      ensures error <==> old(error) || (!old(done) && !LineOk(old(calls[..]), old(used), old(reason), line, delivered))
      ensures done <==> old(done) || line.Done? || error
      ensures old(done) ==> calls[..] == old(calls[..]) && used == old(used) && reason == old(reason) && log == old(log)
      ensures !error && !old(done) ==> log == old(log) + EntriesOf(line) && reason == ReasonAfter(old(reason), line)
      ensures !error && !old(done) ==> Some((calls[..], used)) == AbsorbAll(old(calls[..]), old(used), EntriesOf(line), {})
      ensures !error && old(reason) != [] ==> reason == old(reason) && (line.Chunk? && line.size > 0 ==> old(done))
      ensures Now() == OneLine(old(Now()), Arrival(line, delivered))
    {
      NothingToAbsorb(calls[..], used);
      if done { return; }
      match line {
        case NotData =>
        case UsageOnly =>
        case Done(clean) =>
          if !clean { Fail(); }
          done := true;
        case Chunk(size, tools, reasoning, content, finish) =>
          TakeChunk(size, tools, reasoning, content, finish, delivered);
        case _ =>
          Fail();
      }
    }

    method TakeChunk(size: nat, tools: Tools, reasoning: Field, content: Field, finish: Field, delivered: bool)
      requires Valid() && !done && !error
      modifies this, calls
      ensures Valid() && (done <==> error)
      ensures var line := Chunk(size, tools, reasoning, content, finish);
              && (error <==> !LineOk(old(calls[..]), old(used), old(reason), line, delivered))
              && (!error ==>
                    && log == old(log) + EntriesOf(line) && reason == ReasonAfter(old(reason), line)
                    && Some((calls[..], used)) == AbsorbAll(old(calls[..]), old(used), EntriesOf(line), {}))
    {
      hide AllAccumulated, Counted, Absorb, AbsorbAll, TextOf, Total, Readable;
      if reason != [] && size > 0 {
        Fail();
        return;
      }
      NothingToAbsorb(calls[..], used);
      match tools {
        case NoTools =>
        case NotArray => Fail();
        case Entries(entries) => AddEntries(entries);
      }
      if error || !Readable(reasoning) || !Readable(content) {
        Fail();
        return;
      }
      if !finish.Missing? {
        if !Readable(finish) || TextOf(finish) == [] || |TextOf(finish)| >= REASON_MAX || (reason != [] && reason != TextOf(finish)) {
          Fail();
          return;
        }
        reason := TextOf(finish);
      }
      if (TextOf(reasoning) != [] || TextOf(content) != []) && !delivered { Fail(); }
    }

    /** The end of the transfer: plain text, the whole batch, or nothing. */
    method Complete(valid: bytes -> bool, delivered: bool) returns (r: Completion)
      requires Valid()
      modifies this`error, this`done
      ensures Valid()
      ensures r.PlainText? <==> !old(error) && reason == STOP && count == 0
      ensures r.Batch? <==> !old(error) && old(done) && reason == TOOL_CALLS && count > 0 && BatchReady(log, count, valid) && delivered
      ensures r.Batch? ==> r.text == Render(BatchNode(log, count)) && !error
      ensures r.Incomplete? ==> error
    {
      if error { return Incomplete; }
      if reason != STOP && reason != TOOL_CALLS { Fail(); return Incomplete; }
      if count == 0 {
        if reason == STOP { return PlainText; }
        Fail();
        return Incomplete;
      }
      if !done || reason != TOOL_CALLS { Fail(); return Incomplete; }
      var ready := CheckCalls(valid);
      if !ready || !delivered { Fail(); return Incomplete; }
      ReadySlots(calls[..], log, count, valid);
      var text := Publish();
      return Batch(text);
    }

    /** Every call is checked before any is published. */
    method CheckCalls(valid: bytes -> bool) returns (ready: bool)
      requires Valid() && !error
      ensures ready <==> BatchReady(log, count, valid)
    {
      for i := 0 to count
        invariant BatchReady(log, i, valid)
      {
        var whole := CheckCall(i, valid);
        var isNew := CheckId(i);
        ReadyStep(log, i, count, valid);
        if !whole || !isNew { return false; }
      }
      return true;
    }

    method CheckCall(i: nat, valid: bytes -> bool) returns (whole: bool)
      requires Valid() && !error && i < count
      ensures whole <==> Whole(log, i, valid)
    {
      SlotHolds(calls[..], log, i);
      whole := calls[i].seen && calls[i].typed && calls[i].id != [] && calls[i].name != [] && calls[i].arguments.Some?
               && valid(calls[i].arguments.value);
    }

    method CheckId(i: nat) returns (isNew: bool)
      requires Valid() && !error && i < count
      ensures isNew <==> IdIsNew(log, i)
    {
      SlotHolds(calls[..], log, i);
      for k := 0 to i
        invariant forall j: nat :: j < k ==> Collected(log, i, Id) != Collected(log, j, Id)
      {
        SlotHolds(calls[..], log, k);
        if calls[i].id == calls[k].id { return false; }
      }
      return true;
    }

    /** The text of the batch, call by call. */
    method Publish() returns (text: bytes)
      requires Valid() && !error && forall i: nat :: i < count ==> calls[i].arguments.Some?
      ensures text == Render(BatchNode(log, count))
    {
      text := [OPEN_ARRAY];
      for i := 0 to count
        invariant text + RenderParts(CallParts(log, i, count)) == [OPEN_ARRAY] + RenderParts(CallParts(log, 0, count))
      {
        var one := PublishOne(i);
        NextPart(CallParts(log, i, count), text, one);
        text := text + one;
      }
      CloseBatch(log, count, text);
      text := text + [CLOSE_ARRAY];
    }

    method PublishOne(i: nat) returns (one: bytes)
      requires Valid() && !error && i < count && calls[i].arguments.Some?
      ensures one == CallParts(log, i, count).filler + Render(CallParts(log, i, count).first)
    {
      SlotHolds(calls[..], log, i);
      one := CallText(calls[i].id, calls[i].name, calls[i].arguments.value);
      one := (if i == 0 then [] else [COMMA]) + one;
    }
  }

  // ----- Whole transfers -----

  /** A line as it arrives; `delivered` says whether its display text reached the reader. */
  datatype Arrival = Arrival(line: Line, delivered: bool)

  /** What a job has collected as long as nothing went wrong. */
  datatype Standing = Standing(calls: seq<Call>, used: nat, reason: bytes, done: bool, log: seq<Delta>)

  predicate StandingOk(s: Standing) { |s.calls| == CALLS_MAX && s.used <= BYTES_MAX }

  function NoCalls(): (calls: seq<Call>)
    ensures |calls| == CALLS_MAX && forall i :: 0 <= i < CALLS_MAX ==> calls[i] == EMPTY
  {
    seq(CALLS_MAX, _ => EMPTY)
  }

  const FRESH := Standing(NoCalls(), 0, [], false, [])

  lemma {:induction false} AbsorbKeepsShape(calls: seq<Call>, used: nat, entries: seq<Delta>, taken: set<nat>)
    requires |calls| == CALLS_MAX && used <= BYTES_MAX
    ensures var r := AbsorbAll(calls, used, entries, taken); r.Some? ==> |r.value.0| == CALLS_MAX && r.value.1 <= BYTES_MAX
    decreases |entries|
  {
    if entries != [] && AbsorbAll(calls, used, entries, taken).Some? {
      var d := entries[0];
      var next := Absorb(calls[d.index.value], d, used).value;
      AbsorbKeepsShape(calls[d.index.value := next.0], next.1, entries[1..], taken + {d.index.value});
    }
  }

  /** One more line; None once something went wrong, and nothing after the end. */
  function OneLine(s: Option<Standing>, a: Arrival): (r: Option<Standing>)
    requires s.Some? ==> StandingOk(s.value)
    ensures r.Some? ==> StandingOk(r.value)
  {
    if s.None? || s.value.done then s
    else
      var now := s.value;
      if !LineOk(now.calls, now.used, now.reason, a.line, a.delivered) then None
      else
        match AbsorbAll(now.calls, now.used, EntriesOf(a.line), {})
        case None => None
        case Some((calls, used)) =>
          AbsorbKeepsShape(now.calls, now.used, EntriesOf(a.line), {});
          Some(Standing(calls, used, ReasonAfter(now.reason, a.line), a.line.Done?, now.log + EntriesOf(a.line)))
  }

  function Taken(input: seq<Arrival>): (r: Option<Standing>)
    ensures r.Some? ==> StandingOk(r.value)
  {
    if input == [] then Some(FRESH) else OneLine(Taken(input[..|input| - 1]), input[|input| - 1])
  }

  ghost function AllEntries(input: seq<Arrival>): seq<Delta> {
    if input == [] then [] else AllEntries(input[..|input| - 1]) + EntriesOf(input[|input| - 1].line)
  }

  /** Line `i` names the reason, and no later chunk says anything more. */
  ghost predicate FinishedAt(input: seq<Arrival>, i: nat, reason: bytes) {
    && i < |input| && input[i].line.Chunk? && !input[i].line.finish.Missing? && TextOf(input[i].line.finish) == reason
    && forall k :: i < k < |input| && input[k].line.Chunk? ==> input[k].line.size == 0
  }

  ghost predicate Finished(input: seq<Arrival>, reason: bytes) { exists i :: FinishedAt(input, i, reason) }

  lemma FinishedStep(input: seq<Arrival>, calls: seq<Call>, used: nat, reason: bytes, a: Arrival)
    requires |calls| == CALLS_MAX && used <= BYTES_MAX && LineOk(calls, used, reason, a.line, a.delivered)
    requires reason != [] ==> Finished(input, reason)
    ensures a.line.Done? ==> a.line == Done(true)
    ensures ReasonAfter(reason, a.line) != [] ==> Finished(input + [a], ReasonAfter(reason, a.line))
  {
    var longer := input + [a];
    if reason != [] {
      var i :| FinishedAt(input, i, reason);
      assert FinishedAt(longer, i, reason);
    } else if a.line.Chunk? && !a.line.finish.Missing? {
      assert FinishedAt(longer, |input|, TextOf(a.line.finish));
    }
  }

  lemma EntriesStep(input: seq<Arrival>, a: Arrival)
    ensures AllEntries(input + [a]) == AllEntries(input) + EntriesOf(a.line) && Taken(input + [a]) == OneLine(Taken(input), a)
  {
    assert (input + [a])[..|input|] == input;
  }

  /** The first `n` lines explain what was collected: their entries are the log, one of them
      gave the reason and none says anything after it, and the last is the sentinel once the
      stream is done. */
  ghost predicate Explains(input: seq<Arrival>, n: nat, s: Standing) {
    && n <= |input| && s.log == AllEntries(input[..n]) && (s.reason != [] ==> Finished(input[..n], s.reason))
    && (if s.done then n > 0 && input[n - 1].line == Done(true) else n == |input|)
    && forall k :: 0 <= k < (if s.done then n - 1 else n) ==> !input[k].line.Done?
  }

  /** What is collected from a stream comes from its lines up to the sentinel. */
  lemma {:induction false} TakenIsExplained(input: seq<Arrival>) returns (n: nat)
    requires Taken(input).Some?
    ensures Explains(input, n, Taken(input).value)
    decreases |input|
  {
    if input == [] {
      n := 0;
    } else {
      var init, a := input[..|input| - 1], input[|input| - 1];
      assert input == init + [a];
      EntriesStep(init, a);
      n := TakenIsExplained(init);
      hide Taken, AllEntries, Finished, LineOk;
      ExplainsStep(init, a, n, Taken(init).value);
      if !Taken(init).value.done { n := |input|; }
    }
  }

  lemma ExplainsStep(init: seq<Arrival>, a: Arrival, n: nat, s: Standing)
    requires StandingOk(s) && Explains(init, n, s) && OneLine(Some(s), a).Some?
    requires AllEntries(init + [a]) == AllEntries(init) + EntriesOf(a.line)
    ensures Explains(init + [a], if s.done then n else |init| + 1, OneLine(Some(s), a).value)
  {
    var input := init + [a];
    assert input[..n] == init[..n] && init[..|init|] == init && input[..|input|] == input;
    if s.done {
      assert input[n - 1] == init[n - 1];
    } else {
      FinishedStep(init, s.calls, s.used, s.reason, a);
      assert forall k :: 0 <= k < |init| ==> input[k] == init[k];
    }
  }

  /** After the end nothing more is taken. */
  lemma {:induction false} NothingAfterEnd(input: seq<Arrival>, n: nat)
    requires n <= |input| && (Taken(input[..n]).None? || Taken(input[..n]).value.done)
    ensures Taken(input) == Taken(input[..n])
    decreases |input|
  {
    if n == |input| {
      assert input[..n] == input;
    } else {
      var init := input[..|input| - 1];
      assert init[..n] == input[..n];
      NothingAfterEnd(init, n);
    }
  }

  /** There is one count. */
  lemma CountedOnce(log: seq<Delta>, a: nat, b: nat)
    requires Counted(log, a) && Counted(log, b)
    ensures a == b
  {
    if a > 0 { assert Seen(log, a - 1); }
    if b > 0 { assert Seen(log, b - 1); }
  }

  /** Lines are taken one by one until the stream is done. */
  method Drive(job: Job, input: seq<Arrival>)
    requires job.Valid() && job.Now() == Some(FRESH)
    modifies job, job.calls
    ensures job.Valid() && job.Now() == Taken(input)
  {
    var n := 0;
    assert input[..0] == [];
    while n < |input| && !job.done
      invariant n <= |input| && job.Valid() && job.Now() == Taken(input[..n])
    {
      job.Take(input[n].line, input[n].delivered);
      EntriesStep(input[..n], input[n]);
      assert input[..n + 1] == input[..n] + [input[n]];
      n := n + 1;
    }
    if job.done { NothingAfterEnd(input, n); } else { assert input[..n] == input; }
  }

  /** What a transfer that ended this way publishes; `count` is the number of calls. */
  ghost predicate Publishes(s: Option<Standing>, count: nat, valid: bytes -> bool) {
    s.Some? && s.value.done && s.value.reason == TOOL_CALLS && count > 0 && Counted(s.value.log, count)
    && BatchReady(s.value.log, count, valid)
  }

  /** A whole transfer.  A batch is published exactly when the stream ended with `tool_calls`
      and the sentinel, every collected call is whole, and the text reached its reader; what
      is published is the rendering of the calls.  Plain text ends with `stop` and no call. */
  method Transfer(input: seq<Arrival>, valid: bytes -> bool, delivered: bool) returns (r: Completion)
    ensures r.Batch? <==> delivered && exists count: nat :: Publishes(Taken(input), count, valid)
    ensures r.Batch? ==> forall count: nat :: Counted(Taken(input).value.log, count) ==> r.text == Render(BatchNode(Taken(input).value.log, count))
    ensures r.PlainText? <==> Taken(input).Some? && Taken(input).value.reason == STOP && Counted(Taken(input).value.log, 0)
  {
    var job := new Job();
    Drive(job, input);
    r := job.Complete(valid, delivered);
    ghost var s := Taken(input);
    if s.Some? {
      forall count: nat | Counted(s.value.log, count) ensures count == job.count { CountedOnce(s.value.log, count, job.count); }
    }
    assert r.Batch? ==> Publishes(s, job.count, valid);
  }

  lemma ReadyStep(log: seq<Delta>, i: nat, count: nat, valid: bytes -> bool)
    requires i < count && BatchReady(log, i, valid)
    ensures if Whole(log, i, valid) && IdIsNew(log, i) then BatchReady(log, i + 1, valid) else !BatchReady(log, count, valid)
  {
  }

  lemma ReadySlots(calls: seq<Call>, log: seq<Delta>, count: nat, valid: bytes -> bool)
    requires AllAccumulated(calls, log) && count <= CALLS_MAX && BatchReady(log, count, valid)
    ensures forall i: nat :: i < count ==> calls[i].arguments.Some?
  {
    forall i: nat | i < count ensures calls[i].arguments.Some? {
      assert Whole(log, i, valid);
      SlotHolds(calls, log, i);
    }
  }

  lemma SlotHolds(calls: seq<Call>, log: seq<Delta>, i: nat)
    requires AllAccumulated(calls, log) && i < CALLS_MAX
    ensures calls[i].seen == Seen(log, i) && calls[i].typed == TypedFunction(log, i) && calls[i].arguments.Some? == ArgumentsSeen(log, i)
    ensures calls[i].id == Collected(log, i, Id) && calls[i].name == Collected(log, i, Name)
    ensures calls[i].arguments.Some? ==> calls[i].arguments.value == Collected(log, i, Arguments)
  {
    assert Accumulated(calls[i], log, i);
    assert PartOf(calls[i], Id) == Collected(log, i, Id) && PartOf(calls[i], Name) == Collected(log, i, Name);
    assert PartOf(calls[i], Arguments) == Collected(log, i, Arguments);
  }

  lemma CloseBatch(log: seq<Delta>, count: nat, text: bytes)
    requires text + RenderParts(CallParts(log, count, count)) == [OPEN_ARRAY] + RenderParts(CallParts(log, 0, count))
    ensures text + [CLOSE_ARRAY] == Render(BatchNode(log, count))
  {
    var parts := RenderParts(CallParts(log, 0, count));
    assert text + [] == text;
    assert [OPEN_ARRAY] + parts + [] == [OPEN_ARRAY] + parts;
  }

  lemma NextPart(parts: Parts, text: bytes, one: bytes)
    requires parts.Then? && one == parts.filler + Render(parts.first)
    ensures text + RenderParts(parts) == (text + one) + RenderParts(parts.rest)
  {
    Associate(text, one, RenderParts(parts.rest));
  }

  /** The pieces of one published call, around its escaped strings. */
  method CallText(id: bytes, name: bytes, arguments: bytes) returns (text: bytes)
    ensures text == Render(CallNode(id, name, arguments))
  {
    var quotedId := WireString.PutEscaped(id);
    var quotedName := WireString.PutEscaped(name);
    var quotedArguments := WireString.PutEscaped(arguments);
    CalleeText(name, arguments);
    CallTextRenders(id, name, arguments);
    var callee := [OPEN_OBJECT] + AttributeBytes(true, NAME_KEY, quotedName)
                  + AttributeBytes(false, ARGUMENTS_KEY, quotedArguments) + [CLOSE_OBJECT];
    text := [OPEN_OBJECT] + AttributeBytes(true, ID_KEY, quotedId) + AttributeBytes(false, TYPE_KEY, Quoted(FUNCTION_WORD))
            + AttributeBytes(false, FUNCTION_WORD, callee) + [CLOSE_OBJECT];
  }
}
