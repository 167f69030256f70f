/** The runtime's side of a published batch of tool calls.

    The runtime opens the published text, looks every call up by position and every field by
    name, and admits the whole group or nothing.  What it reads are exactly the pieces the
    host collected from the stream, byte for byte. */
module ToolGroup {
  import opened Prelude
  import WireString
  import opened JsonTokens
  import opened JsonLookup
  import opened JsonGrammar
  import opened JsonOpen
  import opened ToolCalls

  const GROUP_MAX: nat := 16
  const IDS_MAX: nat := 4096
  const TOKENS_MAX: nat := 4096
  const TEXT_MAX: nat := 16 * 1024 * 1024
  const ID_MAX: nat := 255
  const NAME_MAX: nat := 127
  const ONE_ARGUMENT_MAX: nat := 1024 * 1024
  const ALL_ARGUMENTS_MAX: nat := 2 * 1024 * 1024

  datatype CallText = CallText(id: bytes, name: bytes, arguments: bytes)

  // ----- Reading one call -----

  function FieldAt(json: bytes, tokens: seq<Token>, owner: int, name: bytes): int {
    if 0 <= owner < |tokens| && tokens[owner].kind.ObjectToken?
    then FieldFrom(json, tokens, owner, Named(name), owner + 1, 0) else -1
  }

  function TextAt(json: bytes, tokens: seq<Token>, at: int): Option<bytes> {
    if 0 <= at < |tokens| && tokens[at].kind.StringToken? then WireKey(RawText(json, tokens[at])) else None
  }

  /** The fields of call `item`: three members, one of them a function with two. */
  function ReadCall(json: bytes, tokens: seq<Token>, item: int): Option<CallText> {
    var callee := FieldAt(json, tokens, item, FUNCTION_WORD);
    if item < 0 || item >= |tokens| || callee < 0 || callee >= |tokens| || tokens[item].size != 6
       || !tokens[callee].kind.ObjectToken? || tokens[callee].size != 4
       || TextAt(json, tokens, FieldAt(json, tokens, item, TYPE_KEY)) != Some(FUNCTION_WORD) then None
    else
      var id := TextAt(json, tokens, FieldAt(json, tokens, item, ID_KEY));
      var name := TextAt(json, tokens, FieldAt(json, tokens, callee, NAME_KEY));
      var arguments := TextAt(json, tokens, FieldAt(json, tokens, callee, ARGUMENTS_KEY));
      if id.None? || name.None? || arguments.None? then None
      else Some(CallText(id.value, name.value, arguments.value))
  }

  /** The first `count` elements of the array. */
  function ReadCalls(json: bytes, tokens: seq<Token>, count: nat): (calls: Option<seq<CallText>>)
    requires tokens != []
    ensures calls.Some? ==> |calls.value| == count
  {
    if count == 0 then Some([])
    else
      var before := ReadCalls(json, tokens, count - 1);
      var items := Children(tokens, 0, 1);
      var call := ReadCall(json, tokens, if count - 1 < |items| then items[count - 1] else -1);
      if before.None? || call.None? then None else Some(before.value + [call.value])
  }

  // ----- Admitting a group -----

  function AllArguments(calls: seq<CallText>): nat {
    if calls == [] then 0 else AllArguments(calls[..|calls| - 1]) + |calls[|calls| - 1].arguments|
  }

  /** Call `i` is within its limits, and its id is new in the group and in the session;
      `fits` says whether its arguments fit the schema of a known tool. */
  predicate CallOk(calls: seq<CallText>, i: nat, known: seq<bytes>, fits: CallText -> bool)
    requires i < |calls|
  {
    var c := calls[i];
    && 0 < |c.id| <= ID_MAX && 0 < |c.name| <= NAME_MAX && |c.arguments| <= ONE_ARGUMENT_MAX
    && AllArguments(calls[..i + 1]) <= ALL_ARGUMENTS_MAX
    && (forall j :: 0 <= j < i ==> calls[j].id != c.id)
    && c.id !in known && fits(c)
  }

  predicate Admissible(calls: seq<CallText>, known: seq<bytes>, fits: CallText -> bool) {
    forall i :: 0 <= i < |calls| ==> CallOk(calls, i, known, fits)
  }

  /** The runtime refuses form feeds and vertical tabs, which count as blanks elsewhere. */
  predicate NoFeeds(json: bytes) { forall i :: 0 <= i < |json| ==> json[i] != 0x0b && json[i] != 0x0c }

  function RemoteOpen(json: bytes, first: byte): Option<seq<Token>> {
    if NoFeeds(json) then OpenText(json, first, TEXT_MAX, TOKENS_MAX) else None
  }

  /** The whole group read from a text, or nothing; `known` are the ids of the session. */
  function GroupOf(json: bytes, known: seq<bytes>, fits: CallText -> bool): Option<seq<CallText>> {
    match RemoteOpen(json, OPEN_ARRAY)
    case None => None
    case Some(tokens) =>
      if tokens == [] || !(1 <= tokens[0].size <= GROUP_MAX) || |known| + tokens[0].size > IDS_MAX then None
      else
        var calls := ReadCalls(json, tokens, tokens[0].size);
        if calls.Some? && Admissible(calls.value, known, fits) then calls else None
  }

  method ReadOne(json: bytes, tokens: seq<Token>, item: int) returns (call: Option<CallText>)
    ensures call == ReadCall(json, tokens, item)
  {
    hide FieldFrom, WireKey, RawText, Named;
    var callee := JsonLookup.Field(json, tokens, item, FUNCTION_WORD);
    if item < 0 || item >= |tokens| || callee < 0 || callee >= |tokens| || tokens[item].size != 6
       || !tokens[callee].kind.ObjectToken? || tokens[callee].size != 4 { return None; }
    var kind := JsonLookup.Field(json, tokens, item, TYPE_KEY);
    if TextAt(json, tokens, kind) != Some(FUNCTION_WORD) { return None; }
    var idAt := JsonLookup.Field(json, tokens, item, ID_KEY);
    var nameAt := JsonLookup.Field(json, tokens, callee, NAME_KEY);
    var argumentsAt := JsonLookup.Field(json, tokens, callee, ARGUMENTS_KEY);
    var id, name, arguments := TextAt(json, tokens, idAt), TextAt(json, tokens, nameAt), TextAt(json, tokens, argumentsAt);
    if id.None? || name.None? || arguments.None? { return None; }
    return Some(CallText(id.value, name.value, arguments.value));
  }

  method IdIsFresh(calls: seq<CallText>, id: bytes, known: seq<bytes>) returns (isNew: bool)
    ensures isNew <==> (forall j :: 0 <= j < |calls| ==> calls[j].id != id) && id !in known
  {
    for j := 0 to |calls|
      invariant forall k :: 0 <= k < j ==> calls[k].id != id
    {
      if calls[j].id == id { return false; }
    }
    for j := 0 to |known|
      invariant id !in known[..j]
    {
      if known[j] == id { return false; }
      assert known[..j + 1] == known[..j] + [known[j]];
    }
    assert known[..|known|] == known;
    return true;
  }

  /** What opens as an array is one. */
  lemma OpenedArray(json: bytes, most: nat, cap: nat, tokens: seq<Token>)
    requires OpenText(json, OPEN_ARRAY, most, cap) == Some(tokens)
    ensures tokens != [] && tokens[0].kind.ArrayToken?
  {
    hide OpenText;
    OpenedText(json, OPEN_ARRAY, most, cap);
    var n, before, after := DocumentFound(json, OPEN_ARRAY);
    OpenDocument(json, OPEN_ARRAY, most, cap, n, before, after);
    ArrayBegins(n, |before|);
  }

  lemma OpenedText(json: bytes, first: byte, most: nat, cap: nat)
    requires OpenText(json, first, most, cap).Some?
    ensures ValidText(json, first)
  {
  }

  lemma ArrayBegins(n: Node, at: nat)
    requires IsJson(n) && Render(n) != [] && Render(n)[0] == OPEN_ARRAY
    ensures Preorder(n, -1, 0, at)[0].kind.ArrayToken?
  {
  }

  lemma ReadNext(json: bytes, tokens: seq<Token>, i: nat)
    requires tokens != []
    ensures var items := Children(tokens, 0, 1);
            var call := ReadCall(json, tokens, if i < |items| then items[i] else -1);
            ReadCalls(json, tokens, i + 1)
            == if ReadCalls(json, tokens, i).None? || call.None? then None else Some(ReadCalls(json, tokens, i).value + [call.value])
  {
  }

  lemma {:induction false} NothingAfter(json: bytes, tokens: seq<Token>, i: nat, count: nat)
    requires tokens != [] && i <= count && ReadCalls(json, tokens, i).None?
    ensures ReadCalls(json, tokens, count).None?
    decreases count
  {
    hide ReadCall, Children;
    if i < count { NothingAfter(json, tokens, i, count - 1); }
  }

  lemma {:induction false} ReadBefore(json: bytes, tokens: seq<Token>, i: nat, count: nat)
    requires tokens != [] && i <= count && ReadCalls(json, tokens, count).Some?
    ensures ReadCalls(json, tokens, i).Some? && ReadCalls(json, tokens, i).value == ReadCalls(json, tokens, count).value[..i]
    decreases count
  {
    hide ReadCall, Children;
    if i < count { ReadBefore(json, tokens, i, count - 1); }
  }

  lemma ArgumentsGrow(calls: seq<CallText>, c: CallText)
    ensures AllArguments(calls + [c]) == AllArguments(calls) + |c.arguments|
  {
    assert (calls + [c])[..|calls|] == calls;
  }

  lemma PrefixOk(calls: seq<CallText>, more: seq<CallText>, i: nat, known: seq<bytes>, fits: CallText -> bool)
    requires i < |calls| && calls <= more
    ensures CallOk(calls, i, known, fits) <==> CallOk(more, i, known, fits)
  {
    assert calls[..i + 1] == more[..i + 1];
  }

  lemma NewCall(calls: seq<CallText>, c: CallText, known: seq<bytes>, fits: CallText -> bool)
    requires Admissible(calls, known, fits)
    ensures Admissible(calls + [c], known, fits)
            <==> && 0 < |c.id| <= ID_MAX && 0 < |c.name| <= NAME_MAX && |c.arguments| <= ONE_ARGUMENT_MAX
                 && AllArguments(calls) + |c.arguments| <= ALL_ARGUMENTS_MAX
                 && (forall j :: 0 <= j < |calls| ==> calls[j].id != c.id) && c.id !in known && fits(c)
  {
    var all := calls + [c];
    ArgumentsGrow(calls, c);
    forall i | 0 <= i < |calls| ensures CallOk(all, i, known, fits) { PrefixOk(calls, all, i, known, fits); }
    assert all[..|calls| + 1] == all;
    assert CallOk(all, |calls|, known, fits)
           <==> && 0 < |c.id| <= ID_MAX && 0 < |c.name| <= NAME_MAX && |c.arguments| <= ONE_ARGUMENT_MAX
                && AllArguments(calls) + |c.arguments| <= ALL_ARGUMENTS_MAX
                && (forall j :: 0 <= j < |calls| ==> calls[j].id != c.id) && c.id !in known && fits(c);
  }

  /** A call that is not in order refuses the group, whatever follows it. */
  lemma RefusedCall(json: bytes, tokens: seq<Token>, calls: seq<CallText>, count: nat, known: seq<bytes>, fits: CallText -> bool)
    requires tokens != [] && |calls| <= count && ReadCalls(json, tokens, |calls|) == Some(calls) && !Admissible(calls, known, fits)
    ensures var all := ReadCalls(json, tokens, count); all.None? || !Admissible(all.value, known, fits)
  {
    if ReadCalls(json, tokens, count).Some? {
      var all := ReadCalls(json, tokens, count).value;
      ReadBefore(json, tokens, |calls|, count);
      var i :| 0 <= i < |calls| && !CallOk(calls, i, known, fits);
      PrefixOk(calls, all, i, known, fits);
    }
  }

  /** Read the group call by call; the first call that is not in order ends it. */
  method PrepareGroup(json: bytes, known: seq<bytes>, fits: CallText -> bool) returns (group: Option<seq<CallText>>)
    ensures group == GroupOf(json, known, fits)
  {
    hide OpenText, ReadCall, Children, Admissible, NoFeeds, AllArguments;
    if !NoFeeds(json) { return None; }
    var buffer := new Token[TOKENS_MAX];
    var found := Open(json, OPEN_ARRAY, TEXT_MAX, buffer);
    if found < 0 { return None; }
    var tokens := buffer[..found];
    OpenedArray(json, TEXT_MAX, TOKENS_MAX, tokens);
    var count := tokens[0].size;
    if count < 1 || count > GROUP_MAX || |known| + count > IDS_MAX { return None; }
    group := ReadGroup(json, tokens, count, known, fits);
  }

  method Admits(calls: seq<CallText>, used: nat, c: CallText, known: seq<bytes>, fits: CallText -> bool) returns (ok: bool)
    requires Admissible(calls, known, fits) && used == AllArguments(calls)
    ensures ok <==> Admissible(calls + [c], known, fits)
  {
    hide Admissible, AllArguments;
    NewCall(calls, c, known, fits);
    var isNew := IdIsFresh(calls, c.id, known);
    return 0 < |c.id| <= ID_MAX && 0 < |c.name| <= NAME_MAX && |c.arguments| <= ONE_ARGUMENT_MAX
           && used + |c.arguments| <= ALL_ARGUMENTS_MAX && isNew && fits(c);
  }

  /** The next call of the group, or the reason to refuse all of it. */
  method NextCall(json: bytes, tokens: seq<Token>, count: nat, calls: seq<CallText>, used: nat, known: seq<bytes>, fits: CallText -> bool)
    returns (call: Option<CallText>)
    requires tokens != [] && tokens[0].kind.ArrayToken? && |calls| < count && ReadCalls(json, tokens, |calls|) == Some(calls)
    requires Admissible(calls, known, fits) && used == AllArguments(calls)
    ensures call.Some? ==> ReadCalls(json, tokens, |calls| + 1) == Some(calls + [call.value]) && Admissible(calls + [call.value], known, fits)
    ensures call.None? ==> var all := ReadCalls(json, tokens, count); all.None? || !Admissible(all.value, known, fits)
  {
    hide ReadCall, ReadCalls, Children, Admissible, AllArguments;
    ReadNext(json, tokens, |calls|);
    var item := ArrayNth(tokens, 0, |calls|);
    call := ReadOne(json, tokens, item);
    if call.None? {
      NothingAfter(json, tokens, |calls| + 1, count);
      return;
    }
    var ok := Admits(calls, used, call.value, known, fits);
    if !ok {
      RefusedCall(json, tokens, calls + [call.value], count, known, fits);
      call := None;
    }
  }

  method ReadGroup(json: bytes, tokens: seq<Token>, count: nat, known: seq<bytes>, fits: CallText -> bool)
    returns (group: Option<seq<CallText>>)
    requires tokens != [] && tokens[0].kind.ArrayToken?
    ensures group
            == var calls := ReadCalls(json, tokens, count);
               if calls.Some? && Admissible(calls.value, known, fits) then calls else None
  {
    assert Admissible([], known, fits) && AllArguments([]) == 0 && ReadCalls(json, tokens, 0) == Some([]);
    hide ReadCall, ReadCalls, Children, Admissible, AllArguments;
    var calls: seq<CallText>, used := [], 0;
    while |calls| < count
      invariant |calls| <= count && ReadCalls(json, tokens, |calls|) == Some(calls)
      invariant Admissible(calls, known, fits) && used == AllArguments(calls)
      decreases count - |calls|
    {
      var call := NextCall(json, tokens, count, calls, used, known, fits);
      if call.None? { return None; }
      ArgumentsGrow(calls, call.value);
      calls, used := calls + [call.value], used + |call.value.arguments|;
    }
    return Some(calls);
  }

  // ----- The published text, read back -----

  /** The pieces of the first `count` calls. */
  function Pieces(log: seq<Delta>, count: nat): (calls: seq<CallText>)
    ensures |calls| == count
  {
    seq(count, i requires 0 <= i < count => CallText(Collected(log, i, Id), Collected(log, i, Name), Collected(log, i, Arguments)))
  }

  function NodeOf(c: CallText): Node { CallNode(c.id, c.name, c.arguments) }

  /** Visible ASCII without quotes and backslashes. */
  predicate Simple(s: bytes) { forall i :: 0 <= i < |s| ==> 0x20 <= s[i] < 0x7f && s[i] != QUOTE && s[i] != BACKSLASH }

  /** A simple text stands for itself, for both decoders. */
  lemma {:induction false} SimpleDecodes(s: bytes)
    requires Simple(s)
    ensures WireKey(s) == Some(s) && JsonLookup.PlainText(s) == Some(s)
    decreases |s|
  {
    if s != [] {
      SimpleDecodes(s[1..]);
      SimpleUnit(s);
      assert s == [s[0]] + s[1..];
    }
  }

  lemma SimpleUnit(s: bytes)
    requires s != [] && 0x20 <= s[0] < 0x7f && s[0] != QUOTE && s[0] != BACKSLASH
    ensures WireString.FirstUnit(s) == Some(WireString.Unit(1, [s[0]])) && PlainUnit(s) == Some(WireString.Unit(1, [s[0]]))
  {
  }

  lemma KeyDecodes(key: bytes)
    requires Simple(key) && |key| <= KEY_MAX
    ensures WireKey(key) == Some(key) && KeyName(String(key)) == Some(key)
  {
    SimpleDecodes(key);
  }

  lemma KeysDecode()
    ensures forall key :: key in [ID_KEY, TYPE_KEY, FUNCTION_WORD, NAME_KEY, ARGUMENTS_KEY] ==>
              WireKey(key) == Some(key) && KeyName(String(key)) == Some(key)
  {
    hide WireKey, KeyName;
    KeyDecodes(ID_KEY);
    KeyDecodes(TYPE_KEY);
    KeyDecodes(FUNCTION_WORD);
    KeyDecodes(NAME_KEY);
    KeyDecodes(ARGUMENTS_KEY);
  }

  lemma KeysDiffer()
    ensures ID_KEY != TYPE_KEY && ID_KEY != FUNCTION_WORD && TYPE_KEY != FUNCTION_WORD && NAME_KEY != ARGUMENTS_KEY
  {
    assert ID_KEY[0] != TYPE_KEY[0] && ID_KEY[0] != FUNCTION_WORD[0] && TYPE_KEY[0] != FUNCTION_WORD[0];
    assert NAME_KEY[0] != ARGUMENTS_KEY[0];
  }

  /** A lookup by the decoded name of exactly one key finds that member. */
  lemma FieldOfKey(json: bytes, tokens: seq<Token>, n: Node, parent: int, owner: nat, at: nat, name: bytes, k: nat)
    returns (valueAt: nat)
    requires n.Container? && !n.list && InPlace(json, tokens, n, parent, owner, at) && Paired(n.parts) && k < |Pairs(n.parts)|
    requires forall j :: 0 <= j < |Pairs(n.parts)| ==> (WireKey(Pairs(n.parts)[j].0) == Some(name) <==> j == k)
    ensures var i := FieldAt(json, tokens, owner, name);
            i > owner && InPlace(json, tokens, Pairs(n.parts)[k].1, owner, i, valueAt)
  {
    hide InPlace, FieldFrom, Lookup;
    FieldFindsMember(json, tokens, n, parent, owner, at, Named(name));
    var first := LookupIsFirst(n.parts, Named(name), owner + 1);
    assert Named(name)(Pairs(n.parts)[k].0);
    var found;
    found, valueAt := FoundInPlace(json, tokens, n, parent, owner, at, Named(name));
  }

  /** An escaped text in place reads as the text. */
  lemma TextInPlace(json: bytes, tokens: seq<Token>, raw: bytes, text: bytes, parent: int, owner: nat, at: nat)
    requires InPlace(json, tokens, String(raw), parent, owner, at) && WireKey(raw) == Some(text)
    ensures TextAt(json, tokens, owner) == Some(text)
  {
    hide InPlace;
    LeafToken(json, tokens, String(raw), parent, owner, at);
  }

  predicate CallWellFormed(c: CallText) {
    WireString.WellFormed(c.id) && WireString.WellFormed(c.name) && WireString.WellFormed(c.arguments)
  }

  /** A published call in place is read back. */
  lemma CallReadBack(json: bytes, tokens: seq<Token>, c: CallText, owner: nat, at: nat)
    requires CallWellFormed(c) && owner > 0 && InPlace(json, tokens, NodeOf(c), 0, owner, at)
    ensures ReadCall(json, tokens, owner) == Some(c)
  {
    hide InPlace, FieldAt, TextAt;
    var calleeAt := CallFields(json, tokens, c, owner, at);
    CalleeReadBack(json, tokens, c, owner, FieldAt(json, tokens, owner, FUNCTION_WORD), calleeAt);
  }

  lemma CallFields(json: bytes, tokens: seq<Token>, c: CallText, owner: nat, at: nat) returns (calleeAt: nat)
    requires CallWellFormed(c) && owner > 0 && InPlace(json, tokens, NodeOf(c), 0, owner, at)
    ensures owner < |tokens| && tokens[owner].size == 6
    ensures TextAt(json, tokens, FieldAt(json, tokens, owner, ID_KEY)) == Some(c.id)
    ensures TextAt(json, tokens, FieldAt(json, tokens, owner, TYPE_KEY)) == Some(FUNCTION_WORD)
    ensures var callee := FieldAt(json, tokens, owner, FUNCTION_WORD);
            callee >= 0 && InPlace(json, tokens, CalleeNode(c.name, c.arguments), owner, callee, calleeAt)
  {
    CallShape(c);
    var n := NodeOf(c);
    InsideInPlace(json, tokens, n, 0, owner, at);
    hide InPlace, FieldAt, TextAt, WireKey, PartsInPlace, CallNode, CalleeNode, Render, RenderParts, Size, PartsSize, Count, IsJson, Paired;
    var idAt := FieldOfKey(json, tokens, n, 0, owner, at, ID_KEY, 0);
    var typeAt := FieldOfKey(json, tokens, n, 0, owner, at, TYPE_KEY, 1);
    calleeAt := FieldOfKey(json, tokens, n, 0, owner, at, FUNCTION_WORD, 2);
    TextInPlace(json, tokens, WireString.Escape(c.id), c.id, owner, FieldAt(json, tokens, owner, ID_KEY), idAt);
    TextInPlace(json, tokens, FUNCTION_WORD, FUNCTION_WORD, owner, FieldAt(json, tokens, owner, TYPE_KEY), typeAt);
  }

  lemma CalleeReadBack(json: bytes, tokens: seq<Token>, c: CallText, parent: nat, owner: nat, at: nat)
    requires CallWellFormed(c) && InPlace(json, tokens, CalleeNode(c.name, c.arguments), parent, owner, at)
    ensures owner < |tokens| && tokens[owner].kind.ObjectToken? && tokens[owner].size == 4
    ensures TextAt(json, tokens, FieldAt(json, tokens, owner, NAME_KEY)) == Some(c.name)
    ensures TextAt(json, tokens, FieldAt(json, tokens, owner, ARGUMENTS_KEY)) == Some(c.arguments)
  {
    CalleeShape(c);
    var n := CalleeNode(c.name, c.arguments);
    InsideInPlace(json, tokens, n, parent, owner, at);
    hide InPlace, FieldAt, TextAt, WireKey, PartsInPlace, CalleeNode;
    var nameAt := FieldOfKey(json, tokens, n, parent, owner, at, NAME_KEY, 0);
    var argumentsAt := FieldOfKey(json, tokens, n, parent, owner, at, ARGUMENTS_KEY, 1);
    TextInPlace(json, tokens, WireString.Escape(c.name), c.name, owner, FieldAt(json, tokens, owner, NAME_KEY), nameAt);
    TextInPlace(json, tokens, WireString.Escape(c.arguments), c.arguments, owner, FieldAt(json, tokens, owner, ARGUMENTS_KEY), argumentsAt);
  }

  lemma AttributeCount(first: bool, key: bytes, value: Node, rest: Parts)
    ensures Count(Attribute(first, key, value, rest)) == 2 + Count(rest)
    ensures PartsSize(Attribute(first, key, value, rest)) == 1 + Size(value) + PartsSize(rest)
  {
  }

  /** Three members in a call, two in its function; eleven tokens for a call. */
  lemma CallCount(id: bytes, name: bytes, arguments: bytes)
    ensures var n := CallNode(id, name, arguments); n.Container? && !n.list && Count(n.parts) == 6 && Size(n) == 11
    ensures var n := CalleeNode(name, arguments); n.Container? && !n.list && Count(n.parts) == 4 && Size(n) == 5
  {
    AttributeCount(false, ARGUMENTS_KEY, Escaped(arguments), End);
    AttributeCount(true, NAME_KEY, Escaped(name), ArgumentParts(arguments));
    var callee := CalleeParts(name, arguments);
    AttributeCount(false, FUNCTION_WORD, CalleeNode(name, arguments), End);
    AttributeCount(false, TYPE_KEY, String(FUNCTION_WORD), callee);
    AttributeCount(true, ID_KEY, Escaped(id), TypeParts(callee));
  }

  /** The members of a published call, with the decoded texts. */
  lemma CallShape(c: CallText)
    requires CallWellFormed(c)
    ensures var n := NodeOf(c);
            n.Container? && !n.list && Count(n.parts) == 6 && IsJson(n) && Paired(n.parts)
            && Pairs(n.parts) == [(ID_KEY, Escaped(c.id)), (TYPE_KEY, String(FUNCTION_WORD)), (FUNCTION_WORD, CalleeNode(c.name, c.arguments))]
            && OnlyKey(Pairs(n.parts), ID_KEY, 0) && OnlyKey(Pairs(n.parts), TYPE_KEY, 1) && OnlyKey(Pairs(n.parts), FUNCTION_WORD, 2)
    ensures WireKey(WireString.Escape(c.id)) == Some(c.id) && WireKey(FUNCTION_WORD) == Some(FUNCTION_WORD)
  {
    hide WireKey, CallNode, CalleeNode, OnlyKey, IsJson, Paired, Pairs, Count, WireString.Escape;
    CallCount(c.id, c.name, c.arguments);
    CallIsJson(c.id, c.name, c.arguments);
    Decoded(c.id);
    KeysDecode();
    ThreeKeys(Escaped(c.id), String(FUNCTION_WORD), CalleeNode(c.name, c.arguments));
  }

  /** The members of the function of a published call. */
  lemma CalleeShape(c: CallText)
    requires CallWellFormed(c)
    ensures var n := CalleeNode(c.name, c.arguments);
            n.Container? && !n.list && Count(n.parts) == 4 && IsJson(n) && Paired(n.parts)
            && Pairs(n.parts) == [(NAME_KEY, Escaped(c.name)), (ARGUMENTS_KEY, Escaped(c.arguments))]
            && OnlyKey(Pairs(n.parts), NAME_KEY, 0) && OnlyKey(Pairs(n.parts), ARGUMENTS_KEY, 1)
    ensures WireKey(WireString.Escape(c.name)) == Some(c.name) && WireKey(WireString.Escape(c.arguments)) == Some(c.arguments)
  {
    hide WireKey, CalleeNode, OnlyKey, IsJson, Paired, Pairs, Count, WireString.Escape;
    CallCount(c.id, c.name, c.arguments);
    CalleeIsJson(c.name, c.arguments);
    Decoded(c.name);
    Decoded(c.arguments);
    TwoKeys(Escaped(c.name), Escaped(c.arguments));
  }

  lemma Decoded(s: bytes)
    requires WireString.WellFormed(s)
    ensures WireKey(WireString.Escape(s)) == Some(s)
  {
    WireString.EscapeRoundTrip(s);
  }

  predicate OnlyKey(pairs: seq<(bytes, Node)>, name: bytes, k: nat) {
    forall j :: 0 <= j < |pairs| ==> (WireKey(pairs[j].0) == Some(name) <==> j == k)
  }

  lemma ThreeKeys(a: Node, b: Node, c: Node)
    ensures var pairs := [(ID_KEY, a), (TYPE_KEY, b), (FUNCTION_WORD, c)];
            OnlyKey(pairs, ID_KEY, 0) && OnlyKey(pairs, TYPE_KEY, 1) && OnlyKey(pairs, FUNCTION_WORD, 2)
  {
    KeysDecode();
    KeysDiffer();
    hide WireKey;
    var pairs := [(ID_KEY, a), (TYPE_KEY, b), (FUNCTION_WORD, c)];
    assert pairs[0].0 == ID_KEY && pairs[1].0 == TYPE_KEY && pairs[2].0 == FUNCTION_WORD;
  }

  lemma TwoKeys(a: Node, b: Node)
    ensures var pairs := [(NAME_KEY, a), (ARGUMENTS_KEY, b)];
            OnlyKey(pairs, NAME_KEY, 0) && OnlyKey(pairs, ARGUMENTS_KEY, 1)
  {
    KeysDecode();
    KeysDiffer();
    hide WireKey;
    var pairs := [(NAME_KEY, a), (ARGUMENTS_KEY, b)];
    assert pairs[0].0 == NAME_KEY && pairs[1].0 == ARGUMENTS_KEY;
  }

  // ----- The whole text -----

  lemma {:induction false} NodesOfCalls(log: seq<Delta>, from: nat, count: nat)
    requires from <= count
    ensures |Nodes(CallParts(log, from, count))| == count - from
    ensures forall i :: 0 <= i < count - from ==> Nodes(CallParts(log, from, count))[i] == NodeOf(Pieces(log, count)[from + i])
    decreases count - from
  {
    hide CallNode;
    if from < count { NodesOfCalls(log, from + 1, count); }
  }

  lemma {:induction false} ReadAll(json: bytes, tokens: seq<Token>, items: seq<nat>, calls: seq<CallText>, i: nat)
    requires tokens != [] && items == Children(tokens, 0, 1) && i <= |calls| <= |items|
    requires forall k :: 0 <= k < |calls| ==> ReadCall(json, tokens, items[k]) == Some(calls[k])
    ensures ReadCalls(json, tokens, i) == Some(calls[..i])
    decreases i
  {
    hide ReadCall, Children;
    if i > 0 {
      ReadAll(json, tokens, items, calls, i - 1);
      assert calls[..i] == calls[..i - 1] + [calls[i - 1]];
    }
  }

  /** The calls of a published batch are read back, all of them and in order. */
  lemma CallsReadBack(json: bytes, tokens: seq<Token>, log: seq<Delta>, count: nat)
    requires tokens != [] && count > 0 && InPlace(json, tokens, BatchNode(log, count), -1, 0, 0)
    ensures ReadCalls(json, tokens, count) == Some(Pieces(log, count))
  {
    hide ReadCalls, ReadCall, Children, InPlace, BatchNode, Pieces;
    var items, calls := Children(tokens, 0, 1), Pieces(log, count);
    forall k: nat | k < count ensures k < |items| && ReadCall(json, tokens, items[k]) == Some(calls[k]) {
      OneReadBack(json, tokens, log, count, k);
    }
    OneReadBack(json, tokens, log, count, count - 1);
    ReadAll(json, tokens, items, calls, count);
    assert calls[..count] == calls;
  }

  lemma OneReadBack(json: bytes, tokens: seq<Token>, log: seq<Delta>, count: nat, i: nat)
    requires tokens != [] && i < count && InPlace(json, tokens, BatchNode(log, count), -1, 0, 0)
    ensures var items := Children(tokens, 0, 1); i < |items| && ReadCall(json, tokens, items[i]) == Some(Pieces(log, count)[i])
  {
    hide InPlace, PartsInPlace, ReadCall, CallNode, CallParts, Children, Nodes, Indices, Count, Size, PartsSize, IsJson, Render, RenderParts;
    var n := BatchNode(log, count);
    var parts := CallParts(log, 0, count);
    InsideInPlace(json, tokens, n, -1, 0, 0);
    ChildrenOfContainer(json, tokens, n, -1, 0, 0);
    NodesOfCalls(log, 0, count);
    IndicesMatch(parts, 1);
    var start := PartAt(json, tokens, parts, 0, 1, 1, i);
    CallReadBack(json, tokens, Pieces(log, count)[i], Indices(parts, 1)[i], start);
  }

  lemma AttributeNodes(first: bool, key: bytes, value: Node, rest: Parts)
    ensures Nodes(Attribute(first, key, value, rest)) == [String(key), value] + Nodes(rest)
  {
  }

  lemma LegibleAttribute(first: bool, key: bytes, value: Node, rest: Parts, room: int)
    requires WireKey(key).Some? && Legible(value) && Proper(value, room) && LegibleParts(rest) && ProperParts(rest, room)
    ensures LegibleParts(Attribute(first, key, value, rest)) && ProperParts(Attribute(first, key, value, rest), room)
  {
  }

  predicate PlainKey(key: bytes) { WireKey(key).Some? && KeyName(String(key)) == Some(key) }

  /** An object of two members with plain, different keys. */
  lemma TwoMembers(a: bytes, x: Node, b: bytes, y: Node, room: nat)
    requires PlainKey(a) && PlainKey(b) && a != b && Legible(x) && Legible(y) && Proper(x, room) && Proper(y, room)
    ensures var n := Container(false, Attribute(true, a, x, Attribute(false, b, y, End)), []); Legible(n) && Proper(n, room + 1)
  {
    var tail := Attribute(false, b, y, End);
    var parts := Attribute(true, a, x, tail);
    LegibleAttribute(false, b, y, End, room);
    LegibleAttribute(true, a, x, tail, room);
    AttributeNodes(false, b, y, End);
    AttributeNodes(true, a, x, tail);
    hide KeyName, WireKey, Attribute, Nodes;
    NamesDiffer(Nodes(parts), [a, b]);
  }

  lemma ThreeMembers(a: bytes, x: Node, b: bytes, y: Node, c: bytes, z: Node, room: nat)
    requires PlainKey(a) && PlainKey(b) && PlainKey(c) && a != b && a != c && b != c
    requires Legible(x) && Legible(y) && Legible(z) && Proper(x, room) && Proper(y, room) && Proper(z, room)
    ensures var n := Container(false, Attribute(true, a, x, Attribute(false, b, y, Attribute(false, c, z, End))), []);
            Legible(n) && Proper(n, room + 1)
  {
    var last := Attribute(false, c, z, End);
    var tail := Attribute(false, b, y, last);
    var parts := Attribute(true, a, x, tail);
    LegibleAttribute(false, c, z, End, room);
    LegibleAttribute(false, b, y, last, room);
    LegibleAttribute(true, a, x, tail, room);
    AttributeNodes(false, c, z, End);
    AttributeNodes(false, b, y, last);
    AttributeNodes(true, a, x, tail);
    hide KeyName, WireKey, Attribute, Nodes;
    NamesDiffer(Nodes(parts), [a, b, c]);
  }

  lemma NamesDiffer(nodes: seq<Node>, names: seq<bytes>)
    requires |nodes| == 2 * |names|
    requires forall k :: 0 <= k < |names| ==> KeyName(nodes[2 * k]) == Some(names[k])
    requires forall j, k :: 0 <= j < k < |names| ==> names[j] != names[k]
    ensures UniqueNames(nodes)
  {
    hide KeyName;
    forall j | 0 <= j < |nodes| && j % 2 == 0 ensures KeyName(nodes[j]) == Some(names[j / 2]) { assert j == 2 * (j / 2); }
  }

  lemma PlainKeys()
    ensures PlainKey(ID_KEY) && PlainKey(TYPE_KEY) && PlainKey(FUNCTION_WORD) && PlainKey(NAME_KEY) && PlainKey(ARGUMENTS_KEY)
  {
    hide WireKey, KeyName;
    KeyDecodes(ID_KEY);
    KeyDecodes(TYPE_KEY);
    KeyDecodes(FUNCTION_WORD);
    KeyDecodes(NAME_KEY);
    KeyDecodes(ARGUMENTS_KEY);
  }

  lemma TextLegible(s: bytes, room: nat)
    requires WireKey(s).Some?
    ensures Legible(String(s)) && Proper(String(s), room)
  {
  }

  lemma CallLegible(c: CallText)
    requires CallWellFormed(c)
    ensures Legible(NodeOf(c)) && Proper(NodeOf(c), 2)
  {
    hide WireKey, KeyName, Legible, Proper, PlainKey, WireString.Escape;
    PlainKeys();
    KeysDiffer();
    Decoded(c.id);
    TextLegible(WireString.Escape(c.id), 1);
    KeyDecodes(FUNCTION_WORD);
    TextLegible(FUNCTION_WORD, 1);
    CalleeLegible(c);
    ThreeMembers(ID_KEY, Escaped(c.id), TYPE_KEY, String(FUNCTION_WORD), FUNCTION_WORD, CalleeNode(c.name, c.arguments), 1);
  }

  lemma CalleeLegible(c: CallText)
    requires CallWellFormed(c)
    ensures Legible(CalleeNode(c.name, c.arguments)) && Proper(CalleeNode(c.name, c.arguments), 1)
  {
    hide WireKey, KeyName, Legible, Proper, PlainKey, WireString.Escape;
    PlainKeys();
    KeysDiffer();
    Decoded(c.name);
    Decoded(c.arguments);
    TextLegible(WireString.Escape(c.name), 0);
    TextLegible(WireString.Escape(c.arguments), 0);
    TwoMembers(NAME_KEY, Escaped(c.name), ARGUMENTS_KEY, Escaped(c.arguments), 0);
  }

  lemma {:induction false} BatchLegible(log: seq<Delta>, from: nat, count: nat)
    ensures LegibleParts(CallParts(log, from, count)) && ProperParts(CallParts(log, from, count), DEPTH_MAX - 1)
    ensures PartsSize(CallParts(log, from, count)) == if from < count then 11 * (count - from) else 0
    decreases count - from
  {
    if from < count {
      BatchLegible(log, from + 1, count);
      var c := Pieces(log, count)[from];
      CallLegible(c);
      CallCount(c.id, c.name, c.arguments);
      hide CallNode, Legible, Proper;
      RoomGrows(NodeOf(c), 2, DEPTH_MAX - 1);
    }
  }

  lemma {:induction false} RoomGrows(n: Node, less: int, more: int)
    requires Proper(n, less) && less <= more
    ensures Proper(n, more)
    decreases n
  {
    if n.Container? { RoomGrowsParts(n.parts, less - 1, more - 1); }
  }

  lemma {:induction false} RoomGrowsParts(parts: Parts, less: int, more: int)
    requires ProperParts(parts, less) && less <= more
    ensures ProperParts(parts, more)
    decreases parts
  {
    if parts.Then? {
      RoomGrows(parts.first, less, more);
      RoomGrowsParts(parts.rest, less, more);
    }
  }

  // ----- How long the text is -----

  function TextLength(c: CallText): nat { |c.id| + |c.name| + |c.arguments| }

  function AllText(calls: seq<CallText>): nat {
    if calls == [] then 0 else AllText(calls[..|calls| - 1]) + TextLength(calls[|calls| - 1])
  }

  lemma {:induction false} EscapedBytes(s: bytes)
    ensures |WireString.Escape(s)| <= 6 * |s| && Visible(WireString.Escape(s))
  {
    if s != [] {
      EscapedBytes(s[1..]);
      VisibleJoin(WireString.EscapeByte(s[0]), WireString.Escape(s[1..]));
    }
  }

  /** No control bytes. */
  predicate Visible(s: bytes) { forall i :: 0 <= i < |s| ==> s[i] >= 0x20 }

  lemma VisibleJoin(a: bytes, b: bytes)
    requires Visible(a) && Visible(b)
    ensures Visible(a + b)
  {
  }

  lemma AttributeBytesShort(first: bool, key: bytes, value: bytes)
    requires Visible(key) && Visible(value)
    ensures Visible(AttributeBytes(first, key, value)) && |AttributeBytes(first, key, value)| <= 4 + |key| + |value|
  {
  }

  lemma QuotedShort(s: bytes)
    ensures Visible(Render(Escaped(s))) && |Render(Escaped(s))| <= 2 + 6 * |s|
  {
    EscapedBytes(s);
    VisibleJoin([QUOTE], WireString.Escape(s));
    VisibleJoin([QUOTE] + WireString.Escape(s), [QUOTE]);
  }

  lemma PlainKeysShort()
    ensures Visible(ID_KEY) && Visible(TYPE_KEY) && Visible(FUNCTION_WORD) && Visible(NAME_KEY) && Visible(ARGUMENTS_KEY)
    ensures |ID_KEY| + |TYPE_KEY| + |FUNCTION_WORD| + |FUNCTION_WORD| + |NAME_KEY| + |ARGUMENTS_KEY| <= 35
  {
  }

  lemma CalleeShort(name: bytes, arguments: bytes)
    ensures Visible(Render(CalleeNode(name, arguments)))
    ensures |Render(CalleeNode(name, arguments))| <= 14 + |NAME_KEY| + |ARGUMENTS_KEY| + 6 * (|name| + |arguments|)
  {
    PlainKeysShort();
    CalleeText(name, arguments);
    QuotedShort(name);
    QuotedShort(arguments);
    var a, b := AttributeBytes(true, NAME_KEY, Render(Escaped(name))), AttributeBytes(false, ARGUMENTS_KEY, Render(Escaped(arguments)));
    AttributeBytesShort(true, NAME_KEY, Render(Escaped(name)));
    AttributeBytesShort(false, ARGUMENTS_KEY, Render(Escaped(arguments)));
    hide Render, AttributeBytes, CalleeNode;
    VisibleJoin([OPEN_OBJECT], a);
    VisibleJoin([OPEN_OBJECT] + a, b);
    VisibleJoin([OPEN_OBJECT] + a + b, [CLOSE_OBJECT]);
  }

  lemma CallShort(c: CallText)
    ensures Visible(Render(NodeOf(c))) && |Render(NodeOf(c))| <= 100 + 6 * TextLength(c)
  {
    PlainKeysShort();
    CallTextRenders(c.id, c.name, c.arguments);
    QuotedShort(c.id);
    CalleeShort(c.name, c.arguments);
    var callee := Render(CalleeNode(c.name, c.arguments));
    var x := AttributeBytes(true, ID_KEY, Render(Escaped(c.id)));
    var y := AttributeBytes(false, TYPE_KEY, Quoted(FUNCTION_WORD));
    var z := AttributeBytes(false, FUNCTION_WORD, callee);
    assert Visible(Quoted(FUNCTION_WORD)) && |Quoted(FUNCTION_WORD)| == |FUNCTION_WORD| + 2;
    AttributeBytesShort(true, ID_KEY, Render(Escaped(c.id)));
    AttributeBytesShort(false, TYPE_KEY, Quoted(FUNCTION_WORD));
    AttributeBytesShort(false, FUNCTION_WORD, callee);
    hide Render, AttributeBytes, CallNode, CalleeNode, Quoted, Visible;
    FourVisible([OPEN_OBJECT], x, y, z, [CLOSE_OBJECT]);
  }

  lemma FourVisible(a: bytes, b: bytes, c: bytes, d: bytes, e: bytes)
    requires Visible(b) && Visible(c) && Visible(d) && a == [OPEN_OBJECT] && e == [CLOSE_OBJECT]
    ensures Visible(a + b + c + d + e) && |a + b + c + d + e| == |b| + |c| + |d| + 2
  {
    VisibleJoin(a, b);
    VisibleJoin(a + b, c);
    VisibleJoin(a + b + c, d);
    VisibleJoin(a + b + c + d, e);
  }

  lemma {:induction false} CallsShort(log: seq<Delta>, from: nat, count: nat)
    requires from <= count
    ensures var text := RenderParts(CallParts(log, from, count));
            Visible(text) && |text| + 6 * AllText(Pieces(log, count)[..from]) <= 101 * (count - from) + 6 * AllText(Pieces(log, count))
    decreases count - from
  {
    assert Visible([]);
    hide Render, CallNode, Visible, TextLength, AllText;
    var calls := Pieces(log, count);
    if from < count {
      var c := calls[from];
      CallsShort(log, from + 1, count);
      CallShort(c);
      MoreText(calls, from);
      PartShort(from == 0, NodeOf(c), CallParts(log, from + 1, count));
    } else {
      assert calls[..from] == calls;
    }
  }

  lemma MoreText(calls: seq<CallText>, i: nat)
    requires i < |calls|
    ensures AllText(calls[..i + 1]) == AllText(calls[..i]) + TextLength(calls[i])
  {
    assert calls[..i + 1][..i] == calls[..i];
  }

  lemma PartShort(first: bool, n: Node, rest: Parts)
    requires Visible(Render(n)) && Visible(RenderParts(rest))
    ensures var text := RenderParts(Then(if first then [] else [COMMA], n, rest));
            Visible(text) && |text| <= 1 + |Render(n)| + |RenderParts(rest)|
  {
    var comma: bytes := if first then [] else [COMMA];
    VisibleJoin(comma, Render(n));
    VisibleJoin(comma + Render(n), RenderParts(rest));
  }

  lemma BatchShort(log: seq<Delta>, count: nat)
    ensures var text := Render(BatchNode(log, count));
            Visible(text) && |text| <= 2 + 101 * count + 6 * AllText(Pieces(log, count))
  {
    CallsShort(log, 0, count);
    var parts := RenderParts(CallParts(log, 0, count));
    assert Pieces(log, count)[..0] == [];
    assert Render(BatchNode(log, count)) == [OPEN_ARRAY] + parts + [CLOSE_ARRAY];
    VisibleJoin([OPEN_ARRAY], parts);
    VisibleJoin([OPEN_ARRAY] + parts, [CLOSE_ARRAY]);
  }

  // ----- All that is collected was received -----

  lemma {:induction false} TextsGrow(log: seq<Delta>, d: Delta, count: nat)
    ensures AllText(Pieces(log + [d], count))
            <= AllText(Pieces(log, count)) + if d.Delta? && d.index.Some? && d.index.value < count then Weight(d) else 0
    decreases count
  {
    if count > 0 {
      TextsGrow(log, d, count - 1);
      assert Pieces(log, count)[..count - 1] == Pieces(log, count - 1);
      assert Pieces(log + [d], count)[..count - 1] == Pieces(log + [d], count - 1);
      CollectedStep(log, d, count - 1, Id);
      CollectedStep(log, d, count - 1, Name);
      CollectedStep(log, d, count - 1, Arguments);
    }
  }

  lemma {:induction false} NothingCollected(count: nat)
    ensures AllText(Pieces([], count)) == 0
    decreases count
  {
    if count > 0 {
      NothingCollected(count - 1);
      assert Pieces([], count)[..count - 1] == Pieces([], count - 1);
    }
  }

  /** The text of all calls together is no more than what the deltas carried. */
  lemma {:induction false} TextsAreReceived(log: seq<Delta>, count: nat)
    ensures AllText(Pieces(log, count)) <= Total(log)
    decreases |log|
  {
    if log == [] {
      NothingCollected(count);
    } else {
      var init, d := log[..|log| - 1], log[|log| - 1];
      TextsAreReceived(init, count);
      TextsGrow(init, d, count);
      assert log == init + [d];
    }
  }

  lemma {:induction false} ArgumentsAreText(calls: seq<CallText>, i: nat)
    requires i <= |calls|
    ensures AllArguments(calls[..i]) <= AllText(calls[..i]) <= AllText(calls)
    decreases |calls|
  {
    if i < |calls| {
      var init := calls[..|calls| - 1];
      ArgumentsAreText(init, i);
      assert init[..i] == calls[..i];
    } else if calls != [] {
      var init := calls[..|calls| - 1];
      ArgumentsAreText(init, |init|);
      assert init[..|init|] == init && calls[..i] == calls;
    }
  }

  // ----- The published text is read back -----

  /** An array without blanks around it is a document. */
  lemma ArrayIsDocument(parts: Parts)
    requires Elements(parts, true) && LegibleParts(parts) && ProperParts(parts, DEPTH_MAX - 1)
    ensures var n := Container(true, parts, []);
            Complete(Render(n), OPEN_ARRAY, n, [], []) && Legible(n) && Size(n) == 1 + PartsSize(parts)
  {
    hide Elements, LegibleParts, ProperParts, RenderParts, PartsSize;
    var text := Render(Container(true, parts, []));
    assert text == [OPEN_ARRAY] + RenderParts(parts) + [] + [CLOSE_ARRAY];
    assert [] + text + [] == text;
  }

  lemma BatchIsDocument(log: seq<Delta>, count: nat)
    requires count > 0
    ensures var n := BatchNode(log, count);
            Complete(Render(n), OPEN_ARRAY, n, [], []) && Legible(n) && Size(n) == 1 + 11 * count
  {
    hide Complete, Legible, LegibleParts, ProperParts, Render, CallParts, PartsSize, Size, Elements;
    BatchLegible(log, 0, count);
    CallsAreElements(log, 0, count);
    ArrayIsDocument(CallParts(log, 0, count));
  }

  lemma VisibleHasNoFeeds(s: bytes)
    requires Visible(s)
    ensures NoFeeds(s)
  {
  }

  /** The runtime opens every batch the host can publish. */
  lemma BatchOpens(log: seq<Delta>, count: nat)
    requires 1 <= count <= CALLS_MAX && Total(log) <= BYTES_MAX
    ensures RemoteOpen(Render(BatchNode(log, count)), OPEN_ARRAY) == Some(Preorder(BatchNode(log, count), -1, 0, 0))
  {
    var n := BatchNode(log, count);
    BatchShort(log, count);
    TextsAreReceived(log, count);
    BatchIsDocument(log, count);
    hide OpenText, Legible, Complete, BatchNode, Preorder, Render, Size, Total, AllText, Pieces, Visible, NoFeeds;
    VisibleHasNoFeeds(Render(n));
    OpenDocument(Render(n), OPEN_ARRAY, TEXT_MAX, TOKENS_MAX, n, [], []);
  }

  /** The limits of the runtime, the ids of its session and the schemas of its tools. */
  predicate Welcome(calls: seq<CallText>, known: seq<bytes>, fits: CallText -> bool) {
    && |known| + |calls| <= IDS_MAX
    && forall i :: 0 <= i < |calls| ==> |calls[i].name| <= NAME_MAX && calls[i].id !in known && fits(calls[i])
  }

  /** What the host guarantees of a batch it publishes. */
  predicate Publishable(calls: seq<CallText>) {
    && 1 <= |calls| <= CALLS_MAX && AllText(calls) <= BYTES_MAX
    && (forall i :: 0 <= i < |calls| ==>
          0 < |calls[i].id| < FIXED_MAX && 0 < |calls[i].name| < FIXED_MAX && |calls[i].arguments| <= ARGUMENT_MAX)
    && (forall i, j :: 0 <= j < i < |calls| ==> calls[j].id != calls[i].id)
  }

  lemma WelcomeIsAdmissible(calls: seq<CallText>, known: seq<bytes>, fits: CallText -> bool)
    requires Publishable(calls) && |known| + |calls| <= IDS_MAX
    ensures Admissible(calls, known, fits) <==> Welcome(calls, known, fits)
  {
    forall i: nat | i < |calls|
      ensures CallOk(calls, i, known, fits) <==> |calls[i].name| <= NAME_MAX && calls[i].id !in known && fits(calls[i])
    {
      ArgumentsAreText(calls, i + 1);
    }
  }

  /** Reading a published batch gives the pieces back, or nothing if they are not welcome. */
  lemma BatchIsRead(log: seq<Delta>, count: nat, known: seq<bytes>, fits: CallText -> bool)
    requires Publishable(Pieces(log, count)) && Total(log) <= BYTES_MAX
    ensures GroupOf(Render(BatchNode(log, count)), known, fits)
            == if Welcome(Pieces(log, count), known, fits) then Some(Pieces(log, count)) else None
  {
    var n, calls := BatchNode(log, count), Pieces(log, count);
    var text, tokens := Render(n), Preorder(n, -1, 0, 0);
    BatchOpens(log, count);
    BatchIsJson(log, count);
    RootInPlace(n, [], []);
    assert [] + text + [] == text;
    assert tokens[0].size == count;
    hide RemoteOpen, ReadCalls, Admissible, Welcome, InPlace, BatchNode, Render, Preorder, Pieces;
    CallsReadBack(text, tokens, log, count);
    if |known| + count <= IDS_MAX {
      WelcomeIsAdmissible(calls, known, fits);
    } else {
      TooManyIds(calls, known, fits);
    }
  }

  lemma TooManyIds(calls: seq<CallText>, known: seq<bytes>, fits: CallText -> bool)
    requires |known| + |calls| > IDS_MAX
    ensures !Welcome(calls, known, fits)
  {
  }

  /** The slots hold what was received, after every line. */
  lemma {:induction false} TakenAccumulates(input: seq<Arrival>)
    requires Taken(input).Some?
    ensures var s := Taken(input).value; AllAccumulated(s.calls, s.log) && s.used == Total(s.log) <= BYTES_MAX
    decreases |input|
  {
    if input == [] {
      NothingYet();
    } else {
      var init, a := input[..|input| - 1], input[|input| - 1];
      TakenAccumulates(init);
      var s := Taken(init).value;
      hide AllAccumulated, Total, Absorb, AbsorbAll, LineOk;
      if !s.done { EntriesAccumulate(s.calls, s.used, EntriesOf(a.line), {}, s.log); }
    }
  }

  lemma NothingYet()
    ensures AllAccumulated(NoCalls(), []) && Total([]) == 0
  {
  }

  lemma {:induction false} EntriesAccumulate(calls: seq<Call>, used: nat, entries: seq<Delta>, taken: set<nat>, log: seq<Delta>)
    requires AllAccumulated(calls, log) && used == Total(log) <= BYTES_MAX && AbsorbAll(calls, used, entries, taken).Some?
    ensures var end := AbsorbAll(calls, used, entries, taken).value;
            AllAccumulated(end.0, log + entries) && end.1 == Total(log + entries) <= BYTES_MAX
    decreases |entries|
  {
    assert |calls| == CALLS_MAX;
    hide AllAccumulated, Total, Absorb, AbsorbAll, DeltaOk;
    if entries == [] {
      NothingAbsorbed(calls, used, taken);
      assert log + entries == log;
    } else {
      var d := entries[0];
      var k, next := FirstAbsorbed(calls, used, entries, taken);
      EntryAccumulates(calls, used, d, log);
      EntriesAccumulate(calls[k := next.0], next.1, entries[1..], taken + {k}, log + [d]);
      MoveOne(log, entries);
    }
  }

  lemma MoveOne<T>(a: seq<T>, b: seq<T>)
    requires b != []
    ensures a + [b[0]] + b[1..] == a + b
  {
  }

  lemma NothingAbsorbed(calls: seq<Call>, used: nat, taken: set<nat>)
    requires |calls| == CALLS_MAX && used <= BYTES_MAX
    ensures AbsorbAll(calls, used, [], taken) == Some((calls, used))
  {
  }

  lemma FirstAbsorbed(calls: seq<Call>, used: nat, entries: seq<Delta>, taken: set<nat>) returns (k: nat, next: (Call, nat))
    requires |calls| == CALLS_MAX && used <= BYTES_MAX && entries != [] && AbsorbAll(calls, used, entries, taken).Some?
    ensures var d := entries[0];
            && DeltaOk(d) && d.index == Some(k) && k < CALLS_MAX && next.1 <= BYTES_MAX && Absorb(calls[k], d, used) == Some(next)
            && AbsorbAll(calls, used, entries, taken) == AbsorbAll(calls[k := next.0], next.1, entries[1..], taken + {k})
  {
    AbsorbFirst(calls, used, entries, taken);
    k := entries[0].index.value;
    next := Absorb(calls[k], entries[0], used).value;
  }

  lemma PublishedIsPublishable(input: seq<Arrival>, count: nat, valid: bytes -> bool)
    requires Publishes(Taken(input), count, valid)
    ensures var log := Taken(input).value.log; Publishable(Pieces(log, count)) && Total(log) <= BYTES_MAX
  {
    TakenAccumulates(input);
    var s := Taken(input).value;
    TextsAreReceived(s.log, count);
    forall i: nat | i < count
      ensures 0 < |Collected(s.log, i, Id)| < FIXED_MAX && 0 < |Collected(s.log, i, Name)| < FIXED_MAX
      ensures |Collected(s.log, i, Arguments)| <= ARGUMENT_MAX
    {
      assert Whole(s.log, i, valid) && Accumulated(s.calls[i], s.log, i);
      assert PartOf(s.calls[i], Id) == Collected(s.log, i, Id) && PartOf(s.calls[i], Name) == Collected(s.log, i, Name);
      assert PartOf(s.calls[i], Arguments) == Collected(s.log, i, Arguments);
    }
    forall i: nat, j: nat | j < i < count ensures Collected(s.log, j, Id) != Collected(s.log, i, Id) { assert IdIsNew(s.log, i); }
  }

  /** What the host publishes the runtime reads back, piece for piece; it refuses the batch
      exactly when a name is longer than 127 bytes, an id is known, or a call fits no tool. */
  lemma PublishedIsReadBack(input: seq<Arrival>, count: nat, valid: bytes -> bool, known: seq<bytes>, fits: CallText -> bool)
    requires Publishes(Taken(input), count, valid)
    ensures var calls := Pieces(Taken(input).value.log, count);
            GroupOf(Render(BatchNode(Taken(input).value.log, count)), known, fits) == if Welcome(calls, known, fits) then Some(calls) else None
  {
    hide Taken, Publishable, Welcome, GroupOf;
    PublishedIsPublishable(input, count, valid);
    BatchIsRead(Taken(input).value.log, count, known, fits);
  }

  /** From the stream of deltas to the group the runtime admits. */
  method HandOver(input: seq<Arrival>, valid: bytes -> bool, known: seq<bytes>, fits: CallText -> bool)
    returns (group: Option<seq<CallText>>)
    ensures group.Some? <==> exists count: nat ::
              Publishes(Taken(input), count, valid) && Welcome(Pieces(Taken(input).value.log, count), known, fits)
    ensures group.Some? ==> forall count: nat :: Counted(Taken(input).value.log, count) ==> group.value == Pieces(Taken(input).value.log, count)
  {
    var completion := Transfer(input, valid, true);
    if !completion.Batch? { return None; }
    ghost var count: nat :| Publishes(Taken(input), count, valid);
    PublishedIsReadBack(input, count, valid, known, fits);
    group := PrepareGroup(completion.text, known, fits);
    ghost var log := Taken(input).value.log;
    forall other: nat | Counted(log, other) ensures other == count { CountedOnce(log, other, count); }
  }

  // ----- Arguments -----

  const LINE_MAX: nat := 2 * 1024 * 1024

  /** The host's test of a call's arguments. */
  predicate ArgumentsOpen(arguments: bytes) { OpenText(arguments, OPEN_OBJECT, LINE_MAX, TOKENS_MAX).Some? }

  /** Such arguments are a complete, legible JSON object, and the runtime opens them again
      unless they hold a form feed or a vertical tab between tokens. */
  lemma OpenedArguments(arguments: bytes)
    requires ArgumentsOpen(arguments)
    ensures exists n, before, after :: Complete(arguments, OPEN_OBJECT, n, before, after) && Size(n) <= TOKENS_MAX && Legible(n)
    ensures RemoteOpen(arguments, OPEN_OBJECT).Some? <==> 0x0b !in arguments && 0x0c !in arguments
  {
    hide OpenText, Legible, Complete;
    OpenExactly(arguments, OPEN_OBJECT, LINE_MAX, TOKENS_MAX);
    OpenExactly(arguments, OPEN_OBJECT, TEXT_MAX, TOKENS_MAX);
  }

  /** So are the arguments of every published call. */
  lemma ArgumentsAreObjects(log: seq<Delta>, count: nat, i: nat)
    requires BatchReady(log, count, ArgumentsOpen) && i < count
    ensures ArgumentsOpen(Collected(log, i, Arguments))
  {
    assert Whole(log, i, ArgumentsOpen);
  }

  // ----- A name the host publishes and the runtime refuses -----

  const EMPTY_OBJECT: bytes := [OPEN_OBJECT, CLOSE_OBJECT]

  function OneDelta(name: bytes): Delta {
    Delta(Some(0), Raw(FUNCTION_WORD), Raw(ID_KEY), Callee(Raw(name), Raw(EMPTY_OBJECT)))
  }

  /** One call in one chunk, then the sentinel. */
  function OneCall(name: bytes): seq<Arrival> {
    [Arrival(Chunk(2, Entries([OneDelta(name)]), Missing, Missing, Raw(TOOL_CALLS)), true), Arrival(Done(true), true)]
  }

  lemma OneDeltaTexts(name: bytes)
    requires Simple(name)
    ensures var d := OneDelta(name);
            && TextOf(d.kind) == FUNCTION_WORD && Readable(d.kind) && Readable(d.id) && Readable(d.callee.name) && Readable(d.callee.arguments)
            && Piece(d, Id) == ID_KEY && Piece(d, Name) == name && Piece(d, Arguments) == EMPTY_OBJECT
    ensures Readable(Raw(TOOL_CALLS)) && TextOf(Raw(TOOL_CALLS)) == TOOL_CALLS
  {
    hide TextOf, Readable, Simple;
    SimpleText(FUNCTION_WORD);
    SimpleText(ID_KEY);
    SimpleText(name);
    SimpleText(EMPTY_OBJECT);
    SimpleText(TOOL_CALLS);
  }

  lemma SimpleText(s: bytes)
    requires Simple(s)
    ensures Readable(Raw(s)) && TextOf(Raw(s)) == s
  {
    SimpleDecodes(s);
  }

  lemma CollectedOnce(d: Delta, part: Part)
    requires Concerns(d, 0)
    ensures Collected([d], 0, part) == Piece(d, part)
  {
    assert [] + [d] == [d];
    CollectedStep([], d, 0, part);
    assert Collected([], 0, part) == [];
  }

  lemma OneIsWhole(d: Delta, valid: bytes -> bool)
    requires Concerns(d, 0) && !d.kind.Missing? && d.callee.Callee? && !d.callee.arguments.Missing?
    requires Piece(d, Id) != [] && Piece(d, Name) != [] && valid(Piece(d, Arguments))
    ensures Counted([d], 1) && BatchReady([d], 1, valid)
  {
    hide Piece, Collected;
    CollectedOnce(d, Id);
    CollectedOnce(d, Name);
    CollectedOnce(d, Arguments);
    assert d in [d];
    assert Whole([d], 0, valid);
  }

  lemma AppendNew(f: Field, text: bytes, cap: nat, used: nat)
    requires Readable(f) && !f.Missing? && TextOf(f) == text && |text| < cap && used + |text| <= BYTES_MAX
    ensures Append([], f, cap, used) == Some((text, used + |text|))
  {
    assert [] + text == text;
  }

  /** The first entry of a call fills its empty slot. */
  lemma NewEntry(d: Delta, id: bytes, name: bytes, arguments: bytes)
    requires d.Delta? && !d.kind.Missing? && Readable(d.kind) && TextOf(d.kind) == FUNCTION_WORD
    requires !d.id.Missing? && Readable(d.id) && TextOf(d.id) == id && d.callee.Callee?
    requires !d.callee.name.Missing? && Readable(d.callee.name) && TextOf(d.callee.name) == name
    requires !d.callee.arguments.Missing? && Readable(d.callee.arguments) && TextOf(d.callee.arguments) == arguments
    requires |id| < FIXED_MAX && |name| < FIXED_MAX && |arguments| <= ARGUMENT_MAX && |id| + |name| + |arguments| <= BYTES_MAX
    ensures Absorb(EMPTY, d, 0) == Some((Call(true, true, id, name, Some(arguments)), |id| + |name| + |arguments|))
  {
    hide TextOf, Readable, Append;
    AppendNew(d.id, id, FIXED_MAX, 0);
    AppendNew(d.callee.name, name, FIXED_MAX, |id|);
    AppendNew(d.callee.arguments, arguments, ARGUMENT_MAX + 1, |id| + |name|);
  }

  lemma OneDeltaAbsorbed(name: bytes)
    requires Simple(name) && 0 < |name| < FIXED_MAX
    ensures var call := Call(true, true, ID_KEY, name, Some(EMPTY_OBJECT));
            AbsorbAll(NoCalls(), 0, [OneDelta(name)], {}) == Some((NoCalls()[0 := call], 4 + |name|))
  {
    hide Absorb, NoCalls, AbsorbAll, TextOf, Readable;
    OneDeltaTexts(name);
    NewEntry(OneDelta(name), ID_KEY, name, EMPTY_OBJECT);
    var d, next := OneDelta(name), Absorb(EMPTY, OneDelta(name), 0).value;
    AbsorbFirst(NoCalls(), 0, [d], {});
    assert [d][1..] == [];
    NothingAbsorbed(NoCalls()[0 := next.0], next.1, {} + {0});
  }

  /** One entry and a finish reason in the first chunk of a stream. */
  lemma FirstLine(d: Delta, finish: bytes, calls: seq<Call>, used: nat)
    requires used <= BYTES_MAX && |calls| == CALLS_MAX && AbsorbAll(NoCalls(), 0, [d], {}) == Some((calls, used))
    requires Readable(Raw(finish)) && TextOf(Raw(finish)) == finish && 0 < |finish| < REASON_MAX
    ensures OneLine(Some(FRESH), Arrival(Chunk(2, Entries([d]), Missing, Missing, Raw(finish)), true))
            == Some(Standing(calls, used, finish, false, [d]))
  {
    assert Readable(Missing) && TextOf(Missing) == [];
    hide TextOf, Readable, AbsorbAll, NoCalls;
    assert [] + [d] == [d];
  }

  lemma LastLine(s: Standing)
    requires StandingOk(s) && !s.done
    ensures OneLine(Some(s), Arrival(Done(true), true)) == Some(s.(done := true))
  {
    NothingToAbsorb(s.calls, s.used);
    assert s.log + [] == s.log;
  }

  lemma OneCallTaken(name: bytes)
    requires Simple(name) && 0 < |name| < FIXED_MAX
    ensures var s := Taken(OneCall(name));
            s.Some? && s.value.done && s.value.reason == TOOL_CALLS && s.value.log == [OneDelta(name)]
  {
    hide Taken, OneLine, OneDelta, AbsorbAll, TextOf, Readable;
    TwoLines(OneCall(name)[0], OneCall(name)[1]);
    OneDeltaTexts(name);
    OneDeltaAbsorbed(name);
    FirstLine(OneDelta(name), TOOL_CALLS, AbsorbAll(NoCalls(), 0, [OneDelta(name)], {}).value.0, 4 + |name|);
    LastLine(OneLine(Some(FRESH), OneCall(name)[0]).value);
  }

  lemma TwoLines(first: Arrival, last: Arrival)
    ensures Taken([first, last]) == OneLine(OneLine(Some(FRESH), first), last)
  {
    EntriesStep([], first);
    EntriesStep([first], last);
    assert Taken([]) == Some(FRESH) && [] + [first] == [first] && [first] + [last] == [first, last];
  }

  lemma OneCallPublishes(name: bytes, valid: bytes -> bool)
    requires Simple(name) && 0 < |name| < FIXED_MAX && valid(EMPTY_OBJECT)
    ensures Publishes(Taken(OneCall(name)), 1, valid)
    ensures Pieces(Taken(OneCall(name)).value.log, 1) == [CallText(ID_KEY, name, EMPTY_OBJECT)]
  {
    OneCallTaken(name);
    OneDeltaTexts(name);
    var d := OneDelta(name);
    hide Taken, TextOf, Readable, Piece, Collected, BatchReady, Counted;
    CollectedOnce(d, Id);
    CollectedOnce(d, Name);
    CollectedOnce(d, Arguments);
    OneIsWhole(d, valid);
  }

  lemma EmptyObjectOpens()
    ensures ArgumentsOpen(EMPTY_OBJECT)
  {
    var n := Container(false, End, []);
    assert Render(n) == EMPTY_OBJECT && [] + EMPTY_OBJECT + [] == EMPTY_OBJECT;
    assert Complete(EMPTY_OBJECT, OPEN_OBJECT, n, [], []) && Size(n) == 1 && Legible(n);
    hide OpenText, Complete, Legible, Size, Preorder;
    OpenDocument(EMPTY_OBJECT, OPEN_OBJECT, LINE_MAX, TOKENS_MAX, n, [], []);
  }

  /** The host keeps names of up to 128 bytes, the runtime only 127: a batch with such a name
      is published and refused as a whole. */
  lemma LongNameIsRefused(name: bytes, known: seq<bytes>, fits: CallText -> bool)
    requires Simple(name) && |name| == NAME_MAX + 1
    ensures Publishes(Taken(OneCall(name)), 1, ArgumentsOpen)
    ensures GroupOf(Render(BatchNode(Taken(OneCall(name)).value.log, 1)), known, fits) == None
  {
    hide GroupOf, Taken, BatchReady, Counted, Pieces, BatchNode, ArgumentsOpen;
    EmptyObjectOpens();
    OneCallPublishes(name, ArgumentsOpen);
    PublishedIsReadBack(OneCall(name), 1, ArgumentsOpen, known, fits);
    assert Pieces(Taken(OneCall(name)).value.log, 1)[0].name == name;
  }
}
