/** Looking up a member of an object in a token array.

    The loop only sees indices and parents.  On the tokens of a document it finds exactly
    a top-level member of the object in question, never anything nested. */
module JsonLookup {
  import opened Prelude
  import WireString
  import opened JsonTokens

  // ----- The members of an object -----

  /** Keys and values alternate. */
  predicate Paired(parts: Parts) {
    parts.Then? ==>
      && parts.first.String? && RawOk(parts.first.raw)
      && parts.rest.Then? && IsJson(parts.rest.first) && Paired(parts.rest.rest)
  }

  lemma {:induction false} MembersPaired(parts: Parts, first: bool)
    requires Members(parts, first)
    ensures Paired(parts)
  {
    if parts.Then? { MembersPaired(parts.rest.rest, false); }
  }

  /** Keys, by their raw text, with their values. */
  function Pairs(parts: Parts): seq<(bytes, Node)>
    requires Paired(parts)
  {
    match parts
    case End => []
    case Then(_, key, rest) => [(key.raw, rest.first)] + Pairs(rest.rest)
  }

  /** The index of the k-th value's token, when the first key's token has index `base`. */
  function ValueIndex(parts: Parts, k: nat, base: nat): nat
    requires Paired(parts) && k < |Pairs(parts)|
  {
    if k == 0 then base + 1 else ValueIndex(parts.rest.rest, k - 1, base + 1 + Size(parts.rest.first))
  }

  // ----- Tokens in place -----

  predicate Holds(tokens: seq<Token>, base: nat, sub: seq<Token>) {
    base + |sub| <= |tokens| && forall i :: 0 <= i < |sub| ==> tokens[base + i] == sub[i]
  }

  lemma HoldsSplit(tokens: seq<Token>, base: nat, a: seq<Token>, b: seq<Token>)
    requires Holds(tokens, base, a + b)
    ensures Holds(tokens, base, a) && Holds(tokens, base + |a|, b)
  {
    forall i | 0 <= i < |a| ensures tokens[base + i] == a[i] { assert a[i] == (a + b)[i]; }
    forall i | 0 <= i < |b| ensures tokens[base + |a| + i] == b[i] { assert b[i] == (a + b)[|a| + i]; }
  }

  lemma HoldsAt(tokens: seq<Token>, base: nat, sub: seq<Token>, k: nat)
    requires Holds(tokens, base, sub) && k < |sub|
    ensures tokens[base + k] == sub[k]
  {
  }

  /** The tokens of a node start inside its text. */
  predicate Within(tokens: seq<Token>, from: int, to: int) {
    forall k :: 0 <= k < |tokens| ==> from <= tokens[k].start < to
  }

  lemma {:induction false} PreorderWithin(n: Node, parent: int, base: nat, at: nat)
    requires IsJson(n) && -1 <= parent < base as int
    ensures Within(Preorder(n, parent, base, at), at, at + |Render(n)|)
    decreases n
  {
    if n.Container? {
      if n.list { ElementsScannable(n.parts, true); } else { MembersScannable(n.parts, true); }
      PartsWithin(n.parts, base, base + 1, at + 1);
    }
  }

  lemma {:induction false} PartsWithin(parts: Parts, parent: int, base: nat, at: nat)
    requires Scannable(parts) && -1 <= parent < base as int
    ensures Within(PreorderParts(parts, parent, base, at), at, at + |RenderParts(parts)|)
    decreases parts
  {
    if parts.Then? {
      PreorderWithin(parts.first, parent, base, at + |parts.filler|);
      PartsWithin(parts.rest, parent, base + Size(parts.first), at + |parts.filler| + |Render(parts.first)|);
    }
  }

  // ----- model_rpc_field -----

  function RawText(json: bytes, t: Token): bytes {
    if 0 <= t.start <= t.end <= |json| then json[t.start..t.end] else []
  }

  /** The scan from token `i` on, `child` children of the object seen so far. */
  function FieldFrom(json: bytes, tokens: seq<Token>, owner: nat, wanted: bytes -> bool, i: nat, child: nat): int
    requires owner < |tokens|
    decreases |tokens| - i
  {
    if i >= |tokens| || tokens[i].start >= tokens[owner].end then -1
    else if tokens[i].parent != owner then FieldFrom(json, tokens, owner, wanted, i + 1, child)
    else if child % 2 == 1 then FieldFrom(json, tokens, owner, wanted, i + 1, child + 1)
    else if wanted(RawText(json, tokens[i])) then i + 1
    else FieldFrom(json, tokens, owner, wanted, i + 1, child + 1)
  }

  /** A key whose decoded text is the name. */
  function Named(name: bytes): bytes -> bool { raw => WireKey(raw) == Some(name) }

  lemma NamedKeys(name: bytes, raw: bytes)
    ensures Named(name)(raw) <==> WireString.DecodeContent(raw) == Some(name)
  {
  }

  method Field(json: bytes, tokens: seq<Token>, owner: int, name: bytes) returns (found: int)
    ensures if 0 <= owner < |tokens| && tokens[owner].kind.ObjectToken?
            then found == FieldFrom(json, tokens, owner, Named(name), owner + 1, 0) else found == -1
  {
    hide RawText, Named;
    if owner < 0 || owner >= |tokens| || !tokens[owner].kind.ObjectToken? { return -1; }
    var child: nat := 0;
    var i: nat := owner + 1;
    var wanted := Named(name);
    ghost var answer := FieldFrom(json, tokens, owner, wanted, owner + 1, 0);
    while i < |tokens| && tokens[i].start < tokens[owner].end
      invariant FieldFrom(json, tokens, owner, wanted, i, child) == answer
      decreases |tokens| - i
    {
      if tokens[i].parent == owner {
        child := child + 1;
        if child % 2 == 1 && wanted(RawText(json, tokens[i])) { return i + 1; }
      }
      i := i + 1;
    }
    return -1;
  }

  /** A key in the document's terms. */
  function WireKey(raw: bytes): Option<bytes> { WireString.DecodeContent(raw) }

  /** The first member with a wanted key, as the token index of its value. */
  function Lookup(parts: Parts, wanted: bytes -> bool, base: nat): int
    requires Paired(parts)
  {
    match parts
    case End => -1
    case Then(_, key, rest) =>
      if wanted(key.raw) then base + 1 else Lookup(rest.rest, wanted, base + 1 + Size(rest.first))
  }

  /** The descendants of a value are not children of the object. */
  lemma {:induction false} SkipDescendants(json: bytes, tokens: seq<Token>, owner: nat, wanted: bytes -> bool, i: nat, j: nat, child: nat)
    requires owner < |tokens| && i <= j <= |tokens|
    requires forall k :: i <= k < j ==> tokens[k].parent != owner && tokens[k].start < tokens[owner].end
    ensures FieldFrom(json, tokens, owner, wanted, i, child) == FieldFrom(json, tokens, owner, wanted, j, child)
    decreases j - i
  {
    if i < j { SkipDescendants(json, tokens, owner, wanted, i + 1, j, child); }
  }

  /** The range of a string token is the raw text between its quotes. */
  lemma TokenText(json: bytes, raw: bytes, at: nat, t: Token)
    requires At(json, at, Render(String(raw))) && t.start == at + 1 && t.end == at + 1 + |raw|
    ensures RawText(json, t) == raw
  {
    var quoted := [QUOTE] + raw + [QUOTE];
    assert RawText(json, t) == json[at..at + |quoted|][1..1 + |raw|];
    assert quoted[1..1 + |raw|] == raw;
  }

  function KeyAt(parts: Parts, at: nat): nat
    requires parts.Then?
  {
    at + |parts.filler|
  }

  /** Where the value of the first member starts, and where it ends. */
  function ValueAt(parts: Parts, at: nat): nat
    requires parts.Then? && parts.rest.Then?
  {
    KeyAt(parts, at) + |Render(parts.first)| + |parts.rest.filler|
  }

  function ValueEnd(parts: Parts, at: nat): nat
    requires parts.Then? && parts.rest.Then?
  {
    ValueAt(parts, at) + |Render(parts.rest.first)|
  }

  /** One member: its key token, the tokens of its value, the members after it. */
  lemma MemberTokens(tokens: seq<Token>, parts: Parts, owner: nat, base: nat, at: nat)
    requires Paired(parts) && parts.Then? && owner < base
    requires Holds(tokens, base, PreorderParts(parts, owner, base, at))
    ensures var after := base + 1 + Size(parts.rest.first);
            && after <= |tokens|
            && tokens[base] == Token(StringToken, KeyAt(parts, at) + 1, KeyAt(parts, at) + 1 + |parts.first.raw|, 0, owner)
            && Holds(tokens, base + 1, Preorder(parts.rest.first, owner, base + 1, ValueAt(parts, at)))
            && Holds(tokens, after, PreorderParts(parts.rest.rest, owner, after, ValueEnd(parts, at)))
            && PartsSize(parts) == 1 + Size(parts.rest.first) + PartsSize(parts.rest.rest)
  {
    hide PreorderParts, Holds;
    var value := parts.rest.first;
    var keyTokens := Preorder(parts.first, owner, base, KeyAt(parts, at));
    var valueTokens := Preorder(value, owner, base + 1, ValueAt(parts, at));
    var restTokens := PreorderParts(parts.rest.rest, owner, base + 1 + Size(value), ValueEnd(parts, at));
    MemberPreorder(parts, owner, base, at);
    HoldsSplit(tokens, base, keyTokens, valueTokens + restTokens);
    HoldsSplit(tokens, base + 1, valueTokens, restTokens);
    HoldsAt(tokens, base, keyTokens, 0);
  }

  lemma MemberPreorder(parts: Parts, owner: nat, base: nat, at: nat)
    requires Paired(parts) && parts.Then? && owner < base
    ensures PreorderParts(parts, owner, base, at)
            == Preorder(parts.first, owner, base, KeyAt(parts, at))
               + (Preorder(parts.rest.first, owner, base + 1, ValueAt(parts, at))
                  + PreorderParts(parts.rest.rest, owner, base + 1 + Size(parts.rest.first), ValueEnd(parts, at)))
  {
  }

  /** The tokens of a value: a child of the owner, then descendants of that child. */
  lemma ValueTokens(tokens: seq<Token>, value: Node, owner: nat, base: nat, at: nat)
    requires IsJson(value) && owner < base && Holds(tokens, base, Preorder(value, owner, base, at))
    ensures tokens[base].parent == owner && tokens[base].start < at + |Render(value)|
    ensures forall k :: base < k < base + Size(value) ==> tokens[k].parent >= base && tokens[k].start < at + |Render(value)|
  {
    var valueTokens := Preorder(value, owner, base, at);
    PreorderWithin(value, owner, base, at);
    HoldsAt(tokens, base, valueTokens, 0);
    forall k: nat | base < k < base + Size(value)
      ensures tokens[k].parent >= base && tokens[k].start < at + |Render(value)|
    {
      HoldsAt(tokens, base, valueTokens, k - base);
      BelowRoot(value, owner, base, at, k - base);
    }
  }

  lemma BelowRoot(n: Node, parent: int, base: nat, at: nat, k: nat)
    requires -1 <= parent < base as int && 0 < k < Size(n)
    ensures Preorder(n, parent, base, at)[k].parent >= base
  {
    var inner := PreorderParts(n.parts, base, base + 1, at + 1);
    assert Preorder(n, parent, base, at)[k] == inner[k - 1];
  }

  lemma MemberText(json: bytes, parts: Parts, at: nat)
    requires Paired(parts) && parts.Then? && At(json, at, RenderParts(parts))
    ensures At(json, KeyAt(parts, at), Render(parts.first)) && At(json, ValueAt(parts, at), Render(parts.rest.first))
    ensures At(json, ValueEnd(parts, at), RenderParts(parts.rest.rest))
    ensures at + |RenderParts(parts)| == ValueEnd(parts, at) + |RenderParts(parts.rest.rest)|
  {
    var key, value, rest := Render(parts.first), Render(parts.rest.first), RenderParts(parts.rest.rest);
    var tail := parts.rest.filler + (value + rest);
    assert RenderParts(parts.rest) == tail;
    assert RenderParts(parts) == parts.filler + (key + tail);
    FourPieces(json, at, parts.filler, key, parts.rest.filler, value + rest);
    AtSplit(json, ValueAt(parts, at), value, rest);
  }

  /** The members, in the array and in the document, and where they end in both. */
  predicate Laid(json: bytes, tokens: seq<Token>, parts: Parts, owner: nat, base: nat, at: nat, last: nat, end: nat) {
    && owner < base && Paired(parts)
    && Holds(tokens, base, PreorderParts(parts, owner, base, at)) && At(json, at, RenderParts(parts))
    && base + PartsSize(parts) == last && at + |RenderParts(parts)| == end
  }

  /** The tokens and the text of one member, in the array and in the document. */
  lemma OneMember(json: bytes, tokens: seq<Token>, parts: Parts, owner: nat, base: nat, at: nat, last: nat, end: nat)
    requires parts.Then? && Laid(json, tokens, parts, owner, base, at, last, end)
    ensures Paired(parts) && ValueEnd(parts, at) <= end
    ensures var after := base + 1 + Size(parts.rest.first);
            && after <= |tokens|
            && tokens[base].parent == owner && tokens[base].kind.StringToken? && tokens[base].start < end
            && RawText(json, tokens[base]) == parts.first.raw
            && tokens[base + 1].parent == owner && tokens[base + 1].start < end
            && (forall k :: base + 1 < k < after ==> tokens[k].parent > owner && tokens[k].start < end)
            && Laid(json, tokens, parts.rest.rest, owner, after, ValueEnd(parts, at), last, end)
            && Holds(tokens, base + 1, Preorder(parts.rest.first, owner, base + 1, ValueAt(parts, at)))
            && At(json, ValueAt(parts, at), Render(parts.rest.first))
  {
    MemberTokens(tokens, parts, owner, base, at);
    MemberText(json, parts, at);
    ValueTokens(tokens, parts.rest.first, owner, base + 1, ValueAt(parts, at));
    TokenText(json, parts.first.raw, KeyAt(parts, at), tokens[base]);
  }

  /** The scan over one member. */
  lemma FieldStep(json: bytes, tokens: seq<Token>, owner: nat, base: nat, after: nat, child: nat, wanted: bytes -> bool)
    requires owner < base && base + 1 < after <= |tokens| && child % 2 == 0
    requires tokens[base].parent == owner && tokens[base].start < tokens[owner].end
    requires tokens[base + 1].parent == owner && tokens[base + 1].start < tokens[owner].end
    requires forall k :: base + 1 < k < after ==> tokens[k].parent != owner && tokens[k].start < tokens[owner].end
    ensures FieldFrom(json, tokens, owner, wanted, base, child)
            == if wanted(RawText(json, tokens[base])) then base + 1
               else FieldFrom(json, tokens, owner, wanted, after, child + 2)
  {
    SkipDescendants(json, tokens, owner, wanted, base + 2, after, child + 2);
    assert FieldFrom(json, tokens, owner, wanted, base + 1, child + 1) == FieldFrom(json, tokens, owner, wanted, base + 2, child + 2);
  }

  lemma MemberStep(json: bytes, tokens: seq<Token>, parts: Parts, owner: nat, base: nat, at: nat,
                   last: nat, end: nat, child: nat, wanted: bytes -> bool)
    requires parts.Then? && Laid(json, tokens, parts, owner, base, at, last, end) && owner < |tokens| && child % 2 == 0
    requires end < tokens[owner].end
    ensures var after := base + 1 + Size(parts.rest.first);
            && Laid(json, tokens, parts.rest.rest, owner, after, ValueEnd(parts, at), last, end)
            && FieldFrom(json, tokens, owner, wanted, base, child)
               == if wanted(parts.first.raw) then base + 1 else FieldFrom(json, tokens, owner, wanted, after, child + 2)
  {
    OneMember(json, tokens, parts, owner, base, at, last, end);
    FieldStep(json, tokens, owner, base, base + 1 + Size(parts.rest.first), child, wanted);
  }

  /** The scan over the members that are left agrees with the document. */
  lemma {:induction false} FieldScan(json: bytes, tokens: seq<Token>, parts: Parts, owner: nat, base: nat, at: nat,
                                     last: nat, end: nat, child: nat, wanted: bytes -> bool)
    requires Laid(json, tokens, parts, owner, base, at, last, end) && owner < |tokens| && child % 2 == 0
    requires end < tokens[owner].end && (last < |tokens| ==> tokens[last].start >= tokens[owner].end)
    ensures FieldFrom(json, tokens, owner, wanted, base, child) == Lookup(parts, wanted, base)
    decreases parts
  {
    if parts.Then? {
      var after := base + 1 + Size(parts.rest.first);
      MemberStep(json, tokens, parts, owner, base, at, last, end, child, wanted);
      FieldScan(json, tokens, parts.rest.rest, owner, after, ValueEnd(parts, at), last, end, child + 2, wanted);
    }
  }

  /** An object of the document in its place in the token array. */
  predicate InPlace(json: bytes, tokens: seq<Token>, n: Node, parent: int, owner: nat, at: nat)
  {
    && -1 <= parent < owner && IsJson(n) && At(json, at, Render(n)) && Holds(tokens, owner, Preorder(n, parent, owner, at))
    && (owner + Size(n) < |tokens| ==> tokens[owner + Size(n)].start >= at + |Render(n)|)
  }

  /** The members of an object that is in place are laid out behind its own token. */
  lemma ObjectLaid(json: bytes, tokens: seq<Token>, n: Node, parent: int, owner: nat, at: nat)
    requires n.Container? && !n.list && InPlace(json, tokens, n, parent, owner, at)
    ensures Laid(json, tokens, n.parts, owner, owner + 1, at + 1, owner + Size(n), at + 1 + |RenderParts(n.parts)|)
    ensures owner < |tokens| && tokens[owner].kind.ObjectToken? && at + 1 + |RenderParts(n.parts)| < tokens[owner].end
    ensures owner + Size(n) < |tokens| ==> tokens[owner + Size(n)].start >= tokens[owner].end
  {
    MembersPaired(n.parts, true);
    var head := Preorder(n, parent, owner, at)[..1];
    var inner := PreorderParts(n.parts, owner, owner + 1, at + 1);
    assert Preorder(n, parent, owner, at) == head + inner;
    HoldsSplit(tokens, owner, head, inner);
    HoldsAt(tokens, owner, head, 0);
    Layout(json, at, n);
  }

  /** On the tokens of any object the scan returns the value of the named member, or -1. */
  lemma FieldFindsMember(json: bytes, tokens: seq<Token>, n: Node, parent: int, owner: nat, at: nat, wanted: bytes -> bool)
    requires n.Container? && !n.list && InPlace(json, tokens, n, parent, owner, at)
    ensures Paired(n.parts) && owner < |tokens| && tokens[owner].kind.ObjectToken?
    ensures FieldFrom(json, tokens, owner, wanted, owner + 1, 0) == Lookup(n.parts, wanted, owner + 1)
  {
    ObjectLaid(json, tokens, n, parent, owner, at);
    FieldScan(json, tokens, n.parts, owner, owner + 1, at + 1, owner + Size(n), at + 1 + |RenderParts(n.parts)|, 0, wanted);
  }

  /** The scan's result in the document: the first member with a wanted key. */
  lemma {:induction false} LookupIsFirst(parts: Parts, wanted: bytes -> bool, base: nat) returns (k: int)
    requires Paired(parts)
    ensures -1 <= k < |Pairs(parts)|
    ensures Lookup(parts, wanted, base) == if k >= 0 then ValueIndex(parts, k, base) else -1
    ensures k >= 0 ==> wanted(Pairs(parts)[k].0)
    ensures forall j :: 0 <= j < (if k >= 0 then k else |Pairs(parts)|) ==> !wanted(Pairs(parts)[j].0)
  {
    if parts.End? {
      k := -1;
    } else if wanted(parts.first.raw) {
      k := 0;
    } else {
      k := LookupIsFirst(parts.rest.rest, wanted, base + 1 + Size(parts.rest.first));
      var rest := Pairs(parts.rest.rest);
      assert forall j :: 0 < j < |Pairs(parts)| ==> Pairs(parts)[j] == rest[j - 1];
      if k >= 0 { k := k + 1; }
    }
  }

  /** A value found this way is itself in place, so lookups can be nested. */
  lemma {:induction false} ValueInPlace(json: bytes, tokens: seq<Token>, parts: Parts, owner: nat, base: nat, at: nat,
                                        last: nat, end: nat, k: nat)
    returns (valueAt: nat)
    requires Laid(json, tokens, parts, owner, base, at, last, end) && k < |Pairs(parts)|
    requires last < |tokens| ==> tokens[last].start >= end
    ensures ValueIndex(parts, k, base) > owner
    ensures InPlace(json, tokens, Pairs(parts)[k].1, owner, ValueIndex(parts, k, base), valueAt)
    decreases parts
  {
    FirstInPlace(json, tokens, parts, owner, base, at, last, end);
    if k == 0 {
      valueAt := ValueAt(parts, at);
    } else {
      valueAt := ValueInPlace(json, tokens, parts.rest.rest, owner, base + 1 + Size(parts.rest.first),
                              ValueEnd(parts, at), last, end, k - 1);
    }
  }

  lemma FirstInPlace(json: bytes, tokens: seq<Token>, parts: Parts, owner: nat, base: nat, at: nat, last: nat, end: nat)
    requires parts.Then? && Laid(json, tokens, parts, owner, base, at, last, end)
    requires last < |tokens| ==> tokens[last].start >= end
    ensures InPlace(json, tokens, parts.rest.first, owner, base + 1, ValueAt(parts, at))
    ensures Laid(json, tokens, parts.rest.rest, owner, base + 1 + Size(parts.rest.first), ValueEnd(parts, at), last, end)
  {
    var after, rest := base + 1 + Size(parts.rest.first), parts.rest.rest;
    OneMember(json, tokens, parts, owner, base, at, last, end);
    NextStart(json, tokens, rest, owner, after, ValueEnd(parts, at), last, end);
  }

  /** Lookups nest: what the scan of an object in place returns is the token of the value of
      its first member with a wanted key, and that value is in place again. */
  lemma FoundInPlace(json: bytes, tokens: seq<Token>, n: Node, parent: int, owner: nat, at: nat, wanted: bytes -> bool)
    returns (k: nat, valueAt: nat)
    requires n.Container? && !n.list && InPlace(json, tokens, n, parent, owner, at)
    requires FieldFrom(json, tokens, owner, wanted, owner + 1, 0) >= 0
    ensures Paired(n.parts) && k < |Pairs(n.parts)| && wanted(Pairs(n.parts)[k].0)
    ensures var i := FieldFrom(json, tokens, owner, wanted, owner + 1, 0);
            i > owner && InPlace(json, tokens, Pairs(n.parts)[k].1, owner, i, valueAt)
  {
    FieldFindsMember(json, tokens, n, parent, owner, at, wanted);
    var first := LookupIsFirst(n.parts, wanted, owner + 1);
    k := first;
    ObjectLaid(json, tokens, n, parent, owner, at);
    valueAt := ValueInPlace(json, tokens, n.parts, owner, owner + 1, at + 1, owner + Size(n), at + 1 + |RenderParts(n.parts)|, k);
  }

  /** The root of a document is in place, so every lookup from it on is covered. */
  lemma RootInPlace(n: Node, before: bytes, after: bytes)
    requires IsJson(n) && Blank(after)
    ensures InPlace(before + Render(n) + after, Preorder(n, -1, 0, |before|), n, -1, 0, |before|)
  {
    DocumentLayout(n, before, after);
    assert |Preorder(n, -1, 0, |before|)| == Size(n);
  }

  /** What comes next in the array starts at or after the text in hand. */
  lemma NextStart(json: bytes, tokens: seq<Token>, parts: Parts, owner: nat, base: nat, at: nat, last: nat, end: nat)
    requires Laid(json, tokens, parts, owner, base, at, last, end)
    requires last < |tokens| ==> tokens[last].start >= end
    ensures base < |tokens| ==> tokens[base].start >= at
  {
    if parts.Then? { MemberTokens(tokens, parts, owner, base, at); }
  }

  // ----- Unique keys -----

  /** The other decoder of the source: escapes are decoded one by one, so a surrogate pair
      becomes two three-byte sequences, and other bytes pass through. */
  function PlainText(raw: bytes): Option<bytes> {
    if raw == [] then Some([])
    else
      var unit := PlainUnit(raw);
      if unit.None? then None
      else
        match PlainText(raw[unit.value.taken..])
        case None => None
        case Some(rest) => Some(unit.value.text + rest)
  }

  function PlainUnit(raw: bytes): (unit: Option<WireString.Unit>)
    requires raw != []
    ensures unit.Some? ==> 1 <= unit.value.taken <= |raw|
  {
    if raw[0] != BACKSLASH then Some(WireString.Unit(1, [raw[0]]))
    else if |raw| < 2 then None
    else if raw[1] != 0x75 then
      Some(WireString.Unit(2, [
        if raw[1] == 0x6e then 0x0a else if raw[1] == 0x72 then 0x0d else if raw[1] == 0x74 then 0x09
        else if raw[1] == 0x62 then 0x08 else if raw[1] == 0x66 then 0x0c else raw[1]]))
    else if |raw| < 6 then None
    else
      match WireString.Hex4(raw[2..])
      case None => None
      case Some(cp) =>
        if cp == 0 then None
        else if cp < 0x80 then Some(WireString.Unit(6, [cp]))
        else if cp < 0x800 then Some(WireString.Unit(6, [0xc0 + cp / 64, WireString.Tail(cp)]))
        else Some(WireString.Unit(6, [0xe0 + cp / 4096, WireString.Tail(cp / 64), WireString.Tail(cp)]))
  }

  /** Decoded text that fits a buffer of `capacity` bytes with its terminator. */
  function PlainString(raw: bytes, capacity: nat): Option<bytes> {
    var text := PlainText(raw);
    if text.Some? && |text.value| < capacity then text else None
  }

  predicate AllAscii(s: bytes) { forall i :: 0 <= i < |s| ==> s[i] < 0x80 }

  /** On ASCII text both decoders agree. */
  lemma {:induction false} AsciiDecodesAlike(raw: bytes)
    requires WireKey(raw).Some? && AllAscii(WireKey(raw).value)
    ensures PlainText(raw) == WireKey(raw)
    decreases |raw|
  {
    if raw != [] {
      var unit := WireString.FirstUnit(raw).value;
      var rest := WireKey(raw[unit.taken..]).value;
      assert WireKey(raw).value == unit.text + rest;
      assert forall i :: 0 <= i < |unit.text| ==> unit.text[i] == (unit.text + rest)[i];
      assert forall i :: 0 <= i < |rest| ==> rest[i] == (unit.text + rest)[|unit.text| + i];
      AsciiUnitAlike(raw);
      AsciiDecodesAlike(raw[unit.taken..]);
    }
  }

  lemma AsciiUnitAlike(raw: bytes)
    requires raw != [] && WireString.FirstUnit(raw).Some? && AllAscii(WireString.FirstUnit(raw).value.text)
    ensures PlainUnit(raw) == WireString.FirstUnit(raw)
  {
    var text := WireString.FirstUnit(raw).value.text;
    assert text[0] < 0x80;
  }

  /** What the other decoder makes of one spelling: the character, but a surrogate pair gives
      three bytes for each half. */
  function PlainBytes(x: WireString.Spelling): bytes
    requires WireString.Allowed(x)
  {
    if |x.written| != 12 then WireString.Utf8(x.cp)
    else
      var high, low := 0xd800 + (x.cp - 0x10000) / 1024, 0xdc00 + (x.cp - 0x10000) % 1024;
      [0xe0 + high / 4096 % 16, WireString.Tail(high / 64), WireString.Tail(high),
       0xe0 + low / 4096 % 16, WireString.Tail(low / 64), WireString.Tail(low)]
  }

  /** `after` is `before` with these bytes in front, or both are refused. */
  predicate Prepended(after: Option<bytes>, text: bytes, before: Option<bytes>) {
    after == if before.Some? then Some(text + before.value) else None
  }

  lemma {:induction false} PlainPasses(text: bytes, rest: bytes)
    requires BACKSLASH !in text
    ensures Prepended(PlainText(text + rest), text, PlainText(rest))
    decreases |text|
  {
    if text == [] {
      assert text + rest == rest && PlainText(rest).Some? ==> text + PlainText(rest).value == PlainText(rest).value;
    } else {
      PlainPasses(text[1..], rest);
      assert (text + rest)[1..] == text[1..] + rest;
      if PlainText(rest).Some? { Associate([text[0]], text[1..], PlainText(rest).value); }
      assert [text[0]] + text[1..] == text;
    }
  }

  lemma PlainUnitReads(raw: bytes, value: nat)
    requires |raw| >= 6 && WireString.IsUnicode(raw[..6], value) && value > 0
    ensures PlainUnit(raw) == Some(WireString.Unit(6,
              if value < 0x80 then [value]
              else if value < 0x800 then [0xc0 + value / 64, WireString.Tail(value)]
              else [0xe0 + value / 4096, WireString.Tail(value / 64), WireString.Tail(value)]))
  {
    assert raw[..6][0] == raw[0] && raw[..6][1] == raw[1];
    WireString.UnicodeRead(raw, value);
  }

  /** What either decoder reads first. */
  lemma PlainReads(raw: bytes, unit: WireString.Unit)
    requires raw != [] && PlainUnit(raw) == Some(unit)
    ensures Prepended(PlainText(raw), unit.text, PlainText(raw[unit.taken..]))
  {
  }

  lemma PlainPair(x: WireString.Spelling, rest: bytes)
    requires WireString.Allowed(x) && |x.written| == 12
    ensures Prepended(PlainText(x.written + rest), PlainBytes(x), PlainText(rest))
  {
    hide WireString.IsHexOf, WireString.Tail, WireString.Utf8, WireString.IsShort, PlainText, PlainUnit;
    var s := x.written + rest;
    var high, low := 0xd800 + (x.cp - 0x10000) / 1024, 0xdc00 + (x.cp - 0x10000) % 1024;
    assert s[..6] == x.written[..6] && s[6..][..6] == x.written[6..] && s[6..][6..] == rest;
    PlainUnitReads(s, high);
    PlainUnitReads(s[6..], low);
    PlainReads(s, PlainUnit(s).value);
    PlainReads(s[6..], PlainUnit(s[6..]).value);
    if PlainText(rest).Some? {
      Associate(PlainUnit(s).value.text, PlainUnit(s[6..]).value.text, PlainText(rest).value);
    }
    assert PlainUnit(s).value.text + PlainUnit(s[6..]).value.text == PlainBytes(x);
  }

  lemma PlainSpelling(x: WireString.Spelling, rest: bytes)
    requires WireString.Allowed(x)
    ensures Prepended(PlainText(x.written + rest), PlainBytes(x), PlainText(rest))
  {
    var s := x.written + rest;
    if |x.written| == 12 {
      PlainPair(x, rest);
    } else if x.cp >= 0x20 && x.cp != 0x22 && x.cp != 0x5c && x.written == WireString.Utf8(x.cp) {
      PlainPasses(x.written, rest);
    } else if |x.written| == 2 {
      assert s[2..] == rest;
    } else {
      assert s[..6] == x.written && s[6..] == rest;
      PlainUnitReads(s, x.cp);
    }
  }

  ghost function PlainMeaning(xs: seq<WireString.Spelling>): bytes
    requires WireString.AllAllowed(xs)
  {
    if xs == [] then [] else PlainBytes(xs[0]) + PlainMeaning(xs[1..])
  }

  /** How many surrogate pairs a text is spelt with. */
  ghost function PairCount(xs: seq<WireString.Spelling>): nat {
    if xs == [] then 0 else (if |xs[0].written| == 12 then 1 else 0) + PairCount(xs[1..])
  }

  lemma {:induction false} PlainTextReads(xs: seq<WireString.Spelling>)
    requires WireString.AllAllowed(xs)
    ensures PlainText(WireString.Written(xs)) == Some(PlainMeaning(xs))
    ensures |PlainMeaning(xs)| == |WireString.Meaning(xs)| + 2 * PairCount(xs)
    ensures PairCount(xs) == 0 ==> PlainMeaning(xs) == WireString.Meaning(xs)
  {
    hide WireString.Allowed;
    if xs != [] {
      PlainTextReads(xs[1..]);
      PlainSpelling(xs[0], WireString.Written(xs[1..]));
      PairIsLonger(xs[0]);
    }
  }

  lemma PairIsLonger(x: WireString.Spelling)
    requires WireString.Allowed(x)
    ensures |PlainBytes(x)| == |WireString.Utf8(x.cp)| + if |x.written| == 12 then 2 else 0
  {
  }

  /** The two decoders agree on a text exactly when no character of it is spelt as a pair of
      surrogates. */
  lemma DecodersAgreeExactly(xs: seq<WireString.Spelling>)
    requires WireString.AllAllowed(xs)
    ensures PlainText(WireString.Written(xs)) == WireKey(WireString.Written(xs))
            <==> forall k :: 0 <= k < |xs| ==> |xs[k].written| != 12
  {
    WireString.TextRead(xs);
    PlainTextReads(xs);
    NoPairs(xs);
  }

  lemma {:induction false} NoPairs(xs: seq<WireString.Spelling>)
    ensures PairCount(xs) == 0 <==> forall k :: 0 <= k < |xs| ==> |xs[k].written| != 12
  {
    if xs != [] {
      NoPairs(xs[1..]);
      assert forall k :: 0 < k < |xs| ==> xs[k] == xs[1..][k - 1];
    }
  }

  /** Both decoders take the same hexadecimal digits. */
  lemma HexAlike(c: byte)
    ensures IsHex(c) <==> WireString.HexValue(c).Some?
  {
  }

  lemma {:induction false} PlainBytesPass(text: bytes, rest: bytes)
    requires RawOk(rest) && forall i :: 0 <= i < |text| ==> text[i] >= 0x20 && text[i] != QUOTE && text[i] != BACKSLASH
    ensures RawOk(text + rest)
    decreases |text|
  {
    if text == [] {
      assert text + rest == rest;
    } else {
      PlainBytesPass(text[1..], rest);
      assert (text + rest)[1..] == text[1..] + rest;
    }
  }

  lemma EscapePasses(raw: bytes)
    requires |raw| >= 6 && raw[0] == BACKSLASH && raw[1] == 0x75 && WireString.Hex4(raw[2..]).Some? && RawOk(raw[6..])
    ensures RawOk(raw)
  {
  }

  /** Every text that can be read is a string of the grammar. */
  lemma {:induction false} ReadableIsProper(raw: bytes)
    requires WireKey(raw).Some?
    ensures RawOk(raw)
    decreases |raw|
  {
    if raw != [] {
      var unit := WireString.FirstUnit(raw).value;
      ReadableIsProper(raw[unit.taken..]);
      if raw[0] != BACKSLASH {
        LiteralIsPlain(raw);
        PlainBytesPass(raw[..unit.taken], raw[unit.taken..]);
        assert raw == raw[..unit.taken] + raw[unit.taken..];
      } else if raw[1] == 0x75 {
        if unit.taken == 12 {
          assert raw[6..][6..] == raw[12..] && raw[6..][2..] == raw[8..];
          EscapePasses(raw[6..]);
        }
        EscapePasses(raw);
      }
    }
  }

  lemma LiteralIsPlain(raw: bytes)
    requires raw != [] && raw[0] != BACKSLASH && WireString.FirstUnit(raw).Some?
    ensures var n := WireString.FirstUnit(raw).value.taken;
            n <= |raw| && forall i :: 0 <= i < n ==> raw[i] >= 0x20 && raw[i] != QUOTE && raw[i] != BACKSLASH
  {
  }

  /** The check the source makes before any lookup: readable keys, no two the same. */
  ghost predicate UniqueKeys(parts: Parts)
    requires Paired(parts)
  {
    && (forall k :: 0 <= k < |Pairs(parts)| ==> PlainText(Pairs(parts)[k].0).Some?)
    && (forall j, k :: 0 <= j < k < |Pairs(parts)| ==> PlainText(Pairs(parts)[j].0) != PlainText(Pairs(parts)[k].0))
  }

  /** An ASCII name is the key of at most one member, so the member found is the only one. */
  lemma FoundMemberIsTheOnlyOne(parts: Parts, name: bytes, j: nat, k: nat)
    requires Paired(parts) && UniqueKeys(parts) && AllAscii(name) && j < |Pairs(parts)| && k < |Pairs(parts)|
    requires WireKey(Pairs(parts)[j].0) == Some(name) && WireKey(Pairs(parts)[k].0) == Some(name)
    ensures j == k
  {
    AsciiDecodesAlike(Pairs(parts)[j].0);
    AsciiDecodesAlike(Pairs(parts)[k].0);
  }

  /** The members of a document's root object, in the array of the whole document. */
  lemma RootLaid(n: Node, before: bytes, after: bytes, tokens: seq<Token>)
    requires n.Container? && !n.list && IsJson(n) && Blank(after)
    requires tokens == Preorder(n, -1, 0, |before|)
    ensures Laid(before + Render(n) + after, tokens, n.parts, 0, 1, |before| + 1, |tokens|, |before| + 1 + |RenderParts(n.parts)|)
  {
    var json := before + Render(n) + after;
    MembersPaired(n.parts, true);
    DocumentLayout(n, before, after);
    Layout(json, |before|, n);
    TokensAfterRoot(n, |before|);
  }

  lemma TokensAfterRoot(n: Node, at: nat)
    requires n.Container?
    ensures Holds(Preorder(n, -1, 0, at), 1, PreorderParts(n.parts, 0, 1, at + 1))
  {
    var inner := PreorderParts(n.parts, 0, 1, at + 1);
    assert Preorder(n, -1, 0, at)[1..1 + |inner|] == inner;
  }
}
