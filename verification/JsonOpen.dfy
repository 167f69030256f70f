/** Opening a document: the syntax check, the tokenizer, and a look at every token.

    A document opens only if its strings can be decoded and no object repeats a key, so a
    later lookup has one answer.  Opening succeeds exactly for the complete documents that
    fit the buffers and are readable in this sense. */
module JsonOpen {
  import opened Prelude
  import opened JsonTokens
  import opened JsonLookup
  import opened JsonGrammar

  const KEY_MAX: nat := 255

  // ----- The children of a container -----

  /** The tokens whose parent is `owner`, in order, from token `i` on. */
  function Children(tokens: seq<Token>, owner: nat, i: nat): seq<nat>
    requires owner < |tokens|
    decreases |tokens| - i
  {
    if i >= |tokens| || tokens[i].start >= tokens[owner].end then []
    else (if tokens[i].parent == owner then [i] else []) + Children(tokens, owner, i + 1)
  }

  lemma {:induction false} ChildrenAreTokens(tokens: seq<Token>, owner: nat, i: nat)
    requires owner < |tokens|
    ensures forall k :: 0 <= k < |Children(tokens, owner, i)| ==> i <= Children(tokens, owner, i)[k] < |tokens|
    decreases |tokens| - i
  {
    if i < |tokens| && tokens[i].start < tokens[owner].end { ChildrenAreTokens(tokens, owner, i + 1); }
  }

  /** Element `nth` of an array, or -1. */
  method ArrayNth(tokens: seq<Token>, list: int, nth: nat) returns (found: int)
    ensures if 0 <= list < |tokens| && tokens[list].kind.ArrayToken?
            then var children := Children(tokens, list, list + 1); found == if nth < |children| then children[nth] else -1
            else found == -1
  {
    if list < 0 || list >= |tokens| || !tokens[list].kind.ArrayToken? { return -1; }
    var seen: nat, i: nat := 0, list + 1;
    ghost var children := Children(tokens, list, list + 1);
    while i < |tokens| && tokens[i].start < tokens[list].end
      invariant seen <= nth && seen <= |children| && Children(tokens, list, i) == children[seen..]
      decreases |tokens| - i
    {
      if tokens[i].parent == list {
        assert children[seen..] == [i] + Children(tokens, list, i + 1);
        assert children[seen] == children[seen..][0] == i;
        if seen == nth { return i; }
        assert children[seen + 1..] == children[seen..][1..];
        seen := seen + 1;
      }
      i := i + 1;
    }
    return -1;
  }

  /** Where the tokens of the parts stand. */
  function Indices(parts: Parts, base: nat): seq<nat> {
    if parts.End? then [] else [base] + Indices(parts.rest, base + Size(parts.first))
  }

  function Nodes(parts: Parts): seq<Node> {
    if parts.End? then [] else [parts.first] + Nodes(parts.rest)
  }

  lemma {:induction false} IndicesMatch(parts: Parts, base: nat)
    ensures |Indices(parts, base)| == |Nodes(parts)| == Count(parts)
  {
    if parts.Then? { IndicesMatch(parts.rest, base + Size(parts.first)); }
  }

  /** Parts in their place in the array and in the text. */
  predicate PartsInPlace(json: bytes, tokens: seq<Token>, parts: Parts, owner: nat, base: nat, at: nat) {
    && owner < base && Scannable(parts) && At(json, at, RenderParts(parts))
    && Holds(tokens, base, PreorderParts(parts, owner, base, at))
    && (base + PartsSize(parts) < |tokens| ==> tokens[base + PartsSize(parts)].start >= at + |RenderParts(parts)|)
  }

  /** The first part is in place, and so are the others. */
  lemma PartInPlace(json: bytes, tokens: seq<Token>, parts: Parts, owner: nat, base: nat, at: nat)
    requires parts.Then? && PartsInPlace(json, tokens, parts, owner, base, at)
    ensures var start, next := at + |parts.filler|, base + Size(parts.first);
            && InPlace(json, tokens, parts.first, owner, base, start)
            && PartsInPlace(json, tokens, parts.rest, owner, next, start + |Render(parts.first)|)
            && next + PartsSize(parts.rest) == base + PartsSize(parts)
            && start + |Render(parts.first)| + |RenderParts(parts.rest)| == at + |RenderParts(parts)|
  {
    hide At, Holds, Preorder, PreorderParts, Render, RenderParts, IsJson, Size, PartsSize;
    PartTokens(tokens, parts, owner, base, at);
    PartsText(json, at, parts);
  }

  /** The tokens of the first part, those of the others, and where the next token starts. */
  lemma PartTokens(tokens: seq<Token>, parts: Parts, owner: nat, base: nat, at: nat)
    requires parts.Then? && owner < base && Scannable(parts) && Holds(tokens, base, PreorderParts(parts, owner, base, at))
    ensures var start, next := at + |parts.filler|, base + Size(parts.first);
            var after := start + |Render(parts.first)|;
            && PartsSize(parts) == Size(parts.first) + PartsSize(parts.rest)
            && Holds(tokens, base, Preorder(parts.first, owner, base, start))
            && Holds(tokens, next, PreorderParts(parts.rest, owner, next, after))
            && (parts.rest.Then? ==> next < |tokens| && tokens[next].start >= after)
            && (parts.rest.End? ==> PartsSize(parts.rest) == 0 && RenderParts(parts.rest) == [])
  {
    var start, next := at + |parts.filler|, base + Size(parts.first);
    var after := start + |Render(parts.first)|;
    var mine, others := Preorder(parts.first, owner, base, start), PreorderParts(parts.rest, owner, next, after);
    assert PreorderParts(parts, owner, base, at) == mine + others;
    HoldsSplit(tokens, base, mine, others);
    if parts.rest.Then? {
      PartsWithin(parts.rest, owner, next, after);
      HoldsAt(tokens, next, others, 0);
    }
  }

  /** A container's parts are in place behind its own token. */
  lemma InsideInPlace(json: bytes, tokens: seq<Token>, n: Node, parent: int, owner: nat, at: nat)
    requires n.Container? && InPlace(json, tokens, n, parent, owner, at)
    ensures PartsInPlace(json, tokens, n.parts, owner, owner + 1, at + 1)
    ensures owner < |tokens| && tokens[owner] == Token(ContainerKind(n.list), at, at + |Render(n)|, Count(n.parts), parent)
    ensures at + 1 + |RenderParts(n.parts)| < at + |Render(n)|
    ensures owner + Size(n) == owner + 1 + PartsSize(n.parts)
    ensures owner + Size(n) < |tokens| ==> tokens[owner + Size(n)].start >= at + |Render(n)|
  {
    var head := [Token(ContainerKind(n.list), at, at + |Render(n)|, Count(n.parts), parent)];
    var inner := PreorderParts(n.parts, owner, owner + 1, at + 1);
    assert Preorder(n, parent, owner, at) == head + inner;
    HoldsSplit(tokens, owner, head, inner);
    HoldsAt(tokens, owner, head, 0);
    Layout(json, at, n);
    if n.list { ElementsScannable(n.parts, true); } else { MembersScannable(n.parts, true); }
  }

  lemma ChildrenStep(tokens: seq<Token>, owner: nat, i: nat)
    requires owner < |tokens| && i < |tokens| && tokens[i].start < tokens[owner].end
    ensures Children(tokens, owner, i) == (if tokens[i].parent == owner then [i] else []) + Children(tokens, owner, i + 1)
  {
  }

  lemma {:induction false} SkipToNext(tokens: seq<Token>, owner: nat, i: nat, j: nat)
    requires owner < |tokens| && i <= j <= |tokens|
    requires forall k :: i <= k < j ==> tokens[k].parent != owner && tokens[k].start < tokens[owner].end
    ensures Children(tokens, owner, i) == Children(tokens, owner, j)
    decreases j - i
  {
    if i < j { SkipToNext(tokens, owner, i + 1, j); }
  }

  lemma NoChildren(json: bytes, tokens: seq<Token>, parts: Parts, owner: nat, base: nat, at: nat)
    requires parts.End? && PartsInPlace(json, tokens, parts, owner, base, at) && owner < |tokens|
    requires base + PartsSize(parts) < |tokens| ==> tokens[base + PartsSize(parts)].start >= tokens[owner].end
    ensures Children(tokens, owner, base) == []
  {
  }

  /** A node in place: its own token is a child of the owner, the others are not. */
  lemma FirstChild(json: bytes, tokens: seq<Token>, n: Node, owner: nat, base: nat, at: nat)
    requires InPlace(json, tokens, n, owner, base, at)
    ensures owner < base && base + Size(n) <= |tokens| && tokens[base].parent == owner && tokens[base].start < at + |Render(n)|
    ensures forall k :: base < k < base + Size(n) ==> tokens[k].parent >= base && tokens[k].start < at + |Render(n)|
  {
    ValueTokens(tokens, n, owner, base, at);
  }

  /** The children found among the tokens are the parts of the container. */
  lemma {:induction false} ChildrenOfParts(json: bytes, tokens: seq<Token>, parts: Parts, owner: nat, base: nat, at: nat)
    requires PartsInPlace(json, tokens, parts, owner, base, at) && owner < |tokens|
    requires at + |RenderParts(parts)| < tokens[owner].end
    requires base + PartsSize(parts) < |tokens| ==> tokens[base + PartsSize(parts)].start >= tokens[owner].end
    ensures Children(tokens, owner, base) == Indices(parts, base)
    decreases parts
  {
    hide At, Holds, Render, RenderParts, Preorder, PreorderParts, IsJson, Scannable, Size, PartsSize, PartsInPlace, InPlace, Children;
    if parts.End? {
      NoChildren(json, tokens, parts, owner, base, at);
    } else {
      var start, next := at + |parts.filler|, base + Size(parts.first);
      PartInPlace(json, tokens, parts, owner, base, at);
      FirstChild(json, tokens, parts.first, owner, base, start);
      ChildrenStep(tokens, owner, base);
      SkipToNext(tokens, owner, base + 1, next);
      ChildrenOfParts(json, tokens, parts.rest, owner, next, start + |Render(parts.first)|);
    }
  }

  lemma ChildrenOfContainer(json: bytes, tokens: seq<Token>, n: Node, parent: int, owner: nat, at: nat)
    requires n.Container? && InPlace(json, tokens, n, parent, owner, at)
    ensures owner < |tokens| && Children(tokens, owner, owner + 1) == Indices(n.parts, owner + 1)
  {
    InsideInPlace(json, tokens, n, parent, owner, at);
    ChildrenOfParts(json, tokens, n.parts, owner, owner + 1, at + 1);
  }

  /** Each part is in place at its index. */
  lemma {:induction false} PartAt(json: bytes, tokens: seq<Token>, parts: Parts, owner: nat, base: nat, at: nat, k: nat)
    returns (start: nat)
    requires PartsInPlace(json, tokens, parts, owner, base, at) && k < |Nodes(parts)|
    ensures |Indices(parts, base)| == |Nodes(parts)| && Indices(parts, base)[k] > owner
    ensures InPlace(json, tokens, Nodes(parts)[k], owner, Indices(parts, base)[k], start)
    decreases parts
  {
    IndicesMatch(parts, base);
    PartInPlace(json, tokens, parts, owner, base, at);
    hide InPlace;
    if k == 0 {
      start := at + |parts.filler|;
    } else {
      start := PartAt(json, tokens, parts.rest, owner, base + Size(parts.first), at + |parts.filler| + |Render(parts.first)|, k - 1);
    }
  }

  // ----- Readable tokens -----

  function KeyText(json: bytes, t: Token): Option<bytes> {
    if t.kind.StringToken? && t.end - t.start <= KEY_MAX then PlainString(RawText(json, t), KEY_MAX + 1) else None
  }

  /** The keys among the children of an object can be read and differ. */
  predicate KeysOk(json: bytes, tokens: seq<Token>, children: seq<nat>) {
    && |children| % 2 == 0
    && (forall j :: 0 <= j < |children| && j % 2 == 0 ==> children[j] < |tokens| && KeyText(json, tokens[children[j]]).Some?)
    && (forall j, k :: 0 <= j < k < |children| && j % 2 == 0 && k % 2 == 0 ==>
          KeyText(json, tokens[children[j]]) != KeyText(json, tokens[children[k]]))
  }

  predicate TokenOk(json: bytes, tokens: seq<Token>, i: nat)
    requires i < |tokens|
  {
    && (tokens[i].kind.StringToken? ==> WireKey(RawText(json, tokens[i])).Some?)
    && (tokens[i].kind.ObjectToken? ==> KeysOk(json, tokens, Children(tokens, i, i + 1)))
  }

  predicate TokensOk(json: bytes, tokens: seq<Token>, from: nat, to: nat)
    requires to <= |tokens|
  {
    forall i :: from <= i < to ==> TokenOk(json, tokens, i)
  }

  // ----- Legible documents -----

  function KeyName(n: Node): Option<bytes> {
    if n.String? && |n.raw| <= KEY_MAX then PlainString(n.raw, KEY_MAX + 1) else None
  }

  /** Every key can be read, and no two are the same. */
  predicate UniqueNames(nodes: seq<Node>) {
    && |nodes| % 2 == 0
    && (forall j :: 0 <= j < |nodes| && j % 2 == 0 ==> KeyName(nodes[j]).Some?)
    && (forall j, k :: 0 <= j < k < |nodes| && j % 2 == 0 && k % 2 == 0 ==> KeyName(nodes[j]) != KeyName(nodes[k]))
  }

  /** Every string can be decoded, and no object repeats a key. */
  predicate Legible(n: Node) {
    match n
    case String(raw) => WireKey(raw).Some?
    case Word(_) => true
    case Container(list, parts, _) => (list || UniqueNames(Nodes(parts))) && LegibleParts(parts)
  }

  predicate LegibleParts(parts: Parts) {
    parts.Then? ==> Legible(parts.first) && LegibleParts(parts.rest)
  }

  lemma LeafToken(json: bytes, tokens: seq<Token>, n: Node, parent: int, owner: nat, at: nat)
    requires !n.Container? && InPlace(json, tokens, n, parent, owner, at)
    ensures owner < |tokens| && (n.String? <==> tokens[owner].kind.StringToken?) && !tokens[owner].kind.ObjectToken?
    ensures n.String? ==> RawText(json, tokens[owner]) == n.raw && tokens[owner].end - tokens[owner].start == |n.raw|
  {
    HoldsAt(tokens, owner, Preorder(n, parent, owner, at), 0);
    if n.String? { TokenText(json, n.raw, at, tokens[owner]); }
  }

  lemma KeyOfToken(json: bytes, tokens: seq<Token>, n: Node, parent: int, owner: nat, at: nat)
    requires InPlace(json, tokens, n, parent, owner, at)
    ensures owner < |tokens| && KeyText(json, tokens[owner]) == KeyName(n)
  {
    if n.Container? { InsideInPlace(json, tokens, n, parent, owner, at); } else { LeafToken(json, tokens, n, parent, owner, at); }
  }

  /** The keys read from the tokens are the keys of the document. */
  lemma KeysAreNames(json: bytes, tokens: seq<Token>, parts: Parts, owner: nat, base: nat, at: nat)
    requires PartsInPlace(json, tokens, parts, owner, base, at)
    ensures KeysOk(json, tokens, Indices(parts, base)) <==> UniqueNames(Nodes(parts))
  {
    IndicesMatch(parts, base);
    forall k: nat | k < |Nodes(parts)|
      ensures Indices(parts, base)[k] < |tokens| && KeyText(json, tokens[Indices(parts, base)[k]]) == KeyName(Nodes(parts)[k])
    {
      var start := PartAt(json, tokens, parts, owner, base, at, k);
      KeyOfToken(json, tokens, Nodes(parts)[k], owner, Indices(parts, base)[k], start);
    }
  }

  /** The tokens of a node pass exactly when the node is readable. */
  lemma {:induction false} NodeTokensOk(json: bytes, tokens: seq<Token>, n: Node, parent: int, owner: nat, at: nat)
    requires InPlace(json, tokens, n, parent, owner, at)
    ensures owner + Size(n) <= |tokens| && (TokensOk(json, tokens, owner, owner + Size(n)) <==> Legible(n))
    decreases n
  {
    hide InPlace, PartsInPlace, TokensOk, TokenOk, Children, Preorder, Render, LegibleParts;
    if n.Container? {
      InsideInPlace(json, tokens, n, parent, owner, at);
      OwnToken(json, tokens, n, parent, owner, at);
      PartsTokensOk(json, tokens, n.parts, owner, owner + 1, at + 1);
    } else {
      LeafTokenOk(json, tokens, n, parent, owner, at);
    }
    FirstAndRest(json, tokens, owner, owner + 1, owner + Size(n));
  }

  lemma LeafTokenOk(json: bytes, tokens: seq<Token>, n: Node, parent: int, owner: nat, at: nat)
    requires !n.Container? && InPlace(json, tokens, n, parent, owner, at)
    ensures Size(n) == 1 && owner < |tokens| && (TokenOk(json, tokens, owner) <==> Legible(n))
    ensures TokensOk(json, tokens, owner + 1, owner + 1)
  {
    hide InPlace;
    LeafToken(json, tokens, n, parent, owner, at);
  }

  lemma OwnToken(json: bytes, tokens: seq<Token>, n: Node, parent: int, owner: nat, at: nat)
    requires n.Container? && InPlace(json, tokens, n, parent, owner, at)
    ensures owner < |tokens| && (TokenOk(json, tokens, owner) <==> n.list || UniqueNames(Nodes(n.parts)))
  {
    hide InPlace, PartsInPlace, Children, Indices, KeysOk, UniqueNames, Render, RenderParts;
    InsideInPlace(json, tokens, n, parent, owner, at);
    ChildrenOfContainer(json, tokens, n, parent, owner, at);
    KeysAreNames(json, tokens, n.parts, owner, owner + 1, at + 1);
  }

  lemma FirstAndRest(json: bytes, tokens: seq<Token>, a: nat, b: nat, c: nat)
    requires a <= b <= c <= |tokens|
    ensures TokensOk(json, tokens, a, c) <==> TokensOk(json, tokens, a, b) && TokensOk(json, tokens, b, c)
    ensures b == a + 1 ==> (TokensOk(json, tokens, a, b) <==> TokenOk(json, tokens, a))
  {
  }

  lemma {:induction false} PartsTokensOk(json: bytes, tokens: seq<Token>, parts: Parts, owner: nat, base: nat, at: nat)
    requires PartsInPlace(json, tokens, parts, owner, base, at)
    ensures base + PartsSize(parts) <= |tokens|
    ensures TokensOk(json, tokens, base, base + PartsSize(parts)) <==> LegibleParts(parts)
    decreases parts
  {
    hide InPlace, PartsInPlace, TokensOk, Legible, Preorder, PreorderParts, Render, RenderParts, TokenOk, Size;
    if parts.End? {
      NoTokens(json, tokens, parts, owner, base, at);
    } else {
      var next := base + Size(parts.first);
      PartInPlace(json, tokens, parts, owner, base, at);
      NodeTokensOk(json, tokens, parts.first, owner, base, at + |parts.filler|);
      PartsTokensOk(json, tokens, parts.rest, owner, next, at + |parts.filler| + |Render(parts.first)|);
      FirstAndRest(json, tokens, base, next, next + PartsSize(parts.rest));
    }
  }

  lemma NoTokens(json: bytes, tokens: seq<Token>, parts: Parts, owner: nat, base: nat, at: nat)
    requires parts.End? && PartsInPlace(json, tokens, parts, owner, base, at)
    ensures PartsSize(parts) == 0 && base <= |tokens| && TokensOk(json, tokens, base, base)
  {
  }

  // ----- Opening -----

  /** The whole procedure: check, tokenize, look at every token. */
  function OpenText(json: bytes, first: byte, most: nat, cap: nat): Option<seq<Token>> {
    if |json| > most || !ValidText(json, first) then None
    else
      match Tokenize(json, cap)
      case None => None
      case Some(tokens) => if TokensOk(json, tokens, 0, |tokens|) then Some(tokens) else None
  }

  /** A complete document opens exactly when it fits and is readable; its tokens are its tree. */
  lemma OpenDocument(json: bytes, first: byte, most: nat, cap: nat, n: Node, before: bytes, after: bytes)
    requires Complete(json, first, n, before, after)
    ensures OpenText(json, first, most, cap)
            == if |json| <= most && Size(n) <= cap && Legible(n) then Some(Preorder(n, -1, 0, |before|)) else None
  {
    hide ValidText, Tokenize, Legible, TokensOk, Proper, IsJson, InPlace, Render, Preorder, Blank;
    DocumentAccepted(json, first, n, before, after);
    TokenizeDocument(n, before, after, cap);
    RootInPlace(n, before, after);
    NodeTokensOk(json, Preorder(n, -1, 0, |before|), n, -1, 0, |before|);
  }

  /** What opens is a complete, readable document that fits, and nothing else opens. */
  lemma OpenExactly(json: bytes, first: byte, most: nat, cap: nat)
    ensures OpenText(json, first, most, cap).Some?
            <==> |json| <= most && exists n, before, after ::
                   Complete(json, first, n, before, after) && Size(n) <= cap && Legible(n)
  {
    hide ValidText, Complete, Legible, TokensOk;
    if OpenText(json, first, most, cap).Some? {
      var n, before, after := DocumentFound(json, first);
      OpenDocument(json, first, most, cap, n, before, after);
    }
    forall n, before, after | Complete(json, first, n, before, after)
      ensures OpenText(json, first, most, cap).Some? <==> |json| <= most && Size(n) <= cap && Legible(n)
    {
      OpenDocument(json, first, most, cap, n, before, after);
    }
  }

  // ----- What a readable document is good for -----

  lemma {:induction false} PairsAreNodes(parts: Parts)
    requires Paired(parts)
    ensures |Nodes(parts)| == 2 * |Pairs(parts)|
    ensures forall k :: 0 <= k < |Pairs(parts)| ==>
              Nodes(parts)[2 * k] == String(Pairs(parts)[k].0) && Nodes(parts)[2 * k + 1] == Pairs(parts)[k].1
  {
    if parts.Then? {
      var rest := parts.rest.rest;
      PairsAreNodes(rest);
      assert Nodes(parts) == [parts.first, parts.rest.first] + Nodes(rest);
      forall k | 0 <= k < |Pairs(parts)|
        ensures Nodes(parts)[2 * k] == String(Pairs(parts)[k].0) && Nodes(parts)[2 * k + 1] == Pairs(parts)[k].1
      {
        if k > 0 { assert Pairs(parts)[k] == Pairs(rest)[k - 1]; }
      }
    }
  }

  /** The keys of an object in a document that opened are unique, so a lookup has one answer. */
  lemma LegibleIsUnique(n: Node)
    requires n.Container? && !n.list && IsJson(n) && Legible(n)
    ensures Paired(n.parts) && UniqueKeys(n.parts)
  {
    MembersPaired(n.parts, true);
    PairsAreNodes(n.parts);
    forall k | 0 <= k < |Pairs(n.parts)| ensures PlainText(Pairs(n.parts)[k].0).Some? { KeyOfPair(n.parts, k); }
    forall j, k | 0 <= j < k < |Pairs(n.parts)| ensures PlainText(Pairs(n.parts)[j].0) != PlainText(Pairs(n.parts)[k].0) {
      KeyOfPair(n.parts, j);
      KeyOfPair(n.parts, k);
    }
  }

  lemma KeyOfPair(parts: Parts, k: nat)
    requires Paired(parts) && UniqueNames(Nodes(parts)) && k < |Pairs(parts)|
    ensures 2 * k < |Nodes(parts)| && 2 * k % 2 == 0
    ensures KeyName(Nodes(parts)[2 * k]).Some? && KeyName(Nodes(parts)[2 * k]) == PlainText(Pairs(parts)[k].0)
  {
    PairsAreNodes(parts);
    assert KeyName(Nodes(parts)[2 * k]).Some?;
  }

  // ----- The checks in their loops -----

  method CountChildren(tokens: seq<Token>, owner: nat) returns (count: nat)
    requires owner < |tokens|
    ensures count == |Children(tokens, owner, owner + 1)|
  {
    count := 0;
    var i := owner + 1;
    while i < |tokens| && tokens[i].start < tokens[owner].end
      invariant count + |Children(tokens, owner, i)| == |Children(tokens, owner, owner + 1)|
      decreases |tokens| - i
    {
      if tokens[i].parent == owner { count := count + 1; }
      i := i + 1;
    }
  }

  /** The keys of one object: readable, and each new to those before it. */
  method CheckKeys(json: bytes, tokens: seq<Token>, owner: nat) returns (ok: bool)
    requires owner < |tokens|
    ensures ok <==> KeysOk(json, tokens, Children(tokens, owner, owner + 1))
  {
    hide Children, KeysOk, KeyText, KeysRead;
    ghost var children := Children(tokens, owner, owner + 1);
    NothingRead(json, tokens, owner);
    var count := CountChildren(tokens, owner);
    if count % 2 != 0 {
      OddChildren(json, tokens, children);
      return false;
    }
    var keys: seq<bytes>, child: nat, i: nat := [], 0, owner + 1;
    while i < |tokens| && tokens[i].start < tokens[owner].end
      invariant child <= |children| && Children(tokens, owner, i) == children[child..]
      invariant KeysRead(json, tokens, children, child, keys)
      decreases |tokens| - i
    {
      ChildrenStep(tokens, owner, i);
      if tokens[i].parent == owner {
        NextChild(children, child, i, Children(tokens, owner, i + 1));
        if child % 2 == 0 {
          var key := KeyText(json, tokens[i]);
          if key.None? || key.value in keys {
            RefusedKey(json, tokens, children, child, keys);
            return false;
          }
          KeyAdded(json, tokens, children, child, keys, key.value);
          keys := keys + [key.value];
        } else {
          ValuePassed(json, tokens, children, child, keys);
        }
        child := child + 1;
      }
      i := i + 1;
    }
    NoChildrenLeft(tokens, owner, i);
    assert child == |children|;
    AllKeysRead(json, tokens, children, keys);
    return true;
  }

  lemma NoChildrenLeft(tokens: seq<Token>, owner: nat, i: nat)
    requires owner < |tokens| && (i >= |tokens| || tokens[i].start >= tokens[owner].end)
    ensures Children(tokens, owner, i) == []
  {
  }

  lemma NextChild(children: seq<nat>, n: nat, i: nat, rest: seq<nat>)
    requires n <= |children| && children[n..] == [i] + rest
    ensures n < |children| && children[n] == i && children[n + 1..] == rest
  {
    assert children[n..][0] == i && children[n..][1..] == rest;
  }

  lemma NothingRead(json: bytes, tokens: seq<Token>, owner: nat)
    requires owner < |tokens|
    ensures KeysRead(json, tokens, Children(tokens, owner, owner + 1), 0, [])
  {
    ChildrenAreTokens(tokens, owner, owner + 1);
  }

  lemma OddChildren(json: bytes, tokens: seq<Token>, children: seq<nat>)
    requires |children| % 2 != 0
    ensures !KeysOk(json, tokens, children)
  {
  }

  lemma KeyAdded(json: bytes, tokens: seq<Token>, children: seq<nat>, n: nat, keys: seq<bytes>, key: bytes)
    requires n < |children| && n % 2 == 0 && KeysRead(json, tokens, children, n, keys)
    requires children[n] < |tokens| && KeyText(json, tokens[children[n]]) == Some(key) && key !in keys
    ensures KeysRead(json, tokens, children, n + 1, keys + [key])
  {
  }

  lemma ValuePassed(json: bytes, tokens: seq<Token>, children: seq<nat>, n: nat, keys: seq<bytes>)
    requires n < |children| && n % 2 == 1 && KeysRead(json, tokens, children, n, keys)
    ensures KeysRead(json, tokens, children, n + 1, keys)
  {
  }

  /** The keys of the first `n` children, all different. */
  ghost predicate KeysRead(json: bytes, tokens: seq<Token>, children: seq<nat>, n: nat, keys: seq<bytes>)
    requires n <= |children|
  {
    && 2 * |keys| == n + n % 2
    && (forall k :: 0 <= k < |children| ==> children[k] < |tokens|)
    && (forall k :: 0 <= k < |keys| ==> KeyText(json, tokens[children[2 * k]]) == Some(keys[k]))
    && (forall j, k :: 0 <= j < k < |keys| ==> keys[j] != keys[k])
  }

  lemma RefusedKey(json: bytes, tokens: seq<Token>, children: seq<nat>, n: nat, keys: seq<bytes>)
    requires n < |children| && n % 2 == 0 && KeysRead(json, tokens, children, n, keys)
    requires children[n] < |tokens| && var key := KeyText(json, tokens[children[n]]); key.None? || key.value in keys
    ensures !KeysOk(json, tokens, children)
  {
    hide KeyText;
    var key := KeyText(json, tokens[children[n]]);
    if key.Some? {
      var k :| 0 <= k < |keys| && keys[k] == key.value;
      assert 2 * k < n && (2 * k) % 2 == 0;
      assert KeyText(json, tokens[children[2 * k]]) == key;
    }
  }

  lemma AllKeysRead(json: bytes, tokens: seq<Token>, children: seq<nat>, keys: seq<bytes>)
    requires |children| % 2 == 0 && KeysRead(json, tokens, children, |children|, keys)
    ensures KeysOk(json, tokens, children)
  {
    forall j | 0 <= j < |children| && j % 2 == 0 ensures KeyText(json, tokens[children[j]]) == Some(keys[j / 2]) {
      assert j == 2 * (j / 2);
    }
  }

  method CheckTokens(json: bytes, tokens: seq<Token>) returns (ok: bool)
    ensures ok <==> TokensOk(json, tokens, 0, |tokens|)
  {
    for i := 0 to |tokens|
      invariant TokensOk(json, tokens, 0, i)
    {
      if tokens[i].kind.ObjectToken? {
        var unique := CheckKeys(json, tokens, i);
        if !unique {
          assert !TokenOk(json, tokens, i);
          return false;
        }
      }
      if tokens[i].kind.StringToken? && WireKey(RawText(json, tokens[i])).None? {
        assert !TokenOk(json, tokens, i);
        return false;
      }
    }
    return true;
  }

  /** Open a text into a buffer of tokens; -1 if it does not open. */
  method Open(json: bytes, first: byte, most: nat, tokens: array<Token>) returns (count: int)
    modifies tokens
    ensures count <= tokens.Length
    ensures OpenText(json, first, most, tokens.Length) == if count < 0 then None else Some(tokens[..count])
  {
    hide ValidText, Tokenize, TokensOk;
    if |json| > most { return -1; }
    var ok := Validate(json, first);
    if !ok { return -1; }
    count := TokenizeInto(json, tokens);
    if count < 0 { return -1; }
    ok := CheckTokens(json, tokens[..count]);
    if !ok { return -1; }
  }
}
