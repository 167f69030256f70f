/** A decision taken on a token array: whether a request names exactly the model its
    endpoint is bound to. */
module JsonChecks {
  import opened Prelude
  import opened JsonTokens
  import opened JsonLookup
  import BodyDecoder
  import JsonGrammar

  const KEY_MAX: nat := 128

  // ----- model_rpc_bound_model -----

  function TokenString(json: bytes, t: Token, capacity: nat): Option<bytes> {
    if t.kind.StringToken? then PlainString(RawText(json, t), capacity) else None
  }

  /** The scan over the children of the root, from token `i` on. */
  function BoundFrom(json: bytes, tokens: seq<Token>, model: bytes, expected: bytes, i: nat, child: nat, found: bool): bool
    decreases |tokens| - i
  {
    if i + 1 >= |tokens| then found
    else if tokens[i].parent != 0 then BoundFrom(json, tokens, model, expected, i + 1, child, found)
    else if child % 2 == 1 then BoundFrom(json, tokens, model, expected, i + 1, child + 1, found)
    else
      match TokenString(json, tokens[i], KEY_MAX)
      case None => false
      case Some(key) =>
        if key != model then BoundFrom(json, tokens, model, expected, i + 1, child + 1, found)
        else !found && TokenString(json, tokens[i + 1], KEY_MAX) == Some(expected)
             && BoundFrom(json, tokens, model, expected, i + 1, child + 1, true)
  }

  method BoundModel(json: bytes, tokens: seq<Token>, model: bytes, expected: bytes) returns (accepted: bool)
    ensures accepted == BoundFrom(json, tokens, model, expected, 1, 0, false)
  {
    var child: nat, found := 0, false;
    var i: nat := 1;
    while i + 1 < |tokens|
      invariant BoundFrom(json, tokens, model, expected, i, child, found) == BoundFrom(json, tokens, model, expected, 1, 0, false)
      decreases |tokens| - i
    {
      if tokens[i].parent == 0 {
        child := child + 1;
        if child % 2 == 1 {
          var key := TokenString(json, tokens[i], KEY_MAX);
          if key.None? { return false; }
          if key.value == model {
            var value := TokenString(json, tokens[i + 1], KEY_MAX);
            if found || value != Some(expected) { return false; }
            found := true;
          }
        }
      }
      i := i + 1;
    }
    return found;
  }

  function NodeString(n: Node, capacity: nat): Option<bytes> {
    if n.String? then PlainString(n.raw, capacity) else None
  }

  /** The same scan over the members of the document. */
  predicate BoundParts(parts: Parts, model: bytes, expected: bytes, found: bool)
    requires Paired(parts)
  {
    match parts
    case End => found
    case Then(_, key, rest) =>
      match PlainString(key.raw, KEY_MAX)
      case None => false
      case Some(text) =>
        if text != model then BoundParts(rest.rest, model, expected, found)
        else !found && NodeString(rest.first, KEY_MAX) == Some(expected) && BoundParts(rest.rest, model, expected, true)
  }

  lemma {:induction false} SkipNested(json: bytes, tokens: seq<Token>, model: bytes, expected: bytes, i: nat, j: nat, child: nat, found: bool)
    requires i <= j <= |tokens| && forall k :: i <= k < j ==> tokens[k].parent != 0
    ensures BoundFrom(json, tokens, model, expected, i, child, found) == BoundFrom(json, tokens, model, expected, j, child, found)
    decreases j - i
  {
    if i < j { SkipNested(json, tokens, model, expected, i + 1, j, child, found); }
  }

  lemma BoundStep(json: bytes, tokens: seq<Token>, model: bytes, expected: bytes, base: nat, after: nat, child: nat, found: bool)
    requires base + 1 < after <= |tokens| && child % 2 == 0
    requires tokens[base].parent == 0 && tokens[base + 1].parent == 0
    requires forall k :: base + 1 < k < after ==> tokens[k].parent != 0
    ensures BoundFrom(json, tokens, model, expected, base, child, found)
            == match TokenString(json, tokens[base], KEY_MAX)
               case None => false
               case Some(key) =>
                 if key != model then BoundFrom(json, tokens, model, expected, after, child + 2, found)
                 else !found && TokenString(json, tokens[base + 1], KEY_MAX) == Some(expected)
                      && BoundFrom(json, tokens, model, expected, after, child + 2, true)
  {
    BoundKey(json, tokens, model, expected, base, child, found);
    var key := TokenString(json, tokens[base], KEY_MAX);
    if key.Some? && key.value != model {
      BoundValue(json, tokens, model, expected, base + 1, after, child + 1, found);
    } else if key.Some? {
      BoundValue(json, tokens, model, expected, base + 1, after, child + 1, true);
    }
  }

  /** The scan over a key. */
  lemma BoundKey(json: bytes, tokens: seq<Token>, model: bytes, expected: bytes, i: nat, child: nat, found: bool)
    requires i + 1 < |tokens| && child % 2 == 0 && tokens[i].parent == 0
    ensures BoundFrom(json, tokens, model, expected, i, child, found)
            == match TokenString(json, tokens[i], KEY_MAX)
               case None => false
               case Some(key) =>
                 if key != model then BoundFrom(json, tokens, model, expected, i + 1, child + 1, found)
                 else !found && TokenString(json, tokens[i + 1], KEY_MAX) == Some(expected)
                      && BoundFrom(json, tokens, model, expected, i + 1, child + 1, true)
  {
  }

  /** The scan over a value and what is nested in it. */
  lemma BoundValue(json: bytes, tokens: seq<Token>, model: bytes, expected: bytes, i: nat, after: nat, child: nat, found: bool)
    requires i < after <= |tokens| && child % 2 == 1 && tokens[i].parent == 0
    requires forall k :: i < k < after ==> tokens[k].parent != 0
    ensures BoundFrom(json, tokens, model, expected, i, child, found) == BoundFrom(json, tokens, model, expected, after, child + 1, found)
  {
    SkipNested(json, tokens, model, expected, i + 1, after, child + 1, found);
  }

  /** The string of a value token is the string of the document's value. */
  lemma ValueString(json: bytes, tokens: seq<Token>, value: Node, base: nat, at: nat, capacity: nat)
    requires base > 0 && IsJson(value) && Holds(tokens, base, Preorder(value, 0, base, at)) && At(json, at, Render(value))
    ensures base < |tokens| && TokenString(json, tokens[base], capacity) == NodeString(value, capacity)
  {
    HoldsAt(tokens, base, Preorder(value, 0, base, at), 0);
    if value.String? { TokenText(json, value.raw, at, tokens[base]); }
  }

  lemma {:induction false} BoundScan(json: bytes, tokens: seq<Token>, parts: Parts, base: nat, at: nat, end: nat,
                                     child: nat, model: bytes, expected: bytes, found: bool)
    requires Laid(json, tokens, parts, 0, base, at, |tokens|, end) && child % 2 == 0
    ensures BoundFrom(json, tokens, model, expected, base, child, found) == BoundParts(parts, model, expected, found)
    decreases parts
  {
    if parts.Then? {
      var after := base + 1 + Size(parts.rest.first);
      BoundMember(json, tokens, parts, base, at, end, child, model, expected, found);
      BoundScan(json, tokens, parts.rest.rest, after, ValueEnd(parts, at), end, child + 2, model, expected, found);
      BoundScan(json, tokens, parts.rest.rest, after, ValueEnd(parts, at), end, child + 2, model, expected, true);
    }
  }

  lemma BoundMember(json: bytes, tokens: seq<Token>, parts: Parts, base: nat, at: nat, end: nat,
                    child: nat, model: bytes, expected: bytes, found: bool)
    requires parts.Then? && Laid(json, tokens, parts, 0, base, at, |tokens|, end) && child % 2 == 0
    ensures var after := base + 1 + Size(parts.rest.first);
            && Laid(json, tokens, parts.rest.rest, 0, after, ValueEnd(parts, at), |tokens|, end)
            && BoundFrom(json, tokens, model, expected, base, child, found)
               == match PlainString(parts.first.raw, KEY_MAX)
                  case None => false
                  case Some(key) =>
                    if key != model then BoundFrom(json, tokens, model, expected, after, child + 2, found)
                    else !found && NodeString(parts.rest.first, KEY_MAX) == Some(expected)
                         && BoundFrom(json, tokens, model, expected, after, child + 2, true)
  {
    OneMember(json, tokens, parts, 0, base, at, |tokens|, end);
    ValueString(json, tokens, parts.rest.first, base + 1, ValueAt(parts, at), KEY_MAX);
    BoundStep(json, tokens, model, expected, base, base + 1 + Size(parts.rest.first), child, found);
  }

  function KeyText(parts: Parts, k: nat): Option<bytes>
    requires Paired(parts) && k < |Pairs(parts)|
  {
    PlainString(Pairs(parts)[k].0, KEY_MAX)
  }

  ghost predicate OnlyModel(parts: Parts, model: bytes, expected: bytes, k: nat)
    requires Paired(parts)
  {
    && k < |Pairs(parts)| && KeyText(parts, k) == Some(model) && NodeString(Pairs(parts)[k].1, KEY_MAX) == Some(expected)
    && forall j :: 0 <= j < |Pairs(parts)| && j != k ==> KeyText(parts, j) != Some(model)
  }

  ghost predicate KeysReadable(parts: Parts)
    requires Paired(parts)
  {
    forall k :: 0 <= k < |Pairs(parts)| ==> KeyText(parts, k).Some?
  }

  ghost predicate NoModel(parts: Parts, model: bytes)
    requires Paired(parts)
  {
    forall k :: 0 <= k < |Pairs(parts)| ==> KeyText(parts, k) != Some(model)
  }

  /** Every top-level key is readable, exactly one is the model's, and its value is the
      expected string. */
  ghost predicate NamesModel(parts: Parts, model: bytes, expected: bytes)
    requires Paired(parts)
  {
    KeysReadable(parts) && exists k: nat :: OnlyModel(parts, model, expected, k)
  }

  /** The members after the first are those of the rest, one place on. */
  lemma KeyShift(parts: Parts, k: nat)
    requires Paired(parts) && parts.Then?
    ensures KeyText(parts, 0) == PlainString(parts.first.raw, KEY_MAX) && Pairs(parts)[0].1 == parts.rest.first
    ensures |Pairs(parts)| == |Pairs(parts.rest.rest)| + 1
    ensures k < |Pairs(parts.rest.rest)| ==>
              Pairs(parts)[k + 1] == Pairs(parts.rest.rest)[k] && KeyText(parts, k + 1) == KeyText(parts.rest.rest, k)
  {
  }

  lemma {:induction false} FoundMeaning(parts: Parts, model: bytes, expected: bytes)
    requires Paired(parts)
    ensures BoundParts(parts, model, expected, true) <==> KeysReadable(parts) && NoModel(parts, model)
  {
    if parts.Then? {
      FoundMeaning(parts.rest.rest, model, expected);
      KeyShift(parts, 0);
      ReadableShift(parts);
      AbsentShift(parts, model);
    }
  }

  lemma ReadableShift(parts: Parts)
    requires Paired(parts) && parts.Then?
    ensures KeysReadable(parts) <==> KeyText(parts, 0).Some? && KeysReadable(parts.rest.rest)
  {
    var rest := parts.rest.rest;
    KeyShift(parts, 0);
    if KeysReadable(parts) {
      forall k | 0 <= k < |Pairs(rest)| ensures KeyText(rest, k).Some? { KeyShift(parts, k); }
    }
    if KeyText(parts, 0).Some? && KeysReadable(rest) {
      forall k | 0 <= k < |Pairs(parts)| ensures KeyText(parts, k).Some? {
        if k > 0 { KeyShift(parts, k - 1); }
      }
    }
  }

  lemma AbsentShift(parts: Parts, model: bytes)
    requires Paired(parts) && parts.Then?
    ensures NoModel(parts, model) <==> KeyText(parts, 0) != Some(model) && NoModel(parts.rest.rest, model)
  {
    var rest := parts.rest.rest;
    KeyShift(parts, 0);
    if NoModel(parts, model) {
      forall k | 0 <= k < |Pairs(rest)| ensures KeyText(rest, k) != Some(model) { KeyShift(parts, k); }
    }
    if KeyText(parts, 0) != Some(model) && NoModel(rest, model) {
      forall k | 0 <= k < |Pairs(parts)| ensures KeyText(parts, k) != Some(model) {
        if k > 0 { KeyShift(parts, k - 1); }
      }
    }
  }

  lemma {:induction false} BoundMeaning(parts: Parts, model: bytes, expected: bytes)
    requires Paired(parts)
    ensures BoundParts(parts, model, expected, false) <==> NamesModel(parts, model, expected)
  {
    if parts.Then? {
      var rest := parts.rest.rest;
      BoundMeaning(rest, model, expected);
      FoundMeaning(rest, model, expected);
      KeyShift(parts, 0);
      ReadableShift(parts);
      if KeyText(parts, 0) == Some(model) {
        HeadModel(parts, model, expected);
      } else {
        TailModel(parts, model, expected);
      }
    }
  }

  lemma HeadModel(parts: Parts, model: bytes, expected: bytes)
    requires Paired(parts) && parts.Then? && KeyText(parts, 0) == Some(model)
    ensures NamesModel(parts, model, expected)
            <==> KeysReadable(parts) && NodeString(parts.rest.first, KEY_MAX) == Some(expected) && NoModel(parts.rest.rest, model)
  {
    KeyShift(parts, 0);
    var rest := parts.rest.rest;
    if NamesModel(parts, model, expected) {
      var k: nat :| OnlyModel(parts, model, expected, k);
      assert k == 0;
      forall j | 0 <= j < |Pairs(rest)| ensures KeyText(rest, j) != Some(model) { KeyShift(parts, j); }
    }
    if KeysReadable(parts) && NodeString(parts.rest.first, KEY_MAX) == Some(expected) && NoModel(rest, model) {
      forall j | 0 <= j < |Pairs(parts)| && j != 0 ensures KeyText(parts, j) != Some(model) { KeyShift(parts, j - 1); }
      assert OnlyModel(parts, model, expected, 0);
    }
  }

  lemma OnlyShift(parts: Parts, model: bytes, expected: bytes, k: nat)
    requires Paired(parts) && parts.Then? && KeyText(parts, 0) != Some(model)
    ensures OnlyModel(parts, model, expected, k + 1) <==> OnlyModel(parts.rest.rest, model, expected, k)
  {
    var rest := parts.rest.rest;
    KeyShift(parts, k);
    if OnlyModel(parts, model, expected, k + 1) {
      forall j | 0 <= j < |Pairs(rest)| && j != k ensures KeyText(rest, j) != Some(model) { KeyShift(parts, j); }
    }
    if OnlyModel(rest, model, expected, k) {
      forall j | 0 <= j < |Pairs(parts)| && j != k + 1 ensures KeyText(parts, j) != Some(model) {
        if j > 0 { KeyShift(parts, j - 1); }
      }
    }
  }

  lemma TailModel(parts: Parts, model: bytes, expected: bytes)
    requires Paired(parts) && parts.Then? && KeyText(parts, 0) != Some(model)
    ensures NamesModel(parts, model, expected) <==> KeyText(parts, 0).Some? && NamesModel(parts.rest.rest, model, expected)
  {
    ReadableShift(parts);
    if NamesModel(parts, model, expected) {
      var k: nat :| OnlyModel(parts, model, expected, k);
      assert k > 0;
      OnlyShift(parts, model, expected, k - 1);
    }
    if KeyText(parts, 0).Some? && NamesModel(parts.rest.rest, model, expected) {
      var k: nat :| OnlyModel(parts.rest.rest, model, expected, k);
      OnlyShift(parts, model, expected, k);
    }
  }

  /** A request is accepted exactly when one top-level member names the expected model; what
      is nested in messages or tools does not count. */
  lemma BoundModelExactly(n: Node, before: bytes, after: bytes, tokens: seq<Token>, model: bytes, expected: bytes)
    requires n.Container? && !n.list && IsJson(n) && Blank(before) && Blank(after)
    requires tokens == Preorder(n, -1, 0, |before|)
    ensures Paired(n.parts)
    ensures BoundFrom(before + Render(n) + after, tokens, model, expected, 1, 0, false) <==> NamesModel(n.parts, model, expected)
  {
    var json := before + Render(n) + after;
    RootLaid(n, before, after, tokens);
    BoundScan(json, tokens, n.parts, 1, |before| + 1, |before| + 1 + |RenderParts(n.parts)|, 0, model, expected, false);
    BoundMeaning(n.parts, model, expected);
  }

  const TOKENS_MAX: nat := 32768

  /** The whole check on a body: one JSON object, tokenized into 32768 tokens, then scanned. */
  predicate BoundText(json: bytes, model: bytes, expected: bytes) {
    JsonGrammar.ValidText(json, OPEN_OBJECT) &&
    match Tokenize(json, TOKENS_MAX)
    case None => false
    case Some(tokens) => BoundFrom(json, tokens, model, expected, 1, 0, false)
  }

  method CheckModel(json: bytes, model: bytes, expected: bytes) returns (ok: bool)
    ensures ok <==> BoundText(json, model, expected)
  {
    var valid := JsonGrammar.Validate(json, OPEN_OBJECT);
    if !valid { return false; }
    var tokens := new Token[TOKENS_MAX];
    var count := TokenizeInto(json, tokens);
    if count < 0 { return false; }
    ok := BoundModel(json, tokens[..count], model, expected);
  }

  /** The document is an object that fits the token buffer and names the expected model. */
  ghost predicate ObjectNames(n: Node, model: bytes, expected: bytes) {
    n.Container? && Paired(n.parts) && Size(n) <= TOKENS_MAX && NamesModel(n.parts, model, expected)
  }

  lemma DocumentNames(json: bytes, n: Node, before: bytes, after: bytes, model: bytes, expected: bytes)
    requires JsonGrammar.Complete(json, OPEN_OBJECT, n, before, after)
    ensures BoundText(json, model, expected) <==> ObjectNames(n, model, expected)
  {
    hide NamesModel, JsonGrammar.ValidText, JsonGrammar.Proper, Tokenize, IsJson, Preorder;
    JsonGrammar.DocumentAccepted(json, OPEN_OBJECT, n, before, after);
    JsonGrammar.ObjectBegins(n);
    TokenizeDocument(n, before, after, TOKENS_MAX);
    BoundModelExactly(n, before, after, Preorder(n, -1, 0, |before|), model, expected);
  }

  /** From the text to the members, for every text: a body passes exactly when it is one JSON
      object that fits the token buffer and has one top-level member naming the expected
      model. */
  lemma BoundTextExactly(json: bytes, model: bytes, expected: bytes)
    ensures BoundText(json, model, expected)
            <==> exists n, before, after ::
                   JsonGrammar.Complete(json, OPEN_OBJECT, n, before, after) && ObjectNames(n, model, expected)
  {
    if BoundText(json, model, expected) {
      var n, before, after := JsonGrammar.DocumentFound(json, OPEN_OBJECT);
      DocumentNames(json, n, before, after, model, expected);
    }
    hide BoundText, ObjectNames, JsonGrammar.Complete;
    forall n, before, after | JsonGrammar.Complete(json, OPEN_OBJECT, n, before, after)
      ensures BoundText(json, model, expected) <==> ObjectNames(n, model, expected)
    {
      DocumentNames(json, n, before, after, model, expected);
    }
  }

  // ----- The body of a worker -----

  predicate IsObjectText(body: bytes) { JsonGrammar.ValidText(body, OPEN_OBJECT) }

  ghost predicate IsObject(body: bytes) {
    exists n, before, after :: JsonGrammar.Complete(body, OPEN_OBJECT, n, before, after)
  }

  /** With the real check for the parameter: the worker takes a body exactly when its reads
      form an envelope of it and it is one JSON object. */
  lemma BodyIsObject(input: seq<bytes>, verdict: BodyDecoder.Verdict, body: bytes)
    requires BodyDecoder.Answers(input, IsObjectText, verdict)
    ensures verdict == BodyDecoder.Body(body) <==> BodyDecoder.AcceptsReads(input, body) && IsObject(body)
    ensures BodyDecoder.AcceptsReads(input, body) && !IsObject(body) ==> verdict.NotAnObject?
  {
    hide BodyDecoder.AcceptsReads, JsonGrammar.ValidText, JsonGrammar.Complete;
    JsonGrammar.ValidExactly(body, OPEN_OBJECT);
    assert IsObjectText(body) <==> IsObject(body);
  }
}
