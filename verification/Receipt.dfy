/** The readiness receipt of an owned server: one flat JSON object with fourteen agreed
    members, in any order, each with its agreed value and nothing else. */
module Receipt {
  import opened Prelude
  import opened JsonTokens
  import opened JsonLookup
  import JsonGrammar
  import Readiness

  const KEYS: nat := 14
  const TEXT_MAX: nat := 192
  const INTEGER_MAX: nat := 48

  datatype Check = Integer(value: int) | Text(text: bytes) | Literal(word: bytes)

  datatype Entry = Entry(name: bytes, check: Check)

  /** What the launch agreed on: fourteen different names. */
  ghost predicate Agreed(entries: seq<Entry>) {
    |entries| == KEYS && forall i, j :: 0 <= i < j < |entries| ==> entries[i].name != entries[j].name
  }

  // ----- Values -----

  predicate Digits(s: bytes) { s != [] && forall i :: 0 <= i < |s| ==> 0x30 <= s[i] <= 0x39 }

  function Natural(s: bytes): nat
    requires forall i :: 0 <= i < |s| ==> 0x30 <= s[i] <= 0x39
  {
    if s == [] then 0 else Natural(s[..|s| - 1]) * 10 + (s[|s| - 1] as int - 0x30)
  }

  /** `strtoll` over the whole word; what does not fit 64 bits is no integer. */
  function IntegerOf(raw: bytes): Option<int> {
    var negative := raw != [] && raw[0] == 0x2d;
    var digits := if raw != [] && (raw[0] == 0x2d || raw[0] == 0x2b) then raw[1..] else raw;
    if !Digits(digits) || |raw| >= INTEGER_MAX then None
    else
      var value: int := if negative then -(Natural(digits) as int) else Natural(digits);
      if -0x8000_0000_0000_0000 <= value <= 0x7fff_ffff_ffff_ffff then Some(value) else None
  }

  predicate Meets(isString: bool, raw: bytes, check: Check) {
    match check
    case Integer(value) => !isString && IntegerOf(raw) == Some(value)
    case Text(text) => isString && PlainString(raw, TEXT_MAX) == Some(text)
    case Literal(word) => !isString && raw == word
  }

  /** A member of the document meets an agreed entry. */
  predicate Member(pair: (bytes, Node), entry: Entry) {
    pair.0 == entry.name && !pair.1.Container? && Meets(pair.1.String?, pair.1.raw, entry.check)
  }

  /** The index of the agreed name, |entries| for an unknown one. */
  function IndexOf(entries: seq<Entry>, name: bytes, from: nat): (k: nat)
    requires from <= |entries|
    ensures from <= k <= |entries| && (k < |entries| ==> entries[k].name == name)
    ensures forall j :: from <= j < k ==> entries[j].name != name
    decreases |entries| - from
  {
    if from == |entries| || entries[from].name == name then from else IndexOf(entries, name, from + 1)
  }

  // ----- The loop over the token array -----

  predicate PairTokens(tokens: seq<Token>, i: nat) {
    && i + 1 < |tokens| && tokens[i].parent == 0 && tokens[i + 1].parent == 0 && tokens[i].kind.StringToken?
    && (tokens[i + 1].kind.StringToken? || tokens[i + 1].kind.WordToken?)
  }

  predicate TokenMeets(json: bytes, tokens: seq<Token>, i: nat, check: Check)
    requires i < |tokens|
  {
    Meets(tokens[i].kind.StringToken?, RawText(json, tokens[i]), check)
  }

  /** Key and value tokens two by two; `seen` are the entries met so far. */
  function ScanFrom(json: bytes, tokens: seq<Token>, entries: seq<Entry>, i: nat, seen: set<int>): Option<set<int>>
    decreases |tokens| - i
  {
    if i >= |tokens| then Some(seen)
    else if !PairTokens(tokens, i) then None
    else
      var k := IndexOf(entries, RawText(json, tokens[i]), 0);
      if k == |entries| || k in seen || !TokenMeets(json, tokens, i + 1, entries[k].check) then None
      else ScanFrom(json, tokens, entries, i + 2, seen + {k})
  }

  predicate Full(seen: set<int>, n: nat) { forall k: int :: 0 <= k < n ==> k in seen }

  method ScanTokens(json: bytes, tokens: seq<Token>, entries: seq<Entry>) returns (all: Option<set<int>>)
    ensures all == ScanFrom(json, tokens, entries, 1, {})
  {
    var seen: set<int> := {};
    var i: nat := 1;
    while i < |tokens|
      invariant ScanFrom(json, tokens, entries, i, seen) == ScanFrom(json, tokens, entries, 1, {})
      decreases |tokens| - i
    {
      if !PairTokens(tokens, i) { return None; }
      var k := IndexOf(entries, RawText(json, tokens[i]), 0);
      if k == |entries| || k in seen || !TokenMeets(json, tokens, i + 1, entries[k].check) { return None; }
      seen := seen + {k};
      i := i + 2;
    }
    return Some(seen);
  }

  method NothingMissing(seen: set<int>, n: nat) returns (ok: bool)
    ensures ok <==> Full(seen, n)
  {
    ok := true;
    for k := 0 to n
      invariant ok <==> forall j: int :: 0 <= j < k ==> j in seen
    {
      if k !in seen { ok := false; }
    }
  }

  /** The receipt check: a flat array of known, distinct members that leaves none out. */
  method ReceiptMatches(json: bytes, tokens: seq<Token>, entries: seq<Entry>) returns (ok: bool)
    ensures var seen := ScanFrom(json, tokens, entries, 1, {});
            ok <==> tokens != [] && tokens[0].kind.ObjectToken? && seen.Some? && Full(seen.value, |entries|)
  {
    if tokens == [] || !tokens[0].kind.ObjectToken? { return false; }
    var seen := ScanTokens(json, tokens, entries);
    if seen.None? { return false; }
    ok := NothingMissing(seen.value, |entries|);
  }

  // ----- The same over the document -----

  function ScanPairs(pairs: seq<(bytes, Node)>, entries: seq<Entry>, seen: set<int>): Option<set<int>>
    decreases |pairs|
  {
    if pairs == [] then Some(seen)
    else
      var k := IndexOf(entries, pairs[0].0, 0);
      if pairs[0].1.Container? || k == |entries| || k in seen || !Meets(pairs[0].1.String?, pairs[0].1.raw, entries[k].check)
      then None
      else ScanPairs(pairs[1..], entries, seen + {k})
  }

  /** A value token shows the kind and the text of the value. */
  lemma ValueToken(json: bytes, tokens: seq<Token>, value: Node, base: nat, at: nat)
    requires base > 0 && IsJson(value) && Holds(tokens, base, Preorder(value, 0, base, at)) && At(json, at, Render(value))
    ensures base < |tokens| && (tokens[base].kind.StringToken? <==> value.String?) && (tokens[base].kind.WordToken? <==> value.Word?)
    ensures !value.Container? ==> RawText(json, tokens[base]) == value.raw
  {
    HoldsAt(tokens, base, Preorder(value, 0, base, at), 0);
    if value.String? { TokenText(json, value.raw, at, tokens[base]); }
  }

  lemma {:induction false} ScanAgrees(json: bytes, tokens: seq<Token>, parts: Parts, base: nat, at: nat, end: nat,
                                      entries: seq<Entry>, seen: set<int>)
    requires Laid(json, tokens, parts, 0, base, at, |tokens|, end)
    ensures ScanFrom(json, tokens, entries, base, seen) == ScanPairs(Pairs(parts), entries, seen)
    decreases parts
  {
    if parts.Then? {
      PairAgrees(json, tokens, parts, base, at, end, entries, seen);
      assert Pairs(parts)[1..] == Pairs(parts.rest.rest);
      if !parts.rest.first.Container? {
        var k := IndexOf(entries, parts.first.raw, 0);
        ScanAgrees(json, tokens, parts.rest.rest, base + 2, ValueEnd(parts, at), end, entries, seen + {k});
      }
    }
  }

  lemma PairAgrees(json: bytes, tokens: seq<Token>, parts: Parts, base: nat, at: nat, end: nat, entries: seq<Entry>, seen: set<int>)
    requires parts.Then? && Laid(json, tokens, parts, 0, base, at, |tokens|, end)
    ensures base + 1 < |tokens| && (PairTokens(tokens, base) <==> !parts.rest.first.Container?)
    ensures RawText(json, tokens[base]) == parts.first.raw
    ensures !parts.rest.first.Container? ==>
              && Laid(json, tokens, parts.rest.rest, 0, base + 2, ValueEnd(parts, at), |tokens|, end)
              && forall check :: TokenMeets(json, tokens, base + 1, check) <==> Meets(parts.rest.first.String?, parts.rest.first.raw, check)
  {
    OneMember(json, tokens, parts, 0, base, at, |tokens|, end);
    ValueToken(json, tokens, parts.rest.first, base + 1, ValueAt(parts, at));
  }

  // ----- What it accepts -----

  ghost predicate Covered(pairs: seq<(bytes, Node)>, entry: Entry) {
    exists k :: 0 <= k < |pairs| && Member(pairs[k], entry)
  }

  /** As many members as entries, and a member for every entry: no order is prescribed. */
  ghost predicate Complete(pairs: seq<(bytes, Node)>, entries: seq<Entry>) {
    |pairs| == |entries| && forall j: nat :: j < |entries| ==> Covered(pairs, entries[j])
  }

  /** The entries still to be met. */
  ghost predicate Remaining(pairs: seq<(bytes, Node)>, entries: seq<Entry>, seen: set<int>) {
    && |seen| + |pairs| == |entries| && (forall k :: k in seen ==> 0 <= k < |entries|)
    && forall j: nat :: j < |entries| && j !in seen ==> Covered(pairs, entries[j])
  }

  lemma {:induction false} ScannedMeansComplete(pairs: seq<(bytes, Node)>, entries: seq<Entry>, seen: set<int>)
    requires Agreed(entries) && (forall k :: k in seen ==> 0 <= k < |entries|)
    requires ScanPairs(pairs, entries, seen).Some? && Full(ScanPairs(pairs, entries, seen).value, |entries|)
    ensures Remaining(pairs, entries, seen)
    decreases |pairs|
  {
    if pairs == [] {
      AllSeen(seen, |entries|);
    } else {
      var k := IndexOf(entries, pairs[0].0, 0);
      ScannedMeansComplete(pairs[1..], entries, seen + {k});
      assert Member(pairs[0], entries[k]);
      forall j: nat | j < |entries| && j !in seen ensures Covered(pairs, entries[j]) {
        if j != k {
          assert Covered(pairs[1..], entries[j]);
          var i :| 0 <= i < |pairs[1..]| && Member(pairs[1..][i], entries[j]);
          assert Member(pairs[i + 1], entries[j]);
        }
      }
    }
  }

  lemma AllSeen(seen: set<int>, n: nat)
    requires Full(seen, n) && forall k :: k in seen ==> 0 <= k < n
    ensures |seen| == n
  {
    RangeSize(0, n - 1);
    assert seen == Range(0, n - 1);
  }

  /** More entries than members: some entry is not covered. */
  lemma {:induction false} Pigeonhole(names: set<int>, places: set<int>, place: map<int, int>)
    requires forall j :: j in names ==> j in place && place[j] in places
    requires forall i, j :: i in names && j in names && i != j ==> place[i] != place[j]
    ensures |names| <= |places|
    decreases |names|
  {
    if names != {} {
      var j := AnyOf(names);
      Pigeonhole(names - {j}, places - {place[j]}, place);
    }
  }

  ghost function PlaceOf(pairs: seq<(bytes, Node)>, entry: Entry): (k: nat)
    requires Covered(pairs, entry)
    ensures k < |pairs| && Member(pairs[k], entry)
  {
    var k :| 0 <= k < |pairs| && Member(pairs[k], entry);
    k
  }

  /** The next member is one of the entries still to be met. */
  lemma NextIsWanted(pairs: seq<(bytes, Node)>, entries: seq<Entry>, seen: set<int>) returns (j: nat)
    requires Agreed(entries) && Remaining(pairs, entries, seen) && pairs != []
    ensures j < |entries| && j !in seen && Member(pairs[0], entries[j])
  {
    hide Meets, IndexOf;
    if j: nat :| j < |entries| && j !in seen && Member(pairs[0], entries[j]) { return j; }
    var missing := set k | k in Range(0, |entries| - 1) && k !in seen;
    var place := map k | k in missing :: PlaceOf(pairs, entries[k]) as int;
    forall a, b | a in missing && b in missing && a != b ensures place[a] != place[b] {
      assert entries[a].name != entries[b].name;
    }
    Pigeonhole(missing, Range(1, |pairs| - 1), place);
    RangeSize(1, |pairs| - 1);
    MissingSize(missing, seen, |entries|);
  }

  lemma MissingSize(missing: set<int>, seen: set<int>, n: nat)
    requires (forall k: int :: k in missing <==> 0 <= k < n && k !in seen) && forall k :: k in seen ==> 0 <= k < n
    ensures |missing| == n - |seen|
  {
    RangeSize(0, n - 1);
    assert Range(0, n - 1) == missing + seen && missing !! seen;
  }

  lemma {:induction false} CompleteMeansScanned(pairs: seq<(bytes, Node)>, entries: seq<Entry>, seen: set<int>)
    requires Agreed(entries) && Remaining(pairs, entries, seen)
    ensures ScanPairs(pairs, entries, seen).Some? && Full(ScanPairs(pairs, entries, seen).value, |entries|)
    decreases |pairs|
  {
    if pairs == [] {
      SeenIsFull(seen, |entries|);
    } else {
      var j := NextIsWanted(pairs, entries, seen);
      var k := IndexOf(entries, pairs[0].0, 0);
      assert k == j;
      forall i: nat | i < |entries| && i !in seen + {j} ensures Covered(pairs[1..], entries[i]) {
        assert Covered(pairs, entries[i]);
        var p :| 0 <= p < |pairs| && Member(pairs[p], entries[i]);
        assert entries[i].name != entries[j].name;
        assert Member(pairs[1..][p - 1], entries[i]);
      }
      CompleteMeansScanned(pairs[1..], entries, seen + {j});
    }
  }

  lemma SeenIsFull(seen: set<int>, n: nat)
    requires |seen| == n && forall k :: k in seen ==> 0 <= k < n
    ensures Full(seen, n)
  {
    forall k: nat | k < n ensures k in seen {
      if k !in seen {
        RangeSize(0, n - 1);
        CardinalityMonotone(seen + {k as int}, Range(0, n - 1));
      }
    }
  }

  /** The receipt check accepts exactly the complete receipts: fourteen members, flat, each
      agreed entry among them, in any order. */
  lemma ReceiptExactly(n: Node, before: bytes, after: bytes, tokens: seq<Token>, entries: seq<Entry>)
    requires n.Container? && !n.list && IsJson(n) && Blank(before) && Blank(after) && Agreed(entries)
    requires tokens == Preorder(n, -1, 0, |before|)
    ensures Paired(n.parts)
    ensures var seen := ScanFrom(before + Render(n) + after, tokens, entries, 1, {});
            seen.Some? && Full(seen.value, |entries|) <==> Complete(Pairs(n.parts), entries)
  {
    var json := before + Render(n) + after;
    RootLaid(n, before, after, tokens);
    var pairs := Pairs(n.parts);
    ScanAgrees(json, tokens, n.parts, 1, |before| + 1, |before| + 1 + |RenderParts(n.parts)|, entries, {});
    var seen := ScanPairs(pairs, entries, {});
    if seen.Some? && Full(seen.value, |entries|) { ScannedMeansComplete(pairs, entries, {}); }
    if Complete(pairs, entries) { CompleteMeansScanned(pairs, entries, {}); }
  }

  /** The order of the members does not matter. */
  lemma AnyOrderWillDo(pairs: seq<(bytes, Node)>, permuted: seq<(bytes, Node)>, entries: seq<Entry>)
    requires multiset(pairs) == multiset(permuted)
    ensures Complete(pairs, entries) <==> Complete(permuted, entries)
  {
    assert |pairs| == |multiset(pairs)| && |permuted| == |multiset(permuted)|;
    if Complete(pairs, entries) { OrderIrrelevant(pairs, permuted, entries); }
    if Complete(permuted, entries) { OrderIrrelevant(permuted, pairs, entries); }
  }

  lemma OrderIrrelevant(pairs: seq<(bytes, Node)>, permuted: seq<(bytes, Node)>, entries: seq<Entry>)
    requires multiset(pairs) == multiset(permuted) && |pairs| == |permuted| && Complete(pairs, entries)
    ensures Complete(permuted, entries)
  {
    forall j: nat | j < |entries| ensures Covered(permuted, entries[j]) {
      assert Covered(pairs, entries[j]);
      var k :| 0 <= k < |pairs| && Member(pairs[k], entries[j]);
      assert pairs[k] in multiset(permuted);
      var i :| 0 <= i < |permuted| && permuted[i] == pairs[k];
      assert Member(permuted[i], entries[j]);
    }
  }

  // ----- The agreed receipt, version 1 -----

  /** What a launch knows: the child's pid, the configured port and context, and the
      identities of the model and vision files. */
  datatype Launch = Launch(pid: int, port: int, context: int, model: bytes, vision: bytes)

  function Name(k: nat): bytes
    requires k < KEYS
  {
    match k
    case 0 => [0x76, 0x65, 0x72, 0x73, 0x69, 0x6f, 0x6e]
    case 1 => [0x65, 0x76, 0x65, 0x6e, 0x74]
    case 2 => [0x70, 0x69, 0x64]
    case 3 => [0x68, 0x6f, 0x73, 0x74]
    case 4 => [0x70, 0x6f, 0x72, 0x74]
    case 5 => [0x63, 0x6f, 0x6e, 0x74, 0x65, 0x78, 0x74]
    case 6 => [0x6d, 0x6f, 0x64, 0x65, 0x6c]
    case 7 => [0x62, 0x61, 0x63, 0x6b, 0x65, 0x6e, 0x64]
    case 8 => [0x63, 0x61, 0x63, 0x68, 0x65, 0x5f, 0x6b]
    case 9 => [0x63, 0x61, 0x63, 0x68, 0x65, 0x5f, 0x76]
    case 10 => [0x73, 0x73, 0x64, 0x5f, 0x73, 0x74, 0x72, 0x65, 0x61, 0x6d, 0x69, 0x6e, 0x67]
    case 11 => [0x6d, 0x6f, 0x64, 0x65, 0x6c, 0x5f, 0x66, 0x69, 0x6c, 0x65]
    case 12 => [0x76, 0x69, 0x73, 0x69, 0x6f, 0x6e, 0x5f, 0x66, 0x69, 0x6c, 0x65]
    case _ => [0x6d, 0x74, 0x70, 0x5f, 0x66, 0x69, 0x6c, 0x65]
  }

  function CheckOf(l: Launch, k: nat): Check
    requires k < KEYS
  {
    match k
    case 0 => Integer(1)
    case 1 => Text([0x72, 0x65, 0x61, 0x64, 0x79])
    case 2 => Integer(l.pid)
    case 3 => Text([0x31, 0x32, 0x37, 0x2e, 0x30, 0x2e, 0x30, 0x2e, 0x31])
    case 4 => Integer(l.port)
    case 5 => Integer(l.context)
    case 6 => Text([0x71, 0x77, 0x65, 0x6e, 0x33, 0x2e, 0x38, 0x2d, 0x32, 0x37, 0x62])
    case 7 => Text([0x6d, 0x65, 0x74, 0x61, 0x6c])
    case 8 => Text([0x66, 0x31, 0x36])
    case 9 => Text([0x66, 0x31, 0x36])
    case 10 => Literal([0x66, 0x61, 0x6c, 0x73, 0x65])
    case 11 => Text(l.model)
    case 12 => Text(l.vision)
    case _ => Text([])
  }

  function AgreedReceipt(l: Launch): (entries: seq<Entry>)
    ensures |entries| == KEYS && forall k :: 0 <= k < KEYS ==> entries[k] == Entry(Name(k), CheckOf(l, k))
  {
    seq(KEYS, k requires 0 <= k < KEYS => Entry(Name(k), CheckOf(l, k)))
  }

  /** The fourteen names differ, in length or in one of three letters. */
  lemma NamesDiffer(j: nat, k: nat)
    requires j < k < KEYS
    ensures Name(j) != Name(k)
  {
    assert |Name(j)| == |Name(k)| ==>
        Name(j)[0] != Name(k)[0] || Name(j)[1] != Name(k)[1] || Name(j)[|Name(j)| - 1] != Name(k)[|Name(k)| - 1];
  }

  lemma ReceiptIsAgreed(l: Launch)
    ensures Agreed(AgreedReceipt(l))
  {
    forall j: nat, k: nat | j < k < KEYS ensures AgreedReceipt(l)[j].name != AgreedReceipt(l)[k].name { NamesDiffer(j, k); }
  }

  // ----- What the agreed receipt says -----

  function TenTo(n: nat): nat { if n == 0 then 1 else 10 * TenTo(n - 1) }

  /** The number that decimal digits write: each digit counts by its place. */
  function Value(digits: bytes): nat
    requires forall i :: 0 <= i < |digits| ==> 0x30 <= digits[i] <= 0x39
  {
    if digits == [] then 0 else (digits[0] - 0x30) * TenTo(|digits| - 1) + Value(digits[1..])
  }

  lemma {:induction false} NaturalByPlace(digits: bytes)
    requires forall i :: 0 <= i < |digits| ==> 0x30 <= digits[i] <= 0x39
    ensures Natural(digits) == Value(digits)
  {
    if digits != [] {
      NaturalByPlace(digits[1..]);
      FirstDigit(digits);
    }
  }

  lemma {:induction false} FirstDigit(digits: bytes)
    requires digits != [] && forall i :: 0 <= i < |digits| ==> 0x30 <= digits[i] <= 0x39
    ensures Natural(digits) == (digits[0] - 0x30) * TenTo(|digits| - 1) + Natural(digits[1..])
  {
    var front := digits[..|digits| - 1];
    if |digits| == 1 {
      assert front == [] && digits[1..] == [];
    } else {
      FirstDigit(front);
      var rest := digits[1..];
      assert rest[..|rest| - 1] == front[1..] && rest[|rest| - 1] == digits[|digits| - 1];
      var d, power := digits[0] - 0x30, TenTo(|front| - 1);
      assert d * power * 10 == d * (10 * power);
    }
  }

  /** A word of an optional sign and decimal digits that writes this 64-bit integer. */
  ghost predicate IsInteger(raw: bytes, value: int) {
    |raw| < 48 && -0x8000_0000_0000_0000 <= value < 0x8000_0000_0000_0000 && exists digits :: Writes(digits, raw, value)
  }

  /** These digits, with a sign or without, write the word and the value. */
  predicate Writes(digits: bytes, raw: bytes, value: int) {
    && Digits(digits)
    && ((raw == digits && value == Value(digits)) || (raw == [0x2b] + digits && value == Value(digits))
        || (raw == [0x2d] + digits && value == -(Value(digits) as int)))
  }

  lemma IntegerMeaning(raw: bytes, value: int)
    ensures IntegerOf(raw) == Some(value) <==> IsInteger(raw, value)
  {
    if IntegerOf(raw) == Some(value) { IntegerWritten(raw, value); }
    if IsInteger(raw, value) {
      var digits :| Writes(digits, raw, value);
      IntegerRead(digits, raw, value);
    }
  }

  lemma IntegerWritten(raw: bytes, value: int)
    requires IntegerOf(raw) == Some(value)
    ensures IsInteger(raw, value)
  {
    hide Natural, Value;
    var digits := if raw[0] == 0x2d || raw[0] == 0x2b then raw[1..] else raw;
    NaturalByPlace(digits);
    assert raw[0] == 0x2d || raw[0] == 0x2b ==> raw == [raw[0]] + digits;
    assert Writes(digits, raw, value);
  }

  lemma IntegerRead(digits: bytes, raw: bytes, value: int)
    requires Writes(digits, raw, value) && |raw| < INTEGER_MAX && -0x8000_0000_0000_0000 <= value < 0x8000_0000_0000_0000
    ensures IntegerOf(raw) == Some(value)
  {
    hide Natural, Value;
    NaturalByPlace(digits);
    assert raw == digits || raw[1..] == digits;
  }

  ghost predicate HasInteger(pairs: seq<(bytes, Node)>, name: bytes, value: int) {
    exists k :: 0 <= k < |pairs| && pairs[k].0 == name && pairs[k].1.Word? && IsInteger(pairs[k].1.raw, value)
  }

  ghost predicate HasText(pairs: seq<(bytes, Node)>, name: bytes, text: bytes) {
    && |text| < 192
    && exists k :: 0 <= k < |pairs| && pairs[k].0 == name && pairs[k].1.String? && PlainText(pairs[k].1.raw) == Some(text)
  }

  ghost predicate HasWord(pairs: seq<(bytes, Node)>, name: bytes, word: bytes) {
    exists k :: 0 <= k < |pairs| && pairs[k].0 == name && pairs[k].1 == Word(word)
  }

  /** The members of the receipt, one by one. */
  ghost predicate Says(pairs: seq<(bytes, Node)>, l: Launch) {
    && HasInteger(pairs, Ascii("version"), 1)
    && HasText(pairs, Ascii("event"), Ascii("ready"))
    && HasInteger(pairs, Ascii("pid"), l.pid)
    && HasText(pairs, Ascii("host"), Ascii("127.0.0.1"))
    && HasInteger(pairs, Ascii("port"), l.port)
    && HasInteger(pairs, Ascii("context"), l.context)
    && HasText(pairs, Ascii("model"), Ascii("qwen3.8-27b"))
    && HasText(pairs, Ascii("backend"), Ascii("metal"))
    && HasText(pairs, Ascii("cache_k"), Ascii("f16"))
    && HasText(pairs, Ascii("cache_v"), Ascii("f16"))
    && HasWord(pairs, Ascii("ssd_streaming"), Ascii("false"))
    && HasText(pairs, Ascii("model_file"), l.model)
    && HasText(pairs, Ascii("vision_file"), l.vision)
    && HasText(pairs, Ascii("mtp_file"), [])
  }

  lemma CoveredInteger(pairs: seq<(bytes, Node)>, name: bytes, value: int)
    ensures Covered(pairs, Entry(name, Integer(value))) <==> HasInteger(pairs, name, value)
  {
    hide IsInteger, IntegerOf;
    forall k | 0 <= k < |pairs| && !pairs[k].1.Container?
      ensures IntegerOf(pairs[k].1.raw) == Some(value) <==> IsInteger(pairs[k].1.raw, value)
    {
      IntegerMeaning(pairs[k].1.raw, value);
    }
    if HasInteger(pairs, name, value) {
      var k :| 0 <= k < |pairs| && pairs[k].0 == name && pairs[k].1.Word? && IsInteger(pairs[k].1.raw, value);
      assert Member(pairs[k], Entry(name, Integer(value)));
    }
  }

  lemma CoveredText(pairs: seq<(bytes, Node)>, name: bytes, text: bytes)
    ensures Covered(pairs, Entry(name, Text(text))) <==> HasText(pairs, name, text)
  {
    hide PlainText;
    if HasText(pairs, name, text) {
      var k :| 0 <= k < |pairs| && pairs[k].0 == name && pairs[k].1.String? && PlainText(pairs[k].1.raw) == Some(text);
      assert Member(pairs[k], Entry(name, Text(text)));
    }
  }

  lemma CoveredWord(pairs: seq<(bytes, Node)>, name: bytes, word: bytes)
    ensures Covered(pairs, Entry(name, Literal(word))) <==> HasWord(pairs, name, word)
  {
    if HasWord(pairs, name, word) {
      var k :| 0 <= k < |pairs| && pairs[k].0 == name && pairs[k].1 == Word(word);
      assert Member(pairs[k], Entry(name, Literal(word)));
    }
  }

  lemma NamesOfLaunch()
    ensures Name(0) == Ascii("version") && Name(1) == Ascii("event") && Name(2) == Ascii("pid") && Name(3) == Ascii("host")
  {
  }

  lemma NamesOfServer()
    ensures Name(4) == Ascii("port") && Name(5) == Ascii("context") && Name(6) == Ascii("model") && Name(7) == Ascii("backend")
  {
  }

  lemma NamesOfCache()
    ensures Name(8) == Ascii("cache_k") && Name(9) == Ascii("cache_v") && Name(13) == Ascii("mtp_file")
  {
  }

  lemma NameOfStreaming()
    ensures Name(10) == Ascii("ssd_streaming")
  {
  }

  lemma NamesOfFiles()
    ensures Name(11) == Ascii("model_file") && Name(12) == Ascii("vision_file")
  {
  }

  lemma FixedHost(l: Launch)
    ensures CheckOf(l, 1) == Text(Ascii("ready")) && CheckOf(l, 3) == Text(Ascii("127.0.0.1"))
  {
  }

  lemma FixedModel(l: Launch)
    ensures CheckOf(l, 6) == Text(Ascii("qwen3.8-27b")) && CheckOf(l, 7) == Text(Ascii("metal"))
  {
  }

  lemma FixedCache(l: Launch)
    ensures CheckOf(l, 8) == CheckOf(l, 9) == Text(Ascii("f16")) && CheckOf(l, 10) == Literal(Ascii("false"))
  {
  }

  /** The complete receipt of a launch has fourteen members, and these are they. */
  lemma ReceiptSays(pairs: seq<(bytes, Node)>, l: Launch)
    ensures Complete(pairs, AgreedReceipt(l)) <==> |pairs| == 14 && Says(pairs, l)
  {
    hide Covered, HasInteger, HasText, HasWord, Name, Ascii;
    NamesOfLaunch();
    NamesOfServer();
    NamesOfCache();
    NameOfStreaming();
    NamesOfFiles();
    FixedHost(l);
    FixedModel(l);
    FixedCache(l);
    CoveredInteger(pairs, Name(0), 1);
    CoveredText(pairs, Name(1), Ascii("ready"));
    CoveredInteger(pairs, Name(2), l.pid);
    CoveredText(pairs, Name(3), Ascii("127.0.0.1"));
    CoveredInteger(pairs, Name(4), l.port);
    CoveredInteger(pairs, Name(5), l.context);
    CoveredText(pairs, Name(6), Ascii("qwen3.8-27b"));
    CoveredText(pairs, Name(7), Ascii("metal"));
    CoveredText(pairs, Name(8), Ascii("f16"));
    CoveredText(pairs, Name(9), Ascii("f16"));
    CoveredWord(pairs, Name(10), Ascii("false"));
    CoveredText(pairs, Name(11), l.model);
    CoveredText(pairs, Name(12), l.vision);
    CoveredText(pairs, Name(13), []);
    var entries := AgreedReceipt(l);
    assert forall j: nat :: j < KEYS ==> entries[j] == Entry(Name(j), CheckOf(l, j));
  }

  // ----- The receipt of a server -----

  const TOKENS_MAX: nat := 64

  /** The whole check on a text: one JSON object, tokenized into 64 tokens, then matched. */
  predicate ReceiptText(json: bytes, entries: seq<Entry>) {
    JsonGrammar.ValidText(json, OPEN_OBJECT) &&
    match Tokenize(json, TOKENS_MAX)
    case None => false
    case Some(tokens) =>
      var seen := ScanFrom(json, tokens, entries, 1, {});
      tokens != [] && tokens[0].kind.ObjectToken? && seen.Some? && Full(seen.value, |entries|)
  }

  method CheckReceipt(json: bytes, entries: seq<Entry>) returns (ok: bool)
    ensures ok <==> ReceiptText(json, entries)
  {
    var valid := JsonGrammar.Validate(json, OPEN_OBJECT);
    if !valid { return false; }
    var tokens := new Token[TOKENS_MAX];
    var count := TokenizeInto(json, tokens);
    if count < 0 { return false; }
    ok := ReceiptMatches(json, tokens[..count], entries);
  }

  /** A complete receipt holds no containers, so it needs one token and two for each member. */
  lemma {:induction false} FlatSize(parts: Parts, entries: seq<Entry>, seen: set<int>)
    requires Paired(parts) && ScanPairs(Pairs(parts), entries, seen).Some?
    ensures PartsSize(parts) == 2 * |Pairs(parts)|
    decreases parts
  {
    hide Meets;
    if parts.Then? {
      var pairs := Pairs(parts);
      assert pairs[0] == (parts.first.raw, parts.rest.first) && pairs[1..] == Pairs(parts.rest.rest);
      assert PartsSize(parts.rest) == Size(parts.rest.first) + PartsSize(parts.rest.rest);
      FlatSize(parts.rest.rest, entries, seen + {IndexOf(entries, pairs[0].0, 0)});
    }
  }

  /** The document is an object and a complete receipt. */
  ghost predicate IsReceipt(n: Node, entries: seq<Entry>) {
    n.Container? && Paired(n.parts) && Complete(Pairs(n.parts), entries)
  }

  lemma DocumentIsReceipt(json: bytes, n: Node, before: bytes, after: bytes, entries: seq<Entry>)
    requires JsonGrammar.Complete(json, OPEN_OBJECT, n, before, after) && Agreed(entries)
    ensures ReceiptText(json, entries) <==> IsReceipt(n, entries)
  {
    hide JsonGrammar.ValidText, JsonGrammar.Proper, Tokenize, IsJson, Preorder, Complete, Agreed, ScanFrom, Full;
    var tokens := Preorder(n, -1, 0, |before|);
    JsonGrammar.DocumentAccepted(json, OPEN_OBJECT, n, before, after);
    JsonGrammar.ObjectBegins(n);
    TokenizeDocument(n, before, after, TOKENS_MAX);
    ReceiptExactly(n, before, after, tokens, entries);
    RootKind(n, |before|);
    if Complete(Pairs(n.parts), entries) { ReceiptFits(n.parts, entries); }
  }

  /** A complete receipt has no nested values, so its tokens fit. */
  lemma ReceiptFits(parts: Parts, entries: seq<Entry>)
    requires Paired(parts) && Agreed(entries) && Complete(Pairs(parts), entries)
    ensures 1 + PartsSize(parts) <= TOKENS_MAX
  {
    CompleteMeansScanned(Pairs(parts), entries, {});
    FlatSize(parts, entries, {});
  }

  lemma RootKind(n: Node, at: nat)
    requires n.Container? && !n.list
    ensures |Preorder(n, -1, 0, at)| > 0 && Preorder(n, -1, 0, at)[0].kind.ObjectToken?
    ensures Size(n) == 1 + PartsSize(n.parts)
  {
  }

  /** From the text to the members, for every text: it passes exactly when it is one JSON
      object that is a complete receipt; the room for 64 tokens never decides. */
  lemma ReceiptTextExactly(json: bytes, entries: seq<Entry>)
    requires Agreed(entries)
    ensures ReceiptText(json, entries)
            <==> exists n, before, after :: JsonGrammar.Complete(json, OPEN_OBJECT, n, before, after) && IsReceipt(n, entries)
  {
    if ReceiptText(json, entries) {
      var n, before, after := JsonGrammar.DocumentFound(json, OPEN_OBJECT);
      DocumentIsReceipt(json, n, before, after, entries);
    }
    hide ReceiptText, IsReceipt, JsonGrammar.Complete, Agreed;
    forall n, before, after | JsonGrammar.Complete(json, OPEN_OBJECT, n, before, after)
      ensures ReceiptText(json, entries) <==> IsReceipt(n, entries)
    {
      DocumentIsReceipt(json, n, before, after, entries);
    }
  }

  /** The document is an object with the fourteen members of a launch's receipt. */
  ghost predicate SaysAll(n: Node, l: Launch) {
    n.Container? && Paired(n.parts) && |Pairs(n.parts)| == 14 && Says(Pairs(n.parts), l)
  }

  lemma DocumentSays(n: Node, l: Launch)
    ensures IsReceipt(n, AgreedReceipt(l)) <==> SaysAll(n, l)
  {
    hide Says, Complete, AgreedReceipt;
    if n.Container? && Paired(n.parts) { ReceiptSays(Pairs(n.parts), l); }
  }

  /** A server is ready exactly when it has sent one line without a zero byte, short enough,
      that is the complete receipt of its launch, whatever it sent. */
  lemma ReadyMeansAgreed(sent: bytes, l: Launch)
    ensures Readiness.Decide(sent, line => ReceiptText(line, AgreedReceipt(l))).Ready?
            <==> && 0 !in sent && |sent| < Readiness.RECEIPT_MAX && Readiness.NEWLINE in sent
                 && Readiness.NEWLINE !in sent[..|sent| - 1]
                 && exists n, before, after ::
                      JsonGrammar.Complete(sent, OPEN_OBJECT, n, before, after) && SaysAll(n, l)
  {
    hide ReceiptText, IsReceipt, SaysAll, JsonGrammar.Complete, Agreed, AgreedReceipt;
    ReceiptIsAgreed(l);
    ReceiptTextExactly(sent, AgreedReceipt(l));
    forall n: Node ensures IsReceipt(n, AgreedReceipt(l)) <==> SaysAll(n, l) { DocumentSays(n, l); }
  }
}
