/** Finding a quote on a PDF page.

    The words of the page are joined by single spaces, with the offset of each word kept;
    the quote is normalized the same way and compared at every word start.  A match is a
    span of whole words whose join is the quote, and "matched" means that there is exactly
    one. */
module Evidence {
  import opened Prelude

  const SPACE: byte := 0x20
  const WORDS_MAX: nat := 20000

  // ----- Words and joins -----

  /** The length of the white space at the front: an ASCII space, or a no-break space. */
  function Gap(s: bytes): (n: nat)
    ensures n <= |s|
  {
    if |s| >= 2 && s[0] == 0xc2 && s[1] == 0xa0 then 2
    else if s != [] && (9 <= s[0] <= 13 || s[0] == SPACE) then 1
    else 0
  }

  /** The words of a text: maximal runs without white space; `word` is the run so far. */
  function Words(s: bytes, word: bytes): seq<bytes>
    decreases |s|
  {
    if s == [] then (if word == [] then [] else [word])
    else if Gap(s) > 0 then (if word == [] then [] else [word]) + Words(s[Gap(s)..], [])
    else Words(s[1..], word + [s[0]])
  }

  /** Words joined by single spaces. */
  function Join(words: seq<bytes>): bytes {
    if words == [] then []
    else if |words| == 1 then words[0]
    else Join(words[..|words| - 1]) + [SPACE] + words[|words| - 1]
  }

  /** The normal form of a text. */
  function Normal(s: bytes): bytes { Join(Words(s, [])) }

  predicate Gapless(s: bytes) { forall i :: 0 <= i < |s| ==> Gap(s[i..]) == 0 }

  predicate Proper(words: seq<bytes>) { forall k :: 0 <= k < |words| ==> words[k] != [] && Gapless(words[k]) }

  lemma JoinStep(words: seq<bytes>, w: bytes)
    ensures Join(words + [w]) == if words == [] then w else Join(words) + [SPACE] + w
  {
    assert (words + [w])[..|words|] == words;
  }

  lemma {:induction false} JoinAppend(a: seq<bytes>, b: seq<bytes>)
    ensures Join(a + b) == if a == [] then Join(b) else if b == [] then Join(a) else Join(a) + [SPACE] + Join(b)
    decreases |b|
  {
    if b == [] {
      assert a + b == a;
    } else {
      var init, last := b[..|b| - 1], b[|b| - 1];
      assert b == init + [last] && a + b == (a + init) + [last] && (init == [] ==> a + init == a);
      hide Join;
      JoinAppend(a, init);
      JoinStep(a + init, last);
      JoinStep(init, last);
      Glue(Join(a), Join(init), last);
    }
  }

  lemma Glue(a: bytes, b: bytes, c: bytes)
    ensures a + [SPACE] + b + [SPACE] + c == a + [SPACE] + (b + [SPACE] + c)
  {
  }

  lemma {:induction false} JoinNonempty(words: seq<bytes>)
    requires words != [] && forall k :: 0 <= k < |words| ==> words[k] != []
    ensures Join(words) != []
  {
    if |words| > 1 { JoinNonempty(words[..|words| - 1]); }
  }

  // ----- Normalization -----

  /** The normalizing loop: white space becomes one space between words, and none at the
      ends. */
  method Normalize(s: bytes) returns (out: bytes)
    ensures out == Normal(s)
  {
    out := [];
    var space := false;
    var i := 0;
    ghost var done: seq<bytes>, word: bytes := [], [];
    while i < |s|
      invariant 0 <= i <= |s|
      invariant Words(s, []) == done + Words(s[i..], word)
      invariant out == Join(done + if word == [] then [] else [word])
      invariant word == [] ==> space || out == []
      invariant word != [] ==> !space
      invariant forall k :: 0 <= k < |done| ==> done[k] != []
    {
      var c := s[i];
      assert s[i..][0] == c && s[i..][1..] == s[i + 1..];
      if c == 0xc2 && i + 1 < |s| && s[i + 1] == 0xa0 {
        assert Gap(s[i..]) == 2 && s[i..][2..] == s[i + 2..];
        done, word := CloseWord(done, word, Words(s[i + 2..], []));
        space := true;
        i := i + 2;
      } else if 9 <= c <= 13 || c == SPACE {
        assert Gap(s[i..]) == 1;
        done, word := CloseWord(done, word, Words(s[i + 1..], []));
        space := true;
        i := i + 1;
      } else {
        assert Gap(s[i..]) == 0;
        GrowWord(done, word, c);
        if space && out != [] { out := out + [SPACE]; }
        out := out + [c];
        space := false;
        word := word + [c];
        i := i + 1;
      }
    }
    assert s[|s|..] == [];
  }

  /** At a gap the run so far becomes a word. */
  lemma CloseWord(done: seq<bytes>, word: bytes, rest: seq<bytes>) returns (closed: seq<bytes>, empty: bytes)
    requires forall k :: 0 <= k < |done| ==> done[k] != []
    ensures empty == [] && closed == done + (if word == [] then [] else [word])
    ensures done + ((if word == [] then [] else [word]) + rest) == closed + rest
    ensures closed + [] == closed && forall k :: 0 <= k < |closed| ==> closed[k] != []
  {
    closed, empty := done + (if word == [] then [] else [word]), [];
  }

  lemma GrowWord(done: seq<bytes>, word: bytes, c: byte)
    requires forall k :: 0 <= k < |done| ==> done[k] != []
    ensures Join(done + [word + [c]])
            == if word == [] then (if done == [] then [c] else Join(done) + [SPACE] + [c])
               else Join(done + [word]) + [c]
    ensures done + [] == done && (done != [] ==> Join(done) != [])
  {
    if done != [] { JoinNonempty(done); }
    if word == [] {
      assert word + [c] == [c];
      JoinStep(done, [c]);
    } else {
      GrowLast(done, word, c);
    }
  }

  lemma GrowLast(done: seq<bytes>, word: bytes, c: byte)
    ensures Join(done + [word + [c]]) == Join(done + [word]) + [c]
  {
    JoinStep(done, word);
    JoinStep(done, word + [c]);
    Associate(Join(done) + [SPACE], word, [c]);
  }

  /** A run without white space is one word, whatever follows it starts with a gap. */
  lemma {:induction false} WordsOfRun(run: bytes, rest: bytes, word: bytes)
    requires Gapless(run) && (rest == [] || rest[0] == SPACE)
    ensures Words(run + rest, word) == Words(rest, word + run)
    decreases |run|
  {
    if run == [] {
      assert run + rest == rest && word + run == word;
    } else {
      var s := run + rest;
      assert s[1..] == run[1..] + rest;
      assert run[0..] == run;
      assert Gap(s) == 0;
      forall i | 0 <= i < |run[1..]| ensures Gap(run[1..][i..]) == 0 { assert run[1..][i..] == run[i + 1..]; }
      WordsOfRun(run[1..], rest, word + [run[0]]);
      assert word + [run[0]] + run[1..] == word + run;
    }
  }

  /** Joining proper words and splitting again gives the words back. */
  lemma {:induction false} WordsOfJoin(words: seq<bytes>, rest: bytes)
    requires Proper(words) && (rest == [] || rest[0] == SPACE)
    ensures Words(Join(words) + rest, []) == words + Words(rest, [])
    decreases |words|
  {
    if words == [] {
      assert Join(words) + rest == rest;
    } else {
      hide Join, Gapless, Words;
      var init, last := words[..|words| - 1], words[|words| - 1];
      assert words == init + [last];
      JoinStep(init, last);
      LastWord(last, rest);
      if init != [] {
        var tail := [SPACE] + (last + rest);
        SplitLast(Join(init), last, rest);
        WordsOfJoin(init, tail);
        WordsAfterSpace(last + rest);
        Associate(init, [last], Words(rest, []));
      }
    }
  }

  lemma WordsAfterSpace(s: bytes)
    ensures Words([SPACE] + s, []) == Words(s, [])
  {
    assert ([SPACE] + s)[1..] == s && Gap([SPACE] + s) == 1;
  }

  lemma SplitLast(init: bytes, last: bytes, rest: bytes)
    ensures init + [SPACE] + last + rest == init + ([SPACE] + (last + rest))
  {
  }

  lemma LastWord(last: bytes, rest: bytes)
    requires last != [] && Gapless(last) && (rest == [] || rest[0] == SPACE)
    ensures Words(last + rest, []) == [last] + Words(rest, [])
  {
    WordsOfRun(last, rest, []);
    assert [] + last == last;
    if rest != [] { assert Gap(rest) == 1; }
  }

  /** Every run the splitter closes is a proper word. */
  lemma {:induction false} WordsAreProper(s: bytes, word: bytes)
    requires Gapless(word) && (word != [] && s != [] && word[|word| - 1] == 0xc2 ==> s[0] != 0xa0)
    ensures Proper(Words(s, word))
    decreases |s|
  {
    if s == [] {
    } else if Gap(s) > 0 {
      WordsAreProper(s[Gap(s)..], []);
    } else {
      GaplessGrows(word, s[0]);
      WordsAreProper(s[1..], word + [s[0]]);
    }
  }

  lemma GaplessGrows(word: bytes, c: byte)
    requires Gapless(word) && Gap([c]) == 0 && (word != [] && word[|word| - 1] == 0xc2 ==> c != 0xa0)
    ensures Gapless(word + [c])
  {
    var grown := word + [c];
    forall i | 0 <= i < |grown| ensures Gap(grown[i..]) == 0 {
      if i < |word| {
        assert grown[i..] == word[i..] + [c];
        assert Gap(word[i..]) == 0;
      } else {
        assert grown[i..] == [c];
      }
    }
  }

  /** Normalizing twice changes nothing. */
  lemma NormalIsIdempotent(s: bytes)
    ensures Normal(Normal(s)) == Normal(s)
  {
    var words := Words(s, []);
    WordsAreProper(s, []);
    WordsOfJoin(words, []);
    assert Join(words) + [] == Join(words) && words + [] == words;
  }

  predicate IsNormal(s: bytes) { Normal(s) == s }

  /** The join of normalized texts is normalized. */
  lemma {:induction false} JoinIsNormal(texts: seq<bytes>)
    requires forall k :: 0 <= k < |texts| ==> texts[k] != [] && IsNormal(texts[k])
    ensures IsNormal(Join(texts))
  {
    var words := AllWords(texts);
    AllWordsJoin(texts);
    WordsOfJoin(words, []);
    assert Join(words) + [] == Join(words) && words + [] == words;
  }

  function AllWords(texts: seq<bytes>): seq<bytes> {
    if texts == [] then [] else AllWords(texts[..|texts| - 1]) + Words(texts[|texts| - 1], [])
  }

  lemma {:induction false} AllWordsJoin(texts: seq<bytes>)
    requires forall k :: 0 <= k < |texts| ==> texts[k] != [] && IsNormal(texts[k])
    ensures Join(AllWords(texts)) == Join(texts) && Proper(AllWords(texts)) && (texts != [] ==> AllWords(texts) != [])
  {
    if texts != [] {
      var init, last := texts[..|texts| - 1], texts[|texts| - 1];
      assert texts == init + [last];
      AllWordsJoin(init);
      WordsAreProper(last, []);
      JoinAppend(AllWords(init), Words(last, []));
      JoinStep(init, last);
    }
  }

  // ----- The page -----

  /** The place of a word on the page and in the joined text. */
  datatype Word = Word(x1: real, y1: real, x2: real, y2: real, start: nat, end: nat)

  datatype Box = Box(x1: real, y1: real, x2: real, y2: real)

  /** A place on a page, in fractions of it. */
  datatype Area = Area(x: real, y: real, width: real, height: real)

  /** The normal texts of the words that have any. */
  function Texts(raw: seq<bytes>): (texts: seq<bytes>)
    ensures forall k :: 0 <= k < |texts| ==> texts[k] != []
  {
    if raw == [] then []
    else
      var last := Normal(raw[|raw| - 1]);
      Texts(raw[..|raw| - 1]) + if last == [] then [] else [last]
  }

  lemma TextsStep(raw: seq<bytes>, i: nat)
    requires i < |raw|
    ensures Texts(raw[..i + 1]) == Texts(raw[..i]) + if Normal(raw[i]) == [] then [] else [Normal(raw[i])]
  {
    assert raw[..i + 1][..i] == raw[..i];
  }

  /** Each word's offsets are those of its text in the join. */
  ghost predicate Laid(words: seq<Word>, joined: bytes, texts: seq<bytes>) {
    && |words| == |texts| && joined == Join(texts)
    && forall k :: 0 <= k < |texts| ==>
         words[k].start == Offset(texts, k) && words[k].end == |Join(texts[..k + 1])|
  }

  function Offset(texts: seq<bytes>, k: nat): nat
    requires k <= |texts|
  {
    if k == 0 then 0 else |Join(texts[..k])| + 1
  }

  /** None of the first `n` words, empty or not, comes when the table is full. */
  ghost predicate Fits(raw: seq<bytes>, n: nat)
    requires n <= |raw|
  {
    forall j :: 0 <= j < n ==> |Texts(raw[..j])| < WORDS_MAX
  }

  lemma FitsStep(raw: seq<bytes>, i: nat)
    requires i < |raw| && Fits(raw, i)
    ensures if |Texts(raw[..i])| < WORDS_MAX then Fits(raw, i + 1) else !Fits(raw, |raw|)
  {
  }

  /** Every word has the text and the corners of the raw word it was read from. */
  ghost predicate ReadFrom(words: seq<Word>, texts: seq<bytes>, raw: seq<bytes>, boxes: seq<Box>, from: seq<nat>) {
    && |words| == |texts| == |from| && |raw| == |boxes|
    && (forall i, j :: 0 <= i < j < |from| ==> from[i] < from[j])
    && forall k :: 0 <= k < |from| ==>
         && from[k] < |raw| && Normal(raw[from[k]]) == texts[k]
         && words[k].x1 == boxes[from[k]].x1 && words[k].y1 == boxes[from[k]].y1
         && words[k].x2 == boxes[from[k]].x2 && words[k].y2 == boxes[from[k]].y2
  }

  /** ... and that raw word is one of the first `n`. */
  ghost predicate ReadSoFar(words: seq<Word>, texts: seq<bytes>, raw: seq<bytes>, boxes: seq<Box>, from: seq<nat>, n: nat) {
    ReadFrom(words, texts, raw, boxes, from) && forall k :: 0 <= k < |from| ==> from[k] < n
  }

  lemma NothingRead(raw: seq<bytes>, boxes: seq<Box>)
    requires |raw| == |boxes|
    ensures ReadSoFar([], [], raw, boxes, [], 0)
  {
  }

  lemma WordRead(words: seq<Word>, texts: seq<bytes>, raw: seq<bytes>, boxes: seq<Box>, from: seq<nat>, i: nat, word: Word)
    requires ReadSoFar(words, texts, raw, boxes, from, i) && i < |raw| == |boxes|
    requires word.x1 == boxes[i].x1 && word.y1 == boxes[i].y1 && word.x2 == boxes[i].x2 && word.y2 == boxes[i].y2
    ensures ReadSoFar(words + [word], texts + [Normal(raw[i])], raw, boxes, from + [i], i + 1)
  {
  }

  lemma WordSkipped(words: seq<Word>, texts: seq<bytes>, raw: seq<bytes>, boxes: seq<Box>, from: seq<nat>, i: nat)
    requires ReadSoFar(words, texts, raw, boxes, from, i)
    ensures ReadSoFar(words, texts, raw, boxes, from, i + 1) && ReadFrom(words, texts, raw, boxes, from)
  {
  }

  /** The next word of the join, after a space unless it is the first. */
  method AddWord(words: seq<Word>, joined: bytes, ghost texts: seq<bytes>, text: bytes, box: Box) returns (word: Word, longer: bytes)
    requires Laid(words, joined, texts)
    ensures Laid(words + [word], longer, texts + [text])
    ensures word.x1 == box.x1 && word.y1 == box.y1 && word.x2 == box.x2 && word.y2 == box.y2
  {
    hide Laid, Join;
    LaidStep(words, joined, texts, text, box);
    longer := joined;
    if |words| > 0 { longer := longer + [SPACE]; }
    var start := |longer|;
    longer := longer + text;
    word := Word(box.x1, box.y1, box.x2, box.y2, start, |longer|);
  }

  /** Read the words of the page: normalize each, skip the empty ones, join the rest.  It
      fails exactly when a word comes after as many nonempty ones as the table holds. */
  method ReadWords(raw: seq<bytes>, boxes: seq<Box>)
    returns (ok: bool, words: seq<Word>, joined: bytes, ghost texts: seq<bytes>, ghost from: seq<nat>)
    requires |boxes| == |raw|
    ensures ok <==> Fits(raw, |raw|)
    ensures ok ==> texts == Texts(raw) && Laid(words, joined, texts) && |words| <= WORDS_MAX
    ensures ok ==> ReadFrom(words, texts, raw, boxes, from)
  {
    ok, words, joined, texts, from := true, [], [], [], [];
    assert Fits(raw, 0) && Join([]) == [];
    assert Laid([], [], []) && Texts(raw[..0]) == [];
    hide Fits, Join, ReadSoFar, ReadFrom, Normal, Texts, Laid;
    NothingRead(raw, boxes);
    for i := 0 to |raw|
      invariant texts == Texts(raw[..i]) && Laid(words, joined, texts) && |words| == |texts| <= WORDS_MAX
      invariant Fits(raw, i) && ReadSoFar(words, texts, raw, boxes, from, i)
    {
      FitsStep(raw, i);
      if |words| >= WORDS_MAX { return false, words, joined, texts, from; }
      TextsStep(raw, i);
      var text := Normalize(raw[i]);
      if text != [] {
        var word;
        word, joined := AddWord(words, joined, texts, text, boxes[i]);
        WordRead(words, texts, raw, boxes, from, i, word);
        words := words + [word];
        texts, from := texts + [text], from + [i];
      } else {
        WordSkipped(words, texts, raw, boxes, from, i);
      }
    }
    WordSkipped(words, texts, raw, boxes, from, |raw|);
    assert raw[..|raw|] == raw;
  }

  lemma LaidStep(words: seq<Word>, joined: bytes, texts: seq<bytes>, text: bytes, box: Box)
    requires Laid(words, joined, texts)
    ensures var start := if |words| > 0 then |joined| + 1 else |joined|;
            var longer := (if |words| > 0 then joined + [SPACE] else joined) + text;
            Laid(words + [Word(box.x1, box.y1, box.x2, box.y2, start, |longer|)], longer, texts + [text])
  {
    JoinStep(texts, text);
    var all := texts + [text];
    assert all[..|texts|] == texts && all[..|texts| + 1] == all;
    forall k: nat | k < |texts| ensures Offset(all, k) == Offset(texts, k) && all[..k + 1] == texts[..k + 1] {
      assert all[..k] == texts[..k];
    }
  }

  /** The joined text of a page is in normal form, as the quote is. */
  lemma PageTextIsNormal(raw: seq<bytes>)
    ensures IsNormal(Join(Texts(raw)))
  {
    TextsAreNormal(raw);
    JoinIsNormal(Texts(raw));
  }

  lemma {:induction false} TextsAreNormal(raw: seq<bytes>)
    ensures forall k :: 0 <= k < |Texts(raw)| ==> IsNormal(Texts(raw)[k])
  {
    if raw != [] {
      TextsAreNormal(raw[..|raw| - 1]);
      NormalIsIdempotent(raw[|raw| - 1]);
    }
  }

  // ----- Spans -----

  /** Words i to j joined are the quote. */
  ghost predicate IsSpan(texts: seq<bytes>, needle: bytes, i: nat, j: nat) {
    i <= j < |texts| && Join(texts[i..j + 1]) == needle
  }

  /** The spans that start before `n`. */
  ghost function Spans(texts: seq<bytes>, needle: bytes, n: nat): set<(nat, nat)> {
    set i: nat, j: nat | i < n && j < |texts| && IsSpan(texts, needle, i, j) :: (i, j)
  }

  /** A join of consecutive words is a slice of the whole join. */
  lemma JoinSlice(texts: seq<bytes>, i: nat, j: nat)
    requires i <= j < |texts|
    ensures Offset(texts, i) <= |Join(texts[..j + 1])| <= |Join(texts)|
    ensures Join(texts)[Offset(texts, i)..|Join(texts[..j + 1])|] == Join(texts[i..j + 1])
  {
    hide Join;
    var upTo := texts[..j + 1];
    assert upTo == texts[..i] + texts[i..j + 1];
    JoinAppend(texts[..i], texts[i..j + 1]);
    assert texts == upTo + texts[j + 1..];
    JoinAppend(upTo, texts[j + 1..]);
    var before := if i == 0 then [] else Join(texts[..i]) + [SPACE];
    SliceAfter(Join(texts), before, Join(texts[i..j + 1]), Join(upTo));
  }

  lemma SliceAfter(whole: bytes, before: bytes, part: bytes, front: bytes)
    requires front <= whole && front == before + part
    ensures whole[|before|..|front|] == part
  {
  }

  /** Where a word ends; later words end later. */
  lemma EndsIncrease(texts: seq<bytes>, j: nat, k: nat)
    requires j < k <= |texts| && forall m :: 0 <= m < |texts| ==> texts[m] != []
    ensures |Join(texts[..j])| < |Join(texts[..k])|
    decreases k
  {
    assert texts[..k] == texts[..k - 1] + [texts[k - 1]];
    JoinStep(texts[..k - 1], texts[k - 1]);
    if j < k - 1 { EndsIncrease(texts, j, k - 1); }
  }

  /** Span (i, j) is what the comparison finds: the text at word i is the quote, and the
      quote's end is the end of word j. */
  lemma SpanIsComparison(words: seq<Word>, joined: bytes, texts: seq<bytes>, needle: bytes, i: nat, j: nat)
    requires Laid(words, joined, texts) && i <= j < |texts|
    ensures var stop := words[i].start + |needle|;
            IsSpan(texts, needle, i, j) <==>
            stop <= |joined| && joined[words[i].start..stop] == needle && words[j].end == stop
  {
    JoinSlice(texts, i, j);
  }

  /** The scan for the word that ends where the quote does. */
  method FindEnd(words: seq<Word>, ghost joined: bytes, ghost texts: seq<bytes>, i: nat, stop: nat) returns (j: int)
    requires Laid(words, joined, texts) && i < |words| && forall m :: 0 <= m < |texts| ==> texts[m] != []
    ensures if j >= 0 then i <= j < |words| && words[j].end == stop else forall k :: i <= k < |words| ==> words[k].end != stop
  {
    j := i;
    while j < |words| && words[j].end <= stop
      invariant i <= j <= |words| && forall k :: i <= k < j ==> words[k].end != stop
    {
      if words[j].end == stop { return; }
      j := j + 1;
    }
    forall k | j <= k < |words| ensures words[k].end != stop {
      if k > j { EndsIncrease(texts, j + 1, k + 1); }
    }
    j := -1;
  }

  /** Count the matches and remember the last one. */
  method FindMatches(words: seq<Word>, joined: bytes, ghost texts: seq<bytes>, needle: bytes)
    returns (matches: nat, first: int, last: int)
    requires Laid(words, joined, texts) && forall m :: 0 <= m < |texts| ==> texts[m] != []
    ensures matches == |Spans(texts, needle, |texts|)|
    ensures matches > 0 ==> 0 <= first <= last < |words| && (first, last) in Spans(texts, needle, |texts|)
    ensures matches == 0 ==> first == -1 && last == -1
  {
    matches, first, last := 0, -1, -1;
    if needle == [] {
      NoEmptySpan(texts, |texts|);
      return;
    }
    assert Spans(texts, needle, 0) == {};
    for i := 0 to |words|
      invariant matches == |Spans(texts, needle, i)|
      invariant matches > 0 ==> 0 <= first <= last < |words| && (first, last) in Spans(texts, needle, i)
      invariant matches == 0 ==> first == -1 && last == -1
    {
      var stop := words[i].start + |needle|;
      if stop > |joined| || joined[words[i].start..stop] != needle {
        NoSpanAt(words, joined, texts, needle, i);
      } else {
        var j := FindEnd(words, joined, texts, i, stop);
        if j < 0 {
          NoSpanAt(words, joined, texts, needle, i);
        } else {
          OneSpanAt(words, joined, texts, needle, i, j);
          matches, first, last := matches + 1, i, j;
        }
      }
    }
  }

  lemma NoEmptySpan(texts: seq<bytes>, n: nat)
    requires forall m :: 0 <= m < |texts| ==> texts[m] != []
    ensures Spans(texts, [], n) == {}
  {
    forall i: nat, j: nat | i <= j < |texts| ensures !IsSpan(texts, [], i, j) { JoinNonempty(texts[i..j + 1]); }
  }

  lemma NoSpanAt(words: seq<Word>, joined: bytes, texts: seq<bytes>, needle: bytes, i: nat)
    requires Laid(words, joined, texts) && i < |words|
    requires var stop := words[i].start + |needle|;
             stop > |joined| || joined[words[i].start..stop] != needle || forall k :: i <= k < |words| ==> words[k].end != stop
    ensures Spans(texts, needle, i + 1) == Spans(texts, needle, i)
  {
    forall j: nat | i <= j < |texts| ensures !IsSpan(texts, needle, i, j) { SpanIsComparison(words, joined, texts, needle, i, j); }
  }

  lemma OneSpanAt(words: seq<Word>, joined: bytes, texts: seq<bytes>, needle: bytes, i: nat, j: nat)
    requires Laid(words, joined, texts) && i <= j < |words| && forall m :: 0 <= m < |texts| ==> texts[m] != []
    requires var stop := words[i].start + |needle|;
             stop <= |joined| && joined[words[i].start..stop] == needle && words[j].end == stop
    ensures Spans(texts, needle, i + 1) == Spans(texts, needle, i) + {(i, j)} && (i, j) !in Spans(texts, needle, i)
  {
    hide Join;
    SpanIsComparison(words, joined, texts, needle, i, j);
    forall k: nat | i <= k < |texts| && k != j ensures !IsSpan(texts, needle, i, k) {
      SpanIsComparison(words, joined, texts, needle, i, k);
      if k < j { EndsIncrease(texts, k + 1, j + 1); } else { EndsIncrease(texts, j + 1, k + 1); }
    }
  }

  // ----- The answer -----

  datatype Status = PageOnly | NoTextLayer | NotFound | Ambiguous | UnsupportedCoordinates | Matched

  predicate BoxOk(w: Word, width: real, height: real) {
    0.0 <= w.x1 < w.x2 <= width && 0.0 <= w.y1 < w.y2 <= height
  }

  /** The place of a word as fractions of the page. */
  function AreaOf(w: Word, width: real, height: real): Area
    requires width > 0.0 && height > 0.0
  {
    Area(w.x1 / width, w.y1 / height, (w.x2 - w.x1) / width, (w.y2 - w.y1) / height)
  }

  predicate AreaOnPage(b: Area) {
    0.0 <= b.x && b.x + b.width <= 1.0 && 0.0 <= b.y && b.y + b.height <= 1.0
  }

  lemma Fraction(a: real, b: real, size: real)
    requires 0.0 <= a < b <= size
    ensures 0.0 <= a / size && 0.0 < (b - a) / size && a / size + (b - a) / size <= 1.0
  {
    assert a / size + (b - a) / size == b / size;
    assert b / size <= size / size;
  }

  /** The places of words that lie on the page. */
  method Areas(words: seq<Word>, width: real, height: real) returns (areas: seq<Area>)
    requires words != [] && forall k :: 0 <= k < |words| ==> BoxOk(words[k], width, height)
    ensures width > 0.0 && height > 0.0 && |areas| == |words|
    ensures forall k :: 0 <= k < |words| ==> areas[k] == AreaOf(words[k], width, height) && AreaOnPage(areas[k])
  {
    areas := [];
    assert BoxOk(words[0], width, height);
    for i := 0 to |words|
      invariant |areas| == i && forall k :: 0 <= k < i ==> areas[k] == AreaOf(words[k], width, height) && AreaOnPage(areas[k])
    {
      Fraction(words[i].x1, words[i].x2, width);
      Fraction(words[i].y1, words[i].y2, height);
      areas := areas + [AreaOf(words[i], width, height)];
    }
  }

  /** Look a quote up.  The quote is matched exactly when one span of words joins to it and
      all of that span's boxes lie on the page; the boxes returned are those of its words, as
      fractions of the page. */
  method Locate(words: seq<Word>, joined: bytes, ghost texts: seq<bytes>, quote: bytes, width: real, height: real)
    returns (status: Status, matches: nat, boxes: seq<Area>, ghost span: (nat, nat))
    requires Laid(words, joined, texts) && forall m :: 0 <= m < |texts| ==> texts[m] != []
    ensures matches == |Spans(texts, Normal(quote), |texts|)|
    ensures status.PageOnly? <==> Normal(quote) == []
    ensures status.NoTextLayer? <==> Normal(quote) != [] && texts == []
    ensures status.NotFound? <==> Normal(quote) != [] && texts != [] && matches == 0
    ensures status.Ambiguous? <==> matches > 1
    ensures matches == 1 ==> Spans(texts, Normal(quote), |texts|) == {span} && span.0 <= span.1 < |words|
    ensures status.Matched? <==>
              && matches == 1
              && forall k :: span.0 <= k <= span.1 ==>
                   && 0.0 <= words[k].x1 && words[k].x1 < words[k].x2 && words[k].x2 <= width
                   && 0.0 <= words[k].y1 && words[k].y1 < words[k].y2 && words[k].y2 <= height
    ensures status.UnsupportedCoordinates? <==> matches == 1 && !status.Matched?
    ensures status.Matched? ==>
              && width > 0.0 && height > 0.0 && |boxes| == span.1 - span.0 + 1
              && forall k :: 0 <= k < |boxes| ==>
                   var w := words[span.0 + k];
                   && boxes[k] == Area(w.x1 / width, w.y1 / height, (w.x2 - w.x1) / width, (w.y2 - w.y1) / height)
                   && 0.0 <= boxes[k].x && boxes[k].x + boxes[k].width <= 1.0
                   && 0.0 <= boxes[k].y && boxes[k].y + boxes[k].height <= 1.0
    ensures !status.Matched? ==> boxes == []
  {
    var needle := Normalize(quote);
    var first, last;
    matches, first, last := FindMatches(words, joined, texts, needle);
    span := if matches == 1 then (first, last) else (0, 0);
    if matches == 1 { TheOnlyOne(Spans(texts, needle, |texts|), span); }
    boxes := [];
    var coordinates := true;
    if matches == 1 {
      for i := first to last + 1
        invariant coordinates <==> forall k :: first <= k < i ==> BoxOk(words[k], width, height)
      {
        if !BoxOk(words[i], width, height) { coordinates := false; }
      }
    }
    if needle == [] {
      NoEmptySpan(texts, |texts|);
      return PageOnly, matches, [], span;
    }
    if |words| == 0 {
      assert Spans(texts, needle, |texts|) == {};
      return NoTextLayer, matches, [], span;
    }
    if matches == 0 { return NotFound, matches, [], span; }
    if matches > 1 { return Ambiguous, matches, [], span; }
    if !coordinates { return UnsupportedCoordinates, matches, [], span; }
    boxes := Areas(words[first..last + 1], width, height);
    status := Matched;
  }

  lemma TheOnlyOne(spans: set<(nat, nat)>, span: (nat, nat))
    requires |spans| == 1 && span in spans
    ensures spans == {span}
  {
    assert |spans - {span}| == 0;
    assert spans == {span} + (spans - {span});
  }
}
