/**
 Cutting verbatim text into retrieval-sized chunks (crates/agmem-core/src/chunk.rs): paragraphs,
 then sentences, then whole words, then packing.  Offsets are in characters.

 Every level is proved lossless up to white space against one definition of a text's words.
 */
module Chunker {
  import opened Common
  import opened Text

  const TARGET_CHARS: nat := 1500

  /** Within the budget, or one unbroken run with nowhere to cut. */
  predicate Fits(piece: string) {
    |piece| <= TARGET_CHARS || Solid(piece)
  }

  predicate AllFit(pieces: seq<string>) {
    forall i | 0 <= i < |pieces| :: Fits(pieces[i]) && Words(pieces[i]) != []
  }

  predicate NoneBlank(pieces: seq<string>) {
    forall i | 0 <= i < |pieces| :: Words(pieces[i]) != []
  }

  // ---- slices ----

  /** A slice that can be cut beside white space has the words of its two halves. */
  lemma SliceSplits(text: string, a: nat, b: nat, c: nat)
    requires a <= b <= c <= |text|
    requires a == b || b == c || IsSpace(text[b]) || IsSpace(text[b - 1])
    ensures Words(text[a..c]) == Words(text[a..b]) + Words(text[b..c])
  {
    assert text[a..c] == text[a..b] + text[b..c];
    WordsSplit(text[a..b], text[b..c]);
  }

  /** The end of the line that begins at `from`, its newline included. */
  method LineEnd(text: string, from: nat) returns (end: nat)
    requires from < |text|
    ensures from < end <= |text|
    ensures end == |text| || text[end - 1] == '\n'
    ensures forall i | from <= i < end - 1 :: text[i] != '\n'
  {
    end := from;
    while end < |text| && text[end] != '\n'
      invariant from <= end <= |text|
      invariant forall i | from <= i < end :: text[i] != '\n'
    {
      end := end + 1;
    }
    if end < |text| {
      end := end + 1;
    }
  }

  method IsBlank(s: string) returns (blank: bool)
    ensures blank <==> Blank(s)
    ensures blank <==> Words(s) == []
  {
    blank := Trim(s) == [];
    TrimKeepsWords(s);
    if blank {
      NoWordsIsBlank([], s);
    } else {
      TrimIsSnug(s);
      if Blank(s) {
        BlankHasNoWords(s);
        NoWordsIsBlank([], Trim(s));
        assert false;
      }
      if Words(s) == [] {
        NoWordsIsBlank([], s);
      }
    }
  }

  /** Appends a trimmed slice unless it is empty; the words grow by the slice's. */
  method PushTrimmed(pieces: seq<string>, slice: string) returns (more: seq<string>)
    requires NoneBlank(pieces)
    ensures NoneBlank(more) && FlatWords(more) == FlatWords(pieces) + Words(slice)
    ensures more == pieces || more == pieces + [Trim(slice)]
    ensures Words(slice) != [] ==> more == pieces + [Trim(slice)]
  {
    TrimKeepsWords(slice);
    var piece := Trim(slice);
    if piece == [] {
      more := pieces;
    } else {
      FlatWordsSnoc(pieces, piece);
      TrimIsSnug(slice);
      if Words(piece) == [] {
        NoWordsIsBlank([], piece);
      }
      more := pieces + [piece];
    }
  }

  // ---- the four levels ----

  /** A stretch of the text. */
  datatype Span = Span(from: nat, to: nat)

  /** A line begins here, or the text ends. */
  predicate LineStart(text: string, i: nat)
    requires i <= |text|
  {
    i == 0 || i == |text| || text[i - 1] == '\n'
  }

  /** No line from `a` to `b` is blank. */
  predicate NoBlankLine(text: string, a: nat, b: nat)
    requires a <= b <= |text|
  {
    forall i, j | a <= i < j <= b && LineStart(text, i) && LineStart(text, j) :: !Blank(text[i..j])
  }

  /** Whole lines, none of them blank. */
  predicate IsRun(text: string, span: Span) {
    && span.from < span.to <= |text| && LineStart(text, span.from) && LineStart(text, span.to)
    && NoBlankLine(text, span.from, span.to)
  }

  function LastEnd(spans: seq<Span>): nat {
    if spans == [] then 0 else spans[|spans| - 1].to
  }

  /** From the last span to `next` there is white space only, and, unless it is the first, some of it. */
  predicate Gap(text: string, spans: seq<Span>, next: nat) {
    && LastEnd(spans) <= next <= |text| && (spans != [] ==> LastEnd(spans) < next)
    && Blank(text[LastEnd(spans)..next])
  }

  /** The paragraphs are the text's runs of non-blank lines, trimmed, with nothing but blank lines around them. */
  predicate Laid(text: string, paragraphs: seq<string>, spans: seq<Span>) {
    && |spans| == |paragraphs|
    && forall k | 0 <= k < |spans| ::
         && IsRun(text, spans[k]) && Gap(text, spans[..k], spans[k].from)
         && paragraphs[k] == Trim(text[spans[k].from..spans[k].to])
  }

  /** At `offset`, where a line begins: the paragraphs so far, and the run that may be open. */
  predicate AtLine(text: string, paragraphs: seq<string>, spans: seq<Span>, start: Option<nat>, offset: nat) {
    && offset <= |text| && LineStart(text, offset) && Laid(text, paragraphs, spans)
    && if start.Some?
       then start.value < offset && IsRun(text, Span(start.value, offset)) && Gap(text, spans, start.value)
       else Gap(text, spans, offset)
  }

  lemma LaidGrows(text: string, paragraphs: seq<string>, spans: seq<Span>, span: Span)
    requires Laid(text, paragraphs, spans) && IsRun(text, span) && Gap(text, spans, span.from)
    ensures Laid(text, paragraphs + [Trim(text[span.from..span.to])], spans + [span])
  {
    var more := spans + [span];
    assert more[..|spans|] == spans;
    assert forall k | 0 <= k < |spans| :: more[..k] == spans[..k];
  }

  lemma GapGrows(text: string, spans: seq<Span>, offset: nat, end: nat)
    requires Gap(text, spans, offset) && offset <= end <= |text| && Blank(text[offset..end])
    ensures Gap(text, spans, end)
  {
    var last := LastEnd(spans);
    assert text[last..end] == text[last..offset] + text[offset..end];
  }

  /** One more line, from `offset` to `end`, with no line break inside it. */
  predicate OneLine(text: string, offset: nat, end: nat) {
    && offset < end <= |text| && LineStart(text, offset) && LineStart(text, end)
    && forall i | offset < i < end :: !LineStart(text, i)
  }

  lemma RunGrows(text: string, from: nat, offset: nat, end: nat)
    requires from <= offset && OneLine(text, offset, end) && !Blank(text[offset..end])
    requires from == offset || IsRun(text, Span(from, offset))
    ensures IsRun(text, Span(from, end))
  {
    forall i, j | from <= i < j <= end && LineStart(text, i) && LineStart(text, j)
      ensures !Blank(text[i..j])
    {
      if j == end {
        var x :| 0 <= x < |text[offset..end]| && !IsSpace(text[offset..end][x]);
        assert i <= offset && text[i..end][offset - i + x] == text[offset..end][x];
      }
    }
  }

  lemma RunHasWords(text: string, span: Span)
    requires IsRun(text, span)
    ensures Words(text[span.from..span.to]) != []
  {
    if Words(text[span.from..span.to]) == [] {
      NoWordsIsBlank([], text[span.from..span.to]);
    }
  }

  /** At `offset` the words so far are in the paragraphs and in the one still open. */
  predicate Reading(text: string, paragraphs: seq<string>, start: Option<nat>, offset: nat) {
    && offset <= |text| && NoneBlank(paragraphs)
    && (offset == 0 || offset == |text| || IsSpace(text[offset - 1]))
    && (start.Some? ==> start.value <= offset)
    && Words(text[..offset]) == FlatWords(paragraphs) + (if start.Some? then Words(text[start.value..offset]) else [])
  }

  /** What a line does: a blank one closes the open paragraph, any other continues it or opens one. */
  predicate LineRead(
    text: string, pieces: seq<string>, begun: Option<nat>, offset: nat, blank: bool, paragraphs: seq<string>, start: Option<nat>)
    requires offset <= |text| && (begun.Some? ==> begun.value <= offset)
  {
    if blank
    then start.None? && paragraphs == if begun.Some? then pieces + [Trim(text[begun.value..offset])] else pieces
    else paragraphs == pieces && start == Some(if begun.Some? then begun.value else offset)
  }

  method ReadLine(text: string, pieces: seq<string>, begun: Option<nat>, offset: nat, end: nat)
    returns (paragraphs: seq<string>, start: Option<nat>, blank: bool)
    requires Reading(text, pieces, begun, offset)
    requires offset < end <= |text| && (end == |text| || text[end - 1] == '\n')
    requires begun.Some? ==> Words(text[begun.value..offset]) != []
    ensures Reading(text, paragraphs, start, end)
    ensures blank == Blank(text[offset..end]) && LineRead(text, pieces, begun, offset, blank, paragraphs, start)
  {
    paragraphs, start := pieces, begun;
    blank := IsBlank(text[offset..end]);
    assert text[0..offset] == text[..offset] && text[0..end] == text[..end];
    SliceSplits(text, 0, offset, end);
    if blank {
      if start.Some? {
        paragraphs := PushTrimmed(paragraphs, text[start.value..offset]);
        start := None;
      }
    } else if start.Some? {
      SliceSplits(text, start.value, offset, end);
    } else {
      start := Some(offset);
    }
  }

  /** Where the paragraphs stand after the line. */
  lemma LineIsLaid(
    text: string, pieces: seq<string>, runs: seq<Span>, begun: Option<nat>, offset: nat, end: nat,
    paragraphs: seq<string>, start: Option<nat>) returns (spans: seq<Span>)
    requires AtLine(text, pieces, runs, begun, offset) && OneLine(text, offset, end)
    requires LineRead(text, pieces, begun, offset, Blank(text[offset..end]), paragraphs, start)
    ensures AtLine(text, paragraphs, spans, start, end)
  {
    spans := runs;
    if Blank(text[offset..end]) {
      if begun.Some? {
        LaidGrows(text, pieces, runs, Span(begun.value, offset));
        spans := runs + [Span(begun.value, offset)];
      } else {
        GapGrows(text, runs, offset, end);
      }
    } else {
      RunGrows(text, if begun.Some? then begun.value else offset, offset, end);
    }
  }

  method NextLine(text: string, pieces: seq<string>, begun: Option<nat>, offset: nat, ghost runs: seq<Span>)
    returns (paragraphs: seq<string>, start: Option<nat>, end: nat, ghost spans: seq<Span>)
    requires Reading(text, pieces, begun, offset) && AtLine(text, pieces, runs, begun, offset) && offset < |text|
    ensures offset < end && Reading(text, paragraphs, start, end) && AtLine(text, paragraphs, spans, start, end)
  {
    end := LineEnd(text, offset);
    if begun.Some? {
      RunHasWords(text, Span(begun.value, offset));
    }
    var blank;
    paragraphs, start, blank := ReadLine(text, pieces, begun, offset, end);
    spans := LineIsLaid(text, pieces, runs, begun, offset, end, paragraphs, start);
  }

  /** The last paragraph closes with the text. */
  method CloseText(text: string, pieces: seq<string>, begun: Option<nat>, ghost runs: seq<Span>)
    returns (paragraphs: seq<string>, ghost spans: seq<Span>)
    requires Reading(text, pieces, begun, |text|) && AtLine(text, pieces, runs, begun, |text|)
    ensures FlatWords(paragraphs) == Words(text) && NoneBlank(paragraphs)
    ensures Laid(text, paragraphs, spans) && LastEnd(spans) <= |text| && Blank(text[LastEnd(spans)..])
  {
    paragraphs, spans := pieces, runs;
    assert text[..|text|] == text;
    if begun.Some? {
      assert text[begun.value..|text|] == text[begun.value..];
      RunHasWords(text, Span(begun.value, |text|));
      LaidGrows(text, pieces, runs, Span(begun.value, |text|));
      paragraphs := PushTrimmed(pieces, text[begun.value..]);
      spans := runs + [Span(begun.value, |text|)];
    }
  }

  /**
   No word is lost, and the paragraphs are exactly the stretches of the text without a blank line,
   trimmed: `spans` says where each stands.
   */
  method Paragraphs(text: string) returns (paragraphs: seq<string>, ghost spans: seq<Span>)
    ensures FlatWords(paragraphs) == Words(text) && NoneBlank(paragraphs)
    ensures Laid(text, paragraphs, spans) && LastEnd(spans) <= |text| && Blank(text[LastEnd(spans)..])
  {
    paragraphs, spans := [], [];
    var start: Option<nat> := None;
    var offset: nat := 0;
    while offset < |text|
      invariant Reading(text, paragraphs, start, offset) && AtLine(text, paragraphs, spans, start, offset)
    {
      paragraphs, start, offset, spans := NextLine(text, paragraphs, start, offset, spans);
    }
    paragraphs, spans := CloseText(text, paragraphs, start, spans);
  }

  predicate Stop(c: char) {
    c == '.' || c == '!' || c == '?'
  }

  predicate Stopped(sentence: string) {
    sentence != [] && Stop(sentence[|sentence| - 1])
  }

  lemma {:induction false} TrimStartKeepsTheEnd(s: string)
    requires s != [] && !IsSpace(s[|s| - 1])
    ensures TrimStart(s) != [] && TrimStart(s)[|TrimStart(s)| - 1] == s[|s| - 1]
  {
    if IsSpace(s[0]) {
      TrimStartKeepsTheEnd(s[1..]);
    }
  }

  /** A sentence ends at `i`: a stop with white space after it. */
  predicate EndsAt(s: string, i: nat) {
    i + 1 < |s| && Stop(s[i]) && IsSpace(s[i + 1])
  }

  /** No sentence ends before the piece does. */
  predicate OneSentence(piece: string) {
    forall i: nat | i + 1 < |piece| :: !EndsAt(piece, i)
  }

  predicate NoEndWithin(paragraph: string, from: nat, to: nat) {
    forall i: nat | from <= i < to :: !EndsAt(paragraph, i)
  }

  /** Every sentence cut so far stops, and together they have the words before `start`. */
  predicate CutBefore(paragraph: string, sentences: seq<string>, start: nat) {
    && start <= |paragraph| && NoneBlank(sentences)
    && (start == 0 || (start < |paragraph| && IsSpace(paragraph[start])))
    && FlatWords(sentences) == Words(paragraph[..start])
  }

  lemma StoppedAfterTrim(s: string)
    requires s != [] && Stop(s[|s| - 1])
    ensures Stopped(Trim(s))
  {
    TrimStartKeepsTheEnd(s);
  }

  lemma {:induction false} TrimStartDrops(s: string) returns (a: nat)
    ensures a <= |s| && TrimStart(s) == s[a..]
  {
    a := 0;
    if s != [] && IsSpace(s[0]) {
      var b := TrimStartDrops(s[1..]);
      a := b + 1;
    }
  }

  /** What is trimmed of a stretch without a sentence's end is one sentence. */
  lemma TrimmedIsOneSentence(paragraph: string, from: nat, to: nat)
    requires from <= to <= |paragraph| && (from < to ==> NoEndWithin(paragraph, from, to - 1))
    ensures OneSentence(Trim(paragraph[from..to]))
  {
    var slice := paragraph[from..to];
    var a := TrimStartDrops(slice);
    TrimEndIsSolidAtTheEnd(slice[a..]);
    var piece := Trim(slice);
    forall i: nat | i + 1 < |piece|
      ensures !EndsAt(piece, i)
    {
      assert piece[i] == paragraph[from + a + i] && piece[i + 1] == paragraph[from + a + i + 1];
      assert !EndsAt(paragraph, from + a + i);
    }
  }

  lemma WordsUpTo(text: string, a: nat, b: nat)
    requires a <= b <= |text| && (a == 0 || b == a || IsSpace(text[a]))
    ensures Words(text[..b]) == Words(text[..a]) + Words(text[a..b])
  {
    assert text[0..a] == text[..a] && text[0..b] == text[..b];
    SliceSplits(text, 0, a, b);
  }

  method CutSentence(paragraph: string, cut: seq<string>, start: nat, index: nat) returns (sentences: seq<string>)
    requires CutBefore(paragraph, cut, start)
    requires start <= index && EndsAt(paragraph, index)
    ensures CutBefore(paragraph, sentences, index + 1) && sentences == cut + [Trim(paragraph[start..index + 1])]
  {
    WordsUpTo(paragraph, start, index + 1);
    StoppedAfterTrim(paragraph[start..index + 1]);
    StoppedHasWords(paragraph[start..index + 1]);
    sentences := PushTrimmed(cut, paragraph[start..index + 1]);
  }

  lemma StoppedHasWords(s: string)
    requires s != [] && Stop(s[|s| - 1])
    ensures Words(s) != []
  {
    if Words(s) == [] {
      NoWordsIsBlank([], s);
    }
  }

  /** A sentence stands up to its own end, with no other's end before that. */
  predicate IsCut(paragraph: string, cut: Span) {
    cut.from < cut.to <= |paragraph| && NoEndWithin(paragraph, cut.from, cut.to - 1)
  }

  /** One after the other, from the beginning. */
  ghost predicate Chained(cuts: seq<Span>) {
    && (cuts != [] ==> cuts[0].from == 0)
    && forall j, k | 0 <= j < k < |cuts| && k == j + 1 :: cuts[k].from == cuts[j].to
  }

  ghost predicate CutSoFar(paragraph: string, cuts: seq<Span>) {
    Chained(cuts) && forall k | 0 <= k < |cuts| :: IsCut(paragraph, cuts[k]) && EndsAt(paragraph, cuts[k].to - 1)
  }

  /** The cuts of a paragraph: at every end, and only there; what follows the last one is blank. */
  ghost predicate CutsOf(paragraph: string, cuts: seq<Span>) {
    && LastEnd(cuts) <= |paragraph| && Blank(paragraph[LastEnd(cuts)..]) && Chained(cuts)
    && forall k | 0 <= k < |cuts| ::
         && IsCut(paragraph, cuts[k])
         && (k < |cuts| - 1 || cuts[k].to < |paragraph| ==> EndsAt(paragraph, cuts[k].to - 1))
  }

  function Stretch(text: string, span: Span): string {
    if span.from <= span.to <= |text| then Trim(text[span.from..span.to]) else ""
  }

  /** What stands in the spans, trimmed. */
  function Stretches(text: string, spans: seq<Span>): (pieces: seq<string>)
    ensures |pieces| == |spans|
  {
    if spans == [] then [] else Stretches(text, spans[..|spans| - 1]) + [Stretch(text, spans[|spans| - 1])]
  }

  /** The sentences of a paragraph. */
  ghost predicate CutAs(paragraph: string, sentences: seq<string>, cuts: seq<Span>) {
    CutsOf(paragraph, cuts) && sentences == Stretches(paragraph, cuts)
  }

  lemma StretchesGrow(text: string, spans: seq<Span>, span: Span)
    ensures Stretches(text, spans + [span]) == Stretches(text, spans) + [Stretch(text, span)]
  {
    assert (spans + [span])[..|spans|] == spans;
  }

  lemma {:induction false} StretchesAt(text: string, spans: seq<Span>, k: nat)
    requires k < |spans|
    ensures Stretches(text, spans)[k] == Stretch(text, spans[k])
  {
    if |spans| > 1 {
      StretchesAt(text, spans[..|spans| - 1], if k < |spans| - 1 then k else 0);
    }
  }

  lemma CutGrows(paragraph: string, cuts: seq<Span>, cut: Span)
    requires CutSoFar(paragraph, cuts) && IsCut(paragraph, cut) && cut.from == LastEnd(cuts)
    ensures EndsAt(paragraph, cut.to - 1) ==> CutSoFar(paragraph, cuts + [cut])
    ensures cut.to == |paragraph| ==> CutsOf(paragraph, cuts + [cut])
  {
  }

  /** The scan at `index`: the sentences before `start`, and no end since. */
  ghost predicate Cutting(paragraph: string, cuts: seq<Span>, start: nat, index: nat) {
    && start <= index <= |paragraph| && start == LastEnd(cuts)
    && NoEndWithin(paragraph, start, index) && CutSoFar(paragraph, cuts)
  }

  /** The tail is the last sentence, stopped or not, unless it is blank. */
  method CutTail(paragraph: string, cut: seq<string>, start: nat, ghost before: seq<Span>)
    returns (sentences: seq<string>, ghost cuts: seq<Span>)
    requires CutBefore(paragraph, cut, start) && Cutting(paragraph, before, start, |paragraph|)
    requires cut == Stretches(paragraph, before)
    ensures FlatWords(sentences) == Words(paragraph) && NoneBlank(sentences)
    ensures CutAs(paragraph, sentences, cuts)
  {
    WordsUpTo(paragraph, start, |paragraph|);
    assert paragraph[..|paragraph|] == paragraph && paragraph[start..|paragraph|] == paragraph[start..];
    sentences := PushTrimmed(cut, paragraph[start..]);
    cuts := before;
    if Words(paragraph[start..]) == [] {
      NoWordsIsBlank([], paragraph[start..]);
      NoSentenceInBlank(cut, paragraph[start..], sentences);
    } else {
      WordsNeedText(paragraph[start..]);
      CutGrows(paragraph, before, Span(start, |paragraph|));
      StretchesGrow(paragraph, before, Span(start, |paragraph|));
      cuts := before + [Span(start, |paragraph|)];
    }
  }

  lemma NoSentenceInBlank(cut: seq<string>, tail: string, sentences: seq<string>)
    requires Words(tail) == [] && NoneBlank(sentences) && (sentences == cut || sentences == cut + [Trim(tail)])
    ensures sentences == cut
  {
    TrimKeepsWords(tail);
    var piece := Trim(tail);
    assert Words(piece) == [];
    assert (cut + [piece])[|cut|] == piece;
  }

  lemma WordsNeedText(s: string)
    requires Words(s) != []
    ensures s != []
  {
    if s == [] {
      BlankHasNoWords(s);
    }
  }

  ghost predicate Scanned(paragraph: string, sentences: seq<string>, cuts: seq<Span>, start: nat, index: nat) {
    CutBefore(paragraph, sentences, start) && Cutting(paragraph, cuts, start, index) && sentences == Stretches(paragraph, cuts)
  }

  lemma CutsOn(paragraph: string, before: seq<Span>, start: nat, index: nat)
    requires Cutting(paragraph, before, start, index) && EndsAt(paragraph, index)
    ensures Cutting(paragraph, before + [Span(start, index + 1)], index + 1, index + 1)
  {
    CutGrows(paragraph, before, Span(start, index + 1));
  }

  method NextSentence(paragraph: string, cut: seq<string>, start: nat, index: nat, ghost before: seq<Span>)
    returns (sentences: seq<string>, ghost cuts: seq<Span>)
    requires Scanned(paragraph, cut, before, start, index) && EndsAt(paragraph, index)
    ensures Scanned(paragraph, sentences, cuts, index + 1, index + 1)
  {
    CutsOn(paragraph, before, start, index);
    StretchesGrow(paragraph, before, Span(start, index + 1));
    cuts := before + [Span(start, index + 1)];
    sentences := CutSentence(paragraph, cut, start, index);
  }

  lemma CuttingOn(paragraph: string, cuts: seq<Span>, start: nat, index: nat)
    requires Cutting(paragraph, cuts, start, index) && index < |paragraph| && !EndsAt(paragraph, index)
    ensures Cutting(paragraph, cuts, start, index + 1)
  {
  }

  lemma ReadsOn(paragraph: string, sentences: seq<string>, cuts: seq<Span>, start: nat, index: nat)
    requires Scanned(paragraph, sentences, cuts, start, index) && index < |paragraph| && !EndsAt(paragraph, index)
    ensures Scanned(paragraph, sentences, cuts, start, index + 1)
  {
    CuttingOn(paragraph, cuts, start, index);
  }

  /** Cut after `.`, `!` or `?` wherever white space follows, and nowhere else: `cuts` says where. */
  method Sentences(paragraph: string) returns (sentences: seq<string>, ghost cuts: seq<Span>)
    ensures FlatWords(sentences) == Words(paragraph) && NoneBlank(sentences)
    ensures CutAs(paragraph, sentences, cuts)
  {
    sentences, cuts := [], [];
    var start: nat := 0;
    for index := 0 to |paragraph|
      invariant Scanned(paragraph, sentences, cuts, start, index)
    {
      if EndsAt(paragraph, index) {
        sentences, cuts := NextSentence(paragraph, sentences, start, index, cuts);
        start := index + 1;
      } else {
        ReadsOn(paragraph, sentences, cuts, start, index);
      }
    }
    sentences, cuts := CutTail(paragraph, sentences, start, cuts);
  }

  /** So every sentence but the last stops, and none has another's end inside it. */
  lemma SentencesStop(paragraph: string, sentences: seq<string>, cuts: seq<Span>, k: nat)
    requires CutAs(paragraph, sentences, cuts) && k < |sentences|
    ensures k < |sentences| - 1 ==> Stopped(sentences[k])
    ensures OneSentence(sentences[k])
  {
    StretchesAt(paragraph, cuts, k);
    var cut := cuts[k];
    assert IsCut(paragraph, cut);
    TrimmedIsOneSentence(paragraph, cut.from, cut.to);
    if k < |sentences| - 1 {
      assert EndsAt(paragraph, cut.to - 1);
      StoppedAfterTrim(paragraph[cut.from..cut.to]);
    }
  }

  lemma {:induction false} CutHolds(paragraph: string, cuts: seq<Span>, n: nat, i: nat) returns (k: nat)
    requires CutsOf(paragraph, cuts) && 0 < n <= |cuts| && i < cuts[n - 1].to
    ensures k < n && cuts[k].from <= i < cuts[k].to
    decreases n
  {
    k := n - 1;
    if i < cuts[k].from {
      assert k > 0 && cuts[k].from == cuts[k - 1].to;
      k := CutHolds(paragraph, cuts, k, i);
    }
  }

  lemma BlankTail(s: string, from: nat, i: nat)
    requires from <= i < |s| && Blank(s[from..])
    ensures IsSpace(s[i])
  {
    assert s[i] == s[from..][i - from];
  }

  /** And every `.`, `!` or `?` with white space after it ends one. */
  lemma EveryStopEndsASentence(paragraph: string, sentences: seq<string>, cuts: seq<Span>, i: nat) returns (k: nat)
    requires CutAs(paragraph, sentences, cuts) && i + 1 < |paragraph|
    requires paragraph[i] in {'.', '!', '?'} && IsSpace(paragraph[i + 1])
    ensures k < |cuts| == |sentences| && cuts[k].to == i + 1
  {
    assert Stop(paragraph[i]);
    assert EndsAt(paragraph, i);
    if i >= LastEnd(cuts) {
      BlankTail(paragraph, LastEnd(cuts), i);
    }
    k := CutHolds(paragraph, cuts, |cuts|, i);
    assert IsCut(paragraph, cuts[k]);
  }

  datatype Word = Word(offset: nat, text: string)

  function End(word: Word): nat {
    word.offset + |word.text|
  }

  /** The word stands in the text where it says, unbroken. */
  predicate WordAt(text: string, word: Word) {
    word.text != [] && End(word) <= |text| && word.text == text[word.offset..End(word)] && Solid(word.text)
  }

  /** Nothing but white space, and some of it, between two places. */
  predicate Parted(text: string, end: nat, next: nat) {
    end < next <= |text| && Blank(text[end..next])
  }

  predicate Placed(text: string, words: seq<Word>) {
    && (forall k | 0 <= k < |words| :: WordAt(text, words[k]))
    && (forall k | 0 < k < |words| :: Parted(text, End(words[k - 1]), words[k].offset))
  }

  function Texts(words: seq<Word>): seq<string> {
    if words == [] then [] else Texts(words[..|words| - 1]) + [words[|words| - 1].text]
  }

  lemma TextsSnoc(words: seq<Word>, word: Word)
    ensures Texts(words + [word]) == Texts(words) + [word.text]
  {
    assert (words + [word])[..|words|] == words;
  }

  /** The words found are those of the text before `end`, and the last is parted from `end`. */
  predicate FoundBefore(text: string, words: seq<Word>, end: nat) {
    && end <= |text| && Placed(text, words) && Texts(words) == Words(text[..end])
    && (words != [] ==> Parted(text, End(words[|words| - 1]), end))
    && (end == 0 || IsSpace(text[end - 1]))
  }

  /** The scan at `index`: every word before it, and the one it may be inside of. */
  predicate Scanning(text: string, words: seq<Word>, start: Option<nat>, index: nat) {
    && index <= |text|
    && (start.Some? ==> start.value < index && Solid(text[start.value..index]))
    && FoundBefore(text, words, if start.Some? then start.value else index)
  }

  /** Before the first word and after the last there is nothing but white space. */
  predicate Surrounded(text: string, words: seq<Word>) {
    if words == [] then Blank(text)
    else
      var first, last := words[0].offset, End(words[|words| - 1]);
      first <= |text| && last <= |text| && Blank(text[..first]) && Blank(text[last..])
  }

  /** Only white space before the first word. */
  predicate Led(text: string, words: seq<Word>) {
    words != [] ==> words[0].offset <= |text| && Blank(text[..words[0].offset])
  }

  lemma FirstWordLeads(text: string, words: seq<Word>, start: nat, word: Word)
    requires FoundBefore(text, words, start) && Led(text, words) && word.offset == start
    ensures Led(text, words + [word])
  {
    if words == [] {
      NoWordsIsBlank([], text[..start]);
    }
  }

  /** The word that is open when the text ends is its last. */
  method LastWord(text: string, found: seq<Word>, start: Option<nat>) returns (words: seq<Word>)
    requires Scanning(text, found, start, |text|) && Led(text, found)
    ensures Placed(text, words) && Texts(words) == Words(text) && Surrounded(text, words)
  {
    words := found;
    assert text[..|text|] == text;
    if start.Some? {
      TakeWord(text, found, start.value, |text|);
      FirstWordLeads(text, found, start.value, Word(start.value, text[start.value..]));
      words := found + [Word(start.value, text[start.value..])];
    } else if words == [] {
      NoWordsIsBlank([], text);
    }
  }

  lemma WordCloses(text: string, words: seq<Word>, start: nat, index: nat)
    requires index < |text| && IsSpace(text[index]) && Scanning(text, words, Some(start), index) && Led(text, words)
    ensures var more := words + [Word(start, text[start..index])]; Scanning(text, more, None, index + 1) && Led(text, more)
  {
    ScanSpace(text, words, Some(start), index);
    FirstWordLeads(text, words, start, Word(start, text[start..index]));
  }

  /** One turn of the scan. */
  method ScanChar(text: string, found: seq<Word>, begun: Option<nat>, index: nat) returns (words: seq<Word>, start: Option<nat>)
    requires index < |text| && Scanning(text, found, begun, index) && Led(text, found)
    ensures Scanning(text, words, start, index + 1) && Led(text, words)
  {
    words, start := found, begun;
    if IsSpace(text[index]) {
      if begun.Some? {
        WordCloses(text, found, begun.value, index);
        words := found + [Word(begun.value, text[begun.value..index])];
        start := None;
      } else {
        ScanSpace(text, found, begun, index);
      }
    } else {
      ScanLetter(text, found, begun, index);
      if begun.None? {
        start := Some(index);
      }
    }
  }

  method WordsWithOffsets(text: string) returns (words: seq<Word>)
    ensures Placed(text, words) && Texts(words) == Words(text) && Surrounded(text, words)
  {
    words := [];
    var start: Option<nat> := None;
    for index := 0 to |text|
      invariant Scanning(text, words, start, index) && Led(text, words)
    {
      words, start := ScanChar(text, words, start, index);
    }
    words := LastWord(text, words, start);
  }

  lemma ScanSpace(text: string, words: seq<Word>, start: Option<nat>, index: nat)
    requires index < |text| && IsSpace(text[index]) && Scanning(text, words, start, index)
    ensures Scanning(text, if start.Some? then words + [Word(start.value, text[start.value..index])] else words, None, index + 1)
  {
    if start.Some? {
      TakeWord(text, words, start.value, index);
      SpaceAfterWord(text, words + [Word(start.value, text[start.value..index])], index);
    } else {
      SpaceAfterSpace(text, words, index);
    }
  }

  lemma ScanLetter(text: string, words: seq<Word>, start: Option<nat>, index: nat)
    requires index < |text| && !IsSpace(text[index]) && Scanning(text, words, start, index)
    ensures Scanning(text, words, Some(if start.Some? then start.value else index), index + 1)
  {
    var begin := if start.Some? then start.value else index;
    assert text[begin..index + 1] == text[begin..index] + [text[index]];
  }

  lemma AppendBlank(text: string, index: nat)
    requires index < |text| && IsSpace(text[index])
    ensures Words(text[..index + 1]) == Words(text[..index])
  {
    assert text[..index + 1] == text[..index] + [text[index]];
    WordsSplit(text[..index], [text[index]]);
    BlankHasNoWords([text[index]]);
  }

  lemma SpaceAfterSpace(text: string, words: seq<Word>, index: nat)
    requires index < |text| && IsSpace(text[index]) && FoundBefore(text, words, index)
    ensures FoundBefore(text, words, index + 1)
  {
    AppendBlank(text, index);
    if words != [] {
      var end := End(words[|words| - 1]);
      assert text[end..index + 1] == text[end..index] + [text[index]];
    }
  }

  lemma SpaceAfterWord(text: string, words: seq<Word>, index: nat)
    requires index < |text| && IsSpace(text[index]) && words != [] && End(words[|words| - 1]) == index
    requires Placed(text, words) && Texts(words) == Words(text[..index])
    ensures FoundBefore(text, words, index + 1)
  {
    AppendBlank(text, index);
    assert text[index..index + 1] == [text[index]];
  }

  lemma TakeWord(text: string, words: seq<Word>, start: nat, end: nat)
    requires start < end <= |text| && Solid(text[start..end]) && FoundBefore(text, words, start)
    ensures var more := words + [Word(start, text[start..end])];
            Placed(text, more) && Texts(more) == Words(text[..end])
  {
    var word := Word(start, text[start..end]);
    TextsSnoc(words, word);
    assert text[..end] == text[..start] + word.text;
    WordsSplit(text[..start], word.text);
    SolidIsOneWord(word.text);
  }

  /** A slice grows by one word, gap and all. */
  lemma SliceTakesAWord(text: string, begin: nat, end: nat, word: Word)
    requires begin <= end && WordAt(text, word) && Parted(text, end, word.offset)
    ensures Words(text[begin..End(word)]) == Words(text[begin..end]) + [word.text]
  {
    var gap := text[end..word.offset];
    assert gap[0] == text[end] && gap[|gap| - 1] == text[word.offset - 1];
    SliceSplits(text, begin, end, End(word));
    SliceSplits(text, end, word.offset, End(word));
    BlankHasNoWords(gap);
    SolidIsOneWord(word.text);
  }

  /** The pieces and the slice still open hold the first words, and all of them fit. */
  predicate Wrapping(text: string, words: seq<string>, wrapped: seq<string>, begin: nat, end: nat) {
    && begin < end <= |text| && AllFit(wrapped) && Fits(text[begin..end])
    && Words(text[begin..end]) != []
    && words == FlatWords(wrapped) + Words(text[begin..end])
  }

  lemma WrapStartsAPiece(text: string, words: seq<string>, wrapped: seq<string>, word: Word)
    requires AllFit(wrapped) && FlatWords(wrapped) == words && WordAt(text, word)
    ensures Wrapping(text, words + [word.text], wrapped, word.offset, End(word))
  {
    SolidIsOneWord(word.text);
  }

  lemma WrapClosesAPiece(text: string, words: seq<string>, wrapped: seq<string>, begin: nat, end: nat)
    requires Wrapping(text, words, wrapped, begin, end)
    ensures AllFit(wrapped + [text[begin..end]]) && FlatWords(wrapped + [text[begin..end]]) == words
  {
    FlatWordsSnoc(wrapped, text[begin..end]);
  }

  lemma WrapExtendsAPiece(text: string, words: seq<string>, wrapped: seq<string>, begin: nat, end: nat, word: Word)
    requires Wrapping(text, words, wrapped, begin, end) && WordAt(text, word) && Parted(text, end, word.offset)
    requires End(word) - begin <= TARGET_CHARS
    ensures Wrapping(text, words + [word.text], wrapped, begin, End(word))
  {
    SliceTakesAWord(text, begin, end, word);
  }

  /** After the first `k` words: where the open piece begins and ends, and its length. */
  predicate WrappedUpTo(text: string, words: seq<Word>, k: nat, wrapped: seq<string>, start: Option<nat>, end: nat, taken: nat) {
    && k <= |words| && (start.None? <==> k == 0)
    && (start.None? ==> wrapped == [])
    && (start.Some? ==>
          && end == End(words[k - 1]) && taken == end - start.value
          && Wrapping(text, Texts(words[..k]), wrapped, start.value, end))
  }

  /** Where the unbroken run from `i` ends. */
  function WordEnd(text: string, i: nat): (end: nat)
    requires i <= |text|
    ensures i <= end <= |text|
    decreases |text| - i
  {
    if i < |text| && !IsSpace(text[i]) then WordEnd(text, i + 1) else i
  }

  lemma {:induction false} WordEndIs(text: string, i: nat, end: nat)
    requires i <= end <= |text| && Solid(text[i..end]) && (end == |text| || IsSpace(text[end]))
    ensures WordEnd(text, i) == end
    decreases end - i
  {
    if i < end {
      assert text[i] == text[i..end][0];
      assert text[i + 1..end] == text[i..end][1..];
      WordEndIs(text, i + 1, end);
    }
  }

  /** White space between two pieces, and the second one's first word would not have fitted the first. */
  predicate Follows(text: string, a: Span, next: nat) {
    Parted(text, a.to, next) && WordEnd(text, next) - a.from > TARGET_CHARS
  }

  predicate PieceAt(text: string, span: Span, piece: string) {
    span.from < span.to <= |text| && piece == text[span.from..span.to]
  }

  ghost predicate PiecesFollow(text: string, wrapped: seq<string>, spans: seq<Span>) {
    && |spans| == |wrapped| && (forall k | 0 <= k < |spans| :: PieceAt(text, spans[k], wrapped[k]))
    && forall j, k | 0 <= j < k < |spans| && k == j + 1 :: Follows(text, spans[j], spans[k].from)
  }

  /** What a text is wrapped into: its own stretches, each as long as whole words within the budget allow. */
  ghost predicate WrappedAs(text: string, wrapped: seq<string>, spans: seq<Span>) {
    && PiecesFollow(text, wrapped, spans)
    && (if spans == [] then Blank(text)
        else spans[0].from <= |text| && Blank(text[..spans[0].from]) && LastEnd(spans) <= |text| && Blank(text[LastEnd(spans)..]))
  }

  /** The pieces closed, and the one open from `begin`. */
  ghost predicate WrapSoFar(text: string, wrapped: seq<string>, spans: seq<Span>, begin: nat, first: nat) {
    && PiecesFollow(text, wrapped, spans)
    && (if spans == [] then begin == first else spans[0].from == first && Follows(text, spans[|spans| - 1], begin))
  }

  lemma WrapSpanCloses(text: string, wrapped: seq<string>, spans: seq<Span>, begin: nat, end: nat, first: nat)
    requires WrapSoFar(text, wrapped, spans, begin, first) && begin < end <= |text|
    ensures var more, grown := wrapped + [text[begin..end]], spans + [Span(begin, end)];
            && PiecesFollow(text, more, grown) && grown[0].from == first
            && forall next: nat :: Follows(text, Span(begin, end), next) ==> WrapSoFar(text, more, grown, next, first)
  {
  }

  /** The first word opens a piece; */
  lemma WrapFirst(text: string, words: seq<Word>)
    requires words != [] && WordAt(text, words[0])
    ensures WrappedUpTo(text, words, 1, [], Some(words[0].offset), End(words[0]), |words[0].text|)
  {
    TextsSnoc([], words[0]);
    assert words[..1] == [] + [words[0]];
    WrapStartsAPiece(text, [], [], words[0]);
  }

  /** The word at `k` ends where its run does. */
  lemma WordRunsToItsEnd(text: string, words: seq<Word>, k: nat)
    requires Placed(text, words) && Surrounded(text, words) && k < |words|
    ensures WordEnd(text, words[k].offset) == End(words[k])
  {
    var end := End(words[k]);
    assert WordAt(text, words[k]);
    if k + 1 < |words| {
      assert Parted(text, End(words[k + 1 - 1]), words[k + 1].offset);
      assert text[end] == text[end..words[k + 1].offset][0];
    } else if end < |text| {
      assert text[end] == text[end..][0];
    }
    WordEndIs(text, words[k].offset, end);
  }

  /** every other joins the open piece or opens the next. */
  method WrapWord(
    text: string, words: seq<Word>, k: nat, pieces: seq<string>, begin: nat, end: nat, length: nat, ghost spans: seq<Span>)
    returns (wrapped: seq<string>, start: nat, taken: nat, ghost spans': seq<Span>)
    requires Placed(text, words) && Surrounded(text, words) && 0 < k < |words|
    requires WrappedUpTo(text, words, k, pieces, Some(begin), end, length)
    requires WrapSoFar(text, pieces, spans, begin, words[0].offset)
    ensures WrappedUpTo(text, words, k + 1, wrapped, Some(start), End(words[k]), taken)
    ensures WrapSoFar(text, wrapped, spans', start, words[0].offset)
  {
    var word := words[k];
    assert Parted(text, End(words[k - 1]), words[k].offset);
    wrapped, spans' := pieces, spans;
    var gap := |text[end..word.offset]|;
    if length + gap + |word.text| > TARGET_CHARS {
      wrapped := pieces + [text[begin..end]];
      start, taken := word.offset, |word.text|;
      WrapClosed(text, words, k, pieces, begin, end, length);
      WordRunsToItsEnd(text, words, k);
      WrapSpanCloses(text, pieces, spans, begin, end, words[0].offset);
      spans' := spans + [Span(begin, end)];
    } else {
      start, taken := begin, length + gap + |word.text|;
      WrapOpen(text, words, k, pieces, begin, end, length);
    }
  }

  lemma WrapClosed(text: string, words: seq<Word>, k: nat, pieces: seq<string>, begin: nat, end: nat, length: nat)
    requires Placed(text, words) && 0 < k < |words| && WrappedUpTo(text, words, k, pieces, Some(begin), end, length)
    ensures var word := words[k];
            WrappedUpTo(text, words, k + 1, pieces + [text[begin..end]], Some(word.offset), End(word), |word.text|)
  {
    var word := words[k];
    TextsSnoc(words[..k], word);
    assert words[..k + 1] == words[..k] + [word];
    WrapClosesAPiece(text, Texts(words[..k]), pieces, begin, end);
    WrapStartsAPiece(text, Texts(words[..k]), pieces + [text[begin..end]], word);
  }

  lemma WrapOpen(text: string, words: seq<Word>, k: nat, pieces: seq<string>, begin: nat, end: nat, length: nat)
    requires Placed(text, words) && 0 < k < |words| && WrappedUpTo(text, words, k, pieces, Some(begin), end, length)
    requires length + (words[k].offset - end) + |words[k].text| <= TARGET_CHARS
    ensures WrappedUpTo(text, words, k + 1, pieces, Some(begin), End(words[k]), length + (words[k].offset - end) + |words[k].text|)
  {
    var word := words[k];
    TextsSnoc(words[..k], word);
    assert words[..k + 1] == words[..k] + [word];
    assert Parted(text, End(words[k - 1]), words[k].offset);
    WrapExtendsAPiece(text, Texts(words[..k]), pieces, begin, end, word);
  }

  ghost predicate Wrapped(text: string, words: seq<Word>, k: nat, wrapped: seq<string>, start: Option<nat>, end: nat, taken: nat, spans: seq<Span>) {
    && WrappedUpTo(text, words, k, wrapped, start, end, taken)
    && (start.None? ==> spans == [])
    && (start.Some? ==> words != [] && WrapSoFar(text, wrapped, spans, start.value, words[0].offset))
  }

  /** Last resort: pack whole words, gaps counted as they stand. */
  method WrapWords(text: string) returns (wrapped: seq<string>, ghost spans: seq<Span>)
    ensures FlatWords(wrapped) == Words(text) && AllFit(wrapped)
    ensures WrappedAs(text, wrapped, spans)
  {
    wrapped, spans := [], [];
    var words := WordsWithOffsets(text);
    var start: Option<nat> := None;
    var end: nat, taken: nat := 0, 0;
    for k := 0 to |words|
      invariant Wrapped(text, words, k, wrapped, start, end, taken, spans)
    {
      if start.None? {
        WrapFirst(text, words);
        start, taken := Some(words[k].offset), |words[k].text|;
      } else {
        var begin: nat;
        wrapped, begin, taken, spans := WrapWord(text, words, k, wrapped, start.value, end, taken, spans);
        start := Some(begin);
      }
      end := End(words[k]);
    }
    assert words[..|words|] == words;
    if start.Some? {
      WrapClosesAPiece(text, Texts(words), wrapped, start.value, end);
      WrapSpanCloses(text, wrapped, spans, start.value, end, words[0].offset);
      wrapped := wrapped + [text[start.value..end]];
      spans := spans + [Span(start.value, end)];
    }
  }

  /** The units hold the words of what was split, and all of them fit. */
  predicate Hold(units: seq<string>, whole: seq<string>) {
    AllFit(units) && FlatWords(units) == FlatWords(whole)
  }

  lemma HoldMore(units: seq<string>, whole: seq<string>, i: nat, pieces: seq<string>)
    requires i < |whole| && Hold(units, whole[..i]) && AllFit(pieces) && FlatWords(pieces) == Words(whole[i])
    ensures Hold(units + pieces, whole[..i + 1])
  {
    FlatWordsConcat(units, pieces);
    FlatWordsSnoc(whole[..i], whole[i]);
    assert whole[..i + 1] == whole[..i] + [whole[i]];
  }

  lemma OneUnit(unit: string)
    requires |unit| <= TARGET_CHARS && Words(unit) != []
    ensures AllFit([unit]) && FlatWords([unit]) == Words(unit)
  {
    FlatWordsSnoc([], unit);
    assert [] + [unit] == [unit];
  }

  function Flat(parts: seq<seq<string>>): seq<string> {
    if parts == [] then [] else Flat(parts[..|parts| - 1]) + parts[|parts| - 1]
  }

  lemma FlatSnoc(parts: seq<seq<string>>, part: seq<string>)
    ensures Flat(parts + [part]) == Flat(parts) + part
  {
    assert (parts + [part])[..|parts|] == parts;
  }

  /** A sentence within the budget stays whole; any other is wrapped. */
  ghost predicate SentenceSplits(sentence: string, pieces: seq<string>) {
    if |sentence| <= TARGET_CHARS then pieces == [sentence] else exists spans :: WrappedAs(sentence, pieces, spans)
  }

  ghost predicate SentencesSplit(sentences: seq<string>, parts: seq<seq<string>>) {
    |parts| == |sentences| && forall k | 0 <= k < |parts| :: SentenceSplits(sentences[k], parts[k])
  }

  /** A paragraph within the budget stays whole; any other gives what its sentences give, in order. */
  ghost predicate ParagraphSplits(paragraph: string, pieces: seq<string>) {
    if |paragraph| <= TARGET_CHARS then pieces == [paragraph]
    else exists sentences, cuts, parts ::
        CutAs(paragraph, sentences, cuts) && SentencesSplit(sentences, parts) && pieces == Flat(parts)
  }

  ghost predicate ParagraphsSplit(paragraphs: seq<string>, parts: seq<seq<string>>) {
    |parts| == |paragraphs| && forall k | 0 <= k < |parts| :: ParagraphSplits(paragraphs[k], parts[k])
  }

  /** The paragraphs of a text: nothing but blank lines between them and after the last. */
  ghost predicate ParagraphsOf(text: string, paragraphs: seq<string>, spans: seq<Span>) {
    Laid(text, paragraphs, spans) && LastEnd(spans) <= |text| && Blank(text[LastEnd(spans)..])
  }

  /** The units of a text: what its paragraphs give, in order. */
  ghost predicate TextSplits(text: string, units: seq<string>) {
    exists paragraphs, spans, parts ::
      ParagraphsOf(text, paragraphs, spans) && ParagraphsSplit(paragraphs, parts) && units == Flat(parts)
  }

  lemma SentencesSplitOn(sentences: seq<string>, i: nat, parts: seq<seq<string>>, pieces: seq<string>)
    requires i < |sentences| && SentencesSplit(sentences[..i], parts) && SentenceSplits(sentences[i], pieces)
    ensures SentencesSplit(sentences[..i + 1], parts + [pieces]) && Flat(parts + [pieces]) == Flat(parts) + pieces
  {
    FlatSnoc(parts, pieces);
  }

  lemma ParagraphsSplitOn(paragraphs: seq<string>, i: nat, parts: seq<seq<string>>, pieces: seq<string>)
    requires i < |paragraphs| && ParagraphsSplit(paragraphs[..i], parts) && ParagraphSplits(paragraphs[i], pieces)
    ensures ParagraphsSplit(paragraphs[..i + 1], parts + [pieces]) && Flat(parts + [pieces]) == Flat(parts) + pieces
  {
    FlatSnoc(parts, pieces);
  }

  method SentenceUnits(paragraph: string) returns (units: seq<string>)
    requires |paragraph| > TARGET_CHARS
    ensures FlatWords(units) == Words(paragraph) && AllFit(units) && ParagraphSplits(paragraph, units)
  {
    var sentences, cuts := Sentences(paragraph);
    ghost var parts;
    units, parts := WrapEach(sentences);
  }

  /** The turn of the inner loop. */
  method SplitSentence(sentence: string) returns (pieces: seq<string>)
    requires Words(sentence) != []
    ensures FlatWords(pieces) == Words(sentence) && AllFit(pieces) && SentenceSplits(sentence, pieces)
  {
    if |sentence| <= TARGET_CHARS {
      OneUnit(sentence);
      pieces := [sentence];
    } else {
      ghost var spans;
      pieces, spans := WrapWords(sentence);
    }
  }

  method WrapEach(sentences: seq<string>) returns (units: seq<string>, ghost parts: seq<seq<string>>)
    requires NoneBlank(sentences)
    ensures FlatWords(units) == FlatWords(sentences) && AllFit(units)
    ensures SentencesSplit(sentences, parts) && units == Flat(parts)
  {
    units, parts := [], [];
    for i := 0 to |sentences|
      invariant Hold(units, sentences[..i]) && SentencesSplit(sentences[..i], parts) && units == Flat(parts)
    {
      var pieces := SplitSentence(sentences[i]);
      HoldMore(units, sentences, i, pieces);
      SentencesSplitOn(sentences, i, parts, pieces);
      units, parts := units + pieces, parts + [pieces];
    }
    assert sentences[..|sentences|] == sentences;
  }

  /** The turn of the outer loop. */
  method SplitParagraph(paragraph: string) returns (pieces: seq<string>)
    requires Words(paragraph) != []
    ensures FlatWords(pieces) == Words(paragraph) && AllFit(pieces) && ParagraphSplits(paragraph, pieces)
  {
    if |paragraph| <= TARGET_CHARS {
      OneUnit(paragraph);
      pieces := [paragraph];
    } else {
      pieces := SentenceUnits(paragraph);
    }
  }

  method SplitEach(paragraphs: seq<string>) returns (units: seq<string>, ghost parts: seq<seq<string>>)
    requires NoneBlank(paragraphs)
    ensures FlatWords(units) == FlatWords(paragraphs) && AllFit(units)
    ensures ParagraphsSplit(paragraphs, parts) && units == Flat(parts)
  {
    units, parts := [], [];
    for i := 0 to |paragraphs|
      invariant Hold(units, paragraphs[..i]) && ParagraphsSplit(paragraphs[..i], parts) && units == Flat(parts)
    {
      var pieces := SplitParagraph(paragraphs[i]);
      HoldMore(units, paragraphs, i, pieces);
      ParagraphsSplitOn(paragraphs, i, parts, pieces);
      units, parts := units + pieces, parts + [pieces];
    }
    assert paragraphs[..|paragraphs|] == paragraphs;
  }

  /** Paragraphs, the sentences of those over the budget, and the pieces of sentences over it. */
  method Units(text: string) returns (units: seq<string>)
    ensures FlatWords(units) == Words(text) && AllFit(units)
    ensures TextSplits(text, units)
  {
    var paragraphs, spans := Paragraphs(text);
    ghost var parts;
    units, parts := SplitEach(paragraphs);
    assert ParagraphsOf(text, paragraphs, spans);
  }

  lemma JoinedUnit(current: string, unit: string)
    ensures Words(current + " " + unit) == Words(current) + Words(unit)
  {
    WordsSplit(current + " ", unit);
    WordsSplit(current, " ");
    BlankHasNoWords(" ");
  }

  /** The chunks and the one being packed hold `words`, and all of them fit. */
  predicate Packing(words: seq<string>, chunks: seq<string>, current: string) {
    && AllFit(chunks) && Fits(current)
    && (current == "" <==> Words(current) == [])
    && FlatWords(chunks) + Words(current) == words
  }

  lemma ClosesAChunk(words: seq<string>, chunks: seq<string>, current: string)
    requires Packing(words, chunks, current) && current != ""
    ensures Packing(words, chunks + [current], "") && FlatWords(chunks + [current]) == words
  {
    FlatWordsSnoc(chunks, current);
  }

  lemma TakesAUnit(words: seq<string>, chunks: seq<string>, current: string, unit: string)
    requires Packing(words, chunks, current) && Fits(unit) && Words(unit) != []
    requires current == "" || |current| + 1 + |unit| <= TARGET_CHARS
    ensures Packing(words + Words(unit), chunks, if current == "" then unit else current + " " + unit)
  {
    JoinedUnit(current, unit);
    assert FlatWords(chunks) + (Words(current) + Words(unit)) == FlatWords(chunks) + Words(current) + Words(unit);
    if unit == "" {
      BlankHasNoWords("");
    }
  }

  /** No two neighbouring chunks would have fitted together, nor the last with what follows it. */
  predicate Tight(chunks: seq<string>, following: nat) {
    && (forall k | 0 < k < |chunks| :: |chunks[k - 1]| + 1 + |chunks[k]| > TARGET_CHARS)
    && (chunks != [] ==> |chunks[|chunks| - 1]| + 1 + following > TARGET_CHARS)
  }

  /** A chunk is a run of units joined by single spaces, and the unit after it would not have fitted. */
  predicate ChunkIs(units: seq<string>, chunk: string, span: Span) {
    && span.from < span.to <= |units| && chunk == Join(units[span.from..span.to])
    && (span.to < |units| ==> |chunk| + 1 + |units[span.to]| > TARGET_CHARS)
  }

  ghost predicate ChunksAre(units: seq<string>, chunks: seq<string>, spans: seq<Span>) {
    && Chained(spans) && |spans| == |chunks|
    && forall k | 0 <= k < |spans| :: ChunkIs(units, chunks[k], spans[k])
  }

  /** The chunks are consecutive runs of units, from the first to the last. */
  ghost predicate Packed(units: seq<string>, chunks: seq<string>, spans: seq<Span>) {
    ChunksAre(units, chunks, spans) && LastEnd(spans) == |units|
  }

  /** After `i` units: the chunks closed, and the run that is open. */
  ghost predicate PackedUpTo(units: seq<string>, chunks: seq<string>, spans: seq<Span>, current: string, i: nat) {
    && ChunksAre(units, chunks, spans)
    && if i == 0 then spans == [] && current == ""
       else LastEnd(spans) < i <= |units| && current == Join(units[LastEnd(spans)..i])
  }

  lemma ChunkCloses(units: seq<string>, chunks: seq<string>, spans: seq<Span>, current: string, i: nat)
    requires PackedUpTo(units, chunks, spans, current, i) && 0 < i
    requires i < |units| ==> |current| + 1 + |units[i]| > TARGET_CHARS
    ensures ChunksAre(units, chunks + [current], spans + [Span(LastEnd(spans), i)])
  {
    assert ChunkIs(units, current, Span(LastEnd(spans), i));
  }

  lemma ChunkOpens(units: seq<string>, chunks: seq<string>, spans: seq<Span>, i: nat)
    requires ChunksAre(units, chunks, spans) && LastEnd(spans) == i < |units|
    ensures PackedUpTo(units, chunks, spans, units[i], i + 1)
  {
    assert units[i..i + 1] == [units[i]];
  }

  lemma ChunkGrows(units: seq<string>, chunks: seq<string>, spans: seq<Span>, current: string, i: nat)
    requires PackedUpTo(units, chunks, spans, current, i) && 0 < i < |units|
    ensures PackedUpTo(units, chunks, spans, current + " " + units[i], i + 1)
  {
    var from := LastEnd(spans);
    JoinSnoc(units[from..i], units[i]);
    assert units[from..i + 1] == units[from..i] + [units[i]];
  }

  predicate Overflows(current: string, unit: string) {
    current != "" && |current| + 1 + |unit| > TARGET_CHARS
  }

  lemma PackedOn(units: seq<string>, i: nat, chunks: seq<string>, current: string, runs: seq<Span>) returns (spans: seq<Span>)
    requires i < |units| && PackedUpTo(units, chunks, runs, current, i) && (current == "" <==> i == 0)
    ensures if Overflows(current, units[i]) then PackedUpTo(units, chunks + [current], spans, units[i], i + 1)
            else if current == "" then PackedUpTo(units, chunks, spans, units[i], i + 1)
            else PackedUpTo(units, chunks, spans, current + " " + units[i], i + 1)
  {
    spans := runs;
    if Overflows(current, units[i]) {
      ChunkCloses(units, chunks, runs, current, i);
      spans := runs + [Span(LastEnd(runs), i)];
      ChunkOpens(units, chunks + [current], spans, i);
    } else if current == "" {
      ChunkOpens(units, chunks, spans, i);
    } else {
      ChunkGrows(units, chunks, runs, current, i);
    }
  }

  /** One turn of the packing loop. */
  method PackUnit(chunks: seq<string>, current: string, unit: string, ghost words: seq<string>)
    returns (chunks': seq<string>, current': string)
    requires Packing(words, chunks, current) && Fits(unit) && Words(unit) != []
    requires Tight(chunks, |current|) && (current == "" ==> chunks == [])
    ensures Packing(words + Words(unit), chunks', current')
    ensures Tight(chunks', |current'|) && current' != ""
    ensures if Overflows(current, unit) then chunks' == chunks + [current] && current' == unit
            else chunks' == chunks && current' == if current == "" then unit else current + " " + unit
  {
    chunks', current' := chunks, current;
    if |current'| > 0 && |current'| + 1 + |unit| > TARGET_CHARS {
      ClosesAChunk(words, chunks, current);
      chunks' := chunks + [current];
      current' := "";
    }
    TakesAUnit(words, chunks', current', unit);
    assert "" + unit == unit;
    if |current'| > 0 {
      current' := current' + " ";
    }
    current' := current' + unit;
  }

  /** After `i` units: the words are all there, the chunks are tight, and they are runs of units. */
  ghost predicate PackState(units: seq<string>, chunks: seq<string>, current: string, i: nat, spans: seq<Span>) {
    && i <= |units| && Packing(FlatWords(units[..i]), chunks, current)
    && Tight(chunks, |current|) && (current == "" <==> i == 0)
    && PackedUpTo(units, chunks, spans, current, i)
  }

  method PackNext(units: seq<string>, chunks: seq<string>, current: string, i: nat, ghost runs: seq<Span>)
    returns (chunks': seq<string>, current': string, ghost spans: seq<Span>)
    requires i < |units| && Fits(units[i]) && Words(units[i]) != [] && PackState(units, chunks, current, i, runs)
    ensures PackState(units, chunks', current', i + 1, spans)
  {
    spans := PackedOn(units, i, chunks, current, runs);
    FlatWordsSnoc(units[..i], units[i]);
    assert units[..i + 1] == units[..i] + [units[i]];
    chunks', current' := PackUnit(chunks, current, units[i], FlatWords(units[..i]));
  }

  /** The packing loop: what it has closed, and the chunk still open. */
  method Pack(units: seq<string>) returns (chunks: seq<string>, current: string, ghost spans: seq<Span>)
    requires AllFit(units)
    ensures PackState(units, chunks, current, |units|, spans)
  {
    chunks, current, spans := [], "", [];
    for i := 0 to |units|
      invariant PackState(units, chunks, current, i, spans)
    {
      chunks, current, spans := PackNext(units, chunks, current, i, spans);
    }
  }

  /**
   Every text is cut into chunks that have, in order and joined by spaces, exactly its words; each
   is within the budget or is one unbroken run; each is a run of the text's units, joined by single
   spaces and as long as the budget allows; and only a text without words has no chunks.
   */
  method Chunk(text: string) returns (chunks: seq<string>, ghost units: seq<string>, ghost spans: seq<Span>)
    ensures FlatWords(chunks) == Words(text)
    ensures Words(Join(chunks)) == Words(text)
    ensures AllFit(chunks)
    ensures TextSplits(text, units) && Packed(units, chunks, spans)
    ensures forall k | 0 < k < |chunks| :: |chunks[k - 1]| + 1 + |chunks[k]| > TARGET_CHARS
    ensures chunks == [] <==> Words(text) == []
  {
    var pieces := Units(text);
    units := pieces;
    var current;
    chunks, current, spans := Pack(pieces);
    assert pieces[..|pieces|] == pieces;
    if current != "" {
      ClosesAChunk(FlatWords(pieces), chunks, current);
      ChunkCloses(pieces, chunks, spans, current, |pieces|);
      spans := spans + [Span(LastEnd(spans), |pieces|)];
      chunks := chunks + [current];
    }
    JoinKeepsWords(chunks);
    SomeWordsSomeChunks(chunks);
  }

  lemma SomeWordsSomeChunks(chunks: seq<string>)
    requires AllFit(chunks)
    ensures FlatWords(chunks) == [] <==> chunks == []
  {
    if chunks != [] {
      FlatWordsSnoc(chunks[..|chunks| - 1], chunks[|chunks| - 1]);
    }
  }

  // ---- what the units are, one by one ----

  /** A sentence within the budget, or a piece of one over it. */
  ghost predicate UnitOfSentence(sentence: string, unit: string) {
    if |sentence| <= TARGET_CHARS then unit == sentence else exists span :: PieceAt(sentence, span, unit)
  }

  /** A paragraph within the budget, or a unit of one of its sentences. */
  ghost predicate UnitOfParagraph(paragraph: string, unit: string) {
    if |paragraph| <= TARGET_CHARS then unit == paragraph
    else exists cut :: IsCut(paragraph, cut) && UnitOfSentence(Stretch(paragraph, cut), unit)
  }

  lemma {:induction false} FlatHolds(parts: seq<seq<string>>, u: nat) returns (p: nat)
    requires u < |Flat(parts)|
    ensures p < |parts| && Flat(parts)[u] in parts[p]
  {
    var most := parts[..|parts| - 1];
    if u < |Flat(most)| {
      p := FlatHolds(most, u);
    } else {
      p := |parts| - 1;
    }
  }

  lemma PieceOfASentence(sentence: string, pieces: seq<string>, piece: string)
    requires SentenceSplits(sentence, pieces) && piece in pieces
    ensures UnitOfSentence(sentence, piece)
  {
    if |sentence| > TARGET_CHARS {
      var spans :| WrappedAs(sentence, pieces, spans);
      var k :| 0 <= k < |pieces| && pieces[k] == piece;
      assert PieceAt(sentence, spans[k], piece);
    }
  }

  lemma PieceOfAParagraph(paragraph: string, pieces: seq<string>, piece: string)
    requires ParagraphSplits(paragraph, pieces) && piece in pieces
    ensures UnitOfParagraph(paragraph, piece)
  {
    if |paragraph| > TARGET_CHARS {
      var sentences, cuts, parts :|
        CutAs(paragraph, sentences, cuts) && SentencesSplit(sentences, parts) && pieces == Flat(parts);
      var u :| 0 <= u < |pieces| && pieces[u] == piece;
      var p := FlatHolds(parts, u);
      PieceOfASentence(sentences[p], parts[p], piece);
      StretchesAt(paragraph, cuts, p);
      assert IsCut(paragraph, cuts[p]);
    }
  }

  /**
   A unit is a whole paragraph, or a whole sentence of a paragraph over the budget, or a piece of a
   sentence over it.  Chunks are runs of units, so a chunk ends inside a sentence only if that
   sentence is over the budget.
   */
  lemma EveryUnitIsWhole(text: string, units: seq<string>, u: nat)
    requires TextSplits(text, units) && u < |units|
    ensures exists run :: IsRun(text, run) && UnitOfParagraph(Stretch(text, run), units[u])
  {
    var paragraphs, spans, parts :|
      ParagraphsOf(text, paragraphs, spans) && ParagraphsSplit(paragraphs, parts) && units == Flat(parts);
    var p := FlatHolds(parts, u);
    PieceOfAParagraph(paragraphs[p], parts[p], units[u]);
    assert IsRun(text, spans[p]);
  }

  lemma {:induction false} FlatSingles(parts: seq<seq<string>>, pieces: seq<string>)
    requires |parts| == |pieces| && forall k | 0 <= k < |parts| :: parts[k] == [pieces[k]]
    ensures Flat(parts) == pieces
  {
    if parts != [] {
      var n := |parts| - 1;
      FlatSingles(parts[..n], pieces[..n]);
      assert pieces == pieces[..n] + [pieces[n]];
    }
  }

  /** Paragraphs that all fit are the units. */
  lemma SmallParagraphsAreTheUnits(paragraphs: seq<string>, parts: seq<seq<string>>)
    requires ParagraphsSplit(paragraphs, parts) && forall k | 0 <= k < |paragraphs| :: |paragraphs[k]| <= TARGET_CHARS
    ensures Flat(parts) == paragraphs
  {
    FlatSingles(parts, paragraphs);
  }

  lemma {:induction false} JoinedIsNoShorter(units: seq<string>, to: nat)
    requires 0 < to < |units|
    ensures |Join(units[..to])| + 1 + |units[to]| <= |Join(units)|
  {
    if |units| > to + 1 {
      var most := units[..|units| - 1];
      JoinedIsNoShorter(most, to);
      assert most[..to] == units[..to];
      JoinSnoc(most, units[|units| - 1]);
      assert units == most + [units[|units| - 1]];
    } else {
      JoinSnoc(units[..to], units[to]);
      assert units == units[..to] + [units[to]];
    }
  }

  /** Units that fit the budget together make one chunk. */
  lemma WhatFitsIsOneChunk(units: seq<string>, chunks: seq<string>, spans: seq<Span>)
    requires Packed(units, chunks, spans) && units != [] && |Join(units)| <= TARGET_CHARS
    ensures chunks == [Join(units)]
  {
    assert ChunkIs(units, chunks[0], spans[0]);
    var to := spans[0].to;
    if |spans| > 1 {
      assert ChunkIs(units, chunks[1], spans[1]);
    }
    assert |spans| > 1 ==> to < |units|;
    assert units[0..to] == units[..to];
    if to < |units| {
      JoinedIsNoShorter(units, to);
    }
    assert units[..to] == units;
  }
}
