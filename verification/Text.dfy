/** Text as the program splits it: Unicode white space, and the words between it. */
module Text {

  /** Rust's `char::is_whitespace`: the Unicode White_Space property. */
  predicate IsSpace(c: char) {
    || '\t' <= c <= '\r' || c == ' ' || c == '\U{85}' || c == '\U{A0}' || c == '\U{1680}'
    || '\U{2000}' <= c <= '\U{200A}' || c == '\U{2028}' || c == '\U{2029}' || c == '\U{202F}'
    || c == '\U{205F}' || c == '\U{3000}'
  }

  predicate Blank(s: string) {
    forall i | 0 <= i < |s| :: IsSpace(s[i])
  }

  /** No white space anywhere. */
  predicate Solid(s: string) {
    forall i | 0 <= i < |s| :: !IsSpace(s[i])
  }

  function Closed(open: string): seq<string> {
    if open == [] then [] else [open]
  }

  /** Words, given the word `open` that is still being read. */
  function WordsFrom(open: string, s: string): seq<string>
    decreases |s|
  {
    if s == [] then Closed(open)
    else if IsSpace(s[0]) then Closed(open) + WordsFrom([], s[1..])
    else WordsFrom(open + [s[0]], s[1..])
  }

  /** `split_whitespace`. */
  function Words(s: string): seq<string> {
    WordsFrom([], s)
  }

  function Join(parts: seq<string>): string {
    if parts == [] then "" else if |parts| == 1 then parts[0] else parts[0] + " " + Join(parts[1..])
  }

  /** The words of all the parts, in order. */
  function FlatWords(parts: seq<string>): seq<string> {
    if parts == [] then [] else FlatWords(parts[..|parts| - 1]) + Words(parts[|parts| - 1])
  }

  function TrimStart(s: string): string {
    if s != [] && IsSpace(s[0]) then TrimStart(s[1..]) else s
  }

  function TrimEnd(s: string): string {
    if s != [] && IsSpace(s[|s| - 1]) then TrimEnd(s[..|s| - 1]) else s
  }

  function Trim(s: string): string {
    TrimEnd(TrimStart(s))
  }

  // ---- where a text may be cut without cutting a word ----

  lemma {:induction false} WordsFromSplit(open: string, a: string, b: string)
    requires b == [] || IsSpace(b[0]) || (if a == [] then open == [] else IsSpace(a[|a| - 1]))
    ensures WordsFrom(open, a + b) == WordsFrom(open, a) + Words(b)
    decreases |a|
  {
    if a == [] {
      assert a + b == b;
    } else {
      assert (a + b)[1..] == a[1..] + b && (a + b)[0] == a[0];
      if IsSpace(a[0]) {
        WordsFromSplit([], a[1..], b);
        assert Closed(open) + (WordsFrom([], a[1..]) + Words(b)) == Closed(open) + WordsFrom([], a[1..]) + Words(b);
      } else {
        WordsFromSplit(open + [a[0]], a[1..], b);
      }
    }
  }

  /** Cutting beside white space cuts no word. */
  lemma WordsSplit(a: string, b: string)
    requires a == [] || b == [] || IsSpace(b[0]) || IsSpace(a[|a| - 1])
    ensures Words(a + b) == Words(a) + Words(b)
  {
    WordsFromSplit([], a, b);
  }

  lemma {:induction false} BlankHasNoWords(s: string)
    requires Blank(s)
    ensures Words(s) == []
  {
    if s != [] {
      BlankHasNoWords(s[1..]);
    }
  }

  lemma {:induction false} SolidFrom(open: string, s: string)
    requires Solid(s)
    ensures WordsFrom(open, s) == Closed(open + s)
    decreases |s|
  {
    if s == [] {
      assert open + s == open;
    } else {
      SolidFrom(open + [s[0]], s[1..]);
      assert open + [s[0]] + s[1..] == open + s;
    }
  }

  lemma SolidIsOneWord(s: string)
    requires Solid(s) && s != []
    ensures Words(s) == [s]
  {
    SolidFrom([], s);
    assert [] + s == s;
  }

  lemma {:induction false} TrimStartKeepsWords(s: string)
    ensures Words(TrimStart(s)) == Words(s)
  {
    if s != [] && IsSpace(s[0]) {
      TrimStartKeepsWords(s[1..]);
    }
  }

  lemma {:induction false} TrimEndKeepsWords(s: string)
    ensures Words(TrimEnd(s)) == Words(s)
  {
    if s != [] && IsSpace(s[|s| - 1]) {
      var most, last := s[..|s| - 1], s[|s| - 1..];
      TrimEndKeepsWords(most);
      assert s == most + last;
      WordsSplit(most, last);
      BlankHasNoWords(last);
    }
  }

  lemma TrimKeepsWords(s: string)
    ensures Words(Trim(s)) == Words(s)
  {
    TrimStartKeepsWords(s);
    TrimEndKeepsWords(TrimStart(s));
  }

  lemma {:induction false} NoWordsIsBlank(open: string, s: string)
    requires WordsFrom(open, s) == []
    ensures open == [] && Blank(s)
    decreases |s|
  {
    if s != [] {
      if IsSpace(s[0]) {
        NoWordsIsBlank([], s[1..]);
      } else {
        NoWordsIsBlank(open + [s[0]], s[1..]);
        assert false;
      }
    }
  }

  lemma FlatWordsSnoc(parts: seq<string>, part: string)
    ensures FlatWords(parts + [part]) == FlatWords(parts) + Words(part)
  {
    assert (parts + [part])[..|parts|] == parts;
  }

  lemma {:induction false} FlatWordsConcat(a: seq<string>, b: seq<string>)
    ensures FlatWords(a + b) == FlatWords(a) + FlatWords(b)
    decreases |b|
  {
    if b == [] {
      assert a + b == a;
    } else {
      var most, last := b[..|b| - 1], b[|b| - 1];
      FlatWordsConcat(a, most);
      assert a + b == (a + most) + [last];
      FlatWordsSnoc(a + most, last);
    }
  }

  /** Joining with spaces loses and makes no word. */
  lemma {:induction false} JoinKeepsWords(parts: seq<string>)
    ensures Words(Join(parts)) == FlatWords(parts)
  {
    if |parts| == 1 {
      assert FlatWords(parts) == FlatWords(parts[..0]) + Words(parts[0]);
    } else if |parts| > 1 {
      JoinKeepsWords(parts[1..]);
      WordsSplit(parts[0] + " ", Join(parts[1..]));
      WordsSplit(parts[0], " ");
      BlankHasNoWords(" ");
      FlatWordsConcat(parts[..1], parts[1..]);
      assert parts == parts[..1] + parts[1..];
      assert FlatWords(parts[..1]) == FlatWords(parts[..1][..0]) + Words(parts[0]);
    }
  }

  lemma {:induction false} JoinSnoc(parts: seq<string>, part: string)
    requires parts != []
    ensures Join(parts + [part]) == Join(parts) + " " + part
  {
    assert (parts + [part])[1..] == parts[1..] + [part];
    if |parts| > 1 {
      JoinSnoc(parts[1..], part);
    }
  }

  /** Every word is unbroken and not empty. */
  lemma {:induction false} WordsAreSolid(open: string, s: string)
    requires Solid(open)
    ensures forall i | 0 <= i < |WordsFrom(open, s)| :: WordsFrom(open, s)[i] != [] && Solid(WordsFrom(open, s)[i])
    decreases |s|
  {
    if s != [] {
      WordsAreSolid(if IsSpace(s[0]) then [] else open + [s[0]], s[1..]);
    }
  }

  // ---- trimming ----

  /** Nothing left to trim. */
  predicate Snug(s: string) {
    s != [] ==> !IsSpace(s[0]) && !IsSpace(s[|s| - 1])
  }

  lemma {:induction false} TrimEndIsSolidAtTheEnd(s: string)
    ensures TrimEnd(s) <= s
    ensures TrimEnd(s) != [] ==> !IsSpace(TrimEnd(s)[|TrimEnd(s)| - 1])
  {
    if s != [] && IsSpace(s[|s| - 1]) {
      TrimEndIsSolidAtTheEnd(s[..|s| - 1]);
    }
  }

  lemma {:induction false} TrimStartIsSolidAtTheStart(s: string)
    ensures TrimStart(s) != [] ==> !IsSpace(TrimStart(s)[0])
  {
    if s != [] && IsSpace(s[0]) {
      TrimStartIsSolidAtTheStart(s[1..]);
    }
  }

  lemma TrimIsSnug(s: string)
    ensures Snug(Trim(s))
  {
    TrimStartIsSolidAtTheStart(s);
    TrimEndIsSolidAtTheEnd(TrimStart(s));
  }

  lemma SnugIsTrimmed(s: string)
    requires Snug(s)
    ensures Trim(s) == s
  {
  }
}
