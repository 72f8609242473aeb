/**
 What `inspect` is pointed at and what it hands back a window at a time
 (crates/agmem-server/src/tools/inspect.rs).
 */
module Refs {
  import opened Common
  import opened Text

  datatype Reference =
    | Memory(id: string)
    | Episode(id: string)
    | Entity(name: string)
    | Doc(space: string, title: string)
    | Docs(within: Option<string>)
    | Stats
    | Unqualified(id: string)

  /** 26 ASCII digits and upper-case letters. */
  predicate IsUlid(s: string) {
    |s| == 26 && forall i | 0 <= i < |s| :: '0' <= s[i] <= '9' || 'A' <= s[i] <= 'Z'
  }

  const MAX_LEN: nat := 64

  predicate IsSlug(s: string) {
    && 0 < |s| <= MAX_LEN
    && forall i | 0 <= i < |s| :: 'a' <= s[i] <= 'z' || '0' <= s[i] <= '9' || s[i] == '-' || s[i] == '_'
  }

  /** One of the two aliases, or a slug other than `all`. */
  predicate SpaceToken(raw: string) {
    var s := Trim(raw);
    s != "all" && (s == "current" || s == "user" || IsSlug(s))
  }

  /** `split_once`: around the first `c`. */
  function SplitOnce(s: string, c: char): Option<(string, string)> {
    if s == [] then None
    else if s[0] == c then Some(([], s[1..]))
    else
      match SplitOnce(s[1..], c)
      case Some((before, after)) => Some(([s[0]] + before, after))
      case None => None
  }

  function Parse(text: string): Option<Reference> {
    var raw := Trim(text);
    if raw == "stats" then Some(Stats)
    else if raw == "docs" then Some(Docs(None))
    else
      match SplitOnce(raw, ':')
      case Some((kind, rest)) => ParseKind(kind, rest)
      case None => if IsUlid(raw) then Some(Unqualified(raw)) else None
  }

  /** A text with a `:` in it is no bare id, so the arms that fall through all end in a refusal. */
  function ParseKind(kind: string, rest: string): Option<Reference> {
    if kind == "memory" then (if IsUlid(rest) then Some(Memory(rest)) else None)
    else if kind == "episode" then (if IsUlid(rest) then Some(Episode(rest)) else None)
    else if kind == "entity" then (if Trim(rest) != [] then Some(Entity(Trim(rest))) else None)
    else if kind == "docs" then (if SpaceToken(rest) then Some(Docs(Some(Trim(rest)))) else None)
    else if kind == "doc" then ParseDoc(rest)
    else None
  }

  /** Cut at the first slash: a space has none, a title may have more. */
  function ParseDoc(rest: string): Option<Reference> {
    match SplitOnce(rest, '/')
    case Some((space, title)) =>
      if SpaceToken(space) && Trim(title) != [] then Some(Doc(Trim(space), Trim(title))) else None
    case None => None
  }

  function Print(r: Reference): string {
    match r
    case Memory(id) => "memory" + [':'] + id
    case Episode(id) => "episode" + [':'] + id
    case Entity(name) => "entity" + [':'] + name
    case Doc(space, title) => "doc" + [':'] + (space + ['/'] + title)
    case Docs(Some(space)) => "docs" + [':'] + space
    case Docs(None) => "docs"
    case Stats => "stats"
    case Unqualified(id) => id
  }

  // ---- what the parser can answer ----

  /** The references there are: valid ids, trimmed names, real places. */
  predicate Canonical(r: Reference) {
    match r
    case Memory(id) => IsUlid(id)
    case Episode(id) => IsUlid(id)
    case Entity(name) => name != [] && Trim(name) == name
    case Doc(space, title) => Place(space) && title != [] && Trim(title) == title
    case Docs(Some(space)) => Place(space)
    case Docs(None) => true
    case Stats => true
    case Unqualified(id) => IsUlid(id)
  }

  predicate Place(space: string) {
    Trim(space) == space && SpaceToken(space)
  }

  lemma TrimIsFinal(s: string)
    ensures Trim(Trim(s)) == Trim(s)
  {
    TrimIsSnug(s);
    SnugIsTrimmed(Trim(s));
  }

  lemma ParsedIsCanonical(text: string)
    requires Parse(text).Some?
    ensures Canonical(Parse(text).value)
  {
    var raw := Trim(text);
    match SplitOnce(raw, ':')
    case Some((kind, rest)) =>
      TrimIsFinal(rest);
      match SplitOnce(rest, '/') {
        case Some((space, title)) =>
          TrimIsFinal(space);
          TrimIsFinal(title);
        case None =>
      }
    case None =>
  }

  lemma {:induction false} SplitsAtTheFirst(before: string, c: char, after: string)
    requires c !in before
    ensures SplitOnce(before + [c] + after, c) == Some((before, after))
  {
    var s := before + [c] + after;
    if before == [] {
      assert s[1..] == after;
    } else {
      assert s[1..] == before[1..] + [c] + after;
      SplitsAtTheFirst(before[1..], c, after);
      assert [s[0]] + before[1..] == before;
    }
  }

  lemma {:induction false} NoSplitWithout(s: string, c: char)
    requires c !in s
    ensures SplitOnce(s, c) == None
  {
    if s != [] {
      NoSplitWithout(s[1..], c);
    }
  }

  /** A kind, a colon and a part that ends in no space reads back as those two. */
  lemma PrefixedParses(kind: string, rest: string)
    requires kind != [] && ':' !in kind && !IsSpace(kind[0]) && |kind| + |rest| > 5
    requires rest != [] && !IsSpace(rest[|rest| - 1])
    ensures Parse(kind + [':'] + rest) == ParseKind(kind, rest)
  {
    var raw := kind + [':'] + rest;
    assert raw[0] == kind[0] && raw[|raw| - 1] == rest[|rest| - 1];
    SnugIsTrimmed(raw);
    SplitsAtTheFirst(kind, ':', rest);
  }

  lemma PlaceEnds(space: string)
    requires Place(space)
    ensures space != [] && !IsSpace(space[|space| - 1]) && '/' !in space
  {
    if space == "current" || space == "user" {
      assert IsSlug(space);
    }
  }

  /** The places there are: one to 64 lower-case letters, digits, dashes and underscores, and not `all`. */
  lemma PlaceExactly(space: string)
    ensures Place(space) <==>
            && space != "all" && 1 <= |space| <= 64
            && forall i | 0 <= i < |space| :: 'a' <= space[i] <= 'z' || '0' <= space[i] <= '9' || space[i] == '-' || space[i] == '_'
  {
    if space == "current" || space == "user" {
      assert IsSlug(space);
    }
    if IsSlug(space) {
      SnugIsTrimmed(space);
    }
  }

  /** The two kinds of six letters are not the same six. */
  lemma KindsDiffer()
    ensures "memory" != "entity"
  {
    assert "memory"[0] != "entity"[0];
  }

  lemma UlidParses(id: string)
    requires IsUlid(id)
    ensures Parse(id) == Some(Unqualified(id))
    ensures Parse("memory" + [':'] + id) == Some(Memory(id)) && Parse("episode" + [':'] + id) == Some(Episode(id))
  {
    SnugIsTrimmed(id);
    NoSplitWithout(id, ':');
    PrefixedParses("memory", id);
    PrefixedParses("episode", id);
  }

  lemma EntityParses(name: string)
    requires name != [] && Trim(name) == name
    ensures Parse("entity" + [':'] + name) == Some(Entity(name))
  {
    KindsDiffer();
    TrimIsSnug(name);
    PrefixedParses("entity", name);
  }

  lemma DocsParses(space: string)
    requires Place(space)
    ensures Parse("docs" + [':'] + space) == Some(Docs(Some(space)))
  {
    PlaceEnds(space);
    DocsPrefix(space);
  }

  lemma DocsPrefix(space: string)
    requires space != [] && !IsSpace(space[|space| - 1])
    ensures Parse("docs" + [':'] + space) == ParseKind("docs", space)
  {
    var raw := "docs" + [':'] + space;
    assert raw[0] == 'd' && raw[|raw| - 1] == space[|space| - 1];
    SnugIsTrimmed(raw);
    SplitsAtTheFirst("docs", ':', space);
  }

  lemma DocParses(space: string, title: string)
    requires Place(space) && title != [] && Trim(title) == title
    ensures Parse("doc" + [':'] + (space + ['/'] + title)) == Some(Doc(space, title))
  {
    PlaceEnds(space);
    TrimIsSnug(title);
    var rest := space + ['/'] + title;
    assert rest[|rest| - 1] == title[|title| - 1];
    PrefixedParses("doc", rest);
    SplitsAtTheFirst(space, '/', title);
  }

  /** Printing and parsing again gives the reference back exactly when it is one the parser can give. */
  lemma PrintParsesExactly(r: Reference)
    ensures Parse(Print(r)) == Some(r) <==> Canonical(r)
  {
    if Canonical(r) {
      match r
      case Memory(id) => UlidParses(id);
      case Episode(id) => UlidParses(id);
      case Unqualified(id) => UlidParses(id);
      case Entity(name) => EntityParses(name);
      case Doc(space, title) => DocParses(space, title);
      case Docs(Some(space)) => DocsParses(space);
      case Docs(None) => SnugIsTrimmed("docs");
      case Stats => SnugIsTrimmed("stats");
    } else if Parse(Print(r)) == Some(r) {
      ParsedIsCanonical(Print(r));
    }
  }

  /** Whatever text was accepted, its printed form is accepted as the same reference. */
  lemma AcceptedTextRoundTrips(text: string)
    requires Parse(text).Some?
    ensures Parse(Print(Parse(text).value)) == Parse(text)
  {
    ParsedIsCanonical(text);
    PrintParsesExactly(Parse(text).value);
  }

  // ---- what a reference is written as ----

  ghost predicate SpellsEntity(raw: string, name: string) {
    exists rest :: raw == "entity" + [':'] + rest && name == Trim(rest) && name != []
  }

  ghost predicate SpellsDocs(raw: string, space: string) {
    exists rest :: raw == "docs" + [':'] + rest && space == Trim(rest) && Place(space)
  }

  ghost predicate SpellsDoc(raw: string, space: string, title: string) {
    exists before, after :: && '/' !in before && raw == "doc" + [':'] + (before + ['/'] + after)
                            && space == Trim(before) && Place(space) && title == Trim(after) && title != []
  }

  /** The grammar: every way to write a reference, white space around names and titles included. */
  ghost predicate Spells(raw: string, r: Reference) {
    match r
    case Memory(id) => IsUlid(id) && raw == "memory" + [':'] + id
    case Episode(id) => IsUlid(id) && raw == "episode" + [':'] + id
    case Entity(name) => SpellsEntity(raw, name)
    case Doc(space, title) => SpellsDoc(raw, space, title)
    case Docs(Some(space)) => SpellsDocs(raw, space)
    case Docs(None) => raw == "docs"
    case Stats => raw == "stats"
    case Unqualified(id) => IsUlid(id) && raw == id
  }

  lemma {:induction false} SplitIsAtTheFirst(s: string, c: char)
    ensures match SplitOnce(s, c)
            case Some((before, after)) => s == before + [c] + after && c !in before
            case None => c !in s
  {
    if s != [] && s[0] != c {
      SplitIsAtTheFirst(s[1..], c);
      assert s == [s[0]] + s[1..];
    }
  }

  lemma SpaceTokenIsAPlace(raw: string)
    ensures SpaceToken(raw) <==> Place(Trim(raw))
  {
    TrimIsFinal(raw);
  }

  /** The kinds are told apart by their letters. */
  lemma KindParts(kind: string, rest: string, r: Reference)
    ensures ParseKind(kind, rest) == Some(r) <==>
            match r
            case Memory(id) => kind == "memory" && IsUlid(id) && rest == id
            case Episode(id) => kind == "episode" && IsUlid(id) && rest == id
            case Entity(name) => kind == "entity" && name == Trim(rest) && name != []
            case Docs(Some(space)) => kind == "docs" && space == Trim(rest) && SpaceToken(rest)
            case Doc(_, _) => kind == "doc" && ParseDoc(rest) == Some(r)
            case _ => false
  {
    KindsDiffer();
  }

  lemma DocParts(rest: string, space: string, title: string)
    ensures ParseDoc(rest) == Some(Doc(space, title)) <==>
            exists before, after :: && '/' !in before && rest == before + ['/'] + after
                                    && space == Trim(before) && Place(space) && title == Trim(after) && title != []
  {
    SplitIsAtTheFirst(rest, '/');
    match SplitOnce(rest, '/')
    case Some((before, after)) =>
      SpaceTokenIsAPlace(before);
      forall b, a | '/' !in b && rest == b + ['/'] + a
        ensures b == before && a == after
      {
        SplitsAtTheFirst(b, '/', a);
      }
    case None =>
  }

  /** A text is cut at its first colon in one way only. */
  lemma OneCut(kind: string, rest: string, other: string, tail: string)
    requires ':' !in kind && ':' !in other
    ensures kind + [':'] + rest == other + [':'] + tail <==> kind == other && rest == tail
  {
    SplitsAtTheFirst(kind, ':', rest);
    SplitsAtTheFirst(other, ':', tail);
  }

  lemma DocSpelled(kind: string, rest: string, space: string, title: string)
    requires ':' !in kind
    ensures SpellsDoc(kind + [':'] + rest, space, title) <==> kind == "doc" && ParseDoc(rest) == Some(Doc(space, title))
  {
    DocParts(rest, space, title);
    var raw := kind + [':'] + rest;
    if SpellsDoc(raw, space, title) {
      var before, after :| && '/' !in before && raw == "doc" + [':'] + (before + ['/'] + after)
                           && space == Trim(before) && Place(space) && title == Trim(after) && title != [];
      OneCut(kind, rest, "doc", before + ['/'] + after);
    }
  }

  lemma NamesSpelled(kind: string, rest: string, name: string)
    requires ':' !in kind
    ensures SpellsEntity(kind + [':'] + rest, name) <==> kind == "entity" && name == Trim(rest) && name != []
    ensures SpellsDocs(kind + [':'] + rest, name) <==> kind == "docs" && name == Trim(rest) && SpaceToken(rest)
  {
    SpaceTokenIsAPlace(rest);
    var raw := kind + [':'] + rest;
    if SpellsEntity(raw, name) {
      var tail :| raw == "entity" + [':'] + tail && name == Trim(tail) && name != [];
      OneCut(kind, rest, "entity", tail);
    }
    if SpellsDocs(raw, name) {
      var tail :| raw == "docs" + [':'] + tail && name == Trim(tail) && Place(name);
      OneCut(kind, rest, "docs", tail);
    }
  }

  lemma KindSpelled(kind: string, rest: string, r: Reference)
    requires ':' !in kind
    ensures ParseKind(kind, rest) == Some(r) <==> Spells(kind + [':'] + rest, r)
  {
    KindParts(kind, rest, r);
    var raw := kind + [':'] + rest;
    assert raw[|kind|] == ':';
    match r
    case Memory(id) => OneCut(kind, rest, "memory", id);
    case Episode(id) => OneCut(kind, rest, "episode", id);
    case Entity(name) => NamesSpelled(kind, rest, name);
    case Doc(space, title) => DocSpelled(kind, rest, space, title);
    case Docs(Some(space)) => NamesSpelled(kind, rest, space);
    case Docs(None) =>
    case Stats =>
    case Unqualified(_) =>
  }

  /** Every other way of writing one has a colon in it. */
  lemma SpelledWithAColon(raw: string, r: Reference)
    requires Spells(raw, r) && !r.Stats? && r != Docs(None) && !r.Unqualified?
    ensures ':' in raw
  {
    match r
    case Memory(id) => assert raw[6] == ':';
    case Episode(id) => assert raw[7] == ':';
    case Entity(name) => assert raw[6] == ':';
    case Doc(_, _) => assert raw[3] == ':';
    case Docs(Some(_)) => assert raw[4] == ':';
  }

  /** The parser accepts exactly the grammar, and says which reference was written. */
  lemma ParsesExactlyTheGrammar(text: string, r: Reference)
    ensures Parse(text) == Some(r) <==> Spells(Trim(text), r)
  {
    var raw := Trim(text);
    SplitIsAtTheFirst(raw, ':');
    match SplitOnce(raw, ':')
    case Some((kind, rest)) =>
      KindSpelled(kind, rest, r);
      assert raw[|kind|] == ':';
    case None =>
      if Spells(raw, r) && !r.Stats? && r != Docs(None) && !r.Unqualified? {
        SpelledWithAColon(raw, r);
      }
  }

  // ---- windows ----

  datatype Window = Window(offset: nat, returned: nat, total: nat, next: Option<nat>)

  /** The slice asked for, and where it sits; no window when everything came back unasked. */
  function View(content: string, offset: Option<nat>, limit: Option<nat>, default: Option<nat>): (string, Option<Window>) {
    var wanted := if limit.Some? then limit else default;
    if offset.None? && wanted.None? then (content, None)
    else
      var from := if offset.None? then 0 else if offset.value < |content| then offset.value else |content|;
      var left := |content| - from;
      var take := if wanted.Some? && wanted.value < left then wanted.value else left;
      (content[from..from + take],
       Some(Window(from, take, |content|, if from + take < |content| then Some(from + take) else None)))
  }

  /** A page leads on exactly when it did not reach the end, and gets ahead unless its limit is zero. */
  lemma PageLeadsOn(content: string, offset: nat, limit: nat, default: Option<nat>)
    requires offset <= |content|
    ensures var (page, window) := View(content, Some(offset), Some(limit), default);
            && window.Some? && offset + |page| <= |content| && page == content[offset..offset + |page|]
            && (window.value.next == if offset + |page| == |content| then None else Some(offset + |page|))
            && (window.value.next.Some? ==> (window.value.next.value > offset <==> limit >= 1))
  {
  }

  /** A limit asked for beats the default, which stands in for one; no offset is the beginning. */
  lemma ViewAsAsked(content: string, offset: Option<nat>, limit: nat, default: Option<nat>)
    ensures View(content, offset, Some(limit), default) == View(content, offset, None, Some(limit))
    ensures View(content, None, Some(limit), default) == View(content, Some(0), Some(limit), default)
    ensures View(content, None, None, None) == (content, None)
  {
  }

  /** Past the end there is an empty page at the end; with no limit at all, the rest. */
  lemma ViewToTheEnd(content: string, offset: nat, limit: Option<nat>, default: Option<nat>)
    ensures offset >= |content| ==> View(content, Some(offset), limit, default) == ("", Some(Window(|content|, 0, |content|, None)))
    ensures offset < |content| ==>
              View(content, Some(offset), None, None) == (content[offset..], Some(Window(offset, |content| - offset, |content|, None)))
  {
    if offset < |content| {
      assert content[offset..offset + (|content| - offset)] == content[offset..];
    } else {
      assert content[|content|..|content| + 0] == "";
    }
  }

  /** The pages a reader gets by following `next` from `offset`, joined. */
  function Follow(content: string, offset: nat, limit: nat, default: Option<nat>): string
    requires offset <= |content| && limit >= 1
    decreases |content| - offset
  {
    PageLeadsOn(content, offset, limit, default);
    var (page, window) := View(content, Some(offset), Some(limit), default);
    match window.value.next
    case Some(next) => page + Follow(content, next, limit, default)
    case None => page
  }

  /** Nothing is skipped and nothing repeated, at any limit that gets ahead. */
  lemma {:induction false} FollowReadsTheRest(content: string, offset: nat, limit: nat, default: Option<nat>)
    requires offset <= |content| && limit >= 1
    ensures Follow(content, offset, limit, default) == content[offset..]
    decreases |content| - offset
  {
    PageLeadsOn(content, offset, limit, default);
    var (page, window) := View(content, Some(offset), Some(limit), default);
    if window.value.next.Some? {
      FollowReadsTheRest(content, window.value.next.value, limit, default);
    }
  }
}
