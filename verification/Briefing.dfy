/**
 The session-start block (crates/agmem-server/src/tools/context.rs): a greedy fill of prioritised
 sections against a character budget, with de-duplication, summary roll-up and reserves.
 */
module Briefing {
  import Text

  type Id = string

  datatype Entry = Entry(id: Id, content: string, covers: seq<Id>)

  datatype Section = Section(heading: string, entries: seq<Entry>, reserve: nat)

  const TRIMMED: string := "\n\n_Trimmed to fit `budget_chars`; `recall` reaches what is missing._"
  const NOTHING: string := "\n\n_Nothing stored for these spaces yet._"

  function Line(entry: Entry): string {
    "\n- " + Text.Join(Text.Words(entry.content)) + " `" + entry.id + "`"
  }

  function Header(section: Section): string {
    "\n\n" + section.heading
  }

  function Lines(entries: seq<Entry>): string {
    if entries == [] then "" else Lines(entries[..|entries| - 1]) + Line(entries[|entries| - 1])
  }

  /** What the section would take if it were shown whole. */
  function Demand(section: Section): nat {
    |Header(section)| + |Lines(section.entries)|
  }

  /** The room a section holds back from the ones above it: no more than it asks for, nor than its reserve. */
  function Held(section: Section): (held: nat)
    ensures held <= section.reserve && held <= Demand(section)
    ensures held == section.reserve || held == Demand(section) || section.entries == []
    ensures section.entries == [] ==> held == 0
  {
    if section.reserve == 0 || section.entries == [] then 0
    else if section.reserve < Demand(section) then section.reserve else Demand(section)
  }

  function HeldFrom(sections: seq<Section>, first: nat): nat
    decreases |sections| - first
  {
    if first >= |sections| then 0 else Held(sections[first]) + HeldFrom(sections, first + 1)
  }

  function Minus(a: nat, b: nat): nat {
    if a < b then 0 else a - b
  }

  /** The first section ignores the reserves; the others leave what later ones hold. */
  function Allowed(sections: seq<Section>, i: nat, budget: nat): nat {
    if i == 0 then budget else Minus(budget, HeldFrom(sections, i + 1))
  }

  /** A fill under way: `owed` is the heading not yet written, `shown` the entries written. */
  datatype Fill = Fill(text: string, used: nat, dropped: nat, seen: set<Id>, owed: string, shown: seq<Entry>)

  function IdsOf(ids: seq<Id>): set<Id> {
    set id | id in ids
  }

  function Step(f: Fill, entry: Entry, allowed: nat, rollUp: bool): Fill {
    if entry.id in f.seen then f
    else if f.used + |f.owed| + |Line(entry)| > allowed then
      f.(seen := f.seen + {entry.id}, dropped := f.dropped + 1)
    else
      Fill(f.text + f.owed + Line(entry), f.used + |f.owed| + |Line(entry)|, f.dropped,
           f.seen + {entry.id} + (if rollUp then IdsOf(entry.covers) else {}), "", f.shown + [entry])
  }

  function FillEntries(f: Fill, entries: seq<Entry>, allowed: nat, rollUp: bool): Fill {
    if entries == [] then f
    else Step(FillEntries(f, entries[..|entries| - 1], allowed, rollUp), entries[|entries| - 1], allowed, rollUp)
  }

  /** The first `n` sections of the block. */
  function FillSections(title: string, sections: seq<Section>, n: nat, budget: nat, rollUp: bool): Fill
    requires n <= |sections|
  {
    if n == 0 then Fill(title, |title|, 0, {}, "", [])
    else
      var before := FillSections(title, sections, n - 1, budget, rollUp);
      FillEntries(before.(owed := Header(sections[n - 1])), sections[n - 1].entries,
                  Allowed(sections, n - 1, budget), rollUp)
  }

  function FillAll(title: string, sections: seq<Section>, budget: nat, rollUp: bool): Fill {
    FillSections(title, sections, |sections|, budget, rollUp)
  }

  /** The block a fill comes to: an empty store is said, when there is room to say it. */
  function Block(title: string, f: Fill, budget: nat): string {
    if f.used == |title| && f.dropped == 0 && f.used + |NOTHING| <= budget then f.text + NOTHING else f.text
  }

  function Assemble(title: string, sections: seq<Section>, budget: nat): string {
    var plain := FillAll(title, sections, budget, false);
    var rolled := FillAll(title, sections, budget, true);
    var reserved := Minus(budget, |TRIMMED|);
    if plain.dropped == 0 then Block(title, plain, budget)
    else if rolled.dropped == 0 then Block(title, rolled, budget)
    else Block(title, FillAll(title, sections, reserved, true), reserved) + TRIMMED
  }

  // ---- the loops compute the specification ----

  /** The inner loop: one section against what it is allowed. */
  method RenderSection(section: Section, allowed: nat, rollUp: bool, before: Fill) returns (after: Fill)
    requires before.owed == Header(section)
    ensures after == FillEntries(before, section.entries, allowed, rollUp)
  {
    var text, seen, shown := before.text, before.seen, before.shown;
    var used: nat, dropped: nat := before.used, before.dropped;
    var header := before.owed;
    var headerCost: nat := |header|;
    for i := 0 to |section.entries|
      invariant headerCost == 0 || headerCost == |header|
      invariant FillEntries(before, section.entries[..i], allowed, rollUp)
                == Fill(text, used, dropped, seen, header[..headerCost], shown)
    {
      var entry := section.entries[i];
      assert section.entries[..i + 1][..i] == section.entries[..i];
      if entry.id !in seen {
        seen := seen + {entry.id};
        var line := Line(entry);
        var cost := headerCost + |line|;
        if used + cost > allowed {
          dropped := dropped + 1;
        } else {
          if headerCost > 0 {
            text := text + header;
            headerCost := 0;
          }
          text := text + line;
          used := used + cost;
          if rollUp {
            seen := seen + IdsOf(entry.covers);
          }
          shown := shown + [entry];
        }
      }
    }
    after := Fill(text, used, dropped, seen, header[..headerCost], shown);
    assert section.entries[..|section.entries|] == section.entries;
  }

  method Render(title: string, sections: seq<Section>, budget: nat, rollUp: bool)
    returns (text: string, dropped: nat)
    ensures var f := FillAll(title, sections, budget, rollUp);
            text == Block(title, f, budget) && dropped == f.dropped
  {
    var fill := Fill(title, |title|, 0, {}, "", []);
    for index := 0 to |sections|
      invariant FillSections(title, sections, index, budget, rollUp) == fill
    {
      var held := if index == 0 then 0 else HeldFrom(sections, index + 1);
      fill := fill.(owed := Header(sections[index]));
      fill := RenderSection(sections[index], Minus(budget, held), rollUp, fill);
    }
    text, dropped := fill.text, fill.dropped;
    if fill.used == |title| && dropped == 0 && fill.used + |NOTHING| <= budget {
      text := text + NOTHING;
    }
  }

  method AssembleBlock(title: string, sections: seq<Section>, budget: nat) returns (block: string)
    ensures block == Assemble(title, sections, budget)
  {
    var dropped;
    block, dropped := Render(title, sections, budget, false);
    if dropped == 0 {
      return;
    }
    block, dropped := Render(title, sections, budget, true);
    if dropped == 0 {
      return;
    }
    var reserved := Minus(budget, |TRIMMED|);
    block, dropped := Render(title, sections, reserved, true);
    block := block + TRIMMED;
  }

  // ---- accounting ----

  /** What the entries written stand for: themselves and, rolled up, what they cover. */
  function Accounted(shown: seq<Entry>, rollUp: bool): set<Id> {
    (set i | 0 <= i < |shown| :: shown[i].id)
    + (if rollUp then set i, id | 0 <= i < |shown| && id in shown[i].covers :: id else {})
  }

  /** `used` is the length of the text, no id is written twice, and every id shown has been seen. */
  predicate Sound(f: Fill) {
    && |f.text| == f.used
    && (forall i, j :: 0 <= i < j < |f.shown| ==> f.shown[i].id != f.shown[j].id)
    && (forall i :: 0 <= i < |f.shown| ==> f.shown[i].id in f.seen)
  }

  lemma {:induction false} EntriesKeepSound(f: Fill, entries: seq<Entry>, allowed: nat, rollUp: bool)
    requires Sound(f)
    ensures Sound(FillEntries(f, entries, allowed, rollUp))
  {
    if entries != [] {
      EntriesKeepSound(f, entries[..|entries| - 1], allowed, rollUp);
    }
  }

  lemma {:induction false} SectionsKeepSound(title: string, sections: seq<Section>, n: nat, budget: nat, rollUp: bool)
    requires n <= |sections|
    ensures Sound(FillSections(title, sections, n, budget, rollUp))
  {
    if n > 0 {
      SectionsKeepSound(title, sections, n - 1, budget, rollUp);
      var before := FillSections(title, sections, n - 1, budget, rollUp);
      EntriesKeepSound(before.(owed := Header(sections[n - 1])), sections[n - 1].entries,
                       Allowed(sections, n - 1, budget), rollUp);
    }
  }

  /** What `shown` adds to a text that owes `owed`: the heading once over the lines, or nothing. */
  function Written(owed: string, shown: seq<Entry>): string {
    if shown == [] then "" else owed + Lines(shown)
  }

  lemma WrittenSnoc(owed: string, shown: seq<Entry>, last: Entry)
    ensures Written(owed, shown + [last]) == Written(owed, shown) + (if shown == [] then owed else "") + Line(last)
  {
    assert (shown + [last])[..|shown|] == shown;
    assert Lines(shown + [last]) == Lines(shown) + Line(last);
    if shown == [] {
      assert owed + ("" + Line(last)) == "" + owed + Line(last);
    } else {
      assert owed + (Lines(shown) + Line(last)) == owed + Lines(shown) + "" + Line(last);
    }
  }

  lemma ConcatAssociates(a: string, b: string, c: string, d: string)
    ensures a + b + c + d == a + (b + c + d)
  {
  }

  /** A section's text is its heading, once, over the lines of what was shown under it; or nothing. */
  lemma {:induction false} EntriesWriteWhatTheyShow(f: Fill, entries: seq<Entry>, allowed: nat, rollUp: bool)
    returns (shown: seq<Entry>)
    ensures var g := FillEntries(f, entries, allowed, rollUp);
            && g.shown == f.shown + shown
            && g.owed == (if shown == [] then f.owed else "")
            && g.text == f.text + Written(f.owed, shown)
  {
    if entries == [] {
      shown := [];
    } else {
      var most, last := entries[..|entries| - 1], entries[|entries| - 1];
      shown := EntriesWriteWhatTheyShow(f, most, allowed, rollUp);
      var m := FillEntries(f, most, allowed, rollUp);
      WrittenSnoc(f.owed, shown, last);
      if last.id !in m.seen && m.used + |m.owed| + |Line(last)| <= allowed {
        ConcatAssociates(f.text, Written(f.owed, shown), m.owed, Line(last));
        assert f.shown + shown + [last] == f.shown + (shown + [last]);
        shown := shown + [last];
      }
    }
  }

  /** The room a fill may have used: never past what it was allowed, beyond where it began. */
  lemma {:induction false} EntriesStayWithin(f: Fill, entries: seq<Entry>, allowed: nat, rollUp: bool)
    ensures var g := FillEntries(f, entries, allowed, rollUp);
            f.used <= g.used && (g.used <= allowed || g.used == f.used)
  {
    if entries != [] {
      EntriesStayWithin(f, entries[..|entries| - 1], allowed, rollUp);
    }
  }

  lemma {:induction false} SectionsStayWithin(title: string, sections: seq<Section>, n: nat, budget: nat, rollUp: bool)
    requires n <= |sections|
    ensures var f := FillSections(title, sections, n, budget, rollUp); f.used <= budget || f.used == |title|
  {
    if n > 0 {
      SectionsStayWithin(title, sections, n - 1, budget, rollUp);
      var before := FillSections(title, sections, n - 1, budget, rollUp);
      EntriesStayWithin(before.(owed := Header(sections[n - 1])), sections[n - 1].entries,
                        Allowed(sections, n - 1, budget), rollUp);
    }
  }

  lemma FillFits(title: string, sections: seq<Section>, budget: nat, rollUp: bool)
    requires |title| <= budget
    ensures |Block(title, FillAll(title, sections, budget, rollUp), budget)| <= budget
  {
    SectionsKeepSound(title, sections, |sections|, budget, rollUp);
    SectionsStayWithin(title, sections, |sections|, budget, rollUp);
  }

  lemma {:induction false} SectionsKeepTheTitle(title: string, sections: seq<Section>, n: nat, budget: nat, rollUp: bool)
    requires n <= |sections|
    ensures FillSections(title, sections, n, budget, rollUp).used >= |title|
  {
    if n > 0 {
      SectionsKeepTheTitle(title, sections, n - 1, budget, rollUp);
      var before := FillSections(title, sections, n - 1, budget, rollUp);
      EntriesStayWithin(before.(owed := Header(sections[n - 1])), sections[n - 1].entries,
                        Allowed(sections, n - 1, budget), rollUp);
    }
  }

  lemma BlockHoldsTheTitle(title: string, sections: seq<Section>, budget: nat, rollUp: bool, within: nat)
    ensures |Block(title, FillAll(title, sections, budget, rollUp), within)| >= |title|
  {
    SectionsKeepSound(title, sections, |sections|, budget, rollUp);
    SectionsKeepTheTitle(title, sections, |sections|, budget, rollUp);
  }

  // ---- nothing is lost unless it is counted ----

  /** With nothing dropped since it began, what has been seen is what is accounted for. */
  lemma {:induction false} SeenIsAccounted(f: Fill, entries: seq<Entry>, allowed: nat, rollUp: bool)
    requires f.dropped == 0 ==> f.seen == Accounted(f.shown, rollUp)
    ensures var g := FillEntries(f, entries, allowed, rollUp);
            && (g.dropped == 0 ==> g.seen == Accounted(g.shown, rollUp))
            && (forall i :: 0 <= i < |entries| ==> entries[i].id in g.seen)
            && g.dropped >= f.dropped && f.seen <= g.seen
  {
    if entries != [] {
      var most, last := entries[..|entries| - 1], entries[|entries| - 1];
      SeenIsAccounted(f, most, allowed, rollUp);
      var m := FillEntries(f, most, allowed, rollUp);
      AccountedSnoc(m.shown, last, rollUp);
      assert forall i :: 0 <= i < |most| ==> entries[i] == most[i];
    }
  }

  lemma AccountedSnoc(shown: seq<Entry>, last: Entry, rollUp: bool)
    ensures Accounted(shown + [last], rollUp)
         == Accounted(shown, rollUp) + {last.id} + (if rollUp then IdsOf(last.covers) else {})
  {
    var more := shown + [last];
    assert forall i :: 0 <= i < |shown| ==> more[i] == shown[i];
    assert more[|shown|] == last;
    assert (set i | 0 <= i < |more| :: more[i].id) == (set i | 0 <= i < |shown| :: shown[i].id) + {last.id};
    assert (set i, id | 0 <= i < |more| && id in more[i].covers :: id)
        == (set i, id | 0 <= i < |shown| && id in shown[i].covers :: id) + IdsOf(last.covers);
  }

  lemma {:induction false} SectionsAccount(title: string, sections: seq<Section>, n: nat, budget: nat, rollUp: bool)
    requires n <= |sections|
    ensures var f := FillSections(title, sections, n, budget, rollUp);
            && (f.dropped == 0 ==> f.seen == Accounted(f.shown, rollUp))
            && (forall k, i :: 0 <= k < n && 0 <= i < |sections[k].entries| ==> sections[k].entries[i].id in f.seen)
  {
    if n > 0 {
      SectionsAccount(title, sections, n - 1, budget, rollUp);
      var before := FillSections(title, sections, n - 1, budget, rollUp);
      SeenIsAccounted(before.(owed := Header(sections[n - 1])), sections[n - 1].entries,
                      Allowed(sections, n - 1, budget), rollUp);
    }
  }

  /**
   No id is written twice; and a fill that dropped nothing has every entry of every section either
   written or covered by a summary that was.
   */
  lemma NothingIsLostUncounted(title: string, sections: seq<Section>, budget: nat, rollUp: bool, k: nat, i: nat)
    requires k < |sections| && i < |sections[k].entries|
    ensures var f := FillAll(title, sections, budget, rollUp);
            && (forall a, b :: 0 <= a < b < |f.shown| ==> f.shown[a].id != f.shown[b].id)
            && (f.dropped == 0 ==> sections[k].entries[i].id in Accounted(f.shown, rollUp))
  {
    SectionsKeepSound(title, sections, |sections|, budget, rollUp);
    SectionsAccount(title, sections, |sections|, budget, rollUp);
  }

  // ---- two fills compared ----

  lemma {:induction false} DroppedOnlyGrows(f: Fill, entries: seq<Entry>, allowed: nat, rollUp: bool)
    ensures FillEntries(f, entries, allowed, rollUp).dropped >= f.dropped
  {
    if entries != [] {
      DroppedOnlyGrows(f, entries[..|entries| - 1], allowed, rollUp);
    }
  }

  /** Where a fill drops nothing, more room changes none of its choices. */
  lemma {:induction false} MoreRoomSameEntries(f: Fill, entries: seq<Entry>, less: nat, more: nat, rollUp: bool)
    requires less <= more && FillEntries(f, entries, less, rollUp).dropped == f.dropped
    ensures FillEntries(f, entries, more, rollUp) == FillEntries(f, entries, less, rollUp)
  {
    if entries != [] {
      var most := entries[..|entries| - 1];
      DroppedOnlyGrows(f, most, less, rollUp);
      MoreRoomSameEntries(f, most, less, more, rollUp);
    }
  }

  lemma {:induction false} MoreRoomSameSections(
    title: string, sections: seq<Section>, n: nat, less: nat, more: nat, rollUp: bool)
    requires n <= |sections| && less <= more
    requires FillSections(title, sections, n, less, rollUp).dropped == 0
    ensures FillSections(title, sections, n, more, rollUp) == FillSections(title, sections, n, less, rollUp)
  {
    if n > 0 {
      var before := FillSections(title, sections, n - 1, less, rollUp).(owed := Header(sections[n - 1]));
      var entries := sections[n - 1].entries;
      DroppedOnlyGrows(before, entries, Allowed(sections, n - 1, less), rollUp);
      MoreRoomSameSections(title, sections, n - 1, less, more, rollUp);
      MoreRoomSameEntries(before, entries, Allowed(sections, n - 1, less), Allowed(sections, n - 1, more), rollUp);
    }
  }

  /** A fill that drops nothing at one budget makes the same choices at every larger one. */
  lemma LosslessFillIgnoresMoreRoom(title: string, sections: seq<Section>, less: nat, more: nat, rollUp: bool)
    requires less <= more && FillAll(title, sections, less, rollUp).dropped == 0
    ensures FillAll(title, sections, more, rollUp) == FillAll(title, sections, less, rollUp)
  {
    MoreRoomSameSections(title, sections, |sections|, less, more, rollUp);
  }

  /** The rolled-up fill is never ahead of the plain one, while the plain one drops nothing. */
  predicate Behind(rolled: Fill, plain: Fill) {
    && rolled.dropped == plain.dropped == 0
    && plain.seen <= rolled.seen
    && rolled.used <= plain.used
    && rolled.used + |rolled.owed| <= plain.used + |plain.owed|
  }

  lemma {:induction false} RollingUpStaysBehind(rolled: Fill, plain: Fill, entries: seq<Entry>, allowed: nat)
    requires Behind(rolled, plain) && FillEntries(plain, entries, allowed, false).dropped == 0
    ensures Behind(FillEntries(rolled, entries, allowed, true), FillEntries(plain, entries, allowed, false))
  {
    if entries != [] {
      var most := entries[..|entries| - 1];
      DroppedOnlyGrows(plain, most, allowed, false);
      RollingUpStaysBehind(rolled, plain, most, allowed);
    }
  }

  lemma {:induction false} RollingUpNeedsNoMore(title: string, sections: seq<Section>, n: nat, budget: nat)
    requires n <= |sections| && FillSections(title, sections, n, budget, false).dropped == 0
    ensures Behind(FillSections(title, sections, n, budget, true), FillSections(title, sections, n, budget, false))
  {
    if n > 0 {
      var header, entries := Header(sections[n - 1]), sections[n - 1].entries;
      var plain := FillSections(title, sections, n - 1, budget, false);
      DroppedOnlyGrows(plain.(owed := header), entries, Allowed(sections, n - 1, budget), false);
      RollingUpNeedsNoMore(title, sections, n - 1, budget);
      var rolled := FillSections(title, sections, n - 1, budget, true);
      RollingUpStaysBehind(rolled.(owed := header), plain.(owed := header), entries, Allowed(sections, n - 1, budget));
    }
  }

  /**
   The note is attached exactly when the full-budget roll-up drops something, and the fill that
   carries it has then dropped something too; without it the block has lost nothing.
   */
  lemma NoteExactlyWhenRollUpDrops(title: string, sections: seq<Section>, budget: nat)
    ensures var rolled := FillAll(title, sections, budget, true);
            var plain := FillAll(title, sections, budget, false);
            var reserved := Minus(budget, |TRIMMED|);
            var noted := FillAll(title, sections, reserved, true);
            if rolled.dropped > 0
            then Assemble(title, sections, budget) == Block(title, noted, reserved) + TRIMMED && noted.dropped > 0
            else Assemble(title, sections, budget) == Block(title, if plain.dropped == 0 then plain else rolled, budget)
  {
    if FillAll(title, sections, budget, false).dropped == 0 {
      RollingUpNeedsNoMore(title, sections, |sections|, budget);
    }
    var reserved := Minus(budget, |TRIMMED|);
    if FillAll(title, sections, reserved, true).dropped == 0 {
      LosslessFillIgnoresMoreRoom(title, sections, reserved, budget, true);
    }
  }

  // ---- reserves ----

  /**
   The block is within its budget if and only if the title is and, when even the roll-up drops
   something, the title fits beside the note.
   */
  lemma BlockFitsExactly(title: string, sections: seq<Section>, budget: nat)
    ensures |Assemble(title, sections, budget)| <= budget <==>
            && |title| <= budget
            && (FillAll(title, sections, budget, true).dropped == 0 || |title| + |TRIMMED| <= budget)
  {
    var reserved := Minus(budget, |TRIMMED|);
    NoteExactlyWhenRollUpDrops(title, sections, budget);
    BlockHoldsTheTitle(title, sections, budget, false, budget);
    BlockHoldsTheTitle(title, sections, budget, true, budget);
    BlockHoldsTheTitle(title, sections, reserved, true, reserved);
    if |title| <= budget {
      FillFits(title, sections, budget, false);
      FillFits(title, sections, budget, true);
    }
    if |title| <= reserved {
      FillFits(title, sections, reserved, true);
    }
  }

  /** No section after the first spends past the budget less what later sections hold. */
  lemma LaterSectionsLeaveTheReserve(title: string, sections: seq<Section>, n: nat, budget: nat, rollUp: bool)
    requires 1 < n <= |sections|
    ensures var before := FillSections(title, sections, n - 1, budget, rollUp);
            var after := FillSections(title, sections, n, budget, rollUp);
            after.used == before.used || after.used <= Minus(budget, HeldFrom(sections, n))
  {
    var before := FillSections(title, sections, n - 1, budget, rollUp);
    EntriesStayWithin(before.(owed := Header(sections[n - 1])), sections[n - 1].entries,
                      Allowed(sections, n - 1, budget), rollUp);
  }

  lemma {:induction false} HeldFromIncludesLast(sections: seq<Section>, first: nat)
    requires first < |sections|
    ensures HeldFrom(sections, first) >= Held(sections[|sections| - 1])
    decreases |sections| - first
  {
    if first + 1 < |sections| {
      HeldFromIncludesLast(sections, first + 1);
    }
  }

  lemma {:induction false} MiddleLeavesRoom(title: string, sections: seq<Section>, n: nat, budget: nat, rollUp: bool, room: nat)
    requires 1 <= n < |sections| && room <= budget && Held(sections[|sections| - 1]) == room
    requires FillSections(title, sections, 1, budget, rollUp).used + room <= budget
    ensures FillSections(title, sections, n, budget, rollUp).used + room <= budget
  {
    if n > 1 {
      MiddleLeavesRoom(title, sections, n - 1, budget, rollUp, room);
      LaterSectionsLeaveTheReserve(title, sections, n, budget, rollUp);
      HeldFromIncludesLast(sections, n);
    }
  }

  /** A fill with room for every line, and the heading it owes, drops nothing. */
  lemma {:induction false} RoomForAllDropsNothing(f: Fill, entries: seq<Entry>, allowed: nat, rollUp: bool)
    requires f.used + |f.owed| + |Lines(entries)| <= allowed
    ensures var g := FillEntries(f, entries, allowed, rollUp);
            g.dropped == f.dropped && g.used + |g.owed| <= f.used + |f.owed| + |Lines(entries)|
  {
    if entries != [] {
      RoomForAllDropsNothing(f, entries[..|entries| - 1], allowed, rollUp);
    }
  }

  /**
   Reserves prevent starvation: when the last section asks no more than its reserve and the first
   section left that room, none of its entries is dropped, whatever the sections between wanted.
   */
  lemma ReservedSectionIsNotStarved(title: string, sections: seq<Section>, budget: nat, rollUp: bool)
    requires |sections| >= 2
    requires var last := sections[|sections| - 1]; last.entries != [] && Demand(last) <= last.reserve
    requires FillSections(title, sections, 1, budget, rollUp).used + Demand(sections[|sections| - 1]) <= budget
    ensures FillAll(title, sections, budget, rollUp).dropped
         == FillSections(title, sections, |sections| - 1, budget, rollUp).dropped
  {
    var n := |sections|;
    var last := sections[n - 1];
    MiddleLeavesRoom(title, sections, n - 1, budget, rollUp, Demand(last));
    var before := FillSections(title, sections, n - 1, budget, rollUp);
    RoomForAllDropsNothing(before.(owed := Header(last)), last.entries, Allowed(sections, n - 1, budget), rollUp);
  }

  // ---- an entry that fits is written ----

  /** The fill after the first `j` entries of section `n`. */
  function SectionAfter(title: string, sections: seq<Section>, n: nat, j: nat, budget: nat, rollUp: bool): Fill
    requires n < |sections| && j <= |sections[n].entries|
  {
    FillEntries(FillSections(title, sections, n, budget, rollUp).(owed := Header(sections[n])),
                sections[n].entries[..j], Allowed(sections, n, budget), rollUp)
  }

  function SumHeld(sections: seq<Section>): nat {
    if sections == [] then 0 else Held(sections[0]) + SumHeld(sections[1..])
  }

  lemma {:induction false} HeldFromIsTheSum(sections: seq<Section>, first: nat)
    requires first <= |sections|
    ensures HeldFrom(sections, first) == SumHeld(sections[first..])
    decreases |sections| - first
  {
    if first < |sections| {
      HeldFromIsTheSum(sections, first + 1);
    }
  }

  /** The whole budget for the first section; for any other, the budget less what the sections after it hold. */
  function Room(sections: seq<Section>, n: nat, budget: nat): int
    requires n < |sections|
  {
    if n == 0 then budget else budget - SumHeld(sections[n + 1..])
  }

  lemma SectionStartsAndEnds(title: string, sections: seq<Section>, n: nat, budget: nat, rollUp: bool)
    requires n < |sections|
    ensures var f := SectionAfter(title, sections, n, 0, budget, rollUp);
            f == FillSections(title, sections, n, budget, rollUp).(owed := "\n\n" + sections[n].heading)
    ensures SectionAfter(title, sections, n, |sections[n].entries|, budget, rollUp)
         == FillSections(title, sections, n + 1, budget, rollUp)
  {
    assert sections[n].entries[..|sections[n].entries|] == sections[n].entries;
  }

  /**
   Each entry in turn: skipped if its id has been seen, written, under the heading if that is still
   owed, if it fits the section's room, and counted as dropped otherwise.
   */
  lemma WrittenExactlyWhenItFits(title: string, sections: seq<Section>, n: nat, j: nat, budget: nat, rollUp: bool)
    requires n < |sections| && j < |sections[n].entries|
    ensures var f, g := SectionAfter(title, sections, n, j, budget, rollUp), SectionAfter(title, sections, n, j + 1, budget, rollUp);
            var entry := sections[n].entries[j];
            && (entry.id in f.seen ==> g == f)
            && (entry.id !in f.seen && f.used + |f.owed| + |Line(entry)| <= Room(sections, n, budget) ==>
                  && g.text == f.text + f.owed + Line(entry) && g.shown == f.shown + [entry]
                  && g.owed == "" && g.dropped == f.dropped)
            && (entry.id !in f.seen && f.used + |f.owed| + |Line(entry)| > Room(sections, n, budget) ==>
                  && g.text == f.text && g.shown == f.shown && g.owed == f.owed && g.dropped == f.dropped + 1)
  {
    var entries := sections[n].entries;
    assert entries[..j + 1][..j] == entries[..j] && entries[..j + 1][j] == entries[j];
    SectionsKeepSound(title, sections, n, budget, rollUp);
    HeldFromIsTheSum(sections, n + 1);
    var f := SectionAfter(title, sections, n, j, budget, rollUp);
    if n > 0 && SumHeld(sections[n + 1..]) > budget {
      LineIsNotEmpty(entries[j]);
    }
  }

  lemma LineIsNotEmpty(entry: Entry)
    ensures |Line(entry)| > 0
  {
  }

  // ---- a store that fits is shown whole ----

  function TotalDemand(sections: seq<Section>): nat {
    if sections == [] then 0 else TotalDemand(sections[..|sections| - 1]) + Demand(sections[|sections| - 1])
  }

  lemma {:induction false} HeldWithinDemand(sections: seq<Section>, n: nat)
    requires n <= |sections|
    ensures HeldFrom(sections, n) + TotalDemand(sections[..n]) <= TotalDemand(sections)
    decreases |sections| - n
  {
    if n == |sections| {
      assert sections[..n] == sections;
    } else {
      HeldWithinDemand(sections, n + 1);
      assert sections[..n + 1][..n] == sections[..n];
    }
  }

  /** Nothing dropped, and no more used than was asked for. */
  predicate FitsIn(f: Fill, asked: nat) {
    f.dropped == 0 && f.used <= asked
  }

  lemma TotalDemandSnoc(sections: seq<Section>, m: nat)
    requires m < |sections|
    ensures TotalDemand(sections[..m + 1]) == TotalDemand(sections[..m]) + Demand(sections[m])
  {
    assert sections[..m + 1][..m] == sections[..m];
  }

  /** What a section may spend up to covers everything asked for so far. */
  lemma AllowedCoversDemand(title: string, sections: seq<Section>, m: nat, budget: nat)
    requires m < |sections| && |title| + TotalDemand(sections) <= budget
    ensures |title| + TotalDemand(sections[..m]) + Demand(sections[m]) <= Allowed(sections, m, budget)
  {
    HeldWithinDemand(sections, m + 1);
    TotalDemandSnoc(sections, m);
  }

  /** A section with room for all it asks for drops nothing and uses no more than that. */
  lemma RoomyFill(before: Fill, section: Section, allowed: nat, asked: nat)
    requires FitsIn(before, asked) && asked + Demand(section) <= allowed
    ensures FitsIn(FillEntries(before.(owed := Header(section)), section.entries, allowed, false), asked + Demand(section))
  {
    RoomForAllDropsNothing(before.(owed := Header(section)), section.entries, allowed, false);
  }

  /** While everything fits together, every section has the room it asks for. */
  lemma {:induction false} FittingSectionsDropNothing(title: string, sections: seq<Section>, n: nat, budget: nat)
    requires n <= |sections| && |title| + TotalDemand(sections) <= budget
    ensures FitsIn(FillSections(title, sections, n, budget, false), |title| + TotalDemand(sections[..n]))
  {
    if n > 0 {
      var m := n - 1;
      FittingSectionsDropNothing(title, sections, m, budget);
      AllowedCoversDemand(title, sections, m, budget);
      TotalDemandSnoc(sections, m);
      RoomyFill(FillSections(title, sections, m, budget, false), sections[m], Allowed(sections, m, budget),
                |title| + TotalDemand(sections[..m]));
    }
  }

  /** If the title, the headings and the lines of all sections fit the budget together, every entry is shown, and no note. */
  lemma WhatFitsIsShownWhole(title: string, sections: seq<Section>, budget: nat, k: nat, i: nat)
    requires |title| + TotalDemand(sections) <= budget && k < |sections| && i < |sections[k].entries|
    ensures var f := FillAll(title, sections, budget, false);
            && Assemble(title, sections, budget) == f.text && f.dropped == 0
            && exists x :: 0 <= x < |f.shown| && f.shown[x].id == sections[k].entries[i].id
  {
    assert sections[..|sections|] == sections;
    FittingSectionsDropNothing(title, sections, |sections|, budget);
    NothingIsLostUncounted(title, sections, budget, false, k, i);
    SomethingIsSaid(title, sections, budget, false, k, i);
  }

  // ---- the empty store ----

  lemma {:induction false} ShownTakesRoom(f: Fill, entries: seq<Entry>, allowed: nat, rollUp: bool)
    ensures var g := FillEntries(f, entries, allowed, rollUp);
            && g.used >= f.used && (g.shown == f.shown || g.used > f.used)
  {
    if entries != [] {
      ShownTakesRoom(f, entries[..|entries| - 1], allowed, rollUp);
      LineIsNotEmpty(entries[|entries| - 1]);
    }
  }

  lemma {:induction false} ShownSectionsTakeRoom(title: string, sections: seq<Section>, n: nat, budget: nat, rollUp: bool)
    requires n <= |sections|
    ensures var f := FillSections(title, sections, n, budget, rollUp);
            f.used >= |title| && (f.shown != [] ==> f.used > |title|)
  {
    if n > 0 {
      ShownSectionsTakeRoom(title, sections, n - 1, budget, rollUp);
      ShownTakesRoom(FillSections(title, sections, n - 1, budget, rollUp).(owed := Header(sections[n - 1])),
                     sections[n - 1].entries, Allowed(sections, n - 1, budget), rollUp);
    }
  }

  /** With any entry at all, a block never says that nothing is stored. */
  lemma SomethingIsSaid(title: string, sections: seq<Section>, budget: nat, rollUp: bool, k: nat, i: nat)
    requires k < |sections| && i < |sections[k].entries|
    ensures var f := FillAll(title, sections, budget, rollUp); Block(title, f, budget) == f.text
  {
    NothingIsLostUncounted(title, sections, budget, rollUp, k, i);
    ShownSectionsTakeRoom(title, sections, |sections|, budget, rollUp);
  }

  lemma {:induction false} NoEntriesNoText(title: string, sections: seq<Section>, n: nat, budget: nat, rollUp: bool)
    requires n <= |sections| && forall k | 0 <= k < |sections| :: sections[k].entries == []
    ensures var f := FillSections(title, sections, n, budget, rollUp);
            f.text == title && f.used == |title| && f.dropped == 0
  {
    if n > 0 {
      NoEntriesNoText(title, sections, n - 1, budget, rollUp);
    }
  }

  /** With none, it says so under the title, if there is room. */
  lemma EmptyStoreIsSaid(title: string, sections: seq<Section>, budget: nat)
    requires forall k | 0 <= k < |sections| :: sections[k].entries == []
    ensures Assemble(title, sections, budget) == if |title| + |NOTHING| <= budget then title + NOTHING else title
  {
    NoEntriesNoText(title, sections, |sections|, budget, false);
  }

  // ---- one line per entry ----

  lemma {:induction false} FlatWordsOfWords(words: seq<string>)
    requires forall i | 0 <= i < |words| :: words[i] != [] && Text.Solid(words[i])
    ensures Text.FlatWords(words) == words
  {
    if words != [] {
      FlatWordsOfWords(words[..|words| - 1]);
      Text.SolidIsOneWord(words[|words| - 1]);
    }
  }

  /** An entry's line is its claim's words, whatever white space they came in, and its id, behind a dash. */
  lemma LineSaysTheClaim(entry: Entry)
    requires entry.id != [] && Text.Solid(entry.id)
    ensures Text.Words(Line(entry)) == ["-"] + Text.Words(entry.content) + ["`" + entry.id + "`"]
  {
    var words := Text.Words(entry.content);
    Text.WordsAreSolid([], entry.content);
    FlatWordsOfWords(words);
    Text.JoinKeepsWords(words);
    var claim, ref := Text.Join(words), "`" + entry.id + "`";
    Text.SolidIsOneWord(ref);
    assert " `" + entry.id + "`" == " " + ref;
    assert Line(entry) == ("\n- " + claim) + (" " + ref);
    Text.WordsSplit("\n- " + claim, " " + ref);
    Text.WordsSplit(" ", ref);
    Text.BlankHasNoWords(" ");
    Text.WordsSplit("\n- ", claim);
    DashIsOneWord();
  }

  lemma DashIsOneWord()
    ensures Text.Words("\n- ") == ["-"]
  {
    assert "\n- " == "\n" + "- " && "- " == "-" + " ";
    Text.WordsSplit("\n", "- ");
    Text.WordsSplit("-", " ");
    Text.BlankHasNoWords("\n");
    Text.BlankHasNoWords(" ");
    Text.SolidIsOneWord("-");
  }

  /** And it is one line: the only line break is the one it begins with. */
  lemma LineIsOneLine(entry: Entry, i: nat)
    requires '\n' !in entry.id && 0 < i < |Line(entry)|
    ensures Line(entry)[0] == '\n' && Line(entry)[i] != '\n'
  {
    Text.WordsAreSolid([], entry.content);
    JoinedHasNoBreak(Text.Words(entry.content));
    var claim := Text.Join(Text.Words(entry.content));
    var parts := "\n- " + claim + " `";
    if 3 <= i < 3 + |claim| {
      assert Line(entry)[i] == claim[i - 3];
    } else if |parts| <= i < |parts| + |entry.id| {
      assert Line(entry)[i] == entry.id[i - |parts|];
    }
  }

  lemma {:induction false} JoinedHasNoBreak(words: seq<string>)
    requires forall i | 0 <= i < |words| :: Text.Solid(words[i])
    ensures '\n' !in Text.Join(words)
  {
    if |words| > 1 {
      JoinedHasNoBreak(words[1..]);
    }
  }
}
