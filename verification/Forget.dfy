/**
 The two-step `forget` (crates/agmem-server/src/tools/forget.rs): a query deletes only what a dry run
 of the same call has shown.

 One session's calls run concurrently over a store that anything may change, so every read and every
 touch of the one confirmation slot is a step of its own, and what a read finds is the environment's
 choice.
 */
module Forget {
  import opened Common

  type Id = string

  datatype Scope = Scope(query: string, spaces: seq<string>, purge: bool)

  /** What a dry run offered. */
  datatype Offer = Offer(scope: Scope, shown: seq<Id>)

  /** What a confirmation attempt leaves in the slot, and the ids it clears. */
  function Confirmed(slot: Option<Offer>, scope: Scope): (Option<Offer>, Option<seq<Id>>) {
    match slot
    case Some(offer) => if offer.scope == scope then (None, Some(offer.shown)) else (slot, None)
    case None => (slot, None)
  }

  /** The one-slot record of the last dry run. */
  class Pending {
    var slot: Option<Offer>

    constructor ()
      ensures slot == None
    {
      slot := None;
    }

    method Arm(scope: Scope, matched: seq<Id>)
      modifies this
      ensures slot == Some(Offer(scope, matched))
    {
      slot := Some(Offer(scope, matched));
    }

    method Confirm(scope: Scope) returns (previewed: Option<seq<Id>>)
      modifies this
      ensures (slot, previewed) == Confirmed(old(slot), scope)
    {
      var taken := slot;
      slot := None;
      if taken.Some? && taken.value.scope == scope {
        previewed := Some(taken.value.shown);
      } else {
        slot := taken;
        previewed := None;
      }
    }
  }

  // ---- the calls of one session ----

  type CallId = nat

  datatype Params = Params(ids: seq<Id>, query: Option<string>, spaces: seq<string>, purge: bool, dryRun: bool, cascade: bool)

  datatype At =
    | Entered(p: Params)
    | Previewing(scope: Scope)                       // a dry run by query, about to read
    | Offering(offer: Offer)                         // has read, about to arm
    | Cleared(offer: Offer, at: nat)                 // confirmed as log entry `at`, about to read
    | Acting(scope: Scope, ids: seq<Id>, at: nat)    // everything read was shown
    | Direct(dryRun: bool)                           // by ids, about to resolve them
    | ActingDirect(ids: seq<Id>)
    | Done

  /** What happened to the slot and to the store, in order. */
  datatype Entry =
    | Offered(call: CallId, offer: Offer)
    | Took(call: CallId, offer: Offer)
    | Mismatched(call: CallId, scope: Scope)
    | Forgot(call: CallId, scope: Scope, ids: seq<Id>, at: nat)
    | ForgotByIds(call: CallId, ids: seq<Id>)

  datatype Session = Session(slot: Option<Offer>, calls: map<CallId, At>, log: seq<Entry>)

  /** `found` is what the store answers a call that reads: any list at all. */
  datatype Event = Begin(c: CallId, p: Params) | Step(c: CallId, found: seq<Id>) | Fail(c: CallId)

  datatype Effect = Effect(at: At, slot: Option<Offer>, entries: seq<Entry>)

  predicate AllShown(ids: seq<Id>, shown: seq<Id>) {
    forall i | 0 <= i < |ids| :: ids[i] in shown
  }

  /** The selectors: exactly one of ids and query, and `cascade` only with `purge`. */
  function Choose(c: CallId, p: Params, slot: Option<Offer>, now: nat): Effect {
    if p.cascade && !p.purge then Effect(Done, slot, [])
    else if p.ids != [] && p.query.None? then Effect(Direct(p.dryRun), slot, [])
    else if p.ids == [] && p.query.Some? then
      var scope := Scope(p.query.value, p.spaces, p.purge);
      if p.dryRun then Effect(Previewing(scope), slot, [])
      else
        var (slot', previewed) := Confirmed(slot, scope);
        match previewed
        case Some(shown) => Effect(Cleared(Offer(scope, shown), now), slot', [Took(c, Offer(scope, shown))])
        case None => Effect(Done, slot', [Mismatched(c, scope)])
    else Effect(Done, slot, [])
  }

  function Turn(c: CallId, at: At, slot: Option<Offer>, now: nat, found: seq<Id>): Effect {
    match at
    case Entered(p) => Choose(c, p, slot, now)
    case Previewing(scope) => Effect(Offering(Offer(scope, found)), slot, [])
    case Offering(offer) => Effect(Done, Some(offer), [Offered(c, offer)])
    case Cleared(offer, taken) =>
      if AllShown(found, offer.shown) then Effect(Acting(offer.scope, found, taken), slot, []) else Effect(Done, slot, [])
    case Acting(scope, ids, taken) => Effect(Done, slot, [Forgot(c, scope, ids, taken)])
    case Direct(dryRun) => Effect(if dryRun then Done else ActingDirect(found), slot, [])
    case ActingDirect(ids) => Effect(Done, slot, [ForgotByIds(c, ids)])
    case Done => Effect(Done, slot, [])
  }

  function Commit(s: Session, c: CallId, e: Effect): Session {
    Session(e.slot, s.calls[c := e.at], s.log + e.entries)
  }

  function Apply(s: Session, event: Event): Session {
    match event
    case Begin(c, p) => if c in s.calls then s else s.(calls := s.calls[c := Entered(p)])
    case Step(c, found) => if c in s.calls then Commit(s, c, Turn(c, s.calls[c], s.slot, |s.log|, found)) else s
    case Fail(c) => if c in s.calls then s.(calls := s.calls[c := Done]) else s
  }

  function After(s: Session, events: seq<Event>): Session {
    if events == [] then s else Apply(After(s, events[..|events| - 1]), events[|events| - 1])
  }

  function Play(events: seq<Event>): Session {
    After(Session(None, map[], []), events)
  }

  // ---- what the log must look like ----

  /** What the slot holds after the first `n` entries. */
  function SlotAfter(log: seq<Entry>, n: nat): Option<Offer>
    requires n <= |log|
  {
    if n == 0 then None
    else if log[n - 1].Offered? then Some(log[n - 1].offer)
    else if log[n - 1].Took? then None
    else SlotAfter(log, n - 1)
  }

  /** A confirmation takes the offer standing; an execution is covered by its own call's confirmation. */
  predicate EntryOk(log: seq<Entry>, i: nat)
    requires i < |log|
  {
    match log[i]
    case Took(_, offer) => SlotAfter(log, i) == Some(offer)
    case Forgot(c, scope, ids, at) => at < i && Covers(log[at], c, scope, ids)
    case _ => true
  }

  predicate Covers(entry: Entry, c: CallId, scope: Scope, ids: seq<Id>) {
    entry.Took? && entry.call == c && entry.offer.scope == scope && AllShown(ids, entry.offer.shown)
  }

  predicate CallOk(log: seq<Entry>, c: CallId, at: At) {
    match at
    case Cleared(offer, taken) => taken < |log| && log[taken] == Took(c, offer)
    case Acting(scope, ids, taken) => taken < |log| && Covers(log[taken], c, scope, ids)
    case _ => true
  }

  /** A call that forgot by query is over. */
  predicate Spent(s: Session, i: nat)
    requires i < |s.log|
  {
    s.log[i].Forgot? ==> s.log[i].call in s.calls && s.calls[s.log[i].call].Done?
  }

  /** No call forgets twice. */
  predicate Apart(log: seq<Entry>, i: nat, j: nat)
    requires i < |log| && j < |log|
  {
    log[i].Forgot? && log[j].Forgot? ==> log[i].call != log[j].call
  }

  ghost predicate Inv(s: Session) {
    && s.slot == SlotAfter(s.log, |s.log|)
    && (forall i | 0 <= i < |s.log| :: EntryOk(s.log, i) && Spent(s, i))
    && (forall i, j | 0 <= i < j < |s.log| :: Apart(s.log, i, j))
    && forall c | c in s.calls :: CallOk(s.log, c, s.calls[c])
  }

  lemma {:induction false} SlotOfPrefix(log: seq<Entry>, more: seq<Entry>, n: nat)
    requires n <= |log|
    ensures SlotAfter(log + more, n) == SlotAfter(log, n)
  {
    if n > 0 {
      SlotOfPrefix(log, more, n - 1);
    }
  }

  lemma EntryStaysOk(log: seq<Entry>, more: seq<Entry>, i: nat)
    requires i < |log| && EntryOk(log, i)
    ensures EntryOk(log + more, i)
  {
    SlotOfPrefix(log, more, i);
  }

  /** One call's turn, seen on its own. */
  lemma TurnIsSound(s: Session, c: CallId, found: seq<Id>)
    requires Inv(s) && c in s.calls
    ensures var e := Turn(c, s.calls[c], s.slot, |s.log|, found); var log := s.log + e.entries;
            && |e.entries| <= 1
            && e.slot == SlotAfter(log, |log|)
            && CallOk(log, c, e.at)
            && (e.entries != [] ==> EntryOk(log, |s.log|))
            && (e.entries != [] && e.entries[0].Forgot? ==> e.at.Done? && e.entries[0].call == c && !s.calls[c].Done?)
  {
    var e := Turn(c, s.calls[c], s.slot, |s.log|, found);
    SlotOfPrefix(s.log, e.entries, |s.log|);
    assert s.log + [] == s.log;
    assert CallOk(s.log, c, s.calls[c]);
  }

  lemma StepKeepsInv(s: Session, c: CallId, found: seq<Id>)
    requires Inv(s) && c in s.calls
    ensures Inv(Apply(s, Step(c, found)))
  {
    var e := Turn(c, s.calls[c], s.slot, |s.log|, found);
    var s' := Apply(s, Step(c, found));
    TurnIsSound(s, c, found);
    forall i | 0 <= i < |s'.log|
      ensures EntryOk(s'.log, i) && Spent(s', i)
    {
      if i < |s.log| {
        assert EntryOk(s.log, i) && Spent(s, i);
        EntryStaysOk(s.log, e.entries, i);
      }
    }
    forall i, j | 0 <= i < j < |s'.log|
      ensures Apart(s'.log, i, j)
    {
      if j < |s.log| {
        assert Apart(s.log, i, j);
      } else {
        assert Spent(s, i);
      }
    }
    forall d | d in s'.calls
      ensures CallOk(s'.log, d, s'.calls[d])
    {
      if d != c {
        assert CallOk(s.log, d, s.calls[d]);
      }
    }
  }

  lemma BeginOrFailKeepsInv(s: Session, event: Event)
    requires Inv(s) && !event.Step?
    ensures Inv(Apply(s, event))
  {
    var s' := Apply(s, event);
    forall i | 0 <= i < |s'.log|
      ensures EntryOk(s'.log, i) && Spent(s', i)
    {
      assert EntryOk(s.log, i) && Spent(s, i);
    }
  }

  lemma {:induction false} EveryPlayKeepsInv(events: seq<Event>)
    ensures Inv(Play(events))
  {
    if events != [] {
      EveryPlayKeepsInv(events[..|events| - 1]);
      var s, event := Play(events[..|events| - 1]), events[|events| - 1];
      if event.Step? && event.c in s.calls {
        StepKeepsInv(s, event.c, event.found);
      } else if !event.Step? {
        BeginOrFailKeepsInv(s, event);
      }
    }
  }

  // ---- what a confirmation rests on ----

  /** The offer of entry `a` has been neither replaced nor used by entry `n`. */
  predicate Standing(log: seq<Entry>, a: nat, n: nat)
    requires n <= |log|
  {
    a < n && log[a].Offered? && forall i | a < i < n :: !log[i].Offered? && !log[i].Took?
  }

  lemma {:induction false} SlotIsTheStandingOffer(log: seq<Entry>, n: nat)
    requires n <= |log|
    ensures SlotAfter(log, n).Some? ==> exists a: nat :: Standing(log, a, n) && log[a].offer == SlotAfter(log, n).value
    ensures forall a: nat :: Standing(log, a, n) ==> SlotAfter(log, n) == Some(log[a].offer)
  {
    if n > 0 {
      SlotIsTheStandingOffer(log, n - 1);
      if log[n - 1].Offered? {
        assert Standing(log, n - 1, n);
      } else if SlotAfter(log, n).Some? {
        var a: nat :| Standing(log, a, n - 1) && log[a].offer == SlotAfter(log, n - 1).value;
        assert Standing(log, a, n);
      }
      forall a: nat | Standing(log, a, n)
        ensures SlotAfter(log, n) == Some(log[a].offer)
      {
        if a < n - 1 {
          assert !log[n - 1].Offered? && !log[n - 1].Took?;
          assert Standing(log, a, n - 1);
        }
      }
    }
  }

  /**
   An attempt is cleared exactly when some dry run of the same query, spaces and purge flag stands:
   nothing has been offered or taken since.  Mismatched attempts in between do not count against it.
   */
  lemma ClearedExactlyWhenStanding(events: seq<Event>, scope: Scope)
    ensures var s := Play(events);
            Confirmed(s.slot, scope).1.Some? <==>
            exists a: nat :: Standing(s.log, a, |s.log|) && s.log[a].offer.scope == scope
  {
    var s := Play(events);
    EveryPlayKeepsInv(events);
    SlotIsTheStandingOffer(s.log, |s.log|);
  }

  /**
   An execution by query touches only ids its call's confirmation took from the dry run then standing,
   and that dry run had the same query, spaces and purge flag.
   */
  lemma ForgetsOnlyWhatWasShown(events: seq<Event>, e: nat)
    requires e < |Play(events).log| && Play(events).log[e].Forgot?
    ensures var log := Play(events).log;
            exists a: nat :: && log[e].at < e && Standing(log, a, log[e].at)
                        && log[e].scope == log[a].offer.scope && AllShown(log[e].ids, log[a].offer.shown)
                        && log[log[e].at] == Took(log[e].call, log[a].offer)
  {
    var log := Play(events).log;
    EveryPlayKeepsInv(events);
    assert EntryOk(log, e);
    assert EntryOk(log, log[e].at);
    SlotIsTheStandingOffer(log, log[e].at);
  }

  /** Each dry run authorises at most one execution. */
  lemma OneExecutionPerDryRun(events: seq<Event>, e: nat, f: nat, a: nat)
    requires var log := Play(events).log;
             && e < f < |log| && log[e].Forgot? && log[f].Forgot?
             && log[e].at <= |log| && log[f].at <= |log|
             && Standing(log, a, log[e].at)
    ensures !Standing(Play(events).log, a, Play(events).log[f].at)
  {
    var log := Play(events).log;
    EveryPlayKeepsInv(events);
    assert EntryOk(log, e) && EntryOk(log, f);
    assert Apart(log, e, f);
    var i, j := log[e].at, log[f].at;
    assert log[i].Took? && log[j].Took? && i != j;
  }

  // ---- what a call does is what it was asked ----

  /** The parameters a call was begun with; a later `Begin` of the same call counts for nothing. */
  function AskedWith(events: seq<Event>, c: CallId): Option<Params> {
    if events == [] then None
    else
      var before, last := AskedWith(events[..|events| - 1], c), events[|events| - 1];
      if before.None? && last.Begin? && last.c == c then Some(last.p) else before
  }

  predicate ByQuery(p: Params, scope: Scope) {
    p.ids == [] && p.query == Some(scope.query) && p.spaces == scope.spaces && p.purge == scope.purge && (p.cascade ==> p.purge)
  }

  predicate ByIds(p: Params) {
    p.ids != [] && p.query.None? && (p.cascade ==> p.purge)
  }

  /** What a call may leave in the log. */
  predicate EntryFits(p: Params, entry: Entry) {
    match entry
    case Offered(_, offer) => p.dryRun && ByQuery(p, offer.scope)
    case Took(_, offer) => !p.dryRun && ByQuery(p, offer.scope)
    case Mismatched(_, scope) => !p.dryRun && ByQuery(p, scope)
    case Forgot(_, scope, _, _) => !p.dryRun && ByQuery(p, scope)
    case ForgotByIds(_, _) => !p.dryRun && ByIds(p)
  }

  predicate PhaseFits(p: Params, at: At) {
    match at
    case Entered(q) => q == p
    case Previewing(scope) => p.dryRun && ByQuery(p, scope)
    case Offering(offer) => p.dryRun && ByQuery(p, offer.scope)
    case Cleared(offer, _) => !p.dryRun && ByQuery(p, offer.scope)
    case Acting(scope, _, _) => !p.dryRun && ByQuery(p, scope)
    case Direct(dryRun) => dryRun == p.dryRun && ByIds(p)
    case ActingDirect(_) => !p.dryRun && ByIds(p)
    case Done => true
  }

  predicate CallFits(s: Session, c: CallId, asked: Option<Params>) {
    if c in s.calls then asked.Some? && PhaseFits(asked.value, s.calls[c]) else asked.None?
  }

  predicate LogFits(entry: Entry, asked: Option<Params>) {
    asked.Some? && EntryFits(asked.value, entry)
  }

  /** Every call and every entry answers to the parameters its call was begun with. */
  ghost predicate AllAsked(events: seq<Event>, s: Session) {
    && (forall c :: CallFits(s, c, AskedWith(events, c)))
    && (forall i | 0 <= i < |s.log| :: LogFits(s.log[i], AskedWith(events, s.log[i].call)))
  }

  lemma TurnFits(c: CallId, p: Params, at: At, slot: Option<Offer>, now: nat, found: seq<Id>)
    requires PhaseFits(p, at)
    ensures var e := Turn(c, at, slot, now, found);
            PhaseFits(p, e.at) && forall x | x in e.entries :: x.call == c && EntryFits(p, x)
  {
  }

  lemma ApplyFits(events: seq<Event>, event: Event, s: Session)
    requires AllAsked(events, s)
    ensures AllAsked(events + [event], Apply(s, event))
  {
    var more, s' := events + [event], Apply(s, event);
    assert more[..|events|] == events;
    forall c
      ensures CallFits(s', c, AskedWith(more, c))
    {
      assert CallFits(s, c, AskedWith(events, c));
      if event.Step? && event.c == c && c in s.calls {
        TurnFits(c, AskedWith(events, c).value, s.calls[c], s.slot, |s.log|, event.found);
      }
    }
    forall i | 0 <= i < |s'.log|
      ensures LogFits(s'.log[i], AskedWith(more, s'.log[i].call))
    {
      if i < |s.log| {
        assert LogFits(s.log[i], AskedWith(events, s.log[i].call));
      } else {
        var c := event.c;
        assert CallFits(s, c, AskedWith(events, c));
        TurnFits(c, AskedWith(events, c).value, s.calls[c], s.slot, |s.log|, event.found);
        assert s'.log[i] in Turn(c, s.calls[c], s.slot, |s.log|, event.found).entries;
      }
    }
  }

  lemma {:induction false} EveryPlayIsAsked(events: seq<Event>)
    ensures AllAsked(events, Play(events))
  {
    if events != [] {
      var most := events[..|events| - 1];
      EveryPlayIsAsked(most);
      ApplyFits(most, events[|events| - 1], Play(most));
      assert events == most + [events[|events| - 1]];
    }
  }

  /**
   A dry run offers and does nothing else; any other call never offers, confirms or forgets by query
   only its own scope, and forgets by ids only if it was given ids.
   */
  lemma LogIsAsAsked(events: seq<Event>, i: nat)
    requires i < |Play(events).log|
    ensures var entry := Play(events).log[i]; var asked := AskedWith(events, entry.call);
            && asked.Some? && asked.value.dryRun == entry.Offered?
            && (asked.value.cascade ==> asked.value.purge)
            && (entry.ForgotByIds? <==> asked.value.ids != [])
            && (entry.Offered? || entry.Took? ==> ByQuery(asked.value, entry.offer.scope))
            && (entry.Mismatched? || entry.Forgot? ==> ByQuery(asked.value, entry.scope))
  {
    EveryPlayIsAsked(events);
    assert LogFits(Play(events).log[i], AskedWith(events, Play(events).log[i].call));
  }

  // ---- and it does it ----

  /** What one call leaves in the log. */
  function EntriesOf(log: seq<Entry>, c: CallId): seq<Entry> {
    if log == [] then []
    else EntriesOf(log[..|log| - 1], c) + if log[|log| - 1].call == c then [log[|log| - 1]] else []
  }

  lemma EntriesGrow(log: seq<Entry>, entries: seq<Entry>, c: CallId)
    requires |entries| <= 1
    ensures EntriesOf(log + entries, c) == EntriesOf(log, c) + if entries != [] && entries[0].call == c then entries else []
  {
    if entries == [] {
      assert log + entries == log;
    } else {
      assert (log + entries)[..|log|] == log;
    }
  }

  predicate Quiet(events: seq<Event>, c: CallId) {
    forall i | 0 <= i < |events| :: events[i].c != c
  }

  /** Where a call stands, and what it has logged. */
  predicate Stands(s: Session, c: CallId, at: At, logged: seq<Entry>) {
    c in s.calls && s.calls[c] == at && EntriesOf(s.log, c) == logged
  }

  lemma TurnLogsItsOwn(c: CallId, at: At, slot: Option<Offer>, now: nat, found: seq<Id>)
    ensures var e := Turn(c, at, slot, now, found); |e.entries| <= 1 && (e.entries != [] ==> e.entries[0].call == c)
  {
  }

  lemma OtherLeavesItAlone(s: Session, event: Event, c: CallId, at: At, logged: seq<Entry>)
    requires event.c != c && Stands(s, c, at, logged)
    ensures Stands(Apply(s, event), c, at, logged)
  {
    if event.Step? && event.c in s.calls {
      TurnLogsItsOwn(event.c, s.calls[event.c], s.slot, |s.log|, event.found);
      EntriesGrow(s.log, Turn(event.c, s.calls[event.c], s.slot, |s.log|, event.found).entries, c);
    }
  }

  /** Other calls neither move a call nor log in its name. */
  lemma {:induction false} OthersLeaveItAlone(s: Session, events: seq<Event>, c: CallId, at: At, logged: seq<Entry>)
    requires Quiet(events, c) && Stands(s, c, at, logged)
    ensures Stands(After(s, events), c, at, logged)
  {
    if events != [] {
      OthersLeaveItAlone(s, events[..|events| - 1], c, at, logged);
      OtherLeavesItAlone(After(s, events[..|events| - 1]), events[|events| - 1], c, at, logged);
    }
  }

  lemma ItSteps(s: Session, c: CallId, at: At, logged: seq<Entry>, found: seq<Id>)
    requires Stands(s, c, at, logged)
    ensures var e := Turn(c, at, s.slot, |s.log|, found); Stands(Apply(s, Step(c, found)), c, e.at, logged + e.entries)
  {
    TurnLogsItsOwn(c, at, s.slot, |s.log|, found);
    EntriesGrow(s.log, Turn(c, at, s.slot, |s.log|, found).entries, c);
  }

  /** A call as one act: `slot` is what it finds pending, `found` what the store then answers it. */
  function Outcome(c: CallId, p: Params, slot: Option<Offer>, now: nat, found: seq<Id>): seq<Entry> {
    if (p.cascade && !p.purge) || (p.ids == []) == p.query.None? then []
    else if p.query.None? then if p.dryRun then [] else [ForgotByIds(c, found)]
    else
      var scope := Scope(p.query.value, p.spaces, p.purge);
      if p.dryRun then [Offered(c, Offer(scope, found))]
      else if slot.None? || slot.value.scope != scope then [Mismatched(c, scope)]
      else if AllShown(found, slot.value.shown) then [Took(c, slot.value), Forgot(c, scope, found, now)]
      else [Took(c, slot.value)]
  }

  /** What a call that has looked at the slot still has to log. */
  function Rest(c: CallId, at: At, found: seq<Id>): seq<Entry> {
    match at
    case Previewing(scope) => [Offered(c, Offer(scope, found))]
    case Cleared(offer, now) => if AllShown(found, offer.shown) then [Forgot(c, offer.scope, found, now)] else []
    case Direct(dryRun) => if dryRun then [] else [ForgotByIds(c, found)]
    case _ => []
  }

  lemma TwoTurns(c: CallId, at: At, slot2: Option<Offer>, now2: nat, found: seq<Id>, slot3: Option<Offer>, now3: nat, any3: seq<Id>)
    requires at.Previewing? || at.Cleared? || at.Direct? || at.Done?
    ensures var two := Turn(c, at, slot2, now2, found);
            var three := Turn(c, two.at, slot3, now3, any3);
            three.at.Done? && two.entries + three.entries == Rest(c, at, found)
  {
  }

  lemma FirstTurn(c: CallId, p: Params, slot: Option<Offer>, now: nat, found: seq<Id>)
    ensures var one := Choose(c, p, slot, now);
            && (one.at.Previewing? || one.at.Cleared? || one.at.Direct? || one.at.Done?)
            && one.entries + Rest(c, one.at, found) == Outcome(c, p, slot, now, found)
  {
  }

  /** Its three turns make that outcome, whatever the slot has become by the second and the third. */
  lemma ThreeTurns(
    c: CallId, p: Params, slot: Option<Offer>, now: nat, any: seq<Id>, slot2: Option<Offer>, now2: nat, found: seq<Id>,
    slot3: Option<Offer>, now3: nat, any3: seq<Id>)
    ensures var one := Turn(c, Entered(p), slot, now, any);
            var two := Turn(c, one.at, slot2, now2, found);
            var three := Turn(c, two.at, slot3, now3, any3);
            three.at.Done? && [] + one.entries + two.entries + three.entries == Outcome(c, p, slot, now, found)
  {
    var one := Choose(c, p, slot, now);
    FirstTurn(c, p, slot, now, found);
    TwoTurns(c, one.at, slot2, now2, found, slot3, now3, any3);
    JoinThree(one.entries, Turn(c, one.at, slot2, now2, found).entries,
      Turn(c, Turn(c, one.at, slot2, now2, found).at, slot3, now3, any3).entries);
  }

  lemma JoinThree(a: seq<Entry>, b: seq<Entry>, c: seq<Entry>)
    ensures [] + a + b + c == a + (b + c)
  {
  }

  lemma StepsAndRests(s: Session, c: CallId, at: At, logged: seq<Entry>, found: seq<Id>, m: seq<Event>)
    requires Stands(s, c, at, logged) && Quiet(m, c)
    ensures var e := Turn(c, at, s.slot, |s.log|, found);
            Stands(After(Apply(s, Step(c, found)), m), c, e.at, logged + e.entries)
  {
    var e := Turn(c, at, s.slot, |s.log|, found);
    ItSteps(s, c, at, logged, found);
    OthersLeaveItAlone(Apply(s, Step(c, found)), m, c, e.at, logged + e.entries);
  }

  /** From a new call to its first step, and from each step to the next, other calls do as they like. */
  ghost predicate Called(s: Session, c: CallId, p: Params, first: Session, second: Session, third: Session, found: seq<Id>) {
    && c !in s.calls
    && (exists m :: Quiet(m, c) && first == After(Apply(s, Begin(c, p)), m))
    && (exists m, any :: Quiet(m, c) && second == After(Apply(first, Step(c, any)), m))
    && (exists m :: Quiet(m, c) && third == After(Apply(second, Step(c, found)), m))
  }

  lemma NothingLoggedYet(events: seq<Event>, c: CallId)
    requires c !in Play(events).calls
    ensures EntriesOf(Play(events).log, c) == []
  {
    var s := Play(events);
    EveryPlayIsAsked(events);
    assert CallFits(s, c, AskedWith(events, c));
    forall i | 0 <= i < |s.log|
      ensures s.log[i].call != c
    {
      assert LogFits(s.log[i], AskedWith(events, s.log[i].call));
    }
    NoneOfIt(s.log, c);
  }

  lemma {:induction false} NoneOfIt(log: seq<Entry>, c: CallId)
    requires forall i | 0 <= i < |log| :: log[i].call != c
    ensures EntriesOf(log, c) == []
  {
    if log != [] {
      NoneOfIt(log[..|log| - 1], c);
    }
  }

  /**
   A call that is let finish has exactly its outcome, whatever runs between its steps: decided by the
   slot as it was when the call looked, and by what the store answered after that.
   */
  lemma EveryCallHasItsOutcome(
    events: seq<Event>, c: CallId, p: Params, first: Session, second: Session, third: Session, found: seq<Id>, any: seq<Id>)
    requires Called(Play(events), c, p, first, second, third, found)
    ensures var last := Apply(third, Step(c, any));
            && c in last.calls && last.calls[c].Done?
            && EntriesOf(last.log, c) == Outcome(c, p, first.slot, |first.log|, found)
  {
    var s := Play(events);
    NothingLoggedYet(events, c);
    var m1 :| Quiet(m1, c) && first == After(Apply(s, Begin(c, p)), m1);
    OthersLeaveItAlone(Apply(s, Begin(c, p)), m1, c, Entered(p), []);
    var m2, any2 :| Quiet(m2, c) && second == After(Apply(first, Step(c, any2)), m2);
    var m3 :| Quiet(m3, c) && third == After(Apply(second, Step(c, found)), m3);
    var one := Turn(c, Entered(p), first.slot, |first.log|, any2);
    var two := Turn(c, one.at, second.slot, |second.log|, found);
    StepsAndRests(first, c, Entered(p), [], any2, m2);
    StepsAndRests(second, c, one.at, [] + one.entries, found, m3);
    ItSteps(third, c, two.at, [] + one.entries + two.entries, any);
    ThreeTurns(c, p, first.slot, |first.log|, any2, second.slot, |second.log|, found, third.slot, |third.log|, any);
  }

  // ---- what a purge takes with it ----

  /** A row to act on, in the space that holds it; a claim may have been pulled in by a document. */
  datatype Target = Claim(space: string, id: Id, cascadedFrom: Option<Id>) | Text(space: string, id: Id, document: bool)

  function Ids(targets: seq<Target>): seq<Id> {
    seq(|targets|, i requires 0 <= i < |targets| => targets[i].id)
  }

  /** The ids of a list that are not held yet, in order. */
  function Unheld(ids: seq<Id>, held: seq<Id>): seq<Id> {
    if ids == [] then []
    else if ids[0] in held then Unheld(ids[1..], held) else [ids[0]] + Unheld(ids[1..], held)
  }

  lemma {:induction false} UnheldIsExact(ids: seq<Id>, held: seq<Id>, id: Id)
    ensures id in Unheld(ids, held) <==> id in ids && id !in held
  {
    if ids != [] {
      UnheldIsExact(ids[1..], held, id);
    }
  }

  lemma {:induction false} UnheldHasNoRepeats(ids: seq<Id>, held: seq<Id>)
    requires NoRepeats(ids)
    ensures NoRepeats(Unheld(ids, held))
  {
    if ids != [] {
      UnheldHasNoRepeats(ids[1..], held);
      UnheldIsExact(ids[1..], held, ids[0]);
    }
  }

  /** The ids one document adds to those held. */
  function Pulled(target: Target, citing: seq<Id>, held: seq<Id>): seq<Id> {
    if target.Text? && target.document then Unheld(citing, held) else []
  }

  /**
   What the first `n` targets make of the list: themselves and all, then the citers of each document.
   `citers(t)` is what the store answers when target `t` is looked at; the answers need not agree.
   */
  function Gathered(targets: seq<Target>, citers: nat -> seq<Id>, n: nat): seq<Id>
    requires n <= |targets|
  {
    if n == 0 then Ids(targets)
    else
      var held := Gathered(targets, citers, n - 1);
      held + Pulled(targets[n - 1], citers(n - 1), held)
  }

  lemma PulledIsExact(target: Target, citing: seq<Id>, held: seq<Id>, id: Id)
    ensures id in Pulled(target, citing, held) <==>
            target.Text? && target.document && id in citing && id !in held
  {
    UnheldIsExact(citing, held, id);
  }

  /** Document `t` is cited by the claim `id`. */
  predicate CitedAt(targets: seq<Target>, citers: nat -> seq<Id>, t: nat, id: Id)
    requires t < |targets|
  {
    targets[t].Text? && targets[t].document && id in citers(t)
  }

  predicate Cited(targets: seq<Target>, citers: nat -> seq<Id>, n: nat, id: Id)
    requires n <= |targets|
  {
    exists t :: 0 <= t < n && CitedAt(targets, citers, t, id)
  }

  predicate Belongs(targets: seq<Target>, citers: nat -> seq<Id>, n: nat, id: Id)
    requires n <= |targets|
  {
    id in Ids(targets) || Cited(targets, citers, n, id)
  }

  predicate RightlyGathered(targets: seq<Target>, citers: nat -> seq<Id>, n: nat, id: Id)
    requires n <= |targets|
  {
    id in Gathered(targets, citers, n) <==> Belongs(targets, citers, n, id)
  }

  lemma GatheredStep(targets: seq<Target>, citers: nat -> seq<Id>, m: nat, n: nat, id: Id)
    requires m + 1 == n <= |targets| && RightlyGathered(targets, citers, m, id)
    ensures RightlyGathered(targets, citers, n, id)
  {
    PulledIsExact(targets[m], citers(m), Gathered(targets, citers, m), id);
    assert Cited(targets, citers, n, id) <==> Cited(targets, citers, m, id) || CitedAt(targets, citers, m, id);
  }

  /** Gathered are the targets and everything that cites a document among them, and nothing else. */
  lemma {:induction false} GatheredIsExact(targets: seq<Target>, citers: nat -> seq<Id>, n: nat, id: Id)
    requires n <= |targets|
    ensures RightlyGathered(targets, citers, n, id)
  {
    if n > 0 {
      GatheredIsExact(targets, citers, n - 1, id);
      GatheredStep(targets, citers, n - 1, n, id);
    }
  }

  lemma NoRepeatsTogether(a: seq<Id>, b: seq<Id>)
    requires NoRepeats(a) && NoRepeats(b) && forall id | id in b :: id !in a
    ensures NoRepeats(a + b)
  {
    forall i, j | 0 <= i < j < |a + b|
      ensures (a + b)[i] != (a + b)[j]
    {
      if i < |a| <= j {
        assert b[j - |a|] in b;
      }
    }
  }

  /** Each once, provided the targets and each document's citers are. */
  lemma {:induction false} GatheredHasNoRepeats(targets: seq<Target>, citers: nat -> seq<Id>, n: nat)
    requires n <= |targets| && NoRepeats(Ids(targets)) && forall t :: NoRepeats(citers(t))
    ensures NoRepeats(Gathered(targets, citers, n))
  {
    if n > 0 {
      GatheredHasNoRepeats(targets, citers, n - 1);
      var held := Gathered(targets, citers, n - 1);
      UnheldHasNoRepeats(citers(n - 1), held);
      forall id | id in Pulled(targets[n - 1], citers(n - 1), held)
        ensures id !in held
      {
        UnheldIsExact(citers(n - 1), held, id);
      }
      NoRepeatsTogether(held, Pulled(targets[n - 1], citers(n - 1), held));
    }
  }

  lemma {:induction false} GatheredGrows(targets: seq<Target>, citers: nat -> seq<Id>, m: nat, n: nat)
    requires m <= n <= |targets|
    ensures Gathered(targets, citers, m) <= Gathered(targets, citers, n)
  {
    if m < n {
      GatheredGrows(targets, citers, m, n - 1);
    }
  }

  /** A claim pulled in is one that cites some document among the targets, in that document's space. */
  predicate PulledByOne(targets: seq<Target>, citers: nat -> seq<Id>, claim: Target) {
    exists t :: 0 <= t < |targets| && CitedAt(targets, citers, t, claim.id)
                && claim == Claim(targets[t].space, claim.id, Some(targets[t].id))
  }

  predicate AllPulled(targets: seq<Target>, citers: nat -> seq<Id>, claims: seq<Target>) {
    forall x | 0 <= x < |claims| :: PulledByOne(targets, citers, claims[x])
  }

  /**
   A document that is cited holds its purge, or takes its citers along: refused exactly when `cascade` is off and
   some citer is not a target itself.
   */
  method CascadeDocuments(targets: seq<Target>, cascade: bool, citers: nat -> seq<Id>) returns (r: Option<seq<Target>>)
    ensures r.None? <==> !cascade && Gathered(targets, citers, |targets|) != Ids(targets)
    ensures r.Some? ==> targets <= r.value && Ids(r.value) == Gathered(targets, citers, |targets|)
    ensures r.Some? ==> AllPulled(targets, citers, r.value[|targets|..])
  {
    var pulled: seq<Target> := [];
    assert targets + pulled == targets;
    for n := 0 to |targets|
      invariant Ids(targets + pulled) == Gathered(targets, citers, n)
      invariant !cascade ==> pulled == []
      invariant AllPulled(targets, citers, pulled)
    {
      var target := targets[n];
      if target.Text? && target.document {
        var claims := Unheld(citers(n), Ids(targets + pulled));
        if claims != [] && !cascade {
          OneMoreIsTooMany(targets, citers, n);
          return None;
        }
        IdsOfClaims(targets, pulled, claims, target);
        ClaimsArePulled(targets, citers, n, Ids(targets + pulled), pulled);
        pulled := pulled + Claims(claims, target);
      } else {
        assert Gathered(targets, citers, n) + [] == Gathered(targets, citers, n);
      }
    }
    assert (targets + pulled)[|targets|..] == pulled;
    r := Some(targets + pulled);
  }

  lemma ClaimsArePulled(targets: seq<Target>, citers: nat -> seq<Id>, n: nat, held: seq<Id>, pulled: seq<Target>)
    requires n < |targets| && targets[n].Text? && targets[n].document && AllPulled(targets, citers, pulled)
    ensures AllPulled(targets, citers, pulled + Claims(Unheld(citers(n), held), targets[n]))
  {
    var ids := Unheld(citers(n), held);
    var claims := Claims(ids, targets[n]);
    forall x | 0 <= x < |pulled + claims|
      ensures PulledByOne(targets, citers, (pulled + claims)[x])
    {
      if x >= |pulled| {
        UnheldIsExact(citers(n), held, ids[x - |pulled|]);
        assert CitedAt(targets, citers, n, ids[x - |pulled|]);
      }
    }
  }

  lemma OneMoreIsTooMany(targets: seq<Target>, citers: nat -> seq<Id>, n: nat)
    requires n < |targets| && Pulled(targets[n], citers(n), Gathered(targets, citers, n)) != []
    ensures Gathered(targets, citers, |targets|) != Ids(targets)
  {
    GatheredGrows(targets, citers, n + 1, |targets|);
    GatheredGrows(targets, citers, 0, n);
  }

  function Claims(ids: seq<Id>, from: Target): seq<Target> {
    seq(|ids|, i requires 0 <= i < |ids| => Claim(from.space, ids[i], Some(from.id)))
  }

  lemma IdsOfClaims(targets: seq<Target>, pulled: seq<Target>, ids: seq<Id>, from: Target)
    ensures Ids(targets + (pulled + Claims(ids, from))) == Ids(targets + pulled) + ids
  {
  }

  /** Without `cascade` a purge is held back exactly by a live claim that cites a document and is not a target. */
  lemma HeldBackExactlyByACiter(targets: seq<Target>, citers: nat -> seq<Id>)
    ensures Gathered(targets, citers, |targets|) != Ids(targets) <==>
            exists id :: Cited(targets, citers, |targets|, id) && id !in Ids(targets)
  {
    var all := Gathered(targets, citers, |targets|);
    GatheredGrows(targets, citers, 0, |targets|);
    if all != Ids(targets) {
      FirstPulled(targets, citers, |targets|);
    }
    forall id | Cited(targets, citers, |targets|, id) && id !in Ids(targets)
      ensures all != Ids(targets)
    {
      GatheredIsExact(targets, citers, |targets|, id);
    }
  }

  lemma {:induction false} FirstPulled(targets: seq<Target>, citers: nat -> seq<Id>, n: nat)
    requires n <= |targets| && Gathered(targets, citers, n) != Ids(targets)
    ensures exists id :: Cited(targets, citers, |targets|, id) && id !in Ids(targets)
  {
    var held := Gathered(targets, citers, n - 1);
    if held != Ids(targets) {
      FirstPulled(targets, citers, n - 1);
    } else {
      var claims := Pulled(targets[n - 1], citers(n - 1), held);
      assert claims != [];
      PulledIsExact(targets[n - 1], citers(n - 1), held, claims[0]);
      assert CitedAt(targets, citers, n - 1, claims[0]);
    }
  }

  /** A chain's rows join the list in order, each unless it is there already. */
  function Appended(held: seq<Id>, chain: seq<Id>): seq<Id>
    decreases |chain|
  {
    if chain == [] then held
    else
      var before := Appended(held, chain[..|chain| - 1]);
      if chain[|chain| - 1] in before then before else before + [chain[|chain| - 1]]
  }

  lemma {:induction false} AppendedIsExact(held: seq<Id>, chain: seq<Id>, id: Id)
    ensures id in Appended(held, chain) <==> id in held || id in chain
  {
    if chain != [] {
      AppendedIsExact(held, chain[..|chain| - 1], id);
      assert chain == chain[..|chain| - 1] + [chain[|chain| - 1]];
    }
  }

  lemma {:induction false} AppendedHasNoRepeats(held: seq<Id>, chain: seq<Id>)
    requires NoRepeats(held)
    ensures NoRepeats(Appended(held, chain))
  {
    if chain != [] {
      AppendedHasNoRepeats(held, chain[..|chain| - 1]);
    }
  }

  /**
   The ids after the first `n` targets were replaced by their whole correction chains; `chain(t)` is
   the store's answer for target `t`.
   */
  function Expanded(targets: seq<Target>, chain: nat -> seq<Id>, n: nat): seq<Id>
    requires n <= |targets|
  {
    if n == 0 then []
    else if targets[n - 1].Text? then Expanded(targets, chain, n - 1) + [targets[n - 1].id]
    else Appended(Expanded(targets, chain, n - 1), chain(n - 1))
  }

  /** A target takes a row with it: itself for text, its whole chain for a claim. */
  predicate Takes(target: Target, links: seq<Id>, id: Id) {
    if target.Text? then id == target.id else id in links
  }

  /** No version of a targeted claim is left behind, and no other row is touched. */
  lemma {:induction false} ExpandedIsExact(targets: seq<Target>, chain: nat -> seq<Id>, n: nat, id: Id)
    requires n <= |targets|
    ensures id in Expanded(targets, chain, n) <==> exists t :: 0 <= t < n && Takes(targets[t], chain(t), id)
  {
    if n > 0 {
      ExpandedIsExact(targets, chain, n - 1, id);
      AppendedIsExact(Expanded(targets, chain, n - 1), chain(n - 1), id);
      assert id in Expanded(targets, chain, n) <==> id in Expanded(targets, chain, n - 1) || Takes(targets[n - 1], chain(n - 1), id);
    }
  }

  /** Shared history is purged once: rows repeat only if a text is a target twice or is a claim's row. */
  lemma {:induction false} ExpandedHasNoRepeats(targets: seq<Target>, chain: nat -> seq<Id>, n: nat)
    requires n <= |targets|
    requires forall i, j | 0 <= i < j < |targets| && targets[j].Text? :: !Takes(targets[i], chain(i), targets[j].id)
    ensures NoRepeats(Expanded(targets, chain, n))
  {
    if n > 0 {
      ExpandedHasNoRepeats(targets, chain, n - 1);
      if targets[n - 1].Text? {
        ExpandedIsExact(targets, chain, n - 1, targets[n - 1].id);
      } else {
        AppendedHasNoRepeats(Expanded(targets, chain, n - 1), chain(n - 1));
      }
    }
  }

  /** A row stands for some target: the text itself, or a link of the claim's chain in the claim's space. */
  predicate StandsFor(row: Target, target: Target, links: seq<Id>) {
    if target.Text? then row == target else row == Claim(target.space, row.id, target.cascadedFrom) && row.id in links
  }

  predicate StandsForOne(row: Target, targets: seq<Target>, chain: nat -> seq<Id>) {
    exists t :: 0 <= t < |targets| && StandsFor(row, targets[t], chain(t))
  }

  predicate AllStandForOne(rows: seq<Target>, targets: seq<Target>, chain: nat -> seq<Id>) {
    forall x | 0 <= x < |rows| :: StandsForOne(rows[x], targets, chain)
  }

  method ExpandOne(held: seq<Target>, links: seq<Id>, claim: Target) returns (expanded: seq<Target>)
    requires claim.Claim?
    ensures Ids(expanded) == Appended(Ids(held), links)
    ensures held <= expanded && forall x | |held| <= x < |expanded| :: StandsFor(expanded[x], claim, links)
  {
    expanded := held;
    for l := 0 to |links|
      invariant Ids(expanded) == Appended(Ids(held), links[..l])
      invariant held <= expanded && forall x | |held| <= x < |expanded| :: StandsFor(expanded[x], claim, links)
    {
      assert links[..l + 1][..l] == links[..l];
      if links[l] !in Ids(expanded) {
        expanded := expanded + [Claim(claim.space, links[l], claim.cascadedFrom)];
      }
    }
    assert links[..|links|] == links;
  }

  lemma StillStandForOne(rows: seq<Target>, more: seq<Target>, targets: seq<Target>, chain: nat -> seq<Id>, n: nat)
    requires n < |targets| && rows <= more && AllStandForOne(rows, targets, chain)
    requires forall x | |rows| <= x < |more| :: StandsFor(more[x], targets[n], chain(n))
    ensures AllStandForOne(more, targets, chain)
  {
    forall x | 0 <= x < |more|
      ensures StandsForOne(more[x], targets, chain)
    {
      if x < |rows| {
        assert more[x] == rows[x];
      } else {
        assert StandsFor(more[x], targets[n], chain(n));
      }
    }
  }

  method ExpandChains(targets: seq<Target>, chain: nat -> seq<Id>) returns (expanded: seq<Target>)
    ensures Ids(expanded) == Expanded(targets, chain, |targets|)
    ensures AllStandForOne(expanded, targets, chain)
  {
    expanded := [];
    for n := 0 to |targets|
      invariant Ids(expanded) == Expanded(targets, chain, n) && AllStandForOne(expanded, targets, chain)
    {
      var more;
      match targets[n] {
        case Text(_, _, _) =>
          more := expanded + [targets[n]];
        case Claim(_, _, _) =>
          more := ExpandOne(expanded, chain(n), targets[n]);
      }
      StillStandForOne(expanded, more, targets, chain, n);
      expanded := more;
    }
  }
}
