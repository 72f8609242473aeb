/**
 The log that rotates itself by size (crates/agmem-server/src/telemetry.rs).  The class renames files
 in whatever directory it is opened on; from an empty one, the files are a list, oldest first, live
 file last, and every write does to that list what `Write` says.
 */
module RotatingLog {
  import opened Common

  type Bytes = seq<bv8>

  function Last(files: seq<Bytes>): Bytes
    requires files != []
  {
    files[|files| - 1]
  }

  /** A fresh live file behind the others; past `keep` rotated ones the oldest falls off. */
  function Rotate(files: seq<Bytes>, keep: nat): seq<Bytes>
    requires files != []
  {
    (if |files| > keep then files[1..] else files) + [[]]
  }

  predicate Full(files: seq<Bytes>, buf: Bytes, limit: nat)
    requires files != []
  {
    |Last(files)| > 0 && |Last(files)| + |buf| > limit
  }

  function Append(files: seq<Bytes>, buf: Bytes): seq<Bytes>
    requires files != []
  {
    files[..|files| - 1] + [Last(files) + buf]
  }

  /** What the operating system took of a buffer: all of it, or, on a short write, its beginning. */
  function Part(buf: Bytes, taken: nat): Bytes {
    if taken < |buf| then buf[..taken] else buf
  }

  /** Whether to rotate is decided on the whole buffer, whatever is then taken of it. */
  function Write(files: seq<Bytes>, buf: Bytes, taken: nat, limit: nat, keep: nat): seq<Bytes>
    requires files != []
  {
    Append(if Full(files, buf, limit) then Rotate(files, keep) else files, Part(buf, taken))
  }

  // ---- the file and its renames ----

  /** `daemon.log.<n>` by its number, and `daemon.log` itself. */
  datatype Disk = Disk(rotated: map<nat, Bytes>, live: Bytes)

  function Get(files: map<nat, Bytes>, n: nat): Option<Bytes> {
    if n in files then Some(files[n]) else None
  }

  /**
   What carries number `n` once the renames are done down to number `i`: what was one below, and where
   nothing was, nothing, but for the highest number, which is only ever overwritten.
   */
  function AfterShift(was: map<nat, Bytes>, keep: nat, i: nat, n: nat): Option<Bytes> {
    if n <= i || n > keep then Get(was, n)
    else if i + 1 < n && n - 1 in was then Get(was, n - 1)
    else if n == keep then Get(was, n)
    else None
  }

  ghost predicate ShiftedDownTo(was: map<nat, Bytes>, keep: nat, i: nat, now: map<nat, Bytes>) {
    forall n: nat :: Get(now, n) == AfterShift(was, keep, i, n)
  }

  method Shift(was: map<nat, Bytes>, keep: nat) returns (now: map<nat, Bytes>)
    requires 0 < keep
    ensures ShiftedDownTo(was, keep, 0, now)
  {
    now := was;
    for n := keep downto 1
      invariant ShiftedDownTo(was, keep, n - 1, now)
    {
      ghost var before := now;
      if n in now {
        now := (now - {n})[n + 1 := now[n]];
      }
      forall k: nat
        ensures Get(now, k) == AfterShift(was, keep, n - 1, k)
      {
        assert Get(before, k) == AfterShift(was, keep, n, k);
        assert Get(before, n) == AfterShift(was, keep, n, n);
      }
    }
  }

  /** The renames, with the live file to number 1; with nothing to keep it is truncated. */
  ghost predicate Rotates(before: Disk, keep: nat, after: Disk) {
    && after.live == []
    && forall n: nat ::
         Get(after.rotated, n) ==
         if keep > 0 && n == 1 then Some(before.live)
         else if keep > 0 then AfterShift(before.rotated, keep, 0, n)
         else Get(before.rotated, n)
  }

  predicate Overflows(live: Bytes, buf: Bytes, limit: nat) {
    |live| > 0 && |live| + |buf| > limit
  }

  /** One write: to the live file, or to a fresh one where it would cross the limit. */
  ghost predicate Writes(before: Disk, buf: Bytes, taken: nat, limit: nat, keep: nat, after: Disk) {
    if Overflows(before.live, buf, limit)
    then Rotates(before, keep, after.(live := [])) && after.live == Part(buf, taken)
    else after == before.(live := before.live + Part(buf, taken))
  }

  class RotatingFile {
    const limit: nat
    const keep: nat
    var rotated: map<nat, Bytes>
    var live: Bytes
    var written: nat

    ghost predicate Valid()
      reads this
    {
      written == |live|
    }

    ghost function View(): Disk
      reads this
    {
      Disk(rotated, live)
    }

    /** On any directory at all; what is there already counts. */
    constructor Open(disk: Disk, limit: nat, keep: nat)
      ensures Valid() && View() == disk && this.limit == limit && this.keep == keep
    {
      this.rotated, this.live, this.limit, this.keep := disk.rotated, disk.live, limit, keep;
      written := |disk.live|;
    }

    method MakeRoom()
      modifies this
      ensures Valid() && written == 0
      ensures Rotates(old(View()), keep, View())
    {
      if keep > 0 {
        rotated := Shift(rotated, keep);
        rotated := rotated[1 := live];
      }
      live := [];
      written := 0;
      assert forall n: nat | n != 1 :: Get(rotated, n) == if keep > 0 then AfterShift(old(rotated), keep, 0, n) else Get(old(rotated), n);
    }

    /** Rotates first if the buffer would overflow a file that has anything in it. */
    method Append(buf: Bytes, taken: nat) returns (n: nat)
      requires Valid()
      modifies this
      ensures Valid() && n == |Part(buf, taken)|
      ensures Writes(old(View()), buf, taken, limit, keep, View())
    {
      if written > 0 && written + |buf| > limit {
        MakeRoom();
      }
      live := live + Part(buf, taken);
      n := |Part(buf, taken)|;
      written := written + n;
    }
  }

  // ---- in any directory ----

  /** A rotation moves every file but number `keep`; that one goes exactly when the one below it takes its number. */
  lemma RotationLosesAtMostOne(before: Disk, keep: nat, after: Disk, n: nat)
    requires keep > 0 && Rotates(before, keep, after) && n in before.rotated && n >= 1
    ensures n > keep ==> Get(after.rotated, n) == Some(before.rotated[n])
    ensures n < keep ==> Get(after.rotated, n + 1) == Some(before.rotated[n])
    ensures n == keep ==>
              Get(after.rotated, keep) ==
              if keep == 1 then Some(before.live)
              else if keep - 1 in before.rotated then Some(before.rotated[keep - 1]) else Some(before.rotated[keep])
    ensures Get(after.rotated, 1) == Some(before.live)
  {
    assert Get(after.rotated, n) == if n == 1 then Some(before.live) else AfterShift(before.rotated, keep, 0, n);
    assert Get(after.rotated, n + 1) == AfterShift(before.rotated, keep, 0, n + 1);
  }

  // ---- in a directory whose files are numbered without a gap ----

  /** The rotated files carry the numbers 1 to `count`. */
  ghost predicate Numbered(rotated: map<nat, Bytes>, count: nat) {
    forall n: nat :: n in rotated <==> 1 <= n <= count
  }

  /** Number `count` is the oldest. */
  ghost function Listed(disk: Disk, count: nat): (files: seq<Bytes>)
    requires Numbered(disk.rotated, count)
    ensures |files| == count + 1
  {
    seq(count, i requires 0 <= i < count => disk.rotated[count - i]) + [disk.live]
  }

  lemma RotationLeavesNoGap(before: Disk, keep: nat, after: Disk, m: nat)
    requires m <= keep && Numbered(before.rotated, m) && Rotates(before, keep, after)
    ensures Numbered(after.rotated, if m < keep then m + 1 else keep)
  {
    forall n: nat
      ensures n in after.rotated <==> 1 <= n <= if m < keep then m + 1 else keep
    {
      assert Get(after.rotated, n).Some? <==> n in after.rotated;
    }
  }

  lemma RotatedAt(before: Disk, keep: nat, after: Disk, m: nat, count: nat, i: nat)
    requires m <= keep && Numbered(before.rotated, m) && Rotates(before, keep, after)
    requires count == (if m < keep then m + 1 else keep) && Numbered(after.rotated, count) && i < count
    ensures after.rotated[count - i] == Listed(before, m)[if m < keep then i else i + 1]
  {
    assert Get(after.rotated, count - i) == Some(after.rotated[count - i]);
  }

  lemma RotationMakesRoom(before: Disk, keep: nat, after: Disk, m: nat, count: nat)
    requires m <= keep && Numbered(before.rotated, m) && Rotates(before, keep, after)
    requires count == (if m < keep then m + 1 else keep) && Numbered(after.rotated, count)
    ensures Listed(after, count) == Rotate(Listed(before, m), keep)
  {
    var was, listed := Listed(before, m), Listed(after, count);
    forall i: nat | i < count
      ensures listed[i] == was[if m < keep then i else i + 1]
    {
      RotatedAt(before, keep, after, m, count, i);
    }
  }

  lemma ListedAppends(disk: Disk, buf: Bytes, count: nat)
    requires Numbered(disk.rotated, count)
    ensures Listed(disk.(live := disk.live + buf), count) == Append(Listed(disk, count), buf)
  {
  }

  /** There a write does to the list of files what the list's own `Write` does, and leaves no gap. */
  lemma WriteRefinesList(before: Disk, buf: Bytes, taken: nat, limit: nat, keep: nat, after: Disk, m: nat) returns (count: nat)
    requires m <= keep && Numbered(before.rotated, m) && Writes(before, buf, taken, limit, keep, after)
    ensures count <= keep && Numbered(after.rotated, count)
    ensures Listed(after, count) == Write(Listed(before, m), buf, taken, limit, keep)
  {
    count := m;
    if Overflows(before.live, buf, limit) {
      count := if m < keep then m + 1 else keep;
      var fresh' := after.(live := []);
      RotationLeavesNoGap(before, keep, fresh', m);
      RotationMakesRoom(before, keep, fresh', m, count);
      ListedAppends(fresh', Part(buf, taken), count);
      assert [] + Part(buf, taken) == Part(buf, taken);
    } else {
      ListedAppends(before, Part(buf, taken), m);
    }
  }

  // ---- every run ----

  /** One write, or a daemon that stops and another that opens the log again. */
  datatype Event = Line(buf: Bytes, taken: nat) | Reopen

  /** The files after a run that began in an empty directory. */
  function Play(events: seq<Event>, limit: nat, keep: nat): (files: seq<Bytes>)
    ensures files != []
  {
    if events == [] then [[]]
    else
      var files := Play(events[..|events| - 1], limit, keep);
      match events[|events| - 1]
      case Line(buf, taken) => Write(files, buf, taken, limit, keep)
      case Reopen => files
  }

  /** A directory, from empty, event by event; a reopening changes nothing on disk. */
  ghost predicate Happens(disks: seq<Disk>, events: seq<Event>, limit: nat, keep: nat) {
    && |disks| == |events| + 1 && disks[0] == Disk(map[], [])
    && forall i | 0 <= i < |events| :: Happened(disks[i], events[i], limit, keep, disks[i + 1])
  }

  ghost predicate Happened(before: Disk, event: Event, limit: nat, keep: nat, after: Disk) {
    match event
    case Line(buf, taken) => Writes(before, buf, taken, limit, keep, after)
    case Reopen => after == before
  }

  /** The renaming code, over any run from an empty directory, keeps exactly the files `Play` lists. */
  lemma {:induction false} RunsRefineTheList(disks: seq<Disk>, events: seq<Event>, limit: nat, keep: nat) returns (count: nat)
    requires Happens(disks, events, limit, keep)
    ensures count <= keep && Numbered(disks[|events|].rotated, count)
    ensures Listed(disks[|events|], count) == Play(events, limit, keep)
    decreases |events|
  {
    if events == [] {
      count := 0;
    } else {
      var n := |events| - 1;
      var m := RunsRefineTheList(disks[..n + 1], events[..n], limit, keep);
      assert Happened(disks[n], events[n], limit, keep, disks[n + 1]);
      count := m;
      match events[n]
      case Line(buf, taken) =>
        count := WriteRefinesList(disks[n], buf, taken, limit, keep, disks[n + 1], m);
      case Reopen =>
    }
  }

  /** What was written, write by write. */
  function Lines(events: seq<Event>): seq<Bytes> {
    if events == [] then []
    else
      var lines := Lines(events[..|events| - 1]);
      match events[|events| - 1]
      case Line(buf, taken) => lines + [Part(buf, taken)]
      case Reopen => lines
  }

  /** The lines numbered `from` up to `to`, run together. */
  function Text(lines: seq<Bytes>, from: nat, to: nat): Bytes
    requires from <= to <= |lines|
  {
    if from == to then [] else Text(lines, from, to - 1) + lines[to - 1]
  }

  lemma {:induction false} TextOfPrefix(lines: seq<Bytes>, line: Bytes, from: nat, to: nat)
    requires from <= to <= |lines|
    ensures Text(lines + [line], from, to) == Text(lines, from, to)
  {
    if from < to {
      TextOfPrefix(lines, line, from, to - 1);
    }
  }

  lemma {:induction false} TextJoins(lines: seq<Bytes>, from: nat, mid: nat, to: nat)
    requires from <= mid <= to <= |lines|
    ensures Text(lines, from, mid) + Text(lines, mid, to) == Text(lines, from, to)
  {
    if mid == to {
      assert Text(lines, from, mid) + [] == Text(lines, from, mid);
    } else {
      TextJoins(lines, from, mid, to - 1);
      var a, b, c := Text(lines, from, mid), Text(lines, mid, to - 1), lines[to - 1];
      assert a + (b + c) == (a + b) + c;
    }
  }

  /** A file is a run of whole lines, within the limit unless it is a single line. */
  predicate Holds(file: Bytes, lines: seq<Bytes>, from: nat, to: nat, limit: nat) {
    && from <= to <= |lines|
    && file == Text(lines, from, to)
    && (|file| <= limit || exists i :: from <= i < to && lines[i] == file)
  }

  /** File `k` holds the lines from `cuts[k]` up to `cuts[k + 1]`; together they reach the last line. */
  ghost predicate CutAt(files: seq<Bytes>, lines: seq<Bytes>, cuts: seq<nat>, limit: nat) {
    && |cuts| == |files| + 1 && cuts[|files|] == |lines|
    && forall k | 0 <= k < |files| :: Holds(files[k], lines, cuts[k], cuts[k + 1], limit)
  }

  /** At most `keep + 1` files, and lines were lost only if there are that many. */
  predicate Bounded(files: seq<Bytes>, cuts: seq<nat>, keep: nat) {
    1 <= |files| <= keep + 1 && |cuts| >= 1 && (cuts[0] > 0 ==> |files| == keep + 1)
  }

  /** The buffers as they were handed over, whether or not the write took all of them. */
  function Buffers(events: seq<Event>): seq<Bytes> {
    if events == [] then []
    else
      var bufs := Buffers(events[..|events| - 1]);
      match events[|events| - 1]
      case Line(buf, _) => bufs + [buf]
      case Reopen => bufs
  }

  /** The file was closed because it held something and the next buffer would have overflowed it. */
  predicate HadToClose(file: Bytes, bufs: seq<Bytes>, next: nat, limit: nat) {
    next < |bufs| && |file| > 0 && |file| + |bufs[next]| > limit
  }

  ghost predicate AllHadToClose(files: seq<Bytes>, bufs: seq<Bytes>, cuts: seq<nat>, limit: nat) {
    |cuts| == |files| + 1 && forall k | 0 <= k < |files| - 1 :: HadToClose(files[k], bufs, cuts[k + 1], limit)
  }

  lemma AppendClosesNone(files: seq<Bytes>, bufs: seq<Bytes>, cuts: seq<nat>, buf: Bytes, line: Bytes, end: nat, limit: nat)
    requires files != [] && AllHadToClose(files, bufs, cuts, limit)
    ensures AllHadToClose(Append(files, line), bufs + [buf], cuts[..|files|] + [end], limit)
  {
    var cuts' := cuts[..|files|] + [end];
    forall k | 0 <= k < |files| - 1
      ensures HadToClose(Append(files, line)[k], bufs + [buf], cuts'[k + 1], limit)
    {
      assert HadToClose(files[k], bufs, cuts[k + 1], limit);
    }
  }

  /** A rotation closes the last file, and the buffer that forced it is the next line. */
  lemma RotationHadToClose(
    files: seq<Bytes>, bufs: seq<Bytes>, cuts: seq<nat>, buf: Bytes, line: Bytes, limit: nat, keep: nat, drop: nat, end: nat)
    requires files != [] && AllHadToClose(files, bufs, cuts, limit) && cuts[|files|] == |bufs| && Full(files, buf, limit)
    requires drop == if |files| > keep then 1 else 0
    ensures AllHadToClose(Append(Rotate(files, keep), line), bufs + [buf], cuts[drop..] + [end], limit)
  {
    var files', cuts' := Append(Rotate(files, keep), line), cuts[drop..] + [end];
    forall k | 0 <= k < |files'| - 1
      ensures HadToClose(files'[k], bufs + [buf], cuts'[k + 1], limit)
    {
      if k + drop < |files| - 1 {
        assert HadToClose(files[k + drop], bufs, cuts[k + drop + 1], limit);
      }
    }
  }

  lemma HoldsStays(file: Bytes, lines: seq<Bytes>, line: Bytes, from: nat, to: nat, limit: nat)
    requires Holds(file, lines, from, to, limit)
    ensures Holds(file, lines + [line], from, to, limit)
  {
    TextOfPrefix(lines, line, from, to);
    if |file| > limit {
      var i :| from <= i < to && lines[i] == file;
      assert (lines + [line])[i] == file;
    }
  }

  /** The last file takes one more line. */
  lemma HoldsMore(file: Bytes, lines: seq<Bytes>, line: Bytes, from: nat, limit: nat)
    requires Holds(file, lines, from, |lines|, limit) && (|file| == 0 || |file| + |line| <= limit)
    ensures Holds(file + line, lines + [line], from, |lines| + 1, limit)
  {
    TextOfPrefix(lines, line, from, |lines|);
    if |file| == 0 {
      assert file + line == line == (lines + [line])[|lines|];
    }
  }

  lemma AppendStep(files: seq<Bytes>, lines: seq<Bytes>, cuts: seq<nat>, line: Bytes, limit: nat) returns (cuts': seq<nat>)
    requires files != [] && CutAt(files, lines, cuts, limit) && (|Last(files)| == 0 || |Last(files)| + |line| <= limit)
    ensures CutAt(Append(files, line), lines + [line], cuts', limit) && cuts'[0] == cuts[0]
    ensures cuts' == cuts[..|files|] + [|lines| + 1]
  {
    var last := |files| - 1;
    cuts' := cuts[..|files|] + [|lines| + 1];
    forall k | 0 <= k < |files|
      ensures Holds(Append(files, line)[k], lines + [line], cuts'[k], cuts'[k + 1], limit)
    {
      assert Holds(files[k], lines, cuts[k], cuts[k + 1], limit);
      if k < last {
        HoldsStays(files[k], lines, line, cuts[k], cuts[k + 1], limit);
      } else {
        HoldsMore(files[k], lines, line, cuts[k], limit);
      }
    }
  }

  lemma RotateStep(files: seq<Bytes>, lines: seq<Bytes>, cuts: seq<nat>, limit: nat, keep: nat) returns (cuts': seq<nat>)
    requires files != [] && CutAt(files, lines, cuts, limit) && Bounded(files, cuts, keep)
    ensures CutAt(Rotate(files, keep), lines, cuts', limit) && Bounded(Rotate(files, keep), cuts', keep)
    ensures cuts' == cuts[if |files| > keep then 1 else 0..] + [|lines|]
  {
    var drop := if |files| > keep then 1 else 0;
    cuts' := cuts[drop..] + [|lines|];
    var files' := Rotate(files, keep);
    forall k | 0 <= k < |files'|
      ensures Holds(files'[k], lines, cuts'[k], cuts'[k + 1], limit)
    {
      if k < |files'| - 1 {
        assert Holds(files[k + drop], lines, cuts[k + drop], cuts[k + drop + 1], limit);
      }
    }
  }

  lemma OneLineEach(events: seq<Event>)
    ensures |Buffers(events)| == |Lines(events)|
  {
  }

  /** One write. */
  lemma WriteStep(
    files: seq<Bytes>, lines: seq<Bytes>, bufs: seq<Bytes>, cuts: seq<nat>, buf: Bytes, taken: nat, limit: nat, keep: nat)
    returns (cuts': seq<nat>)
    requires files != [] && |bufs| == |lines| && CutAt(files, lines, cuts, limit) && Bounded(files, cuts, keep)
    requires AllHadToClose(files, bufs, cuts, limit)
    ensures var more := Write(files, buf, taken, limit, keep); var line := Part(buf, taken);
            && CutAt(more, lines + [line], cuts', limit) && Bounded(more, cuts', keep)
            && AllHadToClose(more, bufs + [buf], cuts', limit)
  {
    var line := Part(buf, taken);
    if Full(files, buf, limit) {
      var drop := if |files| > keep then 1 else 0;
      var rotated := RotateStep(files, lines, cuts, limit, keep);
      cuts' := AppendStep(Rotate(files, keep), lines, rotated, line, limit);
      RotationHadToClose(files, bufs, cuts, buf, line, limit, keep, drop, |lines| + 1);
      assert cuts' == cuts[drop..] + [|lines| + 1];
    } else {
      cuts' := AppendStep(files, lines, cuts, line, limit);
      AppendClosesNone(files, bufs, cuts, buf, line, |lines| + 1, limit);
    }
  }

  /**
   However lines and reopenings alternate, every file is a run of whole consecutive lines, oldest file
   first and up to the last line written; each is within the limit or is one line; at most `keep + 1`
   files, and nothing is lost while there are fewer; and no file was closed that could have taken the
   buffer that came next.
   */
  lemma {:induction false} EveryRunCutsBetweenLines(events: seq<Event>, limit: nat, keep: nat) returns (cuts: seq<nat>)
    ensures CutAt(Play(events, limit, keep), Lines(events), cuts, limit)
    ensures Bounded(Play(events, limit, keep), cuts, keep)
    ensures AllHadToClose(Play(events, limit, keep), Buffers(events), cuts, limit)
  {
    if events == [] {
      cuts := [0, 0];
    } else {
      var before := events[..|events| - 1];
      cuts := EveryRunCutsBetweenLines(before, limit, keep);
      match events[|events| - 1]
      case Line(buf, taken) =>
        OneLineEach(before);
        cuts := WriteStep(Play(before, limit, keep), Lines(before), Buffers(before), cuts, buf, taken, limit, keep);
      case Reopen =>
    }
  }

  function Joined(files: seq<Bytes>, n: nat): Bytes
    requires n <= |files|
  {
    if n == 0 then [] else Joined(files, n - 1) + files[n - 1]
  }

  lemma {:induction false} JoinedIsText(files: seq<Bytes>, lines: seq<Bytes>, cuts: seq<nat>, limit: nat, n: nat)
    requires CutAt(files, lines, cuts, limit) && n <= |files|
    ensures cuts[0] <= cuts[n] <= |lines| && Joined(files, n) == Text(lines, cuts[0], cuts[n])
  {
    if n > 0 {
      JoinedIsText(files, lines, cuts, limit, n - 1);
      assert Holds(files[n - 1], lines, cuts[n - 1], cuts[n], limit);
      TextJoins(lines, cuts[0], cuts[n - 1], cuts[n]);
    } else if files != [] {
      assert Holds(files[0], lines, cuts[0], cuts[1], limit);
    }
  }

  /** Read oldest to newest, the files are exactly the lines from some line on, and every line if `keep` was not reached. */
  lemma FilesAreASuffix(events: seq<Event>, limit: nat, keep: nat) returns (start: nat)
    ensures var files, lines := Play(events, limit, keep), Lines(events);
            && start <= |lines| && Joined(files, |files|) == Text(lines, start, |lines|)
            && (start > 0 ==> |files| == keep + 1)
  {
    var cuts := EveryRunCutsBetweenLines(events, limit, keep);
    var files := Play(events, limit, keep);
    JoinedIsText(files, Lines(events), cuts, limit, |files|);
    start := cuts[0];
  }
}
