/**
 The verdict a daemon gives a session that attaches (crates/agmem-server/src/daemon/mod.rs).

 A session that does not agree with the daemon is refused, and a session of a newer build *retires*
 it.  Version precedence is section 11 of Semantic Versioning 2.0.0, with ties broken by
 build metadata as the `semver` crate's `Ord` breaks them; here it is proved to be a total order, and
 "retires for" to be the strict order it induces on builds.
 */
module Handshake {
  import opened Common

  datatype Order = Less | Equal | Greater

  function Flip(o: Order): Order {
    match o
    case Less => Greater
    case Equal => Equal
    case Greater => Less
  }

  /** The later comparison decides only when the earlier one ties. */
  function Then(first: Order, second: Order): Order {
    if first.Equal? then second else first
  }

  function CompareInt(a: int, b: int): Order {
    if a < b then Less else if a == b then Equal else Greater
  }

  /** ASCII order, character by character; a proper prefix comes first. */
  function CompareText(a: string, b: string): Order
    decreases |a|
  {
    if a == [] || b == [] then CompareInt(|a|, |b|)
    else Then(CompareInt(a[0] as int, b[0] as int), CompareText(a[1..], b[1..]))
  }

  /** One dot-separated pre-release identifier. */
  datatype Ident = Numeric(n: nat) | Alpha(text: string)

  function CompareIdent(a: Ident, b: Ident): Order {
    match (a, b)
    case (Numeric(m), Numeric(n)) => CompareInt(m, n)
    case (Numeric(_), Alpha(_)) => Less
    case (Alpha(_), Numeric(_)) => Greater
    case (Alpha(s), Alpha(t)) => CompareText(s, t)
  }

  function CompareIdents(a: seq<Ident>, b: seq<Ident>): Order
    decreases |a|
  {
    if a == [] || b == [] then CompareInt(|a|, |b|)
    else Then(CompareIdent(a[0], b[0]), CompareIdents(a[1..], b[1..]))
  }

  /** A version with a pre-release part precedes the same version without one. */
  function ComparePre(a: seq<Ident>, b: seq<Ident>): Order {
    if a == [] || b == [] then CompareInt(if a == [] then 1 else 0, if b == [] then 1 else 0)
    else CompareIdents(a, b)
  }

  /** One dot-separated build identifier; digits may begin with zeros, so they carry their length. */
  datatype Build = Digits(value: nat, length: nat) | Word(text: string)

  function CompareBuildIdent(a: Build, b: Build): Order {
    match (a, b)
    case (Digits(m, k), Digits(n, l)) => Then(CompareInt(m, n), CompareInt(k, l))
    case (Digits(_, _), Word(_)) => Less
    case (Word(_), Digits(_, _)) => Greater
    case (Word(s), Word(t)) => CompareText(s, t)
  }

  function CompareBuilds(a: seq<Build>, b: seq<Build>): Order
    decreases |a|
  {
    if a == [] || b == [] then CompareInt(|a|, |b|)
    else Then(CompareBuildIdent(a[0], b[0]), CompareBuilds(a[1..], b[1..]))
  }

  datatype Version = Version(major: nat, minor: nat, patch: nat, pre: seq<Ident>, build: seq<Build>)

  function CompareVersion(a: Version, b: Version): Order {
    Then(CompareInt(a.major, b.major),
         Then(CompareInt(a.minor, b.minor),
              Then(CompareInt(a.patch, b.patch), CompareSuffix(a, b))))
  }

  /** What follows the three numbers. */
  function CompareSuffix(a: Version, b: Version): Order {
    Then(ComparePre(a.pre, b.pre), CompareBuilds(a.build, b.build))
  }

  // ---- precedence is a total order ----

  lemma {:induction false} TextOrder(a: string, b: string, c: string)
    ensures CompareText(a, b).Equal? <==> a == b
    ensures CompareText(b, a) == Flip(CompareText(a, b))
    ensures CompareText(a, b).Less? && CompareText(b, c).Less? ==> CompareText(a, c).Less?
    decreases |a|
  {
    if a != [] && b != [] {
      assert a == [a[0]] + a[1..] && b == [b[0]] + b[1..];
      TextOrder(a[1..], b[1..], if c == [] then [] else c[1..]);
    }
  }

  lemma {:induction false} IdentsOrder(a: seq<Ident>, b: seq<Ident>, c: seq<Ident>)
    ensures CompareIdents(a, b).Equal? <==> a == b
    ensures CompareIdents(b, a) == Flip(CompareIdents(a, b))
    ensures CompareIdents(a, b).Less? && CompareIdents(b, c).Less? ==> CompareIdents(a, c).Less?
    decreases |a|
  {
    if a != [] && b != [] {
      assert a == [a[0]] + a[1..] && b == [b[0]] + b[1..];
      IdentsOrder(a[1..], b[1..], if c == [] then [] else c[1..]);
      IdentOrder(a[0], b[0], if c == [] then a[0] else c[0]);
      if c != [] {
        IdentOrder(b[0], c[0], c[0]);
      }
    }
  }

  lemma IdentOrder(a: Ident, b: Ident, c: Ident)
    ensures CompareIdent(a, b).Equal? <==> a == b
    ensures CompareIdent(b, a) == Flip(CompareIdent(a, b))
    ensures CompareIdent(a, b).Less? && CompareIdent(b, c).Less? ==> CompareIdent(a, c).Less?
  {
    if a.Alpha? && b.Alpha? {
      TextOrder(a.text, b.text, if c.Alpha? then c.text else "");
    }
  }

  lemma BuildIdentOrder(a: Build, b: Build, c: Build)
    ensures CompareBuildIdent(a, b).Equal? <==> a == b
    ensures CompareBuildIdent(b, a) == Flip(CompareBuildIdent(a, b))
    ensures CompareBuildIdent(a, b).Less? && CompareBuildIdent(b, c).Less? ==> CompareBuildIdent(a, c).Less?
  {
    if a.Word? && b.Word? {
      TextOrder(a.text, b.text, if c.Word? then c.text else "");
    }
  }

  lemma {:induction false} BuildsOrder(a: seq<Build>, b: seq<Build>, c: seq<Build>)
    ensures CompareBuilds(a, b).Equal? <==> a == b
    ensures CompareBuilds(b, a) == Flip(CompareBuilds(a, b))
    ensures CompareBuilds(a, b).Less? && CompareBuilds(b, c).Less? ==> CompareBuilds(a, c).Less?
    decreases |a|
  {
    if a != [] && b != [] {
      assert a == [a[0]] + a[1..] && b == [b[0]] + b[1..];
      BuildsOrder(a[1..], b[1..], if c == [] then [] else c[1..]);
      BuildIdentOrder(a[0], b[0], if c == [] then a[0] else c[0]);
      if c != [] {
        BuildIdentOrder(b[0], c[0], c[0]);
      }
    }
  }

  lemma PreOrder(a: seq<Ident>, b: seq<Ident>, c: seq<Ident>)
    ensures ComparePre(a, b).Equal? <==> a == b
    ensures ComparePre(b, a) == Flip(ComparePre(a, b))
    ensures ComparePre(a, b).Less? && ComparePre(b, c).Less? ==> ComparePre(a, c).Less?
  {
    IdentsOrder(a, b, c);
    IdentsOrder(b, c, c);
  }

  lemma SuffixOrder(a: Version, b: Version, c: Version)
    ensures CompareSuffix(a, b).Equal? <==> a.pre == b.pre && a.build == b.build
    ensures CompareSuffix(b, a) == Flip(CompareSuffix(a, b))
    ensures CompareSuffix(a, b).Less? && CompareSuffix(b, c).Less? ==> CompareSuffix(a, c).Less?
    ensures CompareSuffix(a, b).Less? && CompareSuffix(b, c).Equal? ==> CompareSuffix(a, c).Less?
    ensures CompareSuffix(a, b).Equal? && CompareSuffix(b, c).Less? ==> CompareSuffix(a, c).Less?
  {
    PreOrder(a.pre, b.pre, c.pre);
    PreOrder(b.pre, c.pre, c.pre);
    BuildsOrder(a.build, b.build, c.build);
    BuildsOrder(b.build, c.build, c.build);
  }

  /** Precedence is total, antisymmetric up to equality, and transitive. */
  lemma VersionOrder(a: Version, b: Version, c: Version)
    ensures CompareVersion(a, b).Equal? <==> a == b
    ensures CompareVersion(b, a) == Flip(CompareVersion(a, b))
    ensures CompareVersion(a, b).Less? && CompareVersion(b, c).Less? ==> CompareVersion(a, c).Less?
  {
    SuffixOrder(a, b, c);
  }

  // ---- and it is the order of section 11 ----

  /** The first of the three numbers that differs decides. */
  lemma NumbersDecide(a: Version, b: Version)
    requires (a.major, a.minor, a.patch) != (b.major, b.minor, b.patch)
    ensures CompareVersion(a, b).Less? <==>
            || a.major < b.major
            || (a.major == b.major && a.minor < b.minor)
            || (a.major == b.major && a.minor == b.minor && a.patch < b.patch)
  {
  }

  /** With the numbers equal, a pre-release comes before its release, */
  lemma PreReleaseComesFirst(a: Version, b: Version)
    requires (a.major, a.minor, a.patch) == (b.major, b.minor, b.patch) && a.pre != [] && b.pre == []
    ensures CompareVersion(a, b).Less?
  {
  }

  /** and of two pre-releases the first identifier that differs decides, or the shorter one comes first. */
  lemma {:induction false} FirstIdentifierDecides(a: seq<Ident>, b: seq<Ident>, n: nat)
    requires n <= |a| && n <= |b| && a[..n] == b[..n] && (n < |a| && n < |b| ==> a[n] != b[n])
    ensures CompareIdents(a, b).Less? <==>
            if n < |a| && n < |b| then CompareIdent(a[n], b[n]).Less? else |a| == n < |b|
    decreases n
  {
    if n > 0 {
      assert a[0] == a[..n][0] == b[..n][0] == b[0];
      assert a[1..][..n - 1] == a[..n][1..] == b[..n][1..] == b[1..][..n - 1];
      IdentOrder(a[0], b[0], a[0]);
      FirstIdentifierDecides(a[1..], b[1..], n - 1);
    } else if a != [] && b != [] {
      IdentOrder(a[0], b[0], a[0]);
    }
  }

  lemma PreReleasesCompare(a: Version, b: Version)
    requires (a.major, a.minor, a.patch) == (b.major, b.minor, b.patch) && a.pre != [] && b.pre != [] && a.pre != b.pre
    ensures CompareVersion(a, b) == CompareIdents(a.pre, b.pre)
  {
    IdentsOrder(a.pre, b.pre, b.pre);
  }

  /** Numbers compare as numbers and before text; text compares by its first differing character, a prefix first. */
  lemma IdentifiersCompare(m: nat, n: nat, s: string, t: string, i: nat)
    requires i <= |s| && i <= |t| && s[..i] == t[..i] && (i < |s| && i < |t| ==> s[i] != t[i])
    ensures CompareIdent(Numeric(m), Numeric(n)).Less? <==> m < n
    ensures CompareIdent(Numeric(m), Alpha(s)).Less?
    ensures CompareIdent(Alpha(s), Alpha(t)).Less? <==> if i < |s| && i < |t| then s[i] < t[i] else |s| == i < |t|
  {
    FirstCharacterDecides(s, t, i);
  }

  lemma {:induction false} FirstCharacterDecides(s: string, t: string, i: nat)
    requires i <= |s| && i <= |t| && s[..i] == t[..i] && (i < |s| && i < |t| ==> s[i] != t[i])
    ensures CompareText(s, t).Less? <==> if i < |s| && i < |t| then s[i] < t[i] else |s| == i < |t|
    decreases i
  {
    if i > 0 {
      assert s[0] == s[..i][0] == t[..i][0] == t[0];
      assert s[1..][..i - 1] == s[..i][1..] == t[..i][1..] == t[1..][..i - 1];
      FirstCharacterDecides(s[1..], t[1..], i - 1);
    }
  }

  /** What section 11 leaves tied, build metadata decides: digits before words, by value and then by length. */
  lemma BuildsBreakTies(a: Version, b: Version, m: nat, k: nat, n: nat, l: nat, s: string)
    requires a.(build := b.build) == b
    ensures CompareVersion(a, b) == CompareBuilds(a.build, b.build)
    ensures a.build == [Digits(m, k)] && b.build == [Digits(n, l)] ==>
              (CompareVersion(a, b).Less? <==> m < n || (m == n && k < l))
    ensures a.build == [Digits(m, k)] && b.build == [Word(s)] ==> CompareVersion(a, b).Less?
  {
    PreOrder(a.pre, b.pre, b.pre);
  }

  // ---- the verdict ----

  /** A release string: a version this code can read, or one it cannot. */
  datatype Release = Readable(version: Version) | Unreadable(text: string)

  /** Which of two releases is newer; None when either cannot be read. */
  function Newer(asked: Release, daemon: Release): Option<Order> {
    if asked.Readable? && daemon.Readable?
    then Some(CompareVersion(asked.version, daemon.version))
    else None
  }

  /** The checked part of a handshake; `space`, `pool` and the rest are applied, never checked. */
  datatype Handshake = Handshake(
    protocol: nat, release: Release, dbUrl: string, embedder: string, model: string, api: string)

  datatype Reason =
    NewerRelease | OlderRelease | UnknownRelease | Protocol | Store | Embedder | Model | Api | AlreadyRetiring

  datatype Verdict = Accepted | Refused(retire: bool, reason: Reason)

  function Accept(daemon: Handshake, asked: Handshake): Verdict {
    match Newer(asked.release, daemon.release)
    case Some(Greater) => Refused(true, NewerRelease)
    case Some(Less) => Refused(false, OlderRelease)
    case None => Refused(true, UnknownRelease)
    case Some(Equal) =>
      if asked.protocol != daemon.protocol then Refused(asked.protocol > daemon.protocol, Protocol)
      else if asked.dbUrl != daemon.dbUrl then Refused(false, Store)
      else if asked.embedder != daemon.embedder then Refused(false, Embedder)
      else if asked.model != daemon.model then Refused(false, Model)
      else if asked.api != daemon.api then Refused(false, Api)
      else Accepted
  }

  predicate RetiresFor(daemon: Handshake, asked: Handshake) {
    var verdict := Accept(daemon, asked);
    verdict.Refused? && verdict.retire
  }

  /** Builds compare by release, then by protocol version. */
  function CompareBuild(a: Handshake, b: Handshake): Order
    requires a.release.Readable? && b.release.Readable?
  {
    Then(CompareVersion(a.release.version, b.release.version), CompareInt(a.protocol, b.protocol))
  }

  /** A session is served exactly when every checked field agrees and the release is readable. */
  lemma AcceptedExactlyWhenAllAgree(daemon: Handshake, asked: Handshake)
    ensures Accept(daemon, asked).Accepted? <==> asked == daemon && daemon.release.Readable?
  {
    if daemon.release.Readable? && asked.release.Readable? {
      VersionOrder(asked.release.version, daemon.release.version, daemon.release.version);
    }
  }

  /** A refusal names the first thing the two disagree on, release and protocol before the rest. */
  lemma RefusalNamesTheFirstDisagreement(daemon: Handshake, asked: Handshake)
    requires daemon.release.Readable? && asked.release.Readable? && Accept(daemon, asked).Refused?
    ensures var reason := Accept(daemon, asked).reason;
            && (reason.NewerRelease? <==> CompareVersion(asked.release.version, daemon.release.version).Greater?)
            && (reason.OlderRelease? <==> CompareVersion(asked.release.version, daemon.release.version).Less?)
            && (reason.Protocol? <==> asked.release == daemon.release && asked.protocol != daemon.protocol)
            && (reason.Store? ==> asked.(dbUrl := daemon.dbUrl) != asked)
            && (reason.Embedder? ==> asked.dbUrl == daemon.dbUrl && asked.embedder != daemon.embedder)
            && (reason.Model? ==> asked.dbUrl == daemon.dbUrl && asked.embedder == daemon.embedder && asked.model != daemon.model)
            && (reason.Api? ==> asked == daemon.(api := asked.api) && asked.api != daemon.api)
            && !reason.AlreadyRetiring? && !reason.UnknownRelease?
  {
    VersionOrder(asked.release.version, daemon.release.version, daemon.release.version);
  }

  /** Among readable builds a daemon steps aside exactly for the newer one. */
  lemma RetiresExactlyForNewerBuild(daemon: Handshake, asked: Handshake)
    requires daemon.release.Readable? && asked.release.Readable?
    ensures RetiresFor(daemon, asked) <==> CompareBuild(daemon, asked).Less?
  {
    VersionOrder(asked.release.version, daemon.release.version, daemon.release.version);
  }

  /** "Retires for" is a strict order on readable builds, total on distinct (release, protocol). */
  lemma RetiresForIsAStrictOrder(a: Handshake, b: Handshake, c: Handshake)
    requires a.release.Readable? && b.release.Readable? && c.release.Readable?
    ensures !RetiresFor(a, a)
    ensures !(RetiresFor(a, b) && RetiresFor(b, a))
    ensures RetiresFor(a, b) && RetiresFor(b, c) ==> RetiresFor(a, c)
    ensures RetiresFor(a, b) || RetiresFor(b, a) <==> (a.release, a.protocol) != (b.release, b.protocol)
  {
    RetiresExactlyForNewerBuild(a, a);
    RetiresExactlyForNewerBuild(a, b);
    RetiresExactlyForNewerBuild(b, a);
    RetiresExactlyForNewerBuild(b, c);
    RetiresExactlyForNewerBuild(a, c);
    VersionOrder(a.release.version, a.release.version, a.release.version);
    VersionOrder(a.release.version, b.release.version, c.release.version);
    VersionOrder(b.release.version, c.release.version, c.release.version);
  }

  /** Two builds can retire each other exactly when one of them cannot be read. */
  lemma MutualRetirementExactlyWhenUnreadable(a: Handshake, b: Handshake)
    ensures RetiresFor(a, b) && RetiresFor(b, a) <==> a.release.Unreadable? || b.release.Unreadable?
  {
    if a.release.Readable? && b.release.Readable? {
      RetiresForIsAStrictOrder(a, b, b);
    }
  }

  /** A succession of daemons, each retired by the build that replaces it. */
  predicate Succession(builds: seq<Handshake>) {
    && (forall i :: 0 <= i < |builds| ==> builds[i].release.Readable?)
    && (forall i :: 0 < i < |builds| ==> RetiresFor(builds[i - 1], builds[i]))
  }

  /** However long the succession, every later build is newer: no build ever comes back. */
  lemma {:induction false} SuccessionNeverReturns(builds: seq<Handshake>, i: nat, j: nat)
    requires Succession(builds) && i < j < |builds|
    ensures RetiresFor(builds[i], builds[j]) && builds[i] != builds[j]
    decreases j
  {
    if i + 1 < j {
      SuccessionNeverReturns(builds, i, j - 1);
    }
    RetiresForIsAStrictOrder(builds[i], builds[j - 1], builds[j]);
    RetiresForIsAStrictOrder(builds[i], builds[j], builds[j]);
  }
}
