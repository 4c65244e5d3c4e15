/** glib/root.go and the read-only checks over it in glib/startup.go: the
    repository settings, the authors allowed to push, and their grant /
    revoke history.

    Every author keeps an append-only list of times.  Entries at even
    positions open a window in which the author may push, the entry after
    each closes it again, and a trailing odd entry leaves the last window
    open. */
module Authz {

  // ----- values -------------------------------------------------------------

  /** A snapshot of one `glAuthor`. */
  datatype AuthorRec = AuthorRec(claimId: string, channelName: string, times: seq<int>)

  /** A snapshot of `glSettings`. */
  datatype SettingsRec = SettingsRec(gitlbry: int, authors: seq<AuthorRec>, deleted: seq<string>)

  /** The position of the first author with the given claim id, or the
      number of authors when there is none: where the range loops of grant
      and revoke stop. */
  function FindAuthor(authors: seq<AuthorRec>, claimId: string): (k: nat)
    ensures k <= |authors|
    ensures k < |authors| ==> authors[k].claimId == claimId
    ensures forall j :: 0 <= j < k ==> authors[j].claimId != claimId
  {
    if |authors| == 0 then 0
    else if authors[0].claimId == claimId then 0
    else 1 + FindAuthor(authors[1..], claimId)
  }

  /** The author is currently granted: an odd number of entries. */
  predicate IsGranted(a: AuthorRec) {
    |a.times| % 2 == 1
  }

  /** What grant does to the settings. */
  function GrantSpec(s: SettingsRec, name: string, claimId: string, time: int): SettingsRec {
    var k := FindAuthor(s.authors, claimId);
    if k == |s.authors| then
      s.(authors := s.authors + [AuthorRec(claimId, name, [time])])
    else if IsGranted(s.authors[k]) then s
    else s.(authors := s.authors[k := s.authors[k].(times := s.authors[k].times + [time])])
  }

  /** What revoke does to the settings. */
  function RevokeSpec(s: SettingsRec, claimId: string, time: int): SettingsRec {
    var k := FindAuthor(s.authors, claimId);
    if k == |s.authors| || !IsGranted(s.authors[k]) then s
    else s.(authors := s.authors[k := s.authors[k].(times := s.authors[k].times + [time])])
  }

  // ----- the read-only checks of glib/startup.go ---------------------------

  /** glSettings.isDeleted: a scan of the deleted claim ids. */
  function IsDeleted(deleted: seq<string>, claimId: string): (r: bool)
    ensures r <==> claimId in deleted
  {
    if |deleted| == 0 then false
    else deleted[0] == claimId || IsDeleted(deleted[1..], claimId)
  }

  /** The window loop of isAuthorized from position `i` on: a full pair
      `[start, end)` at `i`, `i + 2`, ..., then a trailing unpaired start
      that is open-ended. */
  function WindowsFrom(times: seq<int>, i: nat, t: int): bool
    decreases |times| - i
  {
    if i + 1 < |times| then
      (times[i] <= t && t < times[i + 1]) || WindowsFrom(times, i + 2, t)
    else i < |times| && times[i] <= t
  }

  /** The windows the documentation of glAuthor describes: an entry at an
      even position opens a window, the next entry (if any) closes it. */
  predicate OpensWindowAt(times: seq<int>, i: int, t: int) {
    0 <= i < |times| && i % 2 == 0 && times[i] <= t && (i + 1 == |times| || t < times[i + 1])
  }

  ghost predicate InWindows(times: seq<int>, t: int) {
    exists i :: OpensWindowAt(times, i, t)
  }

  /** The loop finds a window exactly when one opens at or after `i`. */
  lemma {:induction false} WindowsFromSpec(times: seq<int>, i: nat, t: int)
    requires i % 2 == 0
    ensures WindowsFrom(times, i, t) <==> exists j :: i <= j && OpensWindowAt(times, j, t)
    decreases |times| - i
  {
    if i + 1 < |times| {
      WindowsFromSpec(times, i + 2, t);
      if times[i] <= t && t < times[i + 1] {
        assert OpensWindowAt(times, i, t);
      }
    } else if i < |times| {
      assert OpensWindowAt(times, i, t) <==> times[i] <= t;
    }
  }

  lemma WindowsSpec(times: seq<int>, t: int)
    ensures WindowsFrom(times, 0, t) <==> InWindows(times, t)
  {
    WindowsFromSpec(times, 0, t);
  }

  /** glSettings.isAuthorized: every author with the claim id is consulted,
      not just the first. */
  function AuthorizedIn(authors: seq<AuthorRec>, claimId: string, t: int): bool {
    if |authors| == 0 then false
    else
      (authors[0].claimId == claimId && WindowsFrom(authors[0].times, 0, t))
      || AuthorizedIn(authors[1..], claimId, t)
  }

  predicate IsAuthorized(s: SettingsRec, claimId: string, t: int) {
    AuthorizedIn(s.authors, claimId, t)
  }

  ghost predicate AuthorizesAt(a: AuthorRec, claimId: string, t: int) {
    a.claimId == claimId && InWindows(a.times, t)
  }

  /** isAuthorized holds exactly when some author with the claim id has a
      window containing `t`. */
  lemma {:induction false} AuthorizedInSpec(authors: seq<AuthorRec>, claimId: string, t: int)
    ensures AuthorizedIn(authors, claimId, t) <==>
      exists k :: 0 <= k < |authors| && AuthorizesAt(authors[k], claimId, t)
  {
    if |authors| > 0 {
      AuthorizedInSpec(authors[1..], claimId, t);
      WindowsSpec(authors[0].times, t);
      if exists k :: 0 <= k < |authors| && AuthorizesAt(authors[k], claimId, t) {
        var k :| 0 <= k < |authors| && AuthorizesAt(authors[k], claimId, t);
        if k > 0 {
          assert AuthorizesAt(authors[1..][k - 1], claimId, t);
        }
      }
    }
  }

  /** No author with the claim id, or only ones with no times: never authorized. */
  lemma NotAuthorizedWithoutTimes(s: SettingsRec, claimId: string, t: int)
    requires forall k :: 0 <= k < |s.authors| && s.authors[k].claimId == claimId ==> |s.authors[k].times| == 0
    ensures !IsAuthorized(s, claimId, t)
  {
    AuthorizedInSpec(s.authors, claimId, t);
  }

  /** The documented example: times [100, 200, 300] grant from 100, revoke
      at 200 and grant again from 300 on. */
  lemma ExampleWindows(t: int)
    ensures !WindowsFrom([100, 200, 300], 0, 50)
    ensures WindowsFrom([100, 200, 300], 0, 150)
    ensures !WindowsFrom([100, 200, 300], 0, 250)
    ensures t >= 300 ==> WindowsFrom([100, 200, 300], 0, t)
  {
  }

  // ----- properties of grant and revoke ---------------------------------------

  /** Each claim id belongs to at most one author. */
  predicate UniqueIds(s: SettingsRec) {
    forall i, j :: 0 <= i < j < |s.authors| ==> s.authors[i].claimId != s.authors[j].claimId
  }

  /** Every recorded time is before `t`. */
  predicate AllBefore(s: SettingsRec, t: int) {
    forall k, i :: 0 <= k < |s.authors| && 0 <= i < |s.authors[k].times| ==> s.authors[k].times[i] < t
  }

  /** Each author's times strictly increase, as glAuthor documents. */
  predicate Chronological(s: SettingsRec) {
    forall k, i :: 0 <= k < |s.authors| && 0 < i < |s.authors[k].times| ==>
      s.authors[k].times[i - 1] < s.authors[k].times[i]
  }

  /** `after` only appends: the same version and deleted list, the old
      authors in place with their identity, and each old list of times a
      prefix of the new one. */
  predicate AppendOnly(before: SettingsRec, after: SettingsRec) {
    after.gitlbry == before.gitlbry && after.deleted == before.deleted
    && |before.authors| <= |after.authors|
    && forall j :: 0 <= j < |before.authors| ==>
      after.authors[j].claimId == before.authors[j].claimId
      && after.authors[j].channelName == before.authors[j].channelName
      && before.authors[j].times <= after.authors[j].times
  }

  /** grant only appends: at most one new author or one new time, and only
      the first author with the claim id is touched. */
  lemma GrantFrame(s: SettingsRec, name: string, claimId: string, time: int)
    ensures AppendOnly(s, GrantSpec(s, name, claimId, time))
    ensures |GrantSpec(s, name, claimId, time).authors| <= |s.authors| + 1
    ensures forall j :: 0 <= j < |s.authors| && j != FindAuthor(s.authors, claimId) ==>
      GrantSpec(s, name, claimId, time).authors[j] == s.authors[j]
    ensures forall j :: 0 <= j < |s.authors| ==>
      GrantSpec(s, name, claimId, time).authors[j].times in {s.authors[j].times, s.authors[j].times + [time]}
  {
  }

  /** An existing author who is not granted gets `time` appended exactly
      once; one who is already granted is left alone. */
  lemma GrantExisting(s: SettingsRec, name: string, claimId: string, time: int)
    requires FindAuthor(s.authors, claimId) < |s.authors|
    ensures var k := FindAuthor(s.authors, claimId);
      GrantSpec(s, name, claimId, time).authors[k].times ==
        if IsGranted(s.authors[k]) then s.authors[k].times else s.authors[k].times + [time]
    ensures IsGranted(s.authors[FindAuthor(s.authors, claimId)]) ==> GrantSpec(s, name, claimId, time) == s
  {
  }

  /** An unknown channel is added as a new author, granted from `time`. */
  lemma GrantUnknown(s: SettingsRec, name: string, claimId: string, time: int)
    requires forall k :: 0 <= k < |s.authors| ==> s.authors[k].claimId != claimId
    ensures GrantSpec(s, name, claimId, time).authors == s.authors + [AuthorRec(claimId, name, [time])]
    ensures GrantSpec(s, name, claimId, time).deleted == s.deleted
  {
  }

  /** After a grant the first author with the claim id is granted. */
  lemma GrantGrants(s: SettingsRec, name: string, claimId: string, time: int)
    ensures var g := GrantSpec(s, name, claimId, time);
      FindAuthor(g.authors, claimId) < |g.authors| && IsGranted(g.authors[FindAuthor(g.authors, claimId)])
  {
    var g := GrantSpec(s, name, claimId, time);
    var k := FindAuthor(s.authors, claimId);
    assert forall j :: 0 <= j < k ==> g.authors[j] == s.authors[j];
    assert g.authors[k].claimId == claimId;
  }

  /** Granting twice is granting once. */
  lemma GrantIdempotent(s: SettingsRec, name: string, claimId: string, time: int)
    ensures GrantSpec(GrantSpec(s, name, claimId, time), name, claimId, time) == GrantSpec(s, name, claimId, time)
  {
    GrantGrants(s, name, claimId, time);
  }

  lemma RevokeFrame(s: SettingsRec, claimId: string, time: int)
    ensures AppendOnly(s, RevokeSpec(s, claimId, time))
    ensures |RevokeSpec(s, claimId, time).authors| == |s.authors|
    ensures forall j :: 0 <= j < |s.authors| && j != FindAuthor(s.authors, claimId) ==>
      RevokeSpec(s, claimId, time).authors[j] == s.authors[j]
    ensures forall j :: 0 <= j < |s.authors| ==>
      RevokeSpec(s, claimId, time).authors[j].times in {s.authors[j].times, s.authors[j].times + [time]}
  {
  }

  /** A granted author gets `time` appended; an unknown channel or an author
      already revoked leaves the settings unchanged. */
  lemma RevokeCases(s: SettingsRec, claimId: string, time: int)
    ensures (forall k :: 0 <= k < |s.authors| ==> s.authors[k].claimId != claimId) ==> RevokeSpec(s, claimId, time) == s
    ensures var k := FindAuthor(s.authors, claimId);
      k < |s.authors| ==>
        RevokeSpec(s, claimId, time).authors[k].times ==
          if IsGranted(s.authors[k]) then s.authors[k].times + [time] else s.authors[k].times
  {
  }

  /** After a revoke no author with the claim id is found granted first. */
  lemma RevokeRevokes(s: SettingsRec, claimId: string, time: int)
    ensures var r := RevokeSpec(s, claimId, time);
      FindAuthor(r.authors, claimId) == |r.authors| || !IsGranted(r.authors[FindAuthor(r.authors, claimId)])
  {
    var r := RevokeSpec(s, claimId, time);
    var k := FindAuthor(s.authors, claimId);
    assert forall j :: 0 <= j < k ==> r.authors[j] == s.authors[j];
    assert k < |s.authors| ==> r.authors[k].claimId == claimId;
    assert FindAuthor(r.authors, claimId) == k;
  }

  /** Revoking twice is revoking once. */
  lemma RevokeIdempotent(s: SettingsRec, claimId: string, time: int)
    ensures RevokeSpec(RevokeSpec(s, claimId, time), claimId, time) == RevokeSpec(s, claimId, time)
  {
    RevokeRevokes(s, claimId, time);
  }

  /** grant and revoke keep claim ids unique: grant adds an author only
      when none has the id. */
  lemma UniqueIdsPreserved(s: SettingsRec, name: string, claimId: string, time: int)
    requires UniqueIds(s)
    ensures UniqueIds(GrantSpec(s, name, claimId, time))
    ensures UniqueIds(RevokeSpec(s, claimId, time))
  {
  }

  /** Appending a time later than every recorded one keeps every list of
      times increasing. */
  lemma ChronologicalPreserved(s: SettingsRec, name: string, claimId: string, time: int)
    requires Chronological(s) && AllBefore(s, time)
    ensures Chronological(GrantSpec(s, name, claimId, time))
    ensures Chronological(RevokeSpec(s, claimId, time))
  {
    GrantFrame(s, name, claimId, time);
    RevokeFrame(s, claimId, time);
  }

  /** Granting at `time` authorizes the channel at `time`, when no recorded
      time is later. */
  lemma GrantAuthorizes(s: SettingsRec, name: string, claimId: string, time: int)
    requires AllBefore(s, time)
    ensures IsAuthorized(GrantSpec(s, name, claimId, time), claimId, time)
  {
    var g := GrantSpec(s, name, claimId, time);
    var k := FindAuthor(s.authors, claimId);
    var times := g.authors[k].times;
    assert OpensWindowAt(times, |times| - 1, time);
    AuthorizedInSpec(g.authors, claimId, time);
    assert AuthorizesAt(g.authors[k], claimId, time);
  }

  /** A window that closes before `t` does not contain it, and a list of
      even length has no open window. */
  lemma ClosedBefore(times: seq<int>, t: int)
    requires |times| % 2 == 0
    requires forall i :: 0 <= i < |times| ==> times[i] <= t
    ensures !InWindows(times, t)
  {
  }

  /** Revoking at `time` deauthorizes the channel at `time`, when every
      recorded time is earlier and no other author shares the claim id. */
  lemma RevokeDeauthorizes(s: SettingsRec, claimId: string, time: int)
    requires UniqueIds(s) && AllBefore(s, time)
    ensures !IsAuthorized(RevokeSpec(s, claimId, time), claimId, time)
  {
    var r := RevokeSpec(s, claimId, time);
    RevokeFrame(s, claimId, time);
    RevokeRevokes(s, claimId, time);
    UniqueIdsPreserved(s, "", claimId, time);
    AuthorizedInSpec(r.authors, claimId, time);
    forall k | 0 <= k < |r.authors| && r.authors[k].claimId == claimId
      ensures !InWindows(r.authors[k].times, time)
    {
      assert k == FindAuthor(r.authors, claimId);
      ClosedBefore(r.authors[k].times, time);
    }
  }

  // ----- the mutable settings ----------------------------------------------

  /** `glAuthor`, shared by pointer: grant and revoke append to its `Times`
      in place. */
  class Author {
    var claimId: string
    var channelName: string
    var times: seq<int>

    constructor (claimId: string, channelName: string, times: seq<int>)
      ensures this.claimId == claimId && this.channelName == channelName && this.times == times
    {
      this.claimId := claimId;
      this.channelName := channelName;
      this.times := times;
    }

    function View(): AuthorRec
      reads this
    {
      AuthorRec(claimId, channelName, times)
    }
  }

  /** The snapshots of a list of authors, in order. */
  function Views(authors: seq<Author>): (r: seq<AuthorRec>)
    reads authors
    ensures |r| == |authors|
    ensures forall i :: 0 <= i < |authors| ==> r[i] == authors[i].View()
  {
    seq(|authors|, i reads authors requires 0 <= i < |authors| => authors[i].View())
  }

  /** `glSettings`: the version, the author pointers and the deleted claim ids. */
  class Settings {
    var gitlbry: int
    var authors: seq<Author>
    var deleted: seq<string>

    /** No author pointer appears twice, as after decoding the settings
        file; otherwise an append through one entry would show through another. */
    ghost predicate Valid()
      reads this
    {
      forall i, j :: 0 <= i < j < |authors| ==> authors[i] != authors[j]
    }

    function View(): SettingsRec
      reads this, authors
    {
      SettingsRec(gitlbry, Views(authors), deleted)
    }

    constructor (s: SettingsRec)
      ensures Valid() && fresh(authors) && View() == s
    {
      gitlbry := s.gitlbry;
      deleted := s.deleted;
      var made: seq<Author> := [];
      for i := 0 to |s.authors|
        invariant |made| == i && fresh(made)
        invariant forall j :: 0 <= j < i ==> made[j].View() == s.authors[j]
        invariant forall j, k :: 0 <= j < k < i ==> made[j] != made[k]
      {
        var a := new Author(s.authors[i].claimId, s.authors[i].channelName, s.authors[i].times);
        made := made + [a];
      }
      authors := made;
    }

    /** glSettings.grant: the first author with the claim id gets `time`
        appended unless already granted; an unknown channel becomes a new
        author granted from `time`. */
    method Grant(name: string, claimId: string, time: int)
      requires Valid()
      modifies this, authors
      ensures Valid()
      ensures View() == GrantSpec(old(View()), name, claimId, time)
      ensures |old(authors)| <= |authors| && authors[..|old(authors)|] == old(authors)
      ensures forall i :: |old(authors)| <= i < |authors| ==> fresh(authors[i])
    {
      var i := 0;
      while i < |authors|
        invariant 0 <= i <= |authors|
        invariant forall j :: 0 <= j < i ==> authors[j].claimId != claimId
      {
        var author := authors[i];
        if author.claimId == claimId {
          assert FindAuthor(Views(authors), claimId) == i;
          if |author.times| % 2 == 1 {
            return;
          }
          author.times := author.times + [time];
          return;
        }
        i := i + 1;
      }
      assert FindAuthor(Views(authors), claimId) == |authors|;
      var added := new Author(claimId, name, [time]);
      authors := authors + [added];
    }

    /** glSettings.revoke: the first author with the claim id gets `time`
        appended if currently granted; nothing else ever changes. */
    method Revoke(name: string, claimId: string, time: int)
      requires Valid()
      modifies authors
      ensures Valid()
      ensures View() == RevokeSpec(old(View()), claimId, time)
    {
      var i := 0;
      while i < |authors|
        invariant 0 <= i <= |authors|
        invariant forall j :: 0 <= j < i ==> authors[j].claimId != claimId
      {
        var author := authors[i];
        if author.claimId == claimId {
          assert FindAuthor(Views(authors), claimId) == i;
          if |author.times| % 2 == 0 {
            return;
          }
          author.times := author.times + [time];
          return;
        }
        i := i + 1;
      }
      assert FindAuthor(Views(authors), claimId) == |authors|;
    }
  }
}
