/** glib/cli.go: the author commands of the `gitlbry` tool, as far as they
    decide anything locally: the permission check, the completion of short
    channel and stream addresses, the grant / revoke list of
    `author modify`, and the settings of a new repository. */
module Cli {
  import opened Base
  import opened Text
  import opened LbryUrl
  import opened Authz
  import opened UrlAddress

  /** glChannel: the channel the user pushes as. */
  datatype Channel = Channel(claimId: string, name: string)

  /** The part of a resolved claim that the author commands use. */
  datatype ChannelClaim = ChannelClaim(name: string, claimId: string)

  /** hasPermission: the pairs of times are visited two entries at a time,
      then a trailing unpaired start is checked. */
  method HasPermission(author: Author, time: int) returns (r: bool)
    ensures r <==> InWindows(author.times, time)
    ensures |author.times| == 0 ==> !r
  {
    var n := |author.times|;
    var i := 0;
    while i + 1 < n
      invariant 0 <= i <= n + 1 && i % 2 == 0
      invariant WindowsFrom(author.times, i, time) == WindowsFrom(author.times, 0, time)
      decreases n - i
    {
      var start := author.times[i];
      var end := author.times[i + 1];
      if start <= time && time < end {
        WindowsSpec(author.times, time);
        return true;
      }
      i := i + 2;
    }
    WindowsSpec(author.times, time);
    if i == n - 1 {
      var start := author.times[i];
      return start <= time;
    }
    return false;
  }

  /** With one author per claim id, hasPermission on an author and
      isAuthorized on its claim id agree. */
  lemma PermissionIsAuthorization(s: SettingsRec, k: nat, t: int)
    requires UniqueIds(s) && k < |s.authors|
    ensures IsAuthorized(s, s.authors[k].claimId, t) <==> InWindows(s.authors[k].times, t)
  {
    AuthorizedInSpec(s.authors, s.authors[k].claimId, t);
    if IsAuthorized(s, s.authors[k].claimId, t) {
      var j :| 0 <= j < |s.authors| && AuthorizesAt(s.authors[j], s.authors[k].claimId, t);
      assert j == k;
    } else {
      assert !AuthorizesAt(s.authors[k], s.authors[k].claimId, t);
    }
  }

  /** prefixNiceChannel: complete a channel address that may lack `lbry://`
      or `lbry://@`. */
  function PrefixNiceChannel(niceUrl: string): (r: string)
    ensures HasPrefix(r, ChannelScheme)
    ensures HasPrefix(niceUrl, ChannelScheme) ==> r == niceUrl
  {
    if HasPrefix(niceUrl, ChannelScheme) then niceUrl
    else if HasPrefix(niceUrl, "@") then Scheme + niceUrl
    else ChannelScheme + niceUrl
  }

  /** `x`, `@x` and `lbry://@x` name the same channel. */
  lemma PrefixNiceChannelForms(x: string)
    requires !HasPrefix(x, "@") && !HasPrefix(x, ChannelScheme)
    ensures PrefixNiceChannel(x) == ChannelScheme + x
    ensures PrefixNiceChannel("@" + x) == ChannelScheme + x
    ensures PrefixNiceChannel(ChannelScheme + x) == ChannelScheme + x
  {
    assert ("@" + x)[0] != ChannelScheme[0];
    assert Scheme + ("@" + x) == ChannelScheme + x;
    assert (ChannelScheme + x)[..8] == ChannelScheme;
  }

  /** Completing an address twice is completing it once. */
  lemma PrefixNiceChannelIdempotent(x: string)
    ensures PrefixNiceChannel(PrefixNiceChannel(x)) == PrefixNiceChannel(x)
  {
  }

  /** prefixNice: complete a stream address that may lack `lbry://`. */
  function PrefixNice(niceUrl: string): (r: string)
    ensures HasPrefix(r, Scheme)
    ensures HasPrefix(niceUrl, Scheme) ==> r == niceUrl
    ensures !HasPrefix(niceUrl, Scheme) ==> r[7..] == niceUrl
  {
    if HasPrefix(niceUrl, Scheme) then niceUrl else Scheme + niceUrl
  }

  lemma PrefixNiceIdempotent(x: string)
    ensures PrefixNice(PrefixNice(x)) == PrefixNice(x)
  {
  }

  /** The local checks of resolveChannel: complete and validate the address,
      refuse a stream address, then look the channel up (on the network,
      here a parameter). */
  function ResolveChannel(nfd: Nfd, lookup: string -> Result<ChannelClaim>, niceUrl: string): (r: Result<ChannelClaim>)
    ensures NewLbryUrl(nfd, PrefixNiceChannel(niceUrl)).Err? ==> r == Err(InvalidLbryUrl)
    ensures r.Ok? ==> NewLbryUrl(nfd, PrefixNiceChannel(niceUrl)).Ok? && r == lookup(PrefixNiceChannel(niceUrl))
    ensures NewLbryUrl(nfd, PrefixNiceChannel(niceUrl)).Ok? && StreamName(NewLbryUrl(nfd, PrefixNiceChannel(niceUrl)).value).1 ==>
      r == Err(ExpectedChannel)
    ensures NewLbryUrl(nfd, PrefixNiceChannel(niceUrl)).Ok? && !StreamName(NewLbryUrl(nfd, PrefixNiceChannel(niceUrl)).value).1 ==>
      r == lookup(PrefixNiceChannel(niceUrl))
  {
    var url := PrefixNiceChannel(niceUrl);
    match NewLbryUrl(nfd, url)
    case Err(e) => Err(e)
    case Ok(u) =>
      if StreamName(u).1 then Err(ExpectedChannel) else lookup(url)
  }

  /** A valid full channel address that normalization leaves alone is
      looked up as it is, unless it names a stream. */
  lemma ResolveValid(nfd: Nfd, lookup: string -> Result<ChannelClaim>, u: string)
    requires HasPrefix(u, ChannelScheme) && Normalize(nfd, u) == u && IsValid(u)
    ensures ResolveChannel(nfd, lookup, u) == if StreamName(u).1 then Err(ExpectedChannel) else lookup(u)
  {
    assert HasPrefix(u, Scheme);
    assert NewLbryUrl(nfd, u) == Ok(u);
  }

  /** The full address of a channel, or of a stream in a channel, starts
      with `lbry://@`. */
  lemma RenderedChannelPrefix(a: Address)
    requires !a.path.StreamOnly?
    ensures HasPrefix(Render(a), ChannelScheme)
  {
    var t := RenderPath(a.path);
    assert t[0] == '@';
    assert ChannelScheme == Scheme + ['@'];
    PrefixThenChar(Scheme, '@', t, RenderQuery(a.query));
  }

  /** On the full address of a well-formed channel, or of a stream in a
      channel, that normalization leaves alone: a channel is looked up, a
      stream is refused. */
  lemma ResolveRendered(nfd: Nfd, lookup: string -> Result<ChannelClaim>, a: Address)
    requires WellFormed(a) && !a.path.StreamOnly? && Normalize(nfd, Render(a)) == Render(a)
    ensures ResolveChannel(nfd, lookup, Render(a)) ==
      if a.path.ChannelOnly? then lookup(Render(a)) else Err(ExpectedChannel)
  {
    RenderedChannelPrefix(a);
    RenderIsValid(a);
    ResolveValid(nfd, lookup, Render(a));
    AccessorsOfRender(a);
  }

  /** One argument of `author modify`: a leading `^` asks for a revoke of
      the rest, anything else for a grant of the whole argument. */
  function ClassifyArg(x: string): (r: (bool, string))
    ensures r.0 <==> HasPrefix(x, "^")
    ensures (if r.0 then "^" + r.1 else r.1) == x
  {
    if HasPrefix(x, "^") then
      assert x == "^" + x[1..];
      (true, x[1..])
    else (false, x)
  }

  /** One iteration of the loop of CliAuthorModify. */
  function ModifyStep(nfd: Nfd, lookup: string -> Result<ChannelClaim>, s: SettingsRec, x: string, now: int): Result<SettingsRec> {
    var (revoke, url) := ClassifyArg(x);
    match ResolveChannel(nfd, lookup, url)
    case Err(e) => Err(e)
    case Ok(ch) =>
      if revoke then Ok(RevokeSpec(s, ch.claimId, now))
      else Ok(GrantSpec(s, ch.name, ch.claimId, now))
  }

  /** The whole loop: the arguments in order, stopping at the first channel
      that does not resolve. */
  function ModifyAll(nfd: Nfd, lookup: string -> Result<ChannelClaim>, s: SettingsRec, args: seq<string>, now: int): Result<SettingsRec>
    decreases |args|
  {
    if |args| == 0 then Ok(s)
    else
      match ModifyAll(nfd, lookup, s, args[..|args| - 1], now)
      case Err(e) => Err(e)
      case Ok(t) => ModifyStep(nfd, lookup, t, args[|args| - 1], now)
  }

  /** The loop state after one more argument. */
  lemma ModifyAllNext(nfd: Nfd, lookup: string -> Result<ChannelClaim>, s: SettingsRec, args: seq<string>, i: nat, now: int, t: SettingsRec)
    requires i < |args| && ModifyAll(nfd, lookup, s, args[..i], now) == Ok(t)
    ensures ModifyAll(nfd, lookup, s, args[..i + 1], now) == ModifyStep(nfd, lookup, t, args[i], now)
  {
    assert args[..i + 1][..i] == args[..i];
  }

  /** Once an argument fails to resolve, the later ones are never looked at. */
  lemma {:induction false} ModifyAllStops(nfd: Nfd, lookup: string -> Result<ChannelClaim>, s: SettingsRec, args: seq<string>, i: nat, now: int)
    requires i <= |args| && ModifyAll(nfd, lookup, s, args[..i], now).Err?
    ensures ModifyAll(nfd, lookup, s, args, now) == ModifyAll(nfd, lookup, s, args[..i], now)
    decreases |args|
  {
    if i < |args| {
      assert args[..|args| - 1][..i] == args[..i];
      ModifyAllStops(nfd, lookup, s, args[..|args| - 1], i, now);
    } else {
      assert args[..i] == args;
    }
  }

  /** One step, unfolded for a channel that resolved or did not. */
  lemma ModifyStepCases(nfd: Nfd, lookup: string -> Result<ChannelClaim>, t: SettingsRec, x: string, now: int)
    ensures var (revoke, url) := ClassifyArg(x);
      var ch := ResolveChannel(nfd, lookup, url);
      ModifyStep(nfd, lookup, t, x, now) ==
        if ch.Err? then Err(ch.error)
        else if revoke then Ok(RevokeSpec(t, ch.value.claimId, now))
        else Ok(GrantSpec(t, ch.value.name, ch.value.claimId, now))
  {
  }

  /** `author modify` only ever appends and keeps claim ids unique. */
  lemma {:induction false} ModifyAllAppendOnly(nfd: Nfd, lookup: string -> Result<ChannelClaim>, s: SettingsRec, args: seq<string>, now: int)
    requires UniqueIds(s)
    ensures ModifyAll(nfd, lookup, s, args, now).Ok? ==>
      AppendOnly(s, ModifyAll(nfd, lookup, s, args, now).value) && UniqueIds(ModifyAll(nfd, lookup, s, args, now).value)
    decreases |args|
  {
    if |args| > 0 {
      ModifyAllAppendOnly(nfd, lookup, s, args[..|args| - 1], now);
      var prior := ModifyAll(nfd, lookup, s, args[..|args| - 1], now);
      if prior.Ok? {
        var t := prior.value;
        var (revoke, url) := ClassifyArg(args[|args| - 1]);
        var ch := ResolveChannel(nfd, lookup, url);
        if ch.Ok? {
          GrantFrame(t, ch.value.name, ch.value.claimId, now);
          RevokeFrame(t, ch.value.claimId, now);
          UniqueIdsPreserved(t, ch.value.name, ch.value.claimId, now);
          AppendOnlyTransitive(s, t, ModifyStep(nfd, lookup, t, args[|args| - 1], now).value);
        }
      }
    }
  }

  lemma AppendOnlyTransitive(a: SettingsRec, b: SettingsRec, c: SettingsRec)
    requires AppendOnly(a, b) && AppendOnly(b, c)
    ensures AppendOnly(a, c)
  {
    forall j | 0 <= j < |a.authors|
      ensures a.authors[j].times <= c.authors[j].times
    {
      assert a.authors[j].times <= b.authors[j].times <= c.authors[j].times;
    }
  }

  /** The body of CliAuthorModify's loop: classify the argument, resolve
      its channel, then grant or revoke in place. */
  method ModifyOne(nfd: Nfd, lookup: string -> Result<ChannelClaim>, settings: Settings, x: string, now: int)
    returns (r: Result<SettingsRec>)
    requires settings.Valid()
    modifies settings, settings.authors
    ensures settings.Valid()
    ensures r == ModifyStep(nfd, lookup, old(settings.View()), x, now)
    ensures r.Ok? ==> settings.View() == r.value
    ensures forall k :: 0 <= k < |settings.authors| ==>
      settings.authors[k] in old(settings.authors) || fresh(settings.authors[k])
  {
    ModifyStepCases(nfd, lookup, settings.View(), x, now);
    var (revoke, url) := ClassifyArg(x);
    var ch := ResolveChannel(nfd, lookup, url);
    if ch.Err? {
      return Err(ch.error);
    }
    Change(settings, revoke, ch.value, now);
    return Ok(settings.View());
  }

  /** Grant or revoke a resolved channel in place. */
  method Change(settings: Settings, revoke: bool, ch: ChannelClaim, now: int)
    requires settings.Valid()
    modifies settings, settings.authors
    ensures settings.Valid()
    ensures settings.View() == if revoke then RevokeSpec(old(settings.View()), ch.claimId, now)
                               else GrantSpec(old(settings.View()), ch.name, ch.claimId, now)
    ensures forall k :: 0 <= k < |settings.authors| ==>
      settings.authors[k] in old(settings.authors) || fresh(settings.authors[k])
  {
    if revoke {
      settings.Revoke(ch.name, ch.claimId, now);
    } else {
      settings.Grant(ch.name, ch.claimId, now);
    }
  }

  /** One more argument of CliAuthorModify's loop, in the terms of ModifyAll. */
  method ModifyNext(nfd: Nfd, lookup: string -> Result<ChannelClaim>, settings: Settings, ghost start: SettingsRec,
                    args: seq<string>, i: nat, now: int)
    returns (r: Result<SettingsRec>)
    requires i < |args| && settings.Valid()
    requires ModifyAll(nfd, lookup, start, args[..i], now) == Ok(settings.View())
    modifies settings, settings.authors
    ensures settings.Valid()
    ensures r == ModifyAll(nfd, lookup, start, args[..i + 1], now)
    ensures r.Ok? ==> settings.View() == r.value
    ensures forall k :: 0 <= k < |settings.authors| ==>
      settings.authors[k] in old(settings.authors) || fresh(settings.authors[k])
  {
    ModifyAllNext(nfd, lookup, start, args, i, now, settings.View());
    r := ModifyOne(nfd, lookup, settings, args[i], now);
  }

  /** CliAuthorModify's loop, on the downloaded settings.  A channel that
      does not resolve ends the command with its error; the settings are
      then not saved. */
  method AuthorModify(nfd: Nfd, lookup: string -> Result<ChannelClaim>, settings: Settings, args: seq<string>, now: int)
    returns (r: Result<SettingsRec>)
    requires settings.Valid()
    modifies settings, settings.authors
    ensures settings.Valid()
    ensures r == ModifyAll(nfd, lookup, old(settings.View()), args, now)
    ensures r.Ok? ==> settings.View() == r.value
  {
    ghost var start := settings.View();
    for i := 0 to |args|
      invariant settings.Valid()
      invariant ModifyAll(nfd, lookup, start, args[..i], now) == Ok(settings.View())
      invariant forall k :: 0 <= k < |settings.authors| ==>
        settings.authors[k] in old(settings.authors) || fresh(settings.authors[k])
    {
      var step := ModifyNext(nfd, lookup, settings, start, args, i, now);
      if step.Err? {
        ModifyAllStops(nfd, lookup, start, args, i + 1, now);
        return step;
      }
    }
    assert args[..|args|] == args;
    return Ok(settings.View());
  }

  /** The settings CliInit publishes for a new repository: version 1, no
      deleted claims, and the current user as the only author, granted from
      `now`.  Without a current user the command fails. */
  function InitSettings(pushAs: Option<Channel>, now: int): (r: Result<SettingsRec>)
    ensures pushAs.None? <==> r == Err(NoCurrentUser)
    ensures r.Ok? ==> |r.value.authors| == 1 && r.value.authors[0].times == [now]
  {
    match pushAs
    case None => Err(NoCurrentUser)
    case Some(user) => Ok(SettingsRec(1, [AuthorRec(user.claimId, user.name, [now])], []))
  }

  /** A new repository admits exactly its creator, from its creation on. */
  lemma InitSettingsAuthorizes(user: Channel, now: int, claimId: string, t: int)
    ensures var s := InitSettings(Some(user), now).value;
      s.gitlbry == 1 && s.deleted == [] && UniqueIds(s) && Chronological(s)
      && s.authors == [AuthorRec(user.claimId, user.name, [now])]
      && (IsAuthorized(s, claimId, t) <==> claimId == user.claimId && now <= t)
  {
    var s := InitSettings(Some(user), now).value;
    AuthorizedInSpec(s.authors, claimId, t);
    if claimId == user.claimId && now <= t {
      assert OpensWindowAt(s.authors[0].times, 0, t);
      assert AuthorizesAt(s.authors[0], claimId, t);
    }
  }
}
