/** glib/push.go: the `push` command of the git remote-helper protocol
    (gitremote-helpers(7), "push").  git sends a batch of `push [+]src:dst`
    lines ended by an empty line; the helper pushes them into its local
    clone, packs them into a bundle, publishes the bundle as the next slot
    of the repository's chain, and answers `ok <dst>` or `error <dst>` for
    every ref, then an empty line.

    git, the LBRY daemon, standard input and the configuration file are not
    modelled: their answers are parameters. */
module Push {
  import opened Base
  import opened Text
  import opened ShaHex
  import opened Authz
  import opened Startup

  // ----- one push line ----------------------------------------------------------

  /** `PushData`: the refspec without its `push ` prefix, whether git asks
      for a forced update, the local ref and the remote ref. */
  datatype PushData = PushData(raw: string, force: bool, src: string, dst: string)

  const PushPrefix := "push "

  /** A refspec as git writes it after `push `. */
  function RefspecText(force: bool, src: string, dst: string): string {
    (if force then "+" else "") + src + ":" + dst
  }

  /** The line git sends for one refspec. */
  function PushLine(force: bool, src: string, dst: string): string {
    PushPrefix + RefspecText(force, src, dst)
  }

  /** The groups of `(\+?)([^:]*):([^:]*)`: the `+` is taken whenever it
      is present, and exactly one `:` must follow. */
  function ParseRefspec(rest: string): Option<(bool, string, string)> {
    var force := |rest| > 0 && rest[0] == '+';
    var body := if force then rest[1..] else rest;
    var parts := Split(body, ':');
    if |parts| != 2 then None else Some((force, parts[0], parts[1]))
  }

  /** parsePushLine: the pattern `^push (\+?)([^:]*):([^:]*)$`. */
  function ParsePushLine(line: string): (r: Result<PushData>)
    ensures !HasPrefix(line, PushPrefix) ==> r == Err(PushParse)
    ensures r.Err? ==> r == Err(PushParse)
    ensures r.Ok? ==> HasPrefix(line, PushPrefix) && r.value.raw == line[|PushPrefix|..]
  {
    if !HasPrefix(line, PushPrefix) then Err(PushParse)
    else
      var rest := line[|PushPrefix|..];
      match ParseRefspec(rest)
      case None => Err(PushParse)
      case Some((force, src, dst)) => Ok(PushData(rest, force, src, dst))
  }

  /** An accepted refspec is written back by RefspecText; its refs hold no
      `:`, and its `+` is the force flag rather than part of `src`. */
  lemma ParsedRefspec(rest: string)
    requires ParseRefspec(rest).Some?
    ensures var (force, src, dst) := ParseRefspec(rest).value;
      rest == RefspecText(force, src, dst)
      && ':' !in src && ':' !in dst && (force || !HasPrefix(src, "+"))
  {
    var force := |rest| > 0 && rest[0] == '+';
    var body := if force then rest[1..] else rest;
    SplitTwo(body, ':');
    var src, dst := Split(body, ':')[0], Split(body, ':')[1];
    assert ParseRefspec(rest).value == (force, src, dst);
    RefspecOfParts(rest, force, body, src, dst);
  }

  /** The text after `push ` is its optional `+` and the two sides of the
      `:`; without a `+` in front, `src` does not start with one. */
  lemma RefspecOfParts(rest: string, force: bool, body: string, src: string, dst: string)
    requires force == (|rest| > 0 && rest[0] == '+')
    requires body == (if force then rest[1..] else rest)
    requires body == src + [':'] + dst
    ensures rest == RefspecText(force, src, dst)
    ensures force || !HasPrefix(src, "+")
  {
    if force {
      assert rest == "+" + body;
    } else if |src| > 0 {
      assert src[0] == body[0];
      assert src[..1] == [src[0]];
    }
  }

  /** Every accepted line is the push line of its parts. */
  lemma ParsedIsPushLine(line: string)
    requires ParsePushLine(line).Ok?
    ensures var p := ParsePushLine(line).value;
      line == PushLine(p.force, p.src, p.dst)
      && ':' !in p.src && ':' !in p.dst && (p.force || !HasPrefix(p.src, "+"))
  {
    var rest := line[|PushPrefix|..];
    ParsedRefspec(rest);
    assert line == PushPrefix + rest;
  }

  /** A refspec whose refs hold no `:` parses back to its parts. */
  lemma RefspecRoundTrip(force: bool, src: string, dst: string)
    requires ':' !in src && ':' !in dst
    requires force || !HasPrefix(src, "+")
    ensures ParseRefspec(RefspecText(force, src, dst)) == Some((force, src, dst))
  {
    var rest := RefspecText(force, src, dst);
    var body := src + ":" + dst;
    assert Join([src, dst], ':') == body;
    SplitJoin([src, dst], ':');
    if force {
      assert rest == "+" + body;
      assert rest[1..] == body;
    } else {
      assert rest == body;
      if |src| > 0 {
        assert src[..1] == [src[0]];
        assert body[0] == src[0];
      } else {
        assert body[0] == ':';
      }
    }
  }

  /** Every push line whose refs hold no `:` parses back to its parts. */
  lemma PushLineRoundTrip(force: bool, src: string, dst: string)
    requires ':' !in src && ':' !in dst
    requires force || !HasPrefix(src, "+")
    ensures var line := PushLine(force, src, dst);
      ParsePushLine(line) == Ok(PushData(line[|PushPrefix|..], force, src, dst))
  {
    var line := PushLine(force, src, dst);
    assert line[..|PushPrefix|] == PushPrefix;
    assert line[|PushPrefix|..] == RefspecText(force, src, dst);
    RefspecRoundTrip(force, src, dst);
  }

  // ----- reading the batch ------------------------------------------------------

  /** readLine: the text before the next newline and the input after it;
      None when the input ends first (ReadString then reports EOF). */
  function ReadLine(input: string): (r: Option<(string, string)>)
    ensures r.None? <==> '\n' !in input
    ensures r.Some? ==> input == r.value.0 + "\n" + r.value.1 && '\n' !in r.value.0
  {
    var i := IndexAny(input, "\n");
    if i == -1 then None
    else
      assert input == input[..i] + "\n" + input[i + 1..];
      Some((input[..i], input[i + 1..]))
  }

  /** A line and its newline in front of any input are read back first. */
  lemma ReadLineOf(line: string, more: string)
    requires '\n' !in line
    ensures ReadLine(line + "\n" + more) == Some((line, more))
  {
    var input := line + "\n" + more;
    assert input == line + ("\n" + more);
    IndexAnyAfter(line, "\n" + more, "\n");
    assert IndexAny("\n" + more, "\n") == 0;
    assert input[..|line|] == line && input[|line| + 1..] == more;
  }

  /** The text of a batch: each line and its newline, then an empty line. */
  function BatchText(lines: seq<string>): string {
    if |lines| == 0 then "\n" else lines[0] + "\n" + BatchText(lines[1..])
  }

  /** Lines of a batch: none is empty, none holds a newline. */
  predicate BatchLines(lines: seq<string>) {
    forall i :: 0 <= i < |lines| ==> lines[i] != "" && '\n' !in lines[i]
  }

  lemma BatchLinesCons(line: string, lines: seq<string>)
    requires line != "" && '\n' !in line && BatchLines(lines)
    ensures BatchLines([line] + lines)
  {
  }

  /** The lines before the first empty one, and the input after that empty
      line; None when the input ends before it. */
  function ReadBatch(input: string): (r: Option<(seq<string>, string)>)
    ensures r.Some? ==> input == BatchText(r.value.0) + r.value.1
    ensures r.Some? ==> BatchLines(r.value.0)
    decreases |input|
  {
    match ReadLine(input)
    case None => None
    case Some((line, rest)) =>
      if line == "" then Some(([], rest))
      else
        match ReadBatch(rest)
        case None => None
        case Some((lines, after)) =>
          BatchTextCons(line, lines, after);
          BatchLinesCons(line, lines);
          Some(([line] + lines, after))
  }

  /** A non-empty line in front of the input joins the batch read after it. */
  lemma ReadBatchOfLine(line: string, rest: string)
    requires line != "" && '\n' !in line
    ensures ReadBatch(line + "\n" + rest) == PrependLines([line], ReadBatch(rest))
  {
    ReadLineOf(line, rest);
  }

  /** One more line in front of a batch that reads back reads back too. */
  lemma ReadBatchCons(line: string, tail: seq<string>, more: string)
    requires line != "" && '\n' !in line
    requires ReadBatch(BatchText(tail) + more) == Some((tail, more))
    ensures ReadBatch(BatchText([line] + tail) + more) == Some(([line] + tail, more))
  {
    BatchTextCons(line, tail, more);
    ReadBatchOfLine(line, BatchText(tail) + more);
  }

  /** The text of a batch starts with its first line. */
  lemma BatchTextCons(line: string, tail: seq<string>, more: string)
    ensures BatchText([line] + tail) + more == line + "\n" + (BatchText(tail) + more)
  {
    assert ([line] + tail)[1..] == tail;
  }

  /** Reading a batch gives back its lines and leaves what follows. */
  lemma {:induction false} ReadBatchText(lines: seq<string>, more: string)
    requires BatchLines(lines)
    ensures ReadBatch(BatchText(lines) + more) == Some((lines, more))
  {
    if |lines| == 0 {
      ReadLineOf("", more);
      assert "\n" + more == "" + "\n" + more;
    } else {
      ReadBatchText(lines[1..], more);
      assert [lines[0]] + lines[1..] == lines;
      ReadBatchCons(lines[0], lines[1..], more);
    }
  }

  /** The lines read so far in front of what the rest of the input gives. */
  function PrependLines(done: seq<string>, rest: Option<(seq<string>, string)>): Option<(seq<string>, string)> {
    match rest
    case None => None
    case Some((lines, after)) => Some((done + lines, after))
  }

  /** One non-empty line read: it joins the lines gathered so far. */
  lemma ReadBatchStep(input: string, line: string, rest: string, done: seq<string>)
    requires ReadLine(input) == Some((line, rest)) && line != ""
    ensures PrependLines(done, ReadBatch(input)) == PrependLines(done + [line], ReadBatch(rest))
  {
    match ReadBatch(rest)
    case None =>
    case Some((lines, after)) =>
      assert done + ([line] + lines) == (done + [line]) + lines;
  }

  /** readPushCommnds: the first line and the rest of its batch, parsed. */
  function ReadCommands(firstLine: string, input: string): Result<seq<PushData>> {
    match ReadBatch(input)
    case None => Err(InputEnded)
    case Some((lines, _)) => ParseEach([firstLine] + lines, ParsePushLine)
  }

  /** The reading loop of readPushCommnds: readLine until the empty line. */
  method ReadBatchLines(input: string) returns (r: Option<(seq<string>, string)>)
    ensures r == ReadBatch(input)
  {
    var lines: seq<string> := [];
    var rest := input;
    assert PrependLines([], ReadBatch(rest)) == ReadBatch(input) by {
      match ReadBatch(input)
      case None =>
      case Some((ls, after)) =>
        assert [] + ls == ls;
    }
    while true
      invariant ReadBatch(input) == PrependLines(lines, ReadBatch(rest))
      decreases |rest|
    {
      var next := ReadLine(rest);
      if next.None? {
        return None;
      }
      var (line, after) := next.value;
      if line == "" {
        assert ReadBatch(rest) == Some(([], after));
        assert lines + [] == lines;
        return Some((lines, after));
      }
      ReadBatchStep(rest, line, after, lines);
      lines := lines + [line];
      rest := after;
    }
  }

  /** readPushCommnds: the first line and the lines up to the empty one,
      parsed in order.  `rest` is the input after the empty line. */
  method ReadPushCommands(firstLine: string, input: string) returns (r: Result<seq<PushData>>, rest: string)
    ensures r == ReadCommands(firstLine, input)
    ensures ReadBatch(input).Some? ==> rest == ReadBatch(input).value.1
  {
    var batch := ReadBatchLines(input);
    if batch.None? {
      return Err(InputEnded), input;
    }
    var lines := [firstLine] + batch.value.0;
    rest := batch.value.1;
    var out: seq<PushData> := [];
    assert lines[0..] == lines;
    assert ParseEach(lines, ParsePushLine).Ok? ==>
      [] + ParseEach(lines, ParsePushLine).value == ParseEach(lines, ParsePushLine).value;
    for i := 0 to |lines|
      invariant ParseEach(lines, ParsePushLine) == Prepend(out, ParseEach(lines[i..], ParsePushLine))
    {
      ParseEachStep(lines, ParsePushLine, i, out);
      var arg := ParsePushLine(lines[i]);
      if arg.Err? {
        return Err(arg.error), rest;
      }
      out := out + [arg.value];
    }
    assert lines[|lines|..] == [];
    assert out + [] == out;
    return Ok(out), rest;
  }

  // ----- the bundle and its claim -----------------------------------------------

  /** The arguments of `git bundle create`: the bundle file, every ref
      pushed (its `dst`) in order, then `^<sha>` for every ref the remote
      already had, in order, so that those commits are left out. */
  predicate BundleArgsLayout(args: seq<string>, path: string, pushes: seq<PushData>, refs: seq<NamedRef>) {
    |args| == 3 + |pushes| + |refs|
    && args[0] == "bundle" && args[1] == "create" && args[2] == path
    && (forall i :: 0 <= i < |pushes| ==> args[3 + i] == pushes[i].dst)
    && (forall j :: 0 <= j < |refs| ==> args[3 + |pushes| + j] == "^" + ToHexString(refs[j].ref))
  }

  /** The argument list createBundle builds by appending. */
  method BundleArgs(path: string, pushes: seq<PushData>, refs: seq<NamedRef>) returns (args: seq<string>)
    ensures BundleArgsLayout(args, path, pushes, refs)
  {
    args := ["bundle", "create", path];
    for i := 0 to |pushes|
      invariant |args| == 3 + i && args[0] == "bundle" && args[1] == "create" && args[2] == path
      invariant forall k :: 0 <= k < i ==> args[3 + k] == pushes[k].dst
    {
      args := args + [pushes[i].dst];
    }
    for j := 0 to |refs|
      invariant |args| == 3 + |pushes| + j && args[0] == "bundle" && args[1] == "create" && args[2] == path
      invariant forall k :: 0 <= k < |pushes| ==> args[3 + k] == pushes[k].dst
      invariant forall k :: 0 <= k < j ==> args[3 + |pushes| + k] == "^" + ToHexString(refs[k].ref)
    {
      args := args + ["^" + ToHexString(refs[j].ref)];
    }
  }

  /** Each excluded ref in the argument list reads back as the SHA it
      names. */
  lemma ExcludedRefsDecode(args: seq<string>, path: string, pushes: seq<PushData>, refs: seq<NamedRef>, j: nat)
    requires BundleArgsLayout(args, path, pushes, refs) && j < |refs|
    ensures var a := args[3 + |pushes| + j];
      |a| == 41 && a[0] == '^' && ParseSha(a[1..]) == Ok(refs[j].ref)
  {
    var a := args[3 + |pushes| + j];
    assert a == "^" + ToHexString(refs[j].ref);
    assert a[1..] == ToHexString(refs[j].ref);
    ShaRoundTrip(refs[j].ref);
  }

  /** The request lbryStreamCreateForBundle receives: claim name, signing
      channel, description, bid and file. */
  datatype PublishRequest = PublishRequest(name: string, authorId: string, description: string, bid: string, path: string)

  const Bid := "0.001"

  /** The claim a push publishes: slot `DownloadIndex` of the chain,
      described by the hash of the bundle before it. */
  function PublishRequestFor(st: StartupRec, authorId: string, path: string): PublishRequest {
    PublishRequest(SlotName(st.rh.name, st.sync.downloadIndex), authorId, st.sync.downloadPriorHash, Bid, path)
  }

  /** A published bundle is the one the next download takes: once its
      claim is the first acceptable item the search for its slot returns,
      downloadBundles moves past that slot with the bundle's hash. */
  lemma PublishedIsDownloaded(st: StartupRec, authorId: string, path: string, net: Network, digest: Digest,
                              s: SettingsRec, item: SearchItem)
    requires var req := PublishRequestFor(st, authorId, path);
      Search(net, req.name).Ok?
      && FirstAcceptable(Search(net, req.name).value, req.description, s).Some?
      && Search(net, req.name).value[FirstAcceptable(Search(net, req.name).value, req.description, s).value] == item
      && item.permanentUrl in net.files
    ensures DownloadFrom(net, digest, s, st.rh.name, st.sync.downloadIndex, st.sync.downloadPriorHash)
      == DownloadFrom(net, digest, s, st.rh.name, st.sync.downloadIndex + 1, ToHexString(digest(net.files[item.permanentUrl])))
  {
    var req := PublishRequestFor(st, authorId, path);
    assert FindBundle(net, req.name, req.description, s) == Ok(item.permanentUrl);
    DownloadStep(net, digest, s, st.rh.name, st.sync.downloadIndex, st.sync.downloadPriorHash);
  }

  /** As written, startup leaves `sync` at zero, so every push claims slot 0
      with an empty description, even when the chain already has bundles
      and slot 0 is taken. */
  lemma ZeroSyncPublishesSlotZero(st: StartupRec, authorId: string, path: string, net: Network, digest: Digest,
                                  s: SettingsRec, next: int, prior: string)
    requires st.sync == ZeroSync
    requires DownloadFrom(net, digest, s, st.rh.name, 0, "") == Ok((next, prior)) && next >= 1
    ensures PublishRequestFor(st, authorId, path).name == SlotName(st.rh.name, 0)
    ensures PublishRequestFor(st, authorId, path).description == ""
    ensures PublishRequestFor(st, authorId, path).name != SlotName(st.rh.name, next)
  {
    if SlotName(st.rh.name, 0) == SlotName(st.rh.name, next) {
      SlotNameInjective(st.rh.name, 0, next);
    }
  }

  /** With the sync state startup computes, a push claims exactly the slot
      the download stopped at, which no acceptable bundle holds yet. */
  lemma SyncedPublishesAtGap(st: StartupRec, authorId: string, path: string, net: Network, digest: Digest,
                             s: SettingsRec, index: int, prior: string)
    requires DownloadFrom(net, digest, s, st.rh.name, index, prior) == Ok((st.sync.downloadIndex, st.sync.downloadPriorHash))
    ensures var req := PublishRequestFor(st, authorId, path);
      req.name == SlotName(st.rh.name, st.sync.downloadIndex) && st.sync.downloadIndex >= index
      && FindBundle(net, req.name, req.description, s) == Err(BundleNotFound)
  {
    DownloadStopsAtGap(net, digest, s, st.rh.name, index, prior);
    DownloadAdvances(net, digest, s, st.rh.name, index, prior);
  }

  /** createBundle as written: the error of `git bundle create` is
      overwritten by the publish call's, so a failed bundle is still
      published. */
  method CreateBundle(st: StartupRec, authorId: string, pushes: seq<PushData>,
                      create: seq<string> -> bool, publish: PublishRequest -> bool)
    returns (r: Result<()>, args: seq<string>, published: PublishRequest)
    ensures BundleArgsLayout(args, OutBundlePath(st.rh, st.sync.index), pushes, st.refs)
    ensures published == PublishRequestFor(st, authorId, OutBundlePath(st.rh, st.sync.index))
    ensures r.Ok? <==> publish(published)
    ensures r.Err? ==> r.error == NetworkFailure
  {
    var filePath := OutBundlePath(st.rh, st.sync.index);
    args := BundleArgs(filePath, pushes, st.refs);
    var created := create(args);
    published := PublishRequestFor(st, authorId, filePath);
    var ok := publish(published);
    r := if ok then Ok(()) else Err(NetworkFailure);
  }

  /** createBundle as intended: a bundle that git fails to create is
      reported and not published. */
  method CreateBundleFixed(st: StartupRec, authorId: string, pushes: seq<PushData>,
                           create: seq<string> -> bool, publish: PublishRequest -> bool)
    returns (r: Result<()>, args: seq<string>, published: Option<PublishRequest>)
    ensures BundleArgsLayout(args, OutBundlePathFixed(st.rh, st.sync.index), pushes, st.refs)
    ensures !create(args) ==> r == Err(CommandFailed) && published.None?
    ensures create(args) ==> published == Some(PublishRequestFor(st, authorId, OutBundlePathFixed(st.rh, st.sync.index)))
    ensures r.Ok? <==> create(args) && publish(published.value)
  {
    var filePath := OutBundlePathFixed(st.rh, st.sync.index);
    args := BundleArgs(filePath, pushes, st.refs);
    var created := create(args);
    if !created {
      return Err(CommandFailed), args, None;
    }
    var request := PublishRequestFor(st, authorId, filePath);
    published := Some(request);
    var ok := publish(request);
    r := if ok then Ok(()) else Err(NetworkFailure);
  }

  // ----- the report -------------------------------------------------------------

  function Status(ok: bool): string {
    if ok then "ok" else "error"
  }

  /** The lines of the report, one per ref pushed. */
  function StatusLines(ok: bool, pushes: seq<PushData>): (r: seq<string>)
    ensures |r| == |pushes|
  {
    seq(|pushes|, i requires 0 <= i < |pushes| => Status(ok) + " " + pushes[i].dst)
  }

  /** The report as printed: each status line and its newline, then an
      empty line. */
  function Report(ok: bool, pushes: seq<PushData>): string {
    if |pushes| == 0 then "\n" else Status(ok) + " " + pushes[0].dst + "\n" + Report(ok, pushes[1..])
  }

  /** writePushResultOk / writePushResultError. */
  method WritePushResult(ok: bool, pushes: seq<PushData>) returns (out: string)
    ensures out == Report(ok, pushes)
  {
    out := "";
    for i := 0 to |pushes|
      invariant out + Report(ok, pushes[i..]) == Report(ok, pushes)
    {
      assert pushes[i..][0] == pushes[i] && pushes[i..][1..] == pushes[i + 1..];
      out := out + (Status(ok) + " " + pushes[i].dst + "\n");
    }
    assert pushes[|pushes|..] == [];
    out := out + "\n";
  }

  /** The report is one line per ref, then the empty line that ends the
      reply: split at newlines it is the status lines and two empty
      strings. */
  lemma {:induction false} ReportLines(ok: bool, pushes: seq<PushData>)
    requires forall i :: 0 <= i < |pushes| ==> '\n' !in pushes[i].dst
    ensures Split(Report(ok, pushes), '\n') == StatusLines(ok, pushes) + ["", ""]
  {
    ReportIsJoin(ok, pushes);
    var lines := StatusLines(ok, pushes) + ["", ""];
    forall i | 0 <= i < |lines|
      ensures '\n' !in lines[i]
    {
      if i < |pushes| {
        var l := lines[i];
        assert l == Status(ok) + " " + pushes[i].dst;
        forall k | 0 <= k < |l|
          ensures l[k] != '\n'
        {
          if k >= |Status(ok)| + 1 {
            assert l[k] == pushes[i].dst[k - |Status(ok)| - 1];
          }
        }
      }
    }
    SplitJoin(lines, '\n');
  }

  lemma {:induction false} ReportIsJoin(ok: bool, pushes: seq<PushData>)
    ensures Report(ok, pushes) == Join(StatusLines(ok, pushes) + ["", ""], '\n')
    decreases |pushes|
  {
    if |pushes| == 0 {
      assert StatusLines(ok, pushes) + ["", ""] == ["", ""];
      assert Join([""], '\n') == "";
    } else {
      ReportIsJoin(ok, pushes[1..]);
      var lines := StatusLines(ok, pushes) + ["", ""];
      assert lines[1..] == StatusLines(ok, pushes[1..]) + ["", ""];
    }
  }

  // ----- the push command ---------------------------------------------------------

  /** What push gets from outside the model: the ClaimId of the configured
      PushAs channel (None when unset), the rest of standard input,
      `git push <clone> <refspec>`, `git bundle create <args>` and the
      publish call. */
  datatype PushEnv = PushEnv(
    pushAs: Option<string>,
    input: string,
    localPush: (string, string) -> bool,
    create: seq<string> -> bool,
    publish: PublishRequest -> bool)

  /** Every refspec pushes into the local clone. */
  predicate AllPushedLocally(st: StartupRec, pushes: seq<PushData>, localPush: (string, string) -> bool) {
    forall i :: 0 <= i < |pushes| ==> localPush(RootPath(st.rh), pushes[i].raw)
  }

  /** pushAllLocal: push every refspec into the local clone, stopping at
      the first failure. */
  method PushAllLocal(st: StartupRec, pushes: seq<PushData>, localPush: (string, string) -> bool)
    returns (r: Result<()>)
    ensures r.Ok? <==> AllPushedLocally(st, pushes, localPush)
    ensures r.Err? ==> r.error == CommandFailed
  {
    for i := 0 to |pushes|
      invariant forall k :: 0 <= k < i ==> localPush(RootPath(st.rh), pushes[k].raw)
    {
      var ok := localPush(RootPath(st.rh), pushes[i].raw);
      if !ok {
        return Err(CommandFailed);
      }
    }
    return Ok(());
  }

  /** push: nothing happens without a PushAs channel; a batch that cannot
      be read or parsed is reported as an error with no protocol output;
      otherwise the report says `ok` for every ref exactly when the local
      push, the bundle and the publish all succeed, and `error` for every
      ref otherwise.  `bundleArgs` is what `git bundle create` was given,
      once the local pushes succeeded; nothing is published unless it
      succeeded. */
  method Push(st: StartupRec, firstLine: string, env: PushEnv)
    returns (r: Result<()>, out: string, published: Option<PublishRequest>, bundleArgs: seq<string>)
    ensures env.pushAs.None? ==> r == Err(NoPushAuthor) && out == "" && published.None?
    ensures env.pushAs.Some? && ReadCommands(firstLine, env.input).Err? ==>
      r == Err(ReadCommands(firstLine, env.input).error) && out == "" && published.None?
    ensures env.pushAs.Some? && ReadCommands(firstLine, env.input).Ok? ==>
      var pushes := ReadCommands(firstLine, env.input).value;
      out == Report(r.Ok?, pushes)
      && (!AllPushedLocally(st, pushes, env.localPush) ==> r == Err(CommandFailed) && published.None?)
      && (AllPushedLocally(st, pushes, env.localPush) ==>
            BundleArgsLayout(bundleArgs, OutBundlePathFixed(st.rh, st.sync.index), pushes, st.refs)
            && (published.Some? <==> env.create(bundleArgs)))
      && (r.Ok? <==> AllPushedLocally(st, pushes, env.localPush) && env.create(bundleArgs)
                     && env.publish(PublishRequestFor(st, env.pushAs.value, OutBundlePathFixed(st.rh, st.sync.index))))
    ensures published.Some? ==>
      env.pushAs.Some? && published.value == PublishRequestFor(st, env.pushAs.value, OutBundlePathFixed(st.rh, st.sync.index))
  {
    out, published, bundleArgs := "", None, [];
    if env.pushAs.None? {
      return Err(NoPushAuthor), out, published, bundleArgs;
    }
    var authorId := env.pushAs.value;
    var args, _ := ReadPushCommands(firstLine, env.input);
    if args.Err? {
      return Err(args.error), out, published, bundleArgs;
    }
    var pushed := PushAllLocal(st, args.value, env.localPush);
    if pushed.Err? {
      out := WritePushResult(false, args.value);
      return Err(pushed.error), out, published, bundleArgs;
    }
    var created, request;
    created, bundleArgs, request := CreateBundleFixed(st, authorId, args.value, env.create, env.publish);
    published := request;
    if created.Err? {
      out := WritePushResult(false, args.value);
      return Err(created.error), out, published, bundleArgs;
    }
    out := WritePushResult(true, args.value);
    r := Ok(());
  }
}
