# GitLbry `glib`: a verified model

GitLbry stores a git repository on the LBRY network as a chain of git
bundles. Bundle `k` is published as the stream claim `<name>-<k>`, and its
description is the base16 SHA-1 of bundle `k-1`. The `glib` package holds
the git remote helper (`git-remote-lbry`) and the `gitlbry` author
commands. This project models the parts of `glib` that decide things
locally and proves what they promise:

- **Addresses** (`lbry_url.dfy`, `url_address.dfy`, `url_examples.dfy`).
  The recursive-descent validator for
  `lbry://[@channel[mod]/]stream[mod][?query]` and its accessors.
  Validity is characterised both ways:
  - every well-formed address renders to a valid URL;
  - every valid URL is the rendering of a well-formed address.
  The accessors are computed on every rendering, and the examples of the
  repository's URL test table are proved.
- **Authorization** (`authz.dfy`). The settings file holds authors, each
  with an append-only list of grant/revoke times.
  - `grant` and `revoke` are a class that updates authors in place,
    proved against value-level specifications.
  - Proved about them: they only append, are idempotent and keep claim
    ids unique, and they grant or withdraw authorization at the time
    given.
  - `isAuthorized` and `isDeleted` are pure scans.
- **Sync** (`startup.go` → `startup.dfy`).
  - `findBundle`: a first-match filter.
  - `downloadBundles`: a loop that advances a `Sync` object in place,
    with termination argued from the finite set of published slots.
  - `applyBundles`.
  - `loadRefs`, `loadHead`.
  - The whole `startup` sequence, with the network, git, SHA-1 and the
    file system as parameters.
- **Push** (`push.dfy`). The `push` command of the remote-helper protocol
  (gitremote-helpers(7), "push"):
  - reading and parsing the batch of `push [+]src:dst` lines;
  - local pushes;
  - the `git bundle create` argument list and the publish request;
  - the all-or-nothing `ok`/`error` report.
- **Small codecs.**
  - `sha_hex.dfy`: a 20-byte SHA-1 and its lowercase base16 text
    (section 8 of RFC 4648).
  - `options.dfy`: the `option` command.
  - `cli.dfy`: `hasPermission`, the completion of short addresses, the
    `^`-prefixed grant/revoke list of `author modify`, and the settings of
    a new repository.
- **Go library behaviour** (`text.dfy`, `base.dfy`). The `strings`
  functions the code relies on, and a line-by-line parser that stops at
  the first error.

Strings are sequences of Unicode scalar values. Go's `int`/`int64` are
unbounded integers. Go's `(string, bool)` parse results are the
`Scan(rest, ok)` datatype.

The model follows the code as written. Where the code evidently does not
do what its authors meant, both the code as written and a corrected
version are modelled; "## Findings" lists those six places. The three
behaviours below may look surprising, but nothing in the source says they
are unintended, so they are modelled as written and no corrected version
is given:

- `findBundle` tests `isDeleted` on the found item's own claim id, not on
  its signer.
- `isAuthorized` accepts any author with the claim id, while `grant` and
  `revoke` touch only the first one.
- The local directory's hash is taken over the address as given, before
  normalization.

## Model

| member | source | states |
|---|---|---|
| Base.ParseEach | glib/startup.go:250-256 | parsing lines one by one succeeds exactly when every line parses; the values are then each line's own parse, in order; a failure carries the error of the first line that fails |
| Text.IndexAny | glib/lbry_url.go:45 | strings.IndexAny: -1 exactly when no character is in the set, otherwise the first position holding one |
| Text.Index | glib/lbry_url.go:121 | strings.Index: -1 when `sub` occurs nowhere, otherwise the first position where it occurs |
| Text.ReplaceFirst | glib/startup.go:270 | strings.Replace with n = 1: unchanged when the target is absent, otherwise the text around the first occurrence with the replacement between |
| Text.TrimRight | glib/startup.go:247 | strings.TrimRight with one character: the longest prefix not ending in it, everything cut being that character |
| Text.Split | glib/startup.go:248 | strings.Split: at least one piece, no piece holds the separator, and joining the pieces gives back the text |
| Text.SplitN | glib/option.go:15 | strings.SplitN: between 1 and n pieces that join back to the text; only the last may hold the separator, and only when there are n |
| Text.SplitJoin | glib/startup.go:248 | Split undoes Join when no part holds the separator |
| Text.ToLowerSpec | glib/lbry_url.go:32 | lowercasing leaves no ASCII capital, keeps every other character, and maps `A`-`Z` to `a`-`z` |
| Text.ToLowerIdempotent | glib/lbry_url.go:32 | lowercasing twice is lowercasing once |
| Text.IntToStringInjective | glib/startup.go:469 | distinct integers print differently with `%v` |
| ShaHex.ToHexString | glib/sha1.go:15-17 | toHexString yields exactly 40 lowercase base16 digits |
| ShaHex.DecodeHex | glib/sha1.go:21-24 | hex.DecodeString fails exactly on odd length or a non-base16 character; otherwise byte i is the value of digits 2i and 2i+1 |
| ShaHex.DecodeEncode | glib/sha1.go:15-24 | decoding the encoding of any byte string gives it back |
| ShaHex.ParseSha | glib/sha1.go:19-37 | success exactly when the text decodes to 20 bytes; a decode failure and a wrong length are told apart; byte i comes from digits 2i, 2i+1 |
| ShaHex.ShaRoundTrip | glib/sha1.go:15-37 | ShaFromHexString(toHexString(s)) returns s for every 20-byte s |
| ShaHex.ShaFromHexString | glib/sha1.go:19-37 | the byte-copying loop into a 20-byte array returns exactly ParseSha's result |
| LbryUrl.Completed | glib/lbry_url.go:17-21 | the normalized text with `lbry://` in front: unchanged exactly when it already starts with the scheme, otherwise the scheme plus the text |
| LbryUrl.NewLbryUrl | glib/lbry_url.go:16-28 | succeeds exactly when the completed text is valid, and the value is then that text; it equals the normalized input exactly when the input already had the scheme; every failure is InvalidLbryUrl |
| LbryUrl.HasModifiers | glib/lbry_url.go:44-46 | true exactly when the text holds `:`, `*` or `$` |
| LbryUrl.Span | glib/lbry_url.go:314-338 | the run of characters of a class at the front of the input: all in the class, and the next one is not |
| LbryUrl.ScanFromSpan | glib/lbry_url.go:314-338 | the scanning loop consumes exactly that run, succeeds when it is nonempty, and fails when it decodes a RuneError on the way |
| LbryUrl.ScanLoop | glib/lbry_url.go:314-338 | the loop of parseName/parseHex/parsePositiveNumber: on success a strictly shorter suffix not starting with a class character; equal to ScanFrom |
| LbryUrl.ParseName | glib/lbry_url.go:314-338 | on success the rest is a strictly shorter suffix of the input |
| LbryUrl.ParseNameSpan | glib/lbry_url.go:314-354 | parseName succeeds exactly on a nonempty run of name characters with no RuneError, and returns what follows it |
| LbryUrl.ParseDigitsSpan | glib/lbry_url.go:264-312 | parseHex and parsePositiveNumber need at least one digit of their class, and fail at once on any other first character |
| LbryUrl.ParseScheme | glib/lbry_url.go:207-212 | succeeds exactly on a `lbry://` prefix, returning the text after it |
| LbryUrl.ParseQueryParameter | glib/lbry_url.go:388-402 | on success the rest is a strictly shorter suffix |
| LbryUrl.QueryParameterIsName | glib/lbry_url.go:388-402 | a parameter that parses is only a name: the `=value` branch always fails, since `=` is not a name character |
| LbryUrl.QueryLoopNeverIterates | glib/lbry_url.go:377-382 | the `&` loop fails on its first iteration; otherwise it does not run |
| LbryUrl.ParseOptionalQuery | glib/lbry_url.go:365-369 | input without `?` is returned unchanged with success |
| LbryUrl.ParseOptionalQueryLoop | glib/lbry_url.go:365-386 | the loop version of parseOptionalQuery returns exactly ParseOptionalQuery's result |
| LbryUrl.CutAt | glib/lbry_url.go:72-75 | the prefix before the first stop character, holding none |
| LbryUrl.ChannelName | glib/lbry_url.go:59-78 | true exactly for a `lbry://@` address with a nonempty name; the name holds no modifier sigil, `/` or `?` |
| LbryUrl.ChannelWithModifiers | glib/lbry_url.go:90-109 | true exactly for a `lbry://@` address with a nonempty result; the result holds no `/` or `?`, and ChannelName's result is a prefix of it |
| LbryUrl.StreamWithModifiers | glib/lbry_url.go:112-136 | the stream part as written, keeping the `/` after a channel; the flag is false exactly for a channel alone (`@` with no `/`), which gives `("", false)`; never holds `?` |
| LbryUrl.StreamWithModifiersFixed | glib/lbry_url.go:112-136 | the stream part without the `/`; the flag is false exactly for a channel alone, which gives `("", false)`; never holds `?` |
| LbryUrl.StreamName | glib/lbry_url.go:145-169 | true exactly when the name is nonempty; the name holds no modifier or `?`; a channel address with no `/` gives `("", false)` |
| UrlAddress.ModifierParses | glib/lbry_url.go:253-312 | every well-formed modifier (`:hex`, `*digits`, `$digits` or none) is consumed exactly by parseOptionalModifier |
| UrlAddress.ClaimParses | glib/lbry_url.go:239-251 | a well-formed name with its modifier is consumed exactly by parseClaimAndModifier |
| UrlAddress.PathParses | glib/lbry_url.go:214-237 | every well-formed channel, stream or channel/stream path is consumed exactly by parsePath |
| UrlAddress.QueryParses | glib/lbry_url.go:365-402 | a `?name` query is consumed completely |
| UrlAddress.RenderIsValid | glib/lbry_url.go:171-205 | every well-formed address renders to a URL that IsValid accepts |
| UrlAddress.ClaimSplits | glib/lbry_url.go:239-251 | whatever parseClaimAndModifier accepts is a well-formed claim followed by the rest |
| UrlAddress.PathSplits | glib/lbry_url.go:214-237 | whatever parsePath accepts is a well-formed path followed by the rest |
| UrlAddress.QuerySplits | glib/lbry_url.go:365-402 | a query that parses to the end is empty or `?name` |
| UrlAddress.ValidIsRendered | glib/lbry_url.go:171-205 | every URL IsValid accepts is the rendering of a well-formed address |
| UrlAddress.NoQueryParameters | glib/lbry_url.go:377-398 | no valid URL holds `=` or `&`: only `?name` queries validate |
| UrlAddress.AccessorsOfRender | glib/lbry_url.go:59-169 | on a well-formed address, ChannelName, ChannelWithModifiers, StreamName and StreamWithModifiersFixed return its channel name, channel claim, stream name and stream claim, or `("", false)` when absent; StreamWithModifiers as written returns the stream claim alone, `/` and the claim after a channel, or `("", false)` |
| UrlAddress.NewLbryUrlRendered | glib/lbry_url.go:16-28 | NewLbryUrl succeeds exactly when the completed text is the rendering of some well-formed address |
| UrlAddress.StreamWithModifiersKeepsSlash | glib/lbry_url.go:127 | on `lbry://@c/s` StreamWithModifiers as written returns `/s`, the corrected version `s` |
| UrlExamples.ChannelStreamEntries | glib/lbry_url_test.go:15-40 | every channel/stream row of the test table validates, whatever the modifiers from the table |
| UrlExamples.ChannelEntries | glib/lbry_url_test.go:18-21 | every channel-only row validates |
| UrlExamples.MixedCaseChannel | glib/lbry_url_test.go:22 | `lbry://@chaNNel` validates after lowercasing |
| UrlExamples.StreamEntries | glib/lbry_url_test.go:24-28 | every stream-only row validates |
| UrlExamples.RejectedEntries | glib/lbry_url_test.go:42-43 | `lbry:\\@channel` and `@channel` do not validate |
| UrlExamples.NewLbryUrlAddsScheme | glib/lbry_url.go:19-21 | IsUrlValid does not add the scheme but NewLbryUrl does: `@channel` fails the first and becomes `lbry://@channel` in the second |
| UrlExamples.UppercaseClaimIdRejected | glib/lbry_url.go:356-358 | an uppercase claim id is not valid before normalization |
| UrlExamples.UppercaseHexNeedsNormalize | glib/lbry_url_test.go:26 | `lbry://stream:EF234` is invalid as written and valid once normalized |
| Authz.FindAuthor | glib/root.go:15-16 | the first author with the claim id, or the end of the list when there is none |
| Authz.IsDeleted | glib/startup.go:368-375 | true exactly when the claim id is in the deleted list |
| Authz.WindowsFromSpec | glib/startup.go:380-394 | the pair loop plus the trailing check finds a window exactly when one at an even position from i contains the time |
| Authz.AuthorizedInSpec | glib/startup.go:377-398 | isAuthorized holds exactly when some author with the claim id has a `[start, end)` window, or an open last start, containing the time |
| Authz.NotAuthorizedWithoutTimes | glib/startup.go:377-398 | no author with the claim id, or only ones with no times, means not authorized |
| Authz.ExampleWindows | glib/startup.go:380-394 | for times 100, 200, 300: false at 50, true at 150, false at 250, true from 300 on |
| Authz.GrantFrame | glib/root.go:13-38 | grant only appends: at most one new author, only the first matching author changes, and only by one time |
| Authz.GrantExisting | glib/root.go:18-26 | on a known author, grant appends the time when its list is even, and changes nothing when it is odd |
| Authz.GrantUnknown | glib/root.go:31-37 | on an unknown channel grant appends one author with that id, name and the single time |
| Authz.GrantGrants | glib/root.go:13-38 | after grant the first author with the claim id holds a grant |
| Authz.GrantIdempotent | glib/root.go:19-23 | granting twice is granting once |
| Authz.RevokeFrame | glib/root.go:40-57 | revoke only appends one time to the first matching author and never adds an author |
| Authz.RevokeCases | glib/root.go:43-56 | revoke on an unknown channel changes nothing; on a known one it appends when the list is odd, else changes nothing |
| Authz.RevokeRevokes | glib/root.go:40-57 | after revoke the first author with the claim id, if any, holds no grant |
| Authz.RevokeIdempotent | glib/root.go:46-51 | revoking twice is revoking once |
| Authz.UniqueIdsPreserved | glib/root.go:13-57 | grant and revoke keep claim ids unique |
| Authz.ChronologicalPreserved | glib/root.go:76-79 | with a time later than all recorded ones, grant and revoke keep each list strictly increasing |
| Authz.GrantAuthorizes | glib/root.go:13-38 | with a time later than all recorded ones, the channel is authorized at that time after grant |
| Authz.RevokeDeauthorizes | glib/root.go:40-57 | with unique claim ids and a later time, the channel is not authorized at that time after revoke |
| Authz.Settings.Grant | glib/root.go:13-38 | grant in place through author pointers: the new view is GrantSpec of the old; existing pointers stay, new ones are fresh |
| Authz.Settings.Revoke | glib/root.go:40-57 | revoke in place: the new view is RevokeSpec of the old |
| Cli.HasPermission | glib/cli.go:203-223 | the loop's answer is membership of the time in the author's windows; false for an empty list |
| Cli.PermissionIsAuthorization | glib/cli.go:203-223 | with unique claim ids, isAuthorized on an author's claim id agrees with hasPermission on that author |
| Cli.PrefixNiceChannel | glib/cli.go:380-391 | the result starts with `lbry://@`; a full channel address is returned unchanged |
| Cli.PrefixNiceChannelForms | glib/cli.go:380-391 | `x`, `@x` and `lbry://@x` all become `lbry://@x` |
| Cli.PrefixNiceChannelIdempotent | glib/cli.go:380-391 | completing twice is completing once |
| Cli.PrefixNice | glib/cli.go:393-400 | the result starts with `lbry://` and is the input, with the scheme added only when missing |
| Cli.PrefixNiceIdempotent | glib/cli.go:393-400 | completing twice is completing once |
| Cli.ResolveChannel | glib/cli.go:263-295 | an invalid completed address fails with InvalidLbryUrl, a stream address with ExpectedChannel; a valid channel address gets the network's answer for the completed address, and every success is that answer |
| Cli.ResolveValid | glib/cli.go:263-295 | on a full, normalized, valid channel-scheme address: ExpectedChannel when it names a stream, otherwise the network's answer |
| Cli.ResolveRendered | glib/cli.go:263-295 | on the rendering of a well-formed channel address: the network's answer when it is a channel alone, ExpectedChannel when it also names a stream |
| Cli.ClassifyArg | glib/cli.go:128-132 | revoke exactly when the argument starts with `^`; the channel is what follows the caret, or the whole argument |
| Cli.ModifyAllStops | glib/cli.go:134-137 | once a channel fails to resolve, later arguments do not matter |
| Cli.ModifyAllAppendOnly | glib/cli.go:126-145 | the whole `author modify` list only appends to the settings and keeps claim ids unique |
| Cli.ModifyOne | glib/cli.go:128-143 | one argument: classify, resolve, then grant or revoke in place; the result is ModifyStep of the old settings |
| Cli.Change | glib/cli.go:139-143 | grant or revoke in place by the flag: the new view is GrantSpec or RevokeSpec of the old, and the settings stay valid |
| Cli.AuthorModify | glib/cli.go:125-145 | the loop returns ModifyAll of the settings it started with, and on success the settings hold that value |
| Cli.InitSettings | glib/cli.go:29-45 | without a current user the command fails; otherwise the settings of a new repository, with exactly one author whose times are `[now]` |
| Cli.InitSettingsAuthorizes | glib/cli.go:35-45 | a new repository has version 1, no deleted claims, exactly the author `{user's claim id, user's name, [now]}`, and authorizes exactly its creator from `now` on |
| Startup.NewRepoHash | glib/startup.go:65-89 | as written: an invalid address yields the zero RepoName and no error; on a valid address it agrees with NewRepoHashFixed, so a channel-only address fails with ChannelNotStream and a stream address is named by its stream name and hashed from the address as given |
| Startup.NewRepoHashDropsError | glib/startup.go:72-75 | on an invalid address the code succeeds with the zero RepoName where the corrected version fails |
| Startup.EmptyAddressRejected | glib/startup.go:72-75 | the empty address is invalid, yet NewRepoHash accepts it |
| Startup.NewRepoHashFixed | glib/startup.go:65-89 | fails exactly on an invalid or channel-only address; a result is valid, named by its stream name, and hashed from the address as given |
| Startup.PathsUnderRoot | glib/startup.go:29-63 | sync, settings, in, out and HEAD paths all lie under the root directory, and the fixed files differ |
| Startup.BundlePathsOutsideRoot | glib/startup.go:37-43 | the bundle paths as written do not lie under the root directory |
| Startup.InBundlePathFixed | glib/startup.go:37-39 | an incoming bundle lies in the `in` directory |
| Startup.OutBundlePathFixed | glib/startup.go:41-43 | an outgoing bundle lies in the `out` directory |
| Startup.InBundlePathFixedInjective | glib/startup.go:37-39 | distinct slots have distinct incoming paths |
| Startup.FirstAcceptable | glib/startup.go:448-460 | the position of the first item meeting all five conditions, none before it; none at all when absent |
| Startup.FindBundle | glib/startup.go:415-462 | a failed search is returned as an error; a found bundle was published under the searched name |
| Startup.FindBundleSpec | glib/startup.go:448-460 | not found exactly when no item is acceptable, and found whenever some item is; a result is the first acceptable item's permanent address |
| Startup.UnauthorizedSkipped | glib/startup.go:449-452 | an unsigned, unauthorized or deleted item is never taken |
| Startup.SlotNameInjective | glib/startup.go:469 | `<name>-<k>` names distinct slots differently |
| Startup.RemainingShrinks | glib/startup.go:466-505 | each slot found leaves strictly fewer published slots ahead, so the loop ends |
| Startup.DownloadAdvances | glib/startup.go:503 | downloading never lowers DownloadIndex |
| Startup.DownloadStopsAtGap | glib/startup.go:476-478 | downloading stops at a slot where no acceptable bundle is found |
| Startup.DownloadStep | glib/startup.go:469-504 | a found and fetched slot moves to the next index, with the hex SHA-1 of its contents as the prior hash |
| Startup.DownloadBundles | glib/startup.go:464-509 | the loop updates the Sync object to DownloadFrom's result or fails with its error, the object then left at the failing slot, from which DownloadFrom meets the same error; Index is untouched and DownloadIndex never decreases |
| Startup.FirstUnapplied | glib/startup.go:513-530 | where unbundling in order halts: every slot before it unbundles, and the halting slot (below the end) does not |
| Startup.FirstUnappliedResumes | glib/startup.go:511-533 | starting again from where it halted halts at the same slot |
| Startup.ApplyBundles | glib/startup.go:511-533 | as written, on a copy: succeeds exactly when every slot from Index to DownloadIndex unbundles; a failure is CommandFailed |
| Startup.ApplyBundlesFixed | glib/startup.go:511-533 | applied through the Sync object: Index ends where unbundling halts, and nothing else changes |
| Startup.ParseNamedRef | glib/startup.go:228-243 | a line with no space is malformed; a parsed line is 40 hex digits, a space and the name; every such line parses |
| Startup.ParseFormatRef | glib/startup.go:228-243 | the line `git show-ref` prints for a ref parses back to it |
| Startup.ParseShowRef | glib/startup.go:218-225 | empty output means no refs even after a failure; a failed command with output is an error |
| Startup.LoadRefLines | glib/startup.go:245-258 | the append loop returns exactly ParseEach over the lines |
| Startup.LoadRefs | glib/startup.go:207-259 | loadRefs returns exactly ParseShowRef's result |
| Startup.ShowRefRoundTrip | glib/startup.go:245-258 | the output `git show-ref` prints for refs whose names hold no newline parses back to those refs |
| Startup.LoadHead | glib/startup.go:265-273 | a file read error is returned as is |
| Startup.LoadHeadSymbolic | glib/startup.go:261-273 | `ref: <target>\n` becomes `@<target>` |
| Startup.LoadHeadDetached | glib/startup.go:261-273 | `<40 hex digits>\n` becomes the digits |
| Startup.PreparationError | glib/startup.go:134-160 | the first failure among the lock, the directory set-up, loading the Sync record and downloading the settings; none exactly when all four succeed |
| Startup.StartupAsWritten | glib/startup.go:127-205 | as written: a repo-hash failure is returned and nothing is saved; a preparation or download failure is returned and nothing is saved; a record is saved exactly when preparation and download succeed and every downloaded slot unbundles; it keeps the loaded Index and DownloadFrom's download fields; once saved, success needs the save, the refs and HEAD to succeed, and a failed save is returned; the result has an empty name and the zero Sync |
| Startup.StartupFixed | glib/startup.go:127-205 | as intended: an invalid address is reported; preparation and download failures are returned with nothing saved; a record is saved exactly when those succeed and unbundling reaches the end; once saved, success needs the save, the refs and HEAD; the saved record and the result's sync agree, and Index reaches where unbundling halts |
| Push.ParsePushLine | glib/push.go:29-42 | a line not starting with `push ` is rejected; a parsed line keeps everything after `push ` as raw |
| Push.ParsedIsPushLine | glib/push.go:27-41 | every accepted line is `push [+]src:dst` with no `:` in src or dst, and `+` taken as force whenever present |
| Push.PushLineRoundTrip | glib/push.go:27-41 | every such line parses back to its force flag, src and dst |
| Push.ReadLine | glib/io.go:21-31 | no line when the input has no newline left; otherwise the text before the first newline and the rest |
| Push.ReadBatch | glib/push.go:86-97 | the batch read up to the empty line: the input is those lines, the empty line and the rest, each line nonempty and newline-free |
| Push.ReadBatchText | glib/push.go:86-97 | writing a batch and reading it back gives the same lines and rest |
| Push.ReadBatchLines | glib/push.go:86-97 | the reading loop returns exactly ReadBatch's result |
| Push.ReadPushCommands | glib/push.go:85-109 | readPushCommnds: the input ending early is an error; otherwise the first line plus the batch parsed, the first bad line failing all |
| Push.BundleArgs | glib/push.go:134-152 | `bundle create <path>`, then every dst in order, then `^<hex>` for every ref in order |
| Push.ExcludedRefsDecode | glib/push.go:150-152 | each exclusion argument is `^` and 40 digits naming its ref |
| Push.PublishedIsDownloaded | glib/push.go:158-161 | the published name and description are the very slot and prior hash downloadBundles searches for next: whenever the published bundle is the first acceptable item of that search, whatever else the page holds, downloading moves past the slot with the bundle's hash |
| Push.ZeroSyncPublishesSlotZero | glib/push.go:159-160 | with the zero Sync startup leaves, a push publishes as slot 0 with an empty description, even when later slots exist |
| Push.SyncedPublishesAtGap | glib/push.go:159-160 | with the Sync downloading left, a push publishes at the first slot with no acceptable bundle |
| Push.CreateBundle | glib/push.go:132-167 | as written: publishes whatever `git bundle create` did, from the out path of Index; success is the publish result alone |
| Push.CreateBundleFixed | glib/push.go:132-167 | as intended: a failed `git bundle create` is an error and nothing is published |
| Push.WritePushResult | glib/push.go:169-183 | the report is one `ok <dst>` or `error <dst>` line per ref, then an empty line |
| Push.ReportLines | glib/push.go:169-183 | the report splits into exactly its status lines and the closing empty line |
| Push.PushAllLocal | glib/push.go:111-130 | succeeds exactly when every local push into the root directory succeeds |
| Push.Push | glib/push.go:44-81 | no author: error, no output; bad input: error, no output; a failed local push fails with nothing published; after all local pushes the bundle arguments are `bundle create`, the out path, the dsts and the excluded refs, and a bundle is published exactly when `git bundle create` succeeds on them; the report says ok exactly when all local pushes, the bundle and the publish succeed |
| Options.ParseOptionArg | glib/option.go:13-25 | a line without a space is rejected; every failure is the one parse error |
| Options.ParsedOptionLine | glib/option.go:15-24 | a parsed line is a command word, the name and the value, with no space in the first two |
| Options.OptionLineRoundTrip | glib/option.go:15-24 | any such line parses to its name and value, the value keeping further spaces |
| Options.OneSpaceRejected | glib/option.go:15-19 | a line of fewer than three space-separated parts is rejected |
| Options.OptionReply | glib/option.go:36-43 | `ok` exactly for `verbosity`, `unsupported` for anything else |
| Options.VerboseAfter | glib/option.go:36-39 | `verbosity` with a value other than `1` turns verbose on; nothing turns it off |
| Options.Session.Option | glib/option.go:27-46 | a parse failure is returned with no output and no change; otherwise the reply is written and the flag updated |
| Options.Session.constructor | glib/io.go:19 | a new helper process starts with `verbose` on and nothing written |

## Left out

- The LBRY daemon's JSON-RPC calls are not modelled: `claim_search`, `resolve`, `get` and the stream create/update calls. glib/lbry.go is not part of this model. Search answers and fetched files are a `Network` value; channel lookups and publishing are function parameters.
- SHA-1 (crypto/sha1) and Unicode NFD (golang.org/x/text/unicode/norm) are uninterpreted function parameters. Lowercasing covers the ASCII letters only; Go's full Unicode case mapping is not modelled.
- Strings are sequences of Unicode scalar values, so invalid UTF-8 cannot be represented. A literal U+FFFD still stops the scanning loops, as utf8.RuneError does in Go.
- The file system and subprocesses are parameters of the model, given as results or booleans:
  - the lock, `initializeLocalDirectory` and `saveSync`;
  - `loadSync`'s JSON decoding and `downloadSettings`' download and JSON decoding;
  - `git show-ref` output and exit status, and the `.git/HEAD` contents;
  - `git bundle unbundle`, `git push` and `git bundle create`.
- `downloadBundles` writes the bundle to a file and hashes it back. The model hashes the fetched contents directly. It does not model a failure to open or read that file.
- `getDescription`'s JSON decoding is not modelled: a search item carries its description already decoded. Only the single page of up to 5000 results that findBundle asks for is seen.
- Diagnostic logging to standard error (`OutPrintf`, `InPrintf`) is left out. So is the `revoking from` line that `revoke` prints.
- `CliInit` is modelled only for the settings it builds. Its stream resolution, existence check, temporary file and publishing are network and file I/O.
- `CliAuthorModify` is modelled only for its loop over the arguments. Resolving the repository stream, the ownership check, downloading the settings and saving them are network I/O.
- `CliAuthorList`, `CliMeShow`, `CliMeSet`, `saveRepo`, `resolveStream` and `resolveNewStream` are not modelled. They only combine network and configuration-file I/O with the modelled functions.
- The config file that supplies `PushAs` is not modelled (glib/config.go is not part of this model). `Push` receives the current author's claim id as an option.
- Push.Push: models the push with the corrected `CreateBundleFixed`, which checks `git bundle create`, and with the corrected out path `OutBundlePathFixed` under the root directory, not the struct-formatted path that glib/push.go:135 gets from glib/startup.go:41-43. The as-written `CreateBundle` and bundle paths are kept separately (see "## Findings").
- Push.Push: the publish request carries the description that `createBundle` passes, but `lbryStreamCreateForBundle` (glib/lbry.go:230-252) never puts it into the `stream_create` arguments, so the daemon does not receive it. The daemon call is not modelled. The hypothesis of Push.PublishedIsDownloaded, that a published bundle carries the prior hash as its description, therefore does not hold in the program as written for slot 1 and later. Those slots would not be found by `downloadBundles`.
- Cli.ResolveChannel: the network lookup of the completed address is a parameter. The model does not state that the network answers for the same claim.
- Authz.Settings.Grant: requires that no author pointer appears twice in the list, which holds for settings decoded from JSON. Aliased pointers, where one append shows through two entries, are not modelled.
- LbryUrl.StreamWithModifiers, LbryUrl.StreamWithModifiersFixed and LbryUrl.StreamName: require at least seven characters. Go's `x[7:]` panics on shorter text; the code only calls them on addresses that already passed NewLbryUrl.
- Options.ParseOptionArg: reports every parse failure as one error kind. Go's message text is not modelled.
- ShaHex.ParseSha: reports every base16 decoding failure as one error kind. Go distinguishes an odd length from an invalid byte.
- `zero`, `fileExists`, `Map` and `isRef` are left out. They are Go helpers with no behaviour of their own to model.

## Findings

| source | as written | input that shows it | evidently intended | confidence | as-written member | corrected member |
|---|---|---|---|---|---|---|
| glib/startup.go:171 | `applyBundles` takes `Sync` by value, so its `Index += 1` never reaches the `saveSync` at line 178 | a loaded record with Index 0, two bundles downloaded, both unbundling: 0 is saved, and every later run applies them again | the applied count is saved | high, not executed | Startup.StartupAsWritten | Startup.StartupFixed |
| glib/startup.go:199-203 | `startup` never fills `Startup.sync` or `Startup.name`, so `createBundle` publishes as `<name>-0` with an empty description | any repository that already has bundle 0: a push publishes a second slot 0, never the slot that a clone already past slot 0 looks for next. A fresh clone may take either slot-0 bundle, because the search for `<name>-0` sends no order (the `OrderBy` field at glib/startup.go:421 is tagged `height`, not `order_by`) | the synced record is handed to push, which publishes at the first free slot | high, not executed | Push.ZeroSyncPublishesSlotZero | Push.SyncedPublishesAtGap |
| glib/startup.go:72-75 | `NewRepoHash` returns a zero `RepoName` and a nil error when the address is invalid | the empty address (with NFD leaving `""` unchanged): startup goes on with an empty name and hash | the error is returned | high, not executed | Startup.NewRepoHashDropsError | Startup.NewRepoHashFixed |
| glib/push.go:155-161 | the error of `git bundle create` is overwritten by the publish call and never checked | `git bundle create` fails while the publish succeeds: push reports `ok` for every ref | a failed bundle creation fails the push with nothing published | high, not executed | Push.CreateBundle | Push.CreateBundleFixed |
| glib/lbry_url.go:127 | `StreamWithModifiers` slices from the `/`, so the separator is kept | `lbry://@c/s` gives `/s` | `s`, the stream part alone, as the comment at line 111 says | high, not executed | UrlAddress.StreamWithModifiersKeepsSlash | LbryUrl.StreamWithModifiersFixed |
| glib/startup.go:37-43 | `inBundlePath`/`outBundlePath` format the whole `RepoName` struct with `%s` rather than `rootPath()` | any repository: bundle 0 goes to `{<url> <name> <hash>}/in/0.bundle`, outside `.glbry/<hash>` | `<root>/in/<k>.bundle` and `<root>/out/<k>.bundle`, like the other paths | high, not executed | Startup.BundlePathsOutsideRoot | Startup.InBundlePathFixedInjective |
