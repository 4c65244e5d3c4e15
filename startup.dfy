/** glib/startup.go: how the remote helper brings its local clone of an LBRY
    repository up to date.  The repository is a chain of bundles published
    under `<name>-0`, `<name>-1`, ...; each one carries the base16 SHA-1 of
    the previous bundle as its description.

    The LBRY daemon, git, SHA-1 and the file system are not modelled: their
    answers are parameters (a `Network` value, oracle functions and results
    read from disk). */
module Startup {
  import opened Base
  import opened Text
  import opened ShaHex
  import opened LbryUrl
  import opened Authz

  // ----- the repository's local name -----------------------------------------

  /** `RepoName`: the normalized address, its stream name, and the raw
      20-byte SHA-1 of the address as given, one character per byte. */
  datatype RepoName = RepoName(url: string, name: string, hash: string)

  /** Go's zero RepoName. */
  const ZeroRepoName := RepoName("", "", "")

  /** crypto/sha1 over the bytes of a string (foreign, a parameter). */
  type UrlDigest = string -> Sha

  /** `string(h[:])`: the digest bytes as a string, unencoded. */
  function RawString(s: Sha): (r: string)
    ensures |r| == 20
  {
    seq(20, i requires 0 <= i < 20 => s[i] as char)
  }

  /** NewRepoHash as written: when the address is invalid the error is
      dropped and a zero RepoName is returned as a success. */
  function NewRepoHash(nfd: Nfd, digest: UrlDigest, lbryUrl: string): (r: Result<RepoName>)
    ensures NewLbryUrl(nfd, lbryUrl).Err? ==> r == Ok(ZeroRepoName)
    ensures NewLbryUrl(nfd, lbryUrl).Ok? ==> r == NewRepoHashFixed(nfd, digest, lbryUrl)
  {
    var hash := RawString(digest(lbryUrl));
    match NewLbryUrl(nfd, lbryUrl)
    case Err(_) => Ok(ZeroRepoName)
    case Ok(u) =>
      var (name, ok) := StreamName(u);
      if !ok then Err(ChannelNotStream) else Ok(RepoName(u, name, hash))
  }

  /** NewRepoHash as intended: an invalid address is reported. */
  function NewRepoHashFixed(nfd: Nfd, digest: UrlDigest, lbryUrl: string): (r: Result<RepoName>)
    ensures r.Err? <==> NewLbryUrl(nfd, lbryUrl).Err? || !StreamName(NewLbryUrl(nfd, lbryUrl).value).1
    ensures NewLbryUrl(nfd, lbryUrl).Err? ==> r == Err(InvalidLbryUrl)
    ensures r.Ok? ==> IsValid(r.value.url) && r.value.name == StreamName(r.value.url).0 && |r.value.name| > 0
    ensures r.Ok? ==> r.value.hash == RawString(digest(lbryUrl))
  {
    var hash := RawString(digest(lbryUrl));
    match NewLbryUrl(nfd, lbryUrl)
    case Err(e) => Err(e)
    case Ok(u) =>
      var (name, ok) := StreamName(u);
      if !ok then Err(ChannelNotStream) else Ok(RepoName(u, name, hash))
  }

  /** Where the two versions differ: an address NewLbryUrl rejects. */
  lemma NewRepoHashDropsError(nfd: Nfd, digest: UrlDigest, lbryUrl: string)
    requires NewLbryUrl(nfd, lbryUrl).Err?
    ensures NewRepoHash(nfd, digest, lbryUrl) == Ok(ZeroRepoName)
    ensures NewRepoHashFixed(nfd, digest, lbryUrl) == Err(InvalidLbryUrl)
  {
  }

  /** The empty address is one such input, whatever NFD does to "". */
  lemma EmptyAddressRejected(nfd: Nfd, digest: UrlDigest)
    requires nfd("") == ""
    ensures NewLbryUrl(nfd, "").Err?
    ensures NewRepoHash(nfd, digest, "") == Ok(ZeroRepoName)
  {
    assert Normalize(nfd, "") == "";
    assert !HasPrefix("", Scheme);
    assert Scheme + "" == Scheme;
    ParseNameSpan("");
  }

  // ----- local paths ---------------------------------------------------------

  function RootPath(rh: RepoName): string {
    ".glbry/" + rh.hash
  }

  function SyncPath(rh: RepoName): string {
    RootPath(rh) + "/sync.json"
  }

  function SettingsPath(rh: RepoName): string {
    RootPath(rh) + "/settings.json"
  }

  function InPath(rh: RepoName): string {
    RootPath(rh) + "/in"
  }

  function OutPath(rh: RepoName): string {
    RootPath(rh) + "/out"
  }

  function HeadPath(rh: RepoName): string {
    RootPath(rh) + "/.git/HEAD"
  }

  /** Every file the helper keeps lives under its root directory, and the
      fixed files are distinct. */
  lemma PathsUnderRoot(rh: RepoName)
    ensures var root := RootPath(rh) + "/";
      HasPrefix(SyncPath(rh), root) && HasPrefix(SettingsPath(rh), root)
      && HasPrefix(InPath(rh), root) && HasPrefix(OutPath(rh), root) && HasPrefix(HeadPath(rh), root)
    ensures SyncPath(rh) != SettingsPath(rh) && InPath(rh) != OutPath(rh)
  {
    var n := |RootPath(rh)|;
    assert SyncPath(rh)[n + 1] == 's' && SettingsPath(rh)[n + 2] == 'e';
    assert SyncPath(rh)[n + 2] == 'y' || |SyncPath(rh)| != |SettingsPath(rh)|;
    assert InPath(rh)[n + 1] == 'i' && OutPath(rh)[n + 1] == 'o';
  }

  /** fmt's `%s` of a RepoName value: the fields between braces. */
  function RepoNameText(rh: RepoName): string {
    "{" + rh.url + " " + rh.name + " " + rh.hash + "}"
  }

  /** inBundlePath as written: the whole struct, not rootPath, heads the
      path. */
  function InBundlePath(rh: RepoName, index: int): string {
    RepoNameText(rh) + "/in/" + IntToString(index) + ".bundle"
  }

  /** outBundlePath as written. */
  function OutBundlePath(rh: RepoName, index: int): string {
    RepoNameText(rh) + "/out/" + IntToString(index) + ".bundle"
  }

  /** The bundle slots as written lie outside the root directory, which is
      where `git bundle unbundle` runs. */
  lemma BundlePathsOutsideRoot(rh: RepoName, index: int)
    ensures !HasPrefix(InBundlePath(rh, index), RootPath(rh))
    ensures !HasPrefix(OutBundlePath(rh, index), RootPath(rh))
  {
    assert InBundlePath(rh, index)[0] == '{' && OutBundlePath(rh, index)[0] == '{';
    assert RootPath(rh)[0] == '.';
  }

  /** The slot paths as intended: inside the `in` and `out` directories
      that initializeLocalDirectory creates. */
  function InBundlePathFixed(rh: RepoName, index: int): (r: string)
    ensures HasPrefix(r, InPath(rh) + "/")
  {
    InPath(rh) + "/" + IntToString(index) + ".bundle"
  }

  function OutBundlePathFixed(rh: RepoName, index: int): (r: string)
    ensures HasPrefix(r, OutPath(rh) + "/")
  {
    OutPath(rh) + "/" + IntToString(index) + ".bundle"
  }

  /** Distinct slots get distinct files. */
  lemma InBundlePathFixedInjective(rh: RepoName, a: int, b: int)
    requires InBundlePathFixed(rh, a) == InBundlePathFixed(rh, b)
    ensures a == b
  {
    var p := InPath(rh) + "/";
    var sa, sb := IntToString(a), IntToString(b);
    assert InBundlePathFixed(rh, a) == p + (sa + ".bundle");
    assert InBundlePathFixed(rh, b) == p + (sb + ".bundle");
    assert sa + ".bundle" == sb + ".bundle";
    assert |sa| == |sb|;
    assert sa == (sa + ".bundle")[..|sa|];
    IntToStringInjective(a, b);
  }

  // ----- the sync record -------------------------------------------------------

  /** A snapshot of `Sync`. */
  datatype SyncRec = SyncRec(downloadIndex: int, downloadPriorHash: string, index: int)

  const ZeroSync := SyncRec(0, "", 0)

  /** `Sync`, updated in place through a pointer by downloadBundles. */
  class Sync {
    /** The number of bundles downloaded into the local directory. */
    var downloadIndex: int
    /** The base16 SHA-1 of bundle `downloadIndex - 1`. */
    var downloadPriorHash: string
    /** The number of bundles applied to the local clone. */
    var index: int

    constructor (s: SyncRec)
      ensures View() == s
    {
      downloadIndex := s.downloadIndex;
      downloadPriorHash := s.downloadPriorHash;
      index := s.index;
    }

    function View(): SyncRec
      reads this
    {
      SyncRec(downloadIndex, downloadPriorHash, index)
    }
  }

  // ----- finding a bundle --------------------------------------------------------

  /** One item of a `claim_search` page, with the description already taken
      out of the claim's value (JSON decoding is not modelled). */
  datatype SearchItem = SearchItem(
    failed: bool,
    permanentUrl: string,
    claimId: string,
    timestamp: int,
    signingChannel: Option<string>,
    description: string)

  /** The LBRY network as the bundle chain sees it, for the repository's
      authors: the search answer for each claim name (`None` when the call
      fails; a name never published has an empty page) and the contents
      behind each permanent address that can be fetched. */
  datatype Network = Network(pages: map<string, Option<seq<SearchItem>>>, files: map<string, seq<byte>>)

  function Search(net: Network, name: string): Result<seq<SearchItem>> {
    if name !in net.pages then Ok([])
    else if net.pages[name].None? then Err(NetworkFailure)
    else Ok(net.pages[name].value)
  }

  /** lbryGet: fetch the file behind a permanent address. */
  function Fetch(net: Network, url: string): Result<seq<byte>> {
    if url in net.files then Ok(net.files[url]) else Err(NetworkFailure)
  }

  /** The five conditions of findBundle's loop. */
  predicate Acceptable(item: SearchItem, description: string, s: SettingsRec) {
    !item.failed
    && !IsDeleted(s.deleted, item.claimId)
    && item.signingChannel.Some?
    && IsAuthorized(s, item.signingChannel.value, item.timestamp)
    && item.description == description
  }

  /** The position of the first acceptable item, in search order. */
  function FirstAcceptable(items: seq<SearchItem>, description: string, s: SettingsRec): (r: Option<nat>)
    ensures r.Some? ==> r.value < |items| && Acceptable(items[r.value], description, s)
    ensures r.Some? ==> forall j :: 0 <= j < r.value ==> !Acceptable(items[j], description, s)
    ensures r.None? ==> forall j :: 0 <= j < |items| ==> !Acceptable(items[j], description, s)
  {
    if |items| == 0 then None
    else if Acceptable(items[0], description, s) then Some(0)
    else
      match FirstAcceptable(items[1..], description, s)
      case None => None
      case Some(k) => Some(k + 1)
  }

  /** findBundle: the permanent address of the first acceptable item;
      BundleNotFound when there is none; a failed search is reported. */
  function FindBundle(net: Network, name: string, description: string, s: SettingsRec): (r: Result<string>)
    ensures Search(net, name).Err? ==> r == Err(NetworkFailure)
    ensures r.Ok? ==> name in net.pages
  {
    match Search(net, name)
    case Err(e) => Err(e)
    case Ok(items) =>
      match FirstAcceptable(items, description, s)
      case None => Err(BundleNotFound)
      case Some(k) => Ok(items[k].permanentUrl)
  }

  /** findBundle succeeds with the first acceptable item's address, and
      reports BundleNotFound exactly when no item is acceptable. */
  lemma FindBundleSpec(net: Network, name: string, description: string, s: SettingsRec)
    requires Search(net, name).Ok?
    ensures var items := Search(net, name).value;
      FindBundle(net, name, description, s) == Err(BundleNotFound)
      <==> forall j :: 0 <= j < |items| ==> !Acceptable(items[j], description, s)
    ensures var items := Search(net, name).value;
      (exists j :: 0 <= j < |items| && Acceptable(items[j], description, s))
      ==> FindBundle(net, name, description, s).Ok?
    ensures var items := Search(net, name).value;
      FindBundle(net, name, description, s).Ok? ==>
        exists k :: 0 <= k < |items| && Acceptable(items[k], description, s)
          && FindBundle(net, name, description, s).value == items[k].permanentUrl
          && forall j :: 0 <= j < k ==> !Acceptable(items[j], description, s)
  {
    var items := Search(net, name).value;
    if FirstAcceptable(items, description, s).Some? {
      var k := FirstAcceptable(items, description, s).value;
      assert Acceptable(items[k], description, s);
    }
  }

  /** An item signed by a channel that is not authorized at the item's own
      timestamp is never taken, nor is a deleted one. */
  lemma UnauthorizedSkipped(item: SearchItem, description: string, s: SettingsRec)
    requires item.signingChannel.None?
      || !IsAuthorized(s, item.signingChannel.value, item.timestamp)
      || item.claimId in s.deleted
    ensures !Acceptable(item, description, s)
  {
  }

  // ----- downloading the chain ----------------------------------------------------

  /** The claim name of bundle `index`: `fmt.Sprintf("%v-%v", name, index)`. */
  function SlotName(name: string, index: int): string {
    name + "-" + IntToString(index)
  }

  lemma SlotNameInjective(name: string, a: int, b: int)
    requires SlotName(name, a) == SlotName(name, b)
    ensures a == b
  {
    var p := name + "-";
    assert SlotName(name, a) == p + IntToString(a) && SlotName(name, b) == p + IntToString(b);
    assert IntToString(a) == SlotName(name, a)[|p|..];
    assert IntToString(b) == SlotName(name, b)[|p|..];
    IntToStringInjective(a, b);
  }

  /** `key` names slot `index` or a later one. */
  ghost predicate SlotFrom(name: string, index: int, key: string) {
    exists k :: index <= k && key == SlotName(name, k)
  }

  /** The published slots at or after `index`: finitely many, and one fewer
      after each bundle downloaded. */
  ghost function Remaining(net: Network, name: string, index: int): set<string> {
    set key | key in net.pages && SlotFrom(name, index, key)
  }

  lemma RemainingShrinks(net: Network, name: string, index: int)
    requires SlotName(name, index) in net.pages
    ensures |Remaining(net, name, index + 1)| < |Remaining(net, name, index)|
  {
    var key := SlotName(name, index);
    var later, now := Remaining(net, name, index + 1), Remaining(net, name, index);
    assert SlotFrom(name, index, key);
    forall x | x in later
      ensures x in now - {key}
    {
      var k :| index + 1 <= k && x == SlotName(name, k);
      assert SlotFrom(name, index, x);
      if x == key {
        SlotNameInjective(name, index, k);
      }
    }
    SubsetCardinality(later, now - {key});
    assert |now - {key}| == |now| - 1;
  }

  lemma {:induction false} SubsetCardinality<T>(a: set<T>, b: set<T>)
    requires a <= b
    ensures |a| <= |b|
  {
    if a != {} {
      var x :| x in a;
      SubsetCardinality(a - {x}, b - {x});
    }
  }

  /** The base16 SHA-1 of a bundle's contents: its successor's description. */
  type Digest = seq<byte> -> Sha

  /** downloadBundles from slot `index` on, with `prior` the hash the next
      bundle must carry: fetch slots one by one until a slot is not found;
      the result is the final (DownloadIndex, DownloadPriorHash). */
  function DownloadFrom(net: Network, digest: Digest, s: SettingsRec, name: string, index: int, prior: string): Result<(int, string)>
    decreases |Remaining(net, name, index)|
  {
    var found := FindBundle(net, SlotName(name, index), prior, s);
    if found == Err(BundleNotFound) then Ok((index, prior))
    else if found.Err? then Err(found.error)
    else
      match Fetch(net, found.value)
      case Err(e) => Err(e)
      case Ok(bytes) =>
        RemainingShrinks(net, name, index);
        DownloadFrom(net, digest, s, name, index + 1, ToHexString(digest(bytes)))
  }

  /** downloadBundles never moves DownloadIndex backwards. */
  lemma {:induction false} DownloadAdvances(net: Network, digest: Digest, s: SettingsRec, name: string, index: int, prior: string)
    ensures DownloadFrom(net, digest, s, name, index, prior).Ok? ==>
      DownloadFrom(net, digest, s, name, index, prior).value.0 >= index
    decreases |Remaining(net, name, index)|
  {
    var found := FindBundle(net, SlotName(name, index), prior, s);
    if found.Ok? && Fetch(net, found.value).Ok? {
      RemainingShrinks(net, name, index);
      DownloadAdvances(net, digest, s, name, index + 1, ToHexString(digest(Fetch(net, found.value).value)));
    }
  }

  /** A download that succeeds stops at the first slot that is not found
      under the hash it expects. */
  lemma {:induction false} DownloadStopsAtGap(net: Network, digest: Digest, s: SettingsRec, name: string, index: int, prior: string)
    ensures var r := DownloadFrom(net, digest, s, name, index, prior);
      r.Ok? ==> FindBundle(net, SlotName(name, r.value.0), r.value.1, s) == Err(BundleNotFound)
    decreases |Remaining(net, name, index)|
  {
    var found := FindBundle(net, SlotName(name, index), prior, s);
    if found.Ok? && Fetch(net, found.value).Ok? {
      RemainingShrinks(net, name, index);
      DownloadStopsAtGap(net, digest, s, name, index + 1, ToHexString(digest(Fetch(net, found.value).value)));
    }
  }

  /** A found and fetched slot moves the chain on by exactly one, with the
      fetched bundle's hash as the next expected description. */
  lemma DownloadStep(net: Network, digest: Digest, s: SettingsRec, name: string, index: int, prior: string)
    requires FindBundle(net, SlotName(name, index), prior, s).Ok?
    requires Fetch(net, FindBundle(net, SlotName(name, index), prior, s).value).Ok?
    ensures var bytes := Fetch(net, FindBundle(net, SlotName(name, index), prior, s).value).value;
      DownloadFrom(net, digest, s, name, index, prior)
        == DownloadFrom(net, digest, s, name, index + 1, ToHexString(digest(bytes)))
  {
  }

  /** downloadBundles: advance `sync` one found bundle at a time; a slot
      that is not found ends the loop successfully, any other error is
      returned with `sync` at the slot that failed, so that resuming from
      there meets the same error. */
  method DownloadBundles(rh: RepoName, sync: Sync, s: SettingsRec, net: Network, digest: Digest)
    returns (r: Result<()>)
    modifies sync
    ensures var spec := DownloadFrom(net, digest, s, rh.name, old(sync.downloadIndex), old(sync.downloadPriorHash));
      (r.Ok? <==> spec.Ok?)
      && (r.Ok? ==> sync.downloadIndex == spec.value.0 && sync.downloadPriorHash == spec.value.1)
      && (r.Err? ==> spec == Err(r.error))
    ensures r.Err? ==>
      DownloadFrom(net, digest, s, rh.name, sync.downloadIndex, sync.downloadPriorHash) == Err(r.error)
    ensures sync.index == old(sync.index)
    ensures sync.downloadIndex >= old(sync.downloadIndex)
  {
    ghost var spec := DownloadFrom(net, digest, s, rh.name, sync.downloadIndex, sync.downloadPriorHash);
    while true
      invariant DownloadFrom(net, digest, s, rh.name, sync.downloadIndex, sync.downloadPriorHash) == spec
      invariant sync.index == old(sync.index)
      invariant sync.downloadIndex >= old(sync.downloadIndex)
      decreases |Remaining(net, rh.name, sync.downloadIndex)|
    {
      var name := SlotName(rh.name, sync.downloadIndex);
      var description := sync.downloadPriorHash;
      var bundleUrl := FindBundle(net, name, description, s);
      if bundleUrl == Err(BundleNotFound) {
        break;
      }
      if bundleUrl.Err? {
        return Err(bundleUrl.error);
      }
      var contents := Fetch(net, bundleUrl.value);
      if contents.Err? {
        return Err(contents.error);
      }
      var prior := ToHexString(digest(contents.value));
      RemainingShrinks(net, rh.name, sync.downloadIndex);
      sync.downloadIndex := sync.downloadIndex + 1;
      sync.downloadPriorHash := prior;
    }
    return Ok(());
  }

  // ----- applying the chain ----------------------------------------------------------

  /** Whether `git bundle unbundle <path>`, run in the root directory,
      succeeds (a foreign command). */
  type Unbundle = string -> bool

  /** The slot paths applyBundles hands to git, as written. */
  function InBundlePaths(rh: RepoName): int -> string {
    k => InBundlePath(rh, k)
  }

  /** The slot paths as intended. */
  function InBundlePathsFixed(rh: RepoName): int -> string {
    k => InBundlePathFixed(rh, k)
  }

  /** Where applying slots `n, n+1, ...` below `stop` in order halts: the
      first slot whose bundle does not unbundle, or `stop` when all of them
      do (`n` itself when there is nothing to apply). */
  function FirstUnapplied(unbundle: Unbundle, path: int -> string, n: int, stop: int): (r: int)
    ensures n <= stop ==> n <= r <= stop
    ensures stop < n ==> r == n
    ensures forall k :: n <= k < r ==> unbundle(path(k))
    ensures r < stop ==> !unbundle(path(r))
    decreases stop - n
  {
    if n >= stop || !unbundle(path(n)) then n else FirstUnapplied(unbundle, path, n + 1, stop)
  }

  /** Applying again from where a run halted halts at the same slot. */
  lemma FirstUnappliedResumes(unbundle: Unbundle, path: int -> string, n: int, stop: int)
    ensures var r := FirstUnapplied(unbundle, path, n, stop);
      FirstUnapplied(unbundle, path, r, stop) == r
  {
  }

  /** applyBundles as written: `sync` arrives by value, so the count of
      applied bundles is kept in a local copy that is dropped on return. */
  method ApplyBundles(rh: RepoName, sync: SyncRec, unbundle: Unbundle) returns (r: Result<()>)
    ensures var halt := FirstUnapplied(unbundle, InBundlePaths(rh), sync.index, sync.downloadIndex);
      (r.Ok? <==> halt >= sync.downloadIndex) && (r.Err? ==> r.error == CommandFailed)
  {
    var local := sync;
    var n := local.index;
    while n < local.downloadIndex
      invariant local == sync.(index := n)
      invariant FirstUnapplied(unbundle, InBundlePaths(rh), n, sync.downloadIndex)
        == FirstUnapplied(unbundle, InBundlePaths(rh), sync.index, sync.downloadIndex)
      decreases local.downloadIndex - n
    {
      var ok := unbundle(InBundlePath(rh, n));
      if !ok {
        return Err(CommandFailed);
      }
      local := local.(index := local.index + 1);
      n := n + 1;
    }
    return Ok(());
  }

  /** applyBundles as intended: `sync.Index` counts the bundles applied, so
      a later run starts after them. */
  method ApplyBundlesFixed(rh: RepoName, sync: Sync, unbundle: Unbundle) returns (r: Result<()>)
    modifies sync
    ensures sync.index == FirstUnapplied(unbundle, InBundlePathsFixed(rh), old(sync.index), old(sync.downloadIndex))
    ensures sync.downloadIndex == old(sync.downloadIndex) && sync.downloadPriorHash == old(sync.downloadPriorHash)
    ensures r.Ok? <==> sync.index >= sync.downloadIndex
    ensures r.Err? ==> r.error == CommandFailed
  {
    ghost var halt := FirstUnapplied(unbundle, InBundlePathsFixed(rh), sync.index, sync.downloadIndex);
    while sync.index < sync.downloadIndex
      invariant FirstUnapplied(unbundle, InBundlePathsFixed(rh), sync.index, sync.downloadIndex) == halt
      invariant sync.downloadIndex == old(sync.downloadIndex) && sync.downloadPriorHash == old(sync.downloadPriorHash)
      decreases sync.downloadIndex - sync.index
    {
      var ok := unbundle(InBundlePathFixed(rh, sync.index));
      if !ok {
        return Err(CommandFailed);
      }
      sync.index := sync.index + 1;
    }
    return Ok(());
  }

  // ----- the refs and HEAD of the clone ------------------------------------------------

  /** parseNamedRef: a `git show-ref` line is the base16 SHA, one space and
      the ref's name. */
  function ParseNamedRef(line: string): (r: Result<NamedRef>)
    ensures ' ' !in line ==> r == Err(ShowRefFormat)
    ensures r.Ok? ==>
      |line| > 40 && line[40] == ' ' && ParseSha(line[..40]) == Ok(r.value.ref) && r.value.name == line[41..]
    ensures |line| > 40 && line[40] == ' ' && ParseSha(line[..40]).Ok? ==> r.Ok?
    ensures r.Err? ==> r.error == ShowRefFormat || r.error == HexDecode || r.error == ShaLength
  {
    var subs := SplitN(line, ' ', 2);
    if |subs| != 2 then Err(ShowRefFormat)
    else
      match ParseSha(subs[0])
      case Err(e) => Err(e)
      case Ok(sha) => Ok(NamedRef(subs[1], sha))
  }

  /** The line `git show-ref` prints for a ref. */
  function FormatRef(r: NamedRef): string {
    ToHexString(r.ref) + " " + r.name
  }

  lemma ParseFormatRef(r: NamedRef)
    ensures ParseNamedRef(FormatRef(r)) == Ok(r)
  {
    var line := FormatRef(r);
    ShaRoundTrip(r.ref);
    assert line[..40] == ToHexString(r.ref) && line[41..] == r.name;
  }

  /** loadRefs on the output of `git show-ref` and whether it exited with an
      error.  A fresh repository prints nothing and exits with status 1,
      which counts as no refs. */
  function ParseShowRef(out: string, failed: bool): (r: Result<seq<NamedRef>>)
    ensures |out| == 0 ==> r == Ok([])
    ensures |out| > 0 && failed ==> r == Err(CommandFailed)
  {
    if |out| == 0 then Ok([])
    else if failed then Err(CommandFailed)
    else ParseEach(Split(TrimRight(out, '\n'), '\n'), ParseNamedRef)
  }

  /** loadRefs' loop: parse line by line, appending to the results and
      stopping at the first line that does not parse. */
  method LoadRefLines(lines: seq<string>) returns (r: Result<seq<NamedRef>>)
    ensures r == ParseEach(lines, ParseNamedRef)
  {
    var parse: string -> Result<NamedRef> := ParseNamedRef;
    var results: seq<NamedRef> := [];
    assert lines[0..] == lines;
    assert ParseEach(lines, parse).Ok? ==> [] + ParseEach(lines, parse).value == ParseEach(lines, parse).value;
    for i := 0 to |lines|
      invariant ParseEach(lines, parse) == Prepend(results, ParseEach(lines[i..], parse))
    {
      ParseEachStep(lines, parse, i, results);
      var nr := parse(lines[i]);
      if nr.Err? {
        return Err(nr.error);
      }
      results := results + [nr.value];
    }
    assert lines[|lines|..] == [];
    assert results + [] == results;
    return Ok(results);
  }

  /** loadRefs: no output means no refs, a failed command is an error, and
      otherwise every line of the output is parsed. */
  method LoadRefs(out: string, failed: bool) returns (r: Result<seq<NamedRef>>)
    ensures r == ParseShowRef(out, failed)
  {
    if |out| == 0 {
      return Ok([]);
    }
    if failed {
      return Err(CommandFailed);
    }
    r := LoadRefLines(Split(TrimRight(out, '\n'), '\n'));
  }

  /** The lines `git show-ref` prints for a list of refs. */
  function RefLines(refs: seq<NamedRef>): (r: seq<string>)
    ensures |r| == |refs|
  {
    seq(|refs|, i requires 0 <= i < |refs| => FormatRef(refs[i]))
  }

  /** What `git show-ref` prints for a list of refs: one line each. */
  function ShowRefText(refs: seq<NamedRef>): string {
    if |refs| == 0 then "" else Join(RefLines(refs), '\n') + "\n"
  }

  lemma FormatRefOneLine(r: NamedRef)
    requires '\n' !in r.name
    ensures '\n' !in FormatRef(r) && |FormatRef(r)| > 40
  {
    var hex := ToHexString(r.ref);
    forall i | 0 <= i < |FormatRef(r)|
      ensures FormatRef(r)[i] != '\n'
    {
      if i < 40 {
        assert FormatRef(r)[i] == hex[i];
      } else if i > 40 {
        assert FormatRef(r)[i] == r.name[i - 41];
      }
    }
  }

  /** Each printed line parses back to its ref. */
  lemma ParseRefLines(refs: seq<NamedRef>)
    ensures ParseEach(RefLines(refs), ParseNamedRef) == Ok(refs)
  {
    var lines := RefLines(refs);
    forall i | 0 <= i < |refs|
      ensures ParseNamedRef(lines[i]) == Ok(refs[i])
    {
      ParseFormatRef(refs[i]);
    }
    var r := ParseEach(lines, ParseNamedRef);
    assert r.Ok? && |r.value| == |refs|;
    assert forall i :: 0 <= i < |refs| ==> r.value[i] == refs[i];
    assert r.value == refs;
  }

  /** Trimming and splitting the printed text gives back its lines. */
  lemma SplitShowRefText(refs: seq<NamedRef>)
    requires |refs| > 0
    requires forall i :: 0 <= i < |refs| ==> '\n' !in refs[i].name
    ensures Split(TrimRight(ShowRefText(refs), '\n'), '\n') == RefLines(refs)
  {
    var lines := RefLines(refs);
    forall i | 0 <= i < |lines|
      ensures '\n' !in lines[i] && |lines[i]| > 40
    {
      FormatRefOneLine(refs[i]);
    }
    var body := Join(lines, '\n');
    var last := lines[|lines| - 1];
    JoinEndsWith(lines, '\n');
    assert body[|body| - 1] == last[|last| - 1];
    TrimRightAppend(body, '\n');
    SplitJoin(lines, '\n');
  }

  /** loadRefs reads back every list of refs whose names are single lines. */
  lemma ShowRefRoundTrip(refs: seq<NamedRef>)
    requires forall i :: 0 <= i < |refs| ==> '\n' !in refs[i].name
    ensures ParseShowRef(ShowRefText(refs), false) == Ok(refs)
  {
    if |refs| > 0 {
      SplitShowRefText(refs);
      ParseRefLines(refs);
      assert |ShowRefText(refs)| > 0;
    }
  }

  /** The prefix git writes before a symbolic HEAD's target. */
  const SymbolicPrefix := "ref: "

  /** loadHead on the contents of `.git/HEAD` (or the read error): a symbolic
      ref comes back as `@<target>`, trailing newlines removed. */
  function LoadHead(file: Result<string>): (r: Result<string>)
    ensures file.Err? ==> r == file
  {
    match file
    case Err(e) => Err(e)
    case Ok(b) => Ok(TrimRight(ReplaceFirst(b, SymbolicPrefix, "@"), '\n'))
  }

  /** A symbolic HEAD `ref: <target>` loads as `@<target>`. */
  lemma LoadHeadSymbolic(target: string)
    requires '\n' !in target
    ensures LoadHead(Ok(SymbolicPrefix + target + "\n")) == Ok("@" + target)
  {
    var b := SymbolicPrefix + target + "\n";
    assert HasPrefix(b[0..], SymbolicPrefix);
    assert Index(b, SymbolicPrefix) == 0;
    assert ReplaceFirst(b, SymbolicPrefix, "@") == "@" + target + "\n";
    var t := "@" + target;
    assert t[|t| - 1] != '\n';
    TrimRightAppend(t, '\n');
  }

  /** A detached HEAD, the base16 SHA of a commit, loads as itself. */
  lemma LoadHeadDetached(s: Sha)
    ensures LoadHead(Ok(ToHexString(s) + "\n")) == Ok(ToHexString(s))
  {
    var hex := ToHexString(s);
    var b := hex + "\n";
    assert forall i :: 0 <= i < |b| ==> b[i] != 'r' by {
      assert forall i :: 0 <= i < |hex| ==> b[i] == hex[i];
    }
    forall i | 0 <= i <= |b|
      ensures !HasPrefix(b[i..], SymbolicPrefix)
    {
      if i + 5 <= |b| {
        assert b[i..][..5][0] == b[i];
      }
    }
    assert Index(b, SymbolicPrefix) == -1;
    TrimRightAppend(hex, '\n');
  }

  // ----- startup ------------------------------------------------------------------------

  /** The answers startup gets from outside the model, in the order it asks:
      the file-system lock, initializeLocalDirectory, sync.json as decoded by
      loadSync, the settings file fetched and decoded by downloadSettings, the
      network and SHA-1 used by downloadBundles, `git bundle unbundle`, the
      write of saveSync, the output and exit status of `git show-ref`, and the
      contents of `.git/HEAD`. */
  datatype Env = Env(
    lock: Result<()>,
    init: Result<()>,
    loadedSync: Result<SyncRec>,
    settings: Result<SettingsRec>,
    net: Network,
    bundleDigest: Digest,
    unbundle: Unbundle,
    save: Result<()>,
    showRefOut: string,
    showRefFailed: bool,
    headFile: Result<string>)

  /** The first failure among the steps before downloading, in startup's
      order: the lock, initializeLocalDirectory, loadSync, downloadSettings. */
  function PreparationError(env: Env): (r: Option<Error>)
    ensures r.None? <==> env.lock.Ok? && env.init.Ok? && env.loadedSync.Ok? && env.settings.Ok?
  {
    if env.lock.Err? then Some(env.lock.error)
    else if env.init.Err? then Some(env.init.error)
    else if env.loadedSync.Err? then Some(env.loadedSync.error)
    else if env.settings.Err? then Some(env.settings.error)
    else None
  }

  /** What downloadBundles makes of the loaded sync record for the chain
      `name`: the download index and prior hash it reaches, or its error. */
  function Downloaded(env: Env, name: string): Result<(int, string)>
    requires PreparationError(env).None?
  {
    DownloadFrom(env.net, env.bundleDigest, env.settings.value, name,
                 env.loadedSync.value.downloadIndex, env.loadedSync.value.downloadPriorHash)
  }

  /** Startup gets as far as saveSync: every step before downloading
      succeeds, so does the download, and every downloaded slot from the
      loaded Index on unbundles (bundles stored at `paths`). */
  predicate ReachesSave(env: Env, name: string, paths: int -> string) {
    PreparationError(env).None?
    && Downloaded(env, name).Ok?
    && FirstUnapplied(env.unbundle, paths, env.loadedSync.value.index, Downloaded(env, name).value.0)
       >= Downloaded(env, name).value.0
  }

  /** `Startup`: what the helper knows about the remote once it is in sync. */
  datatype StartupRec = StartupRec(name: string, rh: RepoName, sync: SyncRec, head: string, refs: seq<NamedRef>)

  /** startup as written.  `toSave` is the record handed to saveSync (None
      when startup stops before it): it keeps the Index loaded from disk,
      since applyBundles works on a copy; the result leaves `name` and
      `sync` at their zero values. */
  method StartupAsWritten(nfd: Nfd, urlDigest: UrlDigest, lbryUrl: string, env: Env)
    returns (r: Result<StartupRec>, toSave: Option<SyncRec>)
    ensures NewRepoHash(nfd, urlDigest, lbryUrl).Err? ==>
      r == Err(NewRepoHash(nfd, urlDigest, lbryUrl).error) && toSave.None?
    ensures NewRepoHash(nfd, urlDigest, lbryUrl).Ok? && PreparationError(env).Some? ==>
      r == Err(PreparationError(env).value) && toSave.None?
    ensures (NewRepoHash(nfd, urlDigest, lbryUrl).Ok? && PreparationError(env).None?
             && Downloaded(env, NewRepoHash(nfd, urlDigest, lbryUrl).value.name).Err?) ==>
      r == Err(Downloaded(env, NewRepoHash(nfd, urlDigest, lbryUrl).value.name).error) && toSave.None?
    ensures NewRepoHash(nfd, urlDigest, lbryUrl).Ok? ==>
      (toSave.Some? <==> ReachesSave(env, NewRepoHash(nfd, urlDigest, lbryUrl).value.name,
                                     InBundlePaths(NewRepoHash(nfd, urlDigest, lbryUrl).value)))
    ensures toSave.Some? ==>
      (r.Ok? <==> env.save.Ok? && ParseShowRef(env.showRefOut, env.showRefFailed).Ok? && LoadHead(env.headFile).Ok?)
    ensures toSave.Some? && env.save.Err? ==> r == Err(env.save.error)
    ensures r.Ok? ==> toSave.Some?
    ensures toSave.Some? ==> env.loadedSync.Ok? && toSave.value.index == env.loadedSync.value.index
    ensures toSave.Some? ==> env.settings.Ok? && NewRepoHash(nfd, urlDigest, lbryUrl).Ok?
    ensures toSave.Some? && env.loadedSync.Ok? && env.settings.Ok? && NewRepoHash(nfd, urlDigest, lbryUrl).Ok? ==>
         var loaded := env.loadedSync.value;
         var name := NewRepoHash(nfd, urlDigest, lbryUrl).value.name;
         DownloadFrom(env.net, env.bundleDigest, env.settings.value, name, loaded.downloadIndex, loaded.downloadPriorHash)
           == Ok((toSave.value.downloadIndex, toSave.value.downloadPriorHash))
    ensures r.Ok? ==> r.value.name == "" && r.value.sync == ZeroSync
    ensures r.Ok? ==> NewRepoHash(nfd, urlDigest, lbryUrl) == Ok(r.value.rh)
    ensures r.Ok? ==>
      ParseShowRef(env.showRefOut, env.showRefFailed) == Ok(r.value.refs) && LoadHead(env.headFile) == Ok(r.value.head)
  {
    toSave := None;
    var rh := NewRepoHash(nfd, urlDigest, lbryUrl);
    if rh.Err? {
      return Err(rh.error), None;
    }
    if env.lock.Err? {
      return Err(env.lock.error), None;
    }
    if env.init.Err? {
      return Err(env.init.error), None;
    }
    if env.loadedSync.Err? {
      return Err(env.loadedSync.error), None;
    }
    if env.settings.Err? {
      return Err(env.settings.error), None;
    }
    var sync := new Sync(env.loadedSync.value);
    var down := DownloadBundles(rh.value, sync, env.settings.value, env.net, env.bundleDigest);
    if down.Err? {
      return Err(down.error), None;
    }
    var applied := ApplyBundles(rh.value, sync.View(), env.unbundle);
    if applied.Err? {
      return Err(applied.error), None;
    }
    toSave := Some(sync.View());
    if env.save.Err? {
      return Err(env.save.error), toSave;
    }
    var refs := LoadRefs(env.showRefOut, env.showRefFailed);
    if refs.Err? {
      return Err(refs.error), toSave;
    }
    var head := LoadHead(env.headFile);
    if head.Err? {
      return Err(head.error), toSave;
    }
    r := Ok(StartupRec("", rh.value, ZeroSync, head.value, refs.value));
  }

  /** startup as intended: an invalid address is reported, the applied
      bundles are counted in the saved record, and the result carries the
      repository's address and sync state. */
  method StartupFixed(nfd: Nfd, urlDigest: UrlDigest, lbryUrl: string, env: Env)
    returns (r: Result<StartupRec>, toSave: Option<SyncRec>)
    ensures NewRepoHashFixed(nfd, urlDigest, lbryUrl).Err? ==>
      r == Err(NewRepoHashFixed(nfd, urlDigest, lbryUrl).error) && toSave.None?
    ensures NewRepoHashFixed(nfd, urlDigest, lbryUrl).Ok? && PreparationError(env).Some? ==>
      r == Err(PreparationError(env).value) && toSave.None?
    ensures (NewRepoHashFixed(nfd, urlDigest, lbryUrl).Ok? && PreparationError(env).None?
             && Downloaded(env, NewRepoHashFixed(nfd, urlDigest, lbryUrl).value.name).Err?) ==>
      r == Err(Downloaded(env, NewRepoHashFixed(nfd, urlDigest, lbryUrl).value.name).error) && toSave.None?
    ensures NewRepoHashFixed(nfd, urlDigest, lbryUrl).Ok? ==>
      (toSave.Some? <==> ReachesSave(env, NewRepoHashFixed(nfd, urlDigest, lbryUrl).value.name,
                                     InBundlePathsFixed(NewRepoHashFixed(nfd, urlDigest, lbryUrl).value)))
    ensures toSave.Some? ==>
      (r.Ok? <==> env.save.Ok? && ParseShowRef(env.showRefOut, env.showRefFailed).Ok? && LoadHead(env.headFile).Ok?)
    ensures toSave.Some? && env.save.Err? ==> r == Err(env.save.error)
    ensures r.Ok? ==> toSave == Some(r.value.sync)
    ensures toSave.Some? ==> toSave.value.index >= toSave.value.downloadIndex
    ensures toSave.Some? ==> env.loadedSync.Ok? && env.settings.Ok? && NewRepoHashFixed(nfd, urlDigest, lbryUrl).Ok?
    ensures toSave.Some? && env.loadedSync.Ok? && env.settings.Ok? && NewRepoHashFixed(nfd, urlDigest, lbryUrl).Ok? ==>
         var loaded := env.loadedSync.value;
         var rh := NewRepoHashFixed(nfd, urlDigest, lbryUrl).value;
         DownloadFrom(env.net, env.bundleDigest, env.settings.value, rh.name, loaded.downloadIndex, loaded.downloadPriorHash)
           == Ok((toSave.value.downloadIndex, toSave.value.downloadPriorHash))
         && toSave.value.index == FirstUnapplied(env.unbundle, InBundlePathsFixed(rh), loaded.index, toSave.value.downloadIndex)
    ensures r.Ok? ==> NewRepoHashFixed(nfd, urlDigest, lbryUrl) == Ok(r.value.rh) && r.value.name == r.value.rh.url
    ensures r.Ok? ==>
      ParseShowRef(env.showRefOut, env.showRefFailed) == Ok(r.value.refs) && LoadHead(env.headFile) == Ok(r.value.head)
  {
    var rh := NewRepoHashFixed(nfd, urlDigest, lbryUrl);
    if rh.Err? {
      return Err(rh.error), None;
    }
    if env.lock.Err? {
      return Err(env.lock.error), None;
    }
    if env.init.Err? {
      return Err(env.init.error), None;
    }
    if env.loadedSync.Err? {
      return Err(env.loadedSync.error), None;
    }
    if env.settings.Err? {
      return Err(env.settings.error), None;
    }
    var sync := new Sync(env.loadedSync.value);
    var down := DownloadBundles(rh.value, sync, env.settings.value, env.net, env.bundleDigest);
    if down.Err? {
      return Err(down.error), None;
    }
    var applied := ApplyBundlesFixed(rh.value, sync, env.unbundle);
    if applied.Err? {
      return Err(applied.error), None;
    }
    toSave := Some(sync.View());
    if env.save.Err? {
      return Err(env.save.error), toSave;
    }
    var refs := LoadRefs(env.showRefOut, env.showRefFailed);
    if refs.Err? {
      return Err(refs.error), toSave;
    }
    var head := LoadHead(env.headFile);
    if head.Err? {
      return Err(head.error), toSave;
    }
    r := Ok(StartupRec(rh.value.url, rh.value, sync.View(), head.value, refs.value));
  }
}
