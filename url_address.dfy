/** A structured reading of the address grammar of glib/lbry_url.go, written
    independently of the parser: an address is a channel, a stream, or a
    stream under a channel, each with an optional modifier, plus an optional
    query name.  `IsValid` accepts exactly the renderings of well-formed
    addresses, and the accessors return the parts they name. */
module UrlAddress {
  import opened Base
  import opened Text
  import opened LbryUrl

  /** A claim-id (`:hex`) or numeric (`*n`, `$n`) modifier. */
  datatype Modifier = NoModifier | ClaimIdModifier(hex: string) | NumberModifier(sigil: char, digits: string)

  datatype Claim = Claim(name: string, modifier: Modifier)

  /** Exactly one of the three forms an address can take. */
  datatype Path = ChannelOnly(channel: Claim) | StreamOnly(stream: Claim) | ChannelStream(channel: Claim, stream: Claim)

  datatype Address = Address(path: Path, query: Option<string>)

  predicate WellFormedName(s: string) {
    |s| > 0 && AllIn(s, NameChars) && RuneError !in s
  }

  predicate WellFormedModifier(m: Modifier) {
    match m
    case NoModifier => true
    case ClaimIdModifier(h) => |h| > 0 && AllIn(h, HexChars)
    case NumberModifier(sigil, d) => (sigil == '*' || sigil == '$') && |d| > 0 && AllIn(d, DigitChars)
  }

  predicate WellFormedClaim(c: Claim) {
    WellFormedName(c.name) && WellFormedModifier(c.modifier)
  }

  predicate WellFormedPath(p: Path) {
    match p
    case ChannelOnly(c) => WellFormedClaim(c)
    case StreamOnly(s) => WellFormedClaim(s)
    case ChannelStream(c, s) => WellFormedClaim(c) && WellFormedClaim(s)
  }

  predicate WellFormedQuery(q: Option<string>) {
    q.Some? ==> WellFormedName(q.value)
  }

  predicate WellFormed(a: Address) {
    WellFormedPath(a.path) && WellFormedQuery(a.query)
  }

  function RenderModifier(m: Modifier): string {
    match m
    case NoModifier => ""
    case ClaimIdModifier(h) => ":" + h
    case NumberModifier(sigil, d) => [sigil] + d
  }

  function RenderClaim(c: Claim): string {
    c.name + RenderModifier(c.modifier)
  }

  function RenderPath(p: Path): string {
    match p
    case ChannelOnly(c) => "@" + RenderClaim(c)
    case StreamOnly(s) => RenderClaim(s)
    case ChannelStream(c, s) => "@" + RenderClaim(c) + "/" + RenderClaim(s)
  }

  function RenderQuery(q: Option<string>): string {
    if q.Some? then "?" + q.value else ""
  }

  function Render(a: Address): string {
    Scheme + RenderPath(a.path) + RenderQuery(a.query)
  }

  /** A character that may follow a claim: the end, a `/` or a `?`. */
  predicate EndsClaim(r: string) {
    |r| == 0 || r[0] == '/' || r[0] == '?'
  }

  // ----- soundness: every well-formed address validates -------------------

  lemma NameParses(name: string, r: string)
    requires WellFormedName(name)
    requires |r| == 0 || (!IsNameChar(r[0]) && r[0] != RuneError)
    ensures ParseName(name + r) == Scan(r, true)
  {
    ScanOver(name, r, NameChars, false);
  }

  lemma ClaimIdParses(h: string, r: string)
    requires WellFormedModifier(ClaimIdModifier(h)) && EndsClaim(r)
    ensures ParseOptionalModifier(":" + h + r) == Scan(r, true)
  {
    var x := ":" + h + r;
    assert x[0] == ':' && x[1..] == h + r;
    assert HasPrefix(x, ":");
    ScanOver(h, r, HexChars, false);
  }

  lemma NumberParses(sigil: char, d: string, r: string)
    requires WellFormedModifier(NumberModifier(sigil, d)) && EndsClaim(r)
    ensures ParseOptionalModifier([sigil] + d + r) == Scan(r, true)
  {
    var x := [sigil] + d + r;
    assert x[0] == sigil && x[1..] == d + r;
    assert !HasPrefix(x, ":") && (HasPrefix(x, "*") || HasPrefix(x, "$"));
    ScanOver(d, r, DigitChars, false);
  }

  lemma ModifierParses(m: Modifier, r: string)
    requires WellFormedModifier(m) && EndsClaim(r)
    ensures ParseOptionalModifier(RenderModifier(m) + r) == Scan(r, true)
  {
    match m
    case NoModifier =>
      assert RenderModifier(m) + r == r;
      assert !HasPrefix(r, ":") && !HasPrefix(r, "*") && !HasPrefix(r, "$");
    case ClaimIdModifier(h) =>
      ClaimIdParses(h, r);
    case NumberModifier(sigil, d) =>
      NumberParses(sigil, d, r);
  }

  lemma ClaimParses(c: Claim, r: string)
    requires WellFormedClaim(c) && EndsClaim(r)
    ensures ParseClaimAndModifier(RenderClaim(c) + r) == Scan(r, true)
  {
    var m := RenderModifier(c.modifier) + r;
    assert RenderClaim(c) + r == c.name + m;
    assert |m| == 0 || m[0] in ":*$/?";
    NameParses(c.name, m);
    ModifierParses(c.modifier, r);
  }

  /** parsePath on input that does not start a channel. */
  lemma PathOfStream(x: string)
    requires !HasPrefix(x, "@")
    ensures ParsePath(x) == ParseClaimAndModifier(x)
  {
  }

  /** parsePath on a channel claim that is followed by `/`. */
  lemma PathOfChannelStream(x: string, tail: string)
    requires HasPrefix(x, "@") && ParseClaimAndModifier(x[1..]) == Scan(tail, true) && HasPrefix(tail, "/")
    ensures ParsePath(x) == ParseClaimAndModifier(tail[1..])
  {
  }

  /** parsePath on a channel claim that is not followed by `/`. */
  lemma PathOfChannel(x: string, tail: string)
    requires HasPrefix(x, "@") && ParseClaimAndModifier(x[1..]) == Scan(tail, true) && !HasPrefix(tail, "/")
    ensures ParsePath(x) == Scan(tail, true)
  {
  }

  lemma ChannelParses(c: Claim, r: string, x: string)
    requires WellFormedClaim(c) && (|r| == 0 || r[0] == '?')
    requires x == "@" + (RenderClaim(c) + r)
    ensures ParsePath(x) == Scan(r, true)
  {
    assert HasPrefix(x, "@") && x[1..] == RenderClaim(c) + r;
    ClaimParses(c, r);
    PathOfChannel(x, r);
  }

  lemma StreamParses(s: Claim, r: string, x: string)
    requires WellFormedClaim(s) && (|r| == 0 || r[0] == '?')
    requires x == RenderClaim(s) + r
    ensures ParsePath(x) == Scan(r, true)
  {
    assert x[0] == s.name[0] && IsNameChar(s.name[0]);
    PathOfStream(x);
    ClaimParses(s, r);
  }

  lemma ChannelStreamParses(c: Claim, s: Claim, r: string, x: string)
    requires WellFormedClaim(c) && WellFormedClaim(s) && (|r| == 0 || r[0] == '?')
    requires x == "@" + (RenderClaim(c) + ("/" + (RenderClaim(s) + r)))
    ensures ParsePath(x) == Scan(r, true)
  {
    var tail := "/" + (RenderClaim(s) + r);
    assert HasPrefix(x, "@") && x[1..] == RenderClaim(c) + tail;
    ClaimParses(c, tail);
    assert HasPrefix(tail, "/") && tail[1..] == RenderClaim(s) + r;
    PathOfChannelStream(x, tail);
    ClaimParses(s, r);
  }

  lemma ChannelPathParses(p: Path, r: string)
    requires p.ChannelOnly? && WellFormedPath(p) && (|r| == 0 || r[0] == '?')
    ensures ParsePath(RenderPath(p) + r) == Scan(r, true)
  {
    ChannelParses(p.channel, r, RenderPath(p) + r);
  }

  lemma StreamPathParses(p: Path, r: string)
    requires p.StreamOnly? && WellFormedPath(p) && (|r| == 0 || r[0] == '?')
    ensures ParsePath(RenderPath(p) + r) == Scan(r, true)
  {
    StreamParses(p.stream, r, RenderPath(p) + r);
  }

  lemma RenderChannelStream(c: Claim, s: Claim, r: string)
    ensures RenderPath(ChannelStream(c, s)) + r == "@" + (RenderClaim(c) + ("/" + (RenderClaim(s) + r)))
  {
  }

  lemma RenderChannelOnly(c: Claim, r: string)
    ensures RenderPath(ChannelOnly(c)) + r == "@" + (RenderClaim(c) + r)
  {
  }

  lemma ChannelStreamPathParses(p: Path, r: string)
    requires p.ChannelStream? && WellFormedPath(p) && (|r| == 0 || r[0] == '?')
    ensures ParsePath(RenderPath(p) + r) == Scan(r, true)
  {
    RenderChannelStream(p.channel, p.stream, r);
    ChannelStreamParses(p.channel, p.stream, r, RenderPath(p) + r);
  }

  /** Every well-formed path parses up to what follows it.  One lemma per
      form of path keeps each proof to a single rendering. */
  lemma PathParses(p: Path, r: string)
    requires WellFormedPath(p) && (|r| == 0 || r[0] == '?')
    ensures ParsePath(RenderPath(p) + r) == Scan(r, true)
  {
    if p.ChannelOnly? {
      ChannelPathParses(p, r);
    } else if p.StreamOnly? {
      StreamPathParses(p, r);
    } else {
      ChannelStreamPathParses(p, r);
    }
  }

  lemma QueryParses(q: Option<string>)
    requires WellFormedQuery(q)
    ensures ParseOptionalQuery(RenderQuery(q)) == Scan("", true)
  {
    if q.Some? {
      assert RenderQuery(q)[1..] == q.value + "";
      ScanOver(q.value, "", NameChars, false);
    }
  }

  /** Every well-formed address is valid. */
  lemma RenderIsValid(a: Address)
    requires WellFormed(a)
    ensures IsValid(Render(a))
  {
    var rq := RenderQuery(a.query);
    assert Render(a) == Scheme + (RenderPath(a.path) + rq);
    assert Render(a)[..7] == Scheme;
    PathParses(a.path, rq);
    QueryParses(a.query);
  }

  // ----- completeness: every valid address is a rendering ------------------

  lemma NameSplits(x: string)
    requires ParseName(x).ok
    ensures WellFormedName(x[..|x| - |ParseName(x).rest|])
    ensures x == x[..|x| - |ParseName(x).rest|] + ParseName(x).rest
  {
    ParseNameSpan(x);
    var n := Span(x, NameChars);
    assert x == x[..n] + x[n..];
  }

  lemma HexSplits(y: string) returns (h: string)
    requires HasPrefix(y, ":") && ParseHex(y[1..]).ok
    ensures |h| > 0 && AllIn(h, HexChars)
    ensures y == ":" + h + ParseHex(y[1..]).rest
  {
    ParseDigitsSpan(y[1..], HexChars);
    var k := Span(y[1..], HexChars);
    h := y[1..][..k];
    assert y[1..] == h + y[1..][k..];
    assert y == ":" + y[1..];
  }

  lemma DigitsSplits(y: string) returns (d: string)
    requires (HasPrefix(y, "*") || HasPrefix(y, "$")) && ParsePositiveNumber(y[1..]).ok
    ensures |d| > 0 && AllIn(d, DigitChars)
    ensures y == [y[0]] + d + ParsePositiveNumber(y[1..]).rest
  {
    ParseDigitsSpan(y[1..], DigitChars);
    var k := Span(y[1..], DigitChars);
    d := y[1..][..k];
    assert y[1..] == d + y[1..][k..];
    assert y == [y[0]] + y[1..];
  }

  lemma ModifierSplits(y: string) returns (m: Modifier)
    requires ParseOptionalModifier(y).ok
    ensures WellFormedModifier(m)
    ensures y == RenderModifier(m) + ParseOptionalModifier(y).rest
  {
    if HasPrefix(y, ":") {
      var h := HexSplits(y);
      m := ClaimIdModifier(h);
    } else if HasPrefix(y, "*") || HasPrefix(y, "$") {
      var d := DigitsSplits(y);
      m := NumberModifier(y[0], d);
    } else {
      m := NoModifier;
    }
  }

  lemma ClaimSplits(x: string) returns (c: Claim)
    requires ParseClaimAndModifier(x).ok
    ensures WellFormedClaim(c)
    ensures x == RenderClaim(c) + ParseClaimAndModifier(x).rest
  {
    var n := ParseName(x);
    NameSplits(x);
    var m := ModifierSplits(n.rest);
    c := Claim(x[..|x| - |n.rest|], m);
  }

  lemma ChannelPathSplits(x: string) returns (p: Path)
    requires ParsePath(x).ok && HasPrefix(x, "@")
    ensures WellFormedPath(p)
    ensures x == RenderPath(p) + ParsePath(x).rest
  {
    var ch := ClaimSplits(x[1..]);
    var rest := ParseClaimAndModifier(x[1..]).rest;
    assert x == "@" + x[1..];
    assert x[1..] == RenderClaim(ch) + rest;
    if HasPrefix(rest, "/") {
      var st := ClaimSplits(rest[1..]);
      var after := ParseClaimAndModifier(rest[1..]).rest;
      assert rest == "/" + (RenderClaim(st) + after);
      PathOfChannelStream(x, rest);
      p := ChannelStream(ch, st);
      RenderChannelStream(ch, st, after);
    } else {
      PathOfChannel(x, rest);
      p := ChannelOnly(ch);
      RenderChannelOnly(ch, rest);
    }
  }

  lemma PathSplits(x: string) returns (p: Path)
    requires ParsePath(x).ok
    ensures WellFormedPath(p)
    ensures x == RenderPath(p) + ParsePath(x).rest
  {
    if HasPrefix(x, "@") {
      p := ChannelPathSplits(x);
    } else {
      PathOfStream(x);
      var st := ClaimSplits(x);
      p := StreamOnly(st);
    }
  }

  /** A query validates only as `?name`: `=` and `&` both stop parseName,
      and nothing skips them before the next call. */
  lemma QuerySplits(y: string) returns (q: Option<string>)
    requires ParseOptionalQuery(y).ok && ParseOptionalQuery(y).rest == ""
    ensures WellFormedQuery(q) && y == RenderQuery(q)
  {
    if HasPrefix(y, "?") {
      var p := ParseQueryParameter(y[1..]);
      QueryParameterIsName(y[1..]);
      QueryLoopNeverIterates(p.rest);
      NameSplits(y[1..]);
      assert y == "?" + y[1..];
      q := Some(y[1..][..|y[1..]| - |p.rest|]);
    } else {
      q := None;
    }
  }

  /** Every valid address is the rendering of a well-formed one. */
  lemma ValidIsRendered(u: string) returns (a: Address)
    requires IsValid(u)
    ensures WellFormed(a) && Render(a) == u
  {
    var body := ParseScheme(u).rest;
    assert u == Scheme + body;
    var rest := ParsePath(body).rest;
    assert ParsePath(body).ok && ParseOptionalQuery(rest).ok && ParseOptionalQuery(rest).rest == "";
    var p := PathSplits(body);
    var q := QuerySplits(rest);
    a := Address(p, q);
    RenderParts(p, q, body, u);
  }

  /** The scheme, then a path, then a query, whatever way the text is cut. */
  lemma RenderParts(p: Path, q: Option<string>, body: string, u: string)
    requires body == RenderPath(p) + RenderQuery(q) && u == Scheme + body
    ensures Render(Address(p, q)) == u
  {
  }

  // ----- queries ----------------------------------------------------------

  /** Neither `=` nor `&` occurs in a valid address: a query is a single
      name, because parseQueryParameter hands `=` and `&` to parseName. */
  lemma NoQueryParameters(u: string)
    requires IsValid(u)
    ensures '=' !in u && '&' !in u
  {
    var a := ValidIsRendered(u);
    RenderHasNoParameters(a);
  }

  lemma RenderHasNoParameters(a: Address)
    requires WellFormed(a)
    ensures '=' !in Render(a) && '&' !in Render(a)
  {
    RenderAvoids(a, '=');
    RenderAvoids(a, '&');
  }

  lemma NameAvoids(s: string, c: char)
    requires WellFormedName(s) && !IsNameChar(c)
    ensures c !in s
  {
  }

  lemma ClaimAvoids(cl: Claim, c: char)
    requires WellFormedClaim(cl) && !IsNameChar(c) && !IsHexChar(c) && c !in ":*$"
    ensures c !in RenderClaim(cl)
  {
  }

  lemma QueryAvoids(q: Option<string>, c: char)
    requires WellFormedQuery(q) && !IsNameChar(c) && c != '?'
    ensures c !in RenderQuery(q)
  {
  }

  lemma ChannelAvoids(a: Address, c: char)
    requires a.path.ChannelOnly? && WellFormed(a) && !IsNameChar(c) && !IsHexChar(c) && c !in ":*$@/?"
    ensures c !in Render(a)
  {
    QueryAvoids(a.query, c);
    ClaimAvoids(a.path.channel, c);
  }

  lemma StreamAvoids(a: Address, c: char)
    requires a.path.StreamOnly? && WellFormed(a) && !IsNameChar(c) && !IsHexChar(c) && c !in ":*$@/?"
    ensures c !in Render(a)
  {
    QueryAvoids(a.query, c);
    ClaimAvoids(a.path.stream, c);
  }

  lemma ChannelStreamAvoids(a: Address, c: char)
    requires a.path.ChannelStream? && WellFormed(a) && !IsNameChar(c) && !IsHexChar(c) && c !in ":*$@/?"
    ensures c !in Render(a)
  {
    QueryAvoids(a.query, c);
    ClaimAvoids(a.path.channel, c);
    ClaimAvoids(a.path.stream, c);
  }

  /** A character outside every class and every separator is not rendered. */
  lemma RenderAvoids(a: Address, c: char)
    requires WellFormed(a) && !IsNameChar(c) && !IsHexChar(c) && c !in ":*$@/?"
    ensures c !in Render(a)
  {
    if a.path.ChannelOnly? {
      ChannelAvoids(a, c);
    } else if a.path.StreamOnly? {
      StreamAvoids(a, c);
    } else {
      ChannelStreamAvoids(a, c);
    }
  }

  // ----- accessors on a rendered address -----------------------------------

  /** Cutting at the first of `stops` after a run that holds none of them. */
  lemma CutAtRun(run: string, rest: string, stops: string)
    requires forall i :: 0 <= i < |run| ==> run[i] !in stops
    requires |rest| == 0 || rest[0] in stops
    ensures CutAt(run + rest, stops) == run
  {
    IndexAnyAfter(run, rest, stops);
    assert (run + rest)[..|run|] == run;
  }

  /** A claim's name ends at its modifier or at what follows the claim. */
  lemma ClaimCuts(cl: Claim, tail: string)
    requires WellFormedClaim(cl) && EndsClaim(tail)
    ensures CutAt(RenderClaim(cl) + tail, ":*$/?") == cl.name
    ensures CutAt(RenderClaim(cl) + tail, ":*$?") == cl.name || tail[0] == '/'
    ensures CutAt(RenderClaim(cl) + tail, "/?") == RenderClaim(cl)
  {
    var m := RenderModifier(cl.modifier);
    assert RenderClaim(cl) + tail == cl.name + (m + tail);
    CutAtRun(cl.name, m + tail, ":*$/?");
    if |m| > 0 || |tail| == 0 || tail[0] == '?' {
      CutAtRun(cl.name, m + tail, ":*$?");
    }
    ClaimAvoids(cl, '/');
    ClaimAvoids(cl, '?');
    CutAtRun(RenderClaim(cl), tail, "/?");
  }

  /** A stream claim ends at the query. */
  lemma StreamCuts(st: Claim, q: Option<string>)
    requires WellFormedClaim(st) && WellFormedQuery(q)
    ensures CutAt(RenderClaim(st) + RenderQuery(q), ":*$?") == st.name
    ensures CutAt(RenderClaim(st) + RenderQuery(q), "?") == RenderClaim(st)
  {
    ClaimCuts(st, RenderQuery(q));
    ClaimAvoids(st, '?');
    CutAtRun(RenderClaim(st), RenderQuery(q), "?");
  }

  /** The same, with the `/` that StreamWithModifiers keeps in front. */
  lemma SlashStreamCuts(st: Claim, q: Option<string>)
    requires WellFormedClaim(st) && WellFormedQuery(q)
    ensures CutAt("/" + (RenderClaim(st) + RenderQuery(q)), "?") == "/" + RenderClaim(st)
  {
    assert "/" + (RenderClaim(st) + RenderQuery(q)) == ("/" + RenderClaim(st)) + RenderQuery(q);
    ClaimAvoids(st, '?');
    CutAtRun("/" + RenderClaim(st), RenderQuery(q), "?");
  }

  /** The channel accessors on `lbry://@<claim><tail>`. */
  lemma ChannelCuts(ch: Claim, tail: string, u: string)
    requires WellFormedClaim(ch) && EndsClaim(tail)
    requires u == ChannelScheme + (RenderClaim(ch) + tail)
    ensures ChannelName(u) == (ch.name, true)
    ensures ChannelWithModifiers(u) == (RenderClaim(ch), true)
  {
    assert HasPrefix(u, ChannelScheme) && u[8..] == RenderClaim(ch) + tail;
    ClaimCuts(ch, tail);
  }

  /** A channel-only address has no `/` after the scheme. */
  lemma ChannelOnlyHasNoSlash(ch: Claim, q: Option<string>, u: string)
    requires WellFormedClaim(ch) && WellFormedQuery(q)
    requires u == ChannelScheme + (RenderClaim(ch) + RenderQuery(q))
    ensures |u| >= 8 && HasPrefix(u[7..], "@") && IndexAny(u[7..], "/") == -1
  {
    assert u[7..] == "@" + (RenderClaim(ch) + RenderQuery(q));
    ClaimAvoids(ch, '/');
    QueryAvoids(q, '/');
  }

  /** The stream accessors on `lbry://@<claim>[?query]`. */
  lemma ChannelOnlyCuts(ch: Claim, q: Option<string>, u: string)
    requires WellFormedClaim(ch) && WellFormedQuery(q)
    requires u == ChannelScheme + (RenderClaim(ch) + RenderQuery(q))
    ensures StreamName(u) == ("", false)
    ensures StreamWithModifiers(u) == ("", false)
    ensures StreamWithModifiersFixed(u) == ("", false)
  {
    ChannelOnlyHasNoSlash(ch, q, u);
  }

  /** The stream accessors on `<claim><query>` with no channel. */
  lemma StreamOnlyCuts(st: Claim, q: Option<string>, u: string)
    requires WellFormedClaim(st) && WellFormedQuery(q)
    requires u == Scheme + (RenderClaim(st) + RenderQuery(q))
    ensures ChannelName(u) == ("", false) && ChannelWithModifiers(u) == ("", false)
    ensures StreamName(u) == (st.name, true)
    ensures StreamWithModifiers(u) == (RenderClaim(st), true)
    ensures StreamWithModifiersFixed(u) == (RenderClaim(st), true)
  {
    assert u[7..] == RenderClaim(st) + RenderQuery(q);
    assert u[7] == st.name[0] && IsNameChar(st.name[0]);
    assert !HasPrefix(u, ChannelScheme) && !HasPrefix(u[7..], "@");
    StreamCuts(st, q);
  }

  /** What follows `lbry://` in a channel address. */
  lemma ChannelSchemeTail(x: string, u: string)
    requires u == ChannelScheme + x
    ensures |u| >= 8 && u[7..] == "@" + x
  {
  }

  /** Where the first `/` falls in `@<channel>/<stream><query>`. */
  lemma ChannelStreamSlash(c: string, t: string, x: string)
    requires '/' !in c
    requires x == "@" + (c + ("/" + t))
    ensures HasPrefix(x, "@")
    ensures IndexAny(x, "/") == 1 + |c|
    ensures x[1 + |c|..] == "/" + t
    ensures x[2 + |c|..] == t
  {
    assert x == ("@" + c) + ['/'] + t;
    FirstSeparator("@" + c, '/', t);
  }

  /** The stream accessors on `lbry://@<c>/<t>`, for any `c` without `/`. */
  lemma StreamAccessorsAfterChannel(c: string, t: string, u: string)
    requires '/' !in c && u == ChannelScheme + (c + ("/" + t))
    ensures StreamName(u) == (CutAt(t, ":*$?"), |CutAt(t, ":*$?")| > 0)
    ensures StreamWithModifiers(u) == (CutAt("/" + t, "?"), true)
    ensures StreamWithModifiersFixed(u) == (CutAt(t, "?"), true)
  {
    ChannelSchemeTail(c + ("/" + t), u);
    ChannelStreamSlash(c, t, u[7..]);
  }

  /** The stream accessors on `lbry://@<channel>/<stream><query>`. */
  lemma ChannelStreamCuts(ch: Claim, st: Claim, q: Option<string>, u: string)
    requires WellFormedClaim(ch) && WellFormedClaim(st) && WellFormedQuery(q)
    requires u == ChannelScheme + (RenderClaim(ch) + ("/" + (RenderClaim(st) + RenderQuery(q))))
    ensures StreamName(u) == (st.name, true)
    ensures StreamWithModifiers(u) == ("/" + RenderClaim(st), true)
    ensures StreamWithModifiersFixed(u) == (RenderClaim(st), true)
  {
    var t := RenderClaim(st) + RenderQuery(q);
    ClaimAvoids(ch, '/');
    StreamAccessorsAfterChannel(RenderClaim(ch), t, u);
    StreamCuts(st, q);
    SlashStreamCuts(st, q);
  }

  /** NewLbryUrl accepts a text exactly when, normalized and completed with
      the scheme, it is the full address of a well-formed address. */
  lemma NewLbryUrlRendered(nfd: Nfd, x: string)
    ensures NewLbryUrl(nfd, x).Ok? <==> exists a :: WellFormed(a) && Render(a) == Completed(nfd, x)
  {
    if NewLbryUrl(nfd, x).Ok? {
      var a := ValidIsRendered(Completed(nfd, x));
    }
    if a :| WellFormed(a) && Render(a) == Completed(nfd, x) {
      RenderIsValid(a);
    }
  }

  /** What each accessor returns on the rendering of a well-formed address. */
  lemma AccessorsOfRender(a: Address)
    requires WellFormed(a)
    ensures ChannelName(Render(a)) ==
      if a.path.StreamOnly? then ("", false) else (a.path.channel.name, true)
    ensures ChannelWithModifiers(Render(a)) ==
      if a.path.StreamOnly? then ("", false) else (RenderClaim(a.path.channel), true)
    ensures StreamName(Render(a)) ==
      if a.path.ChannelOnly? then ("", false) else (a.path.stream.name, true)
    ensures StreamWithModifiersFixed(Render(a)) ==
      if a.path.ChannelOnly? then ("", false) else (RenderClaim(a.path.stream), true)
    ensures StreamWithModifiers(Render(a)) ==
      match a.path
      case ChannelOnly(_) => ("", false)
      case StreamOnly(st) => (RenderClaim(st), true)
      case ChannelStream(_, st) => ("/" + RenderClaim(st), true)
  {
    var q := a.query;
    match a.path
    case ChannelOnly(ch) =>
      assert Render(a) == ChannelScheme + (RenderClaim(ch) + RenderQuery(q));
      ChannelCuts(ch, RenderQuery(q), Render(a));
      ChannelOnlyCuts(ch, q, Render(a));
    case StreamOnly(st) =>
      assert Render(a) == Scheme + (RenderClaim(st) + RenderQuery(q));
      StreamOnlyCuts(st, q, Render(a));
    case ChannelStream(ch, st) =>
      var tail := "/" + (RenderClaim(st) + RenderQuery(q));
      assert Render(a) == ChannelScheme + (RenderClaim(ch) + tail);
      ChannelCuts(ch, tail, Render(a));
      ChannelStreamCuts(ch, st, q, Render(a));
  }

  /** StreamWithModifiers as written keeps the `/` in front of a stream that
      follows a channel; the corrected version does not. */
  lemma StreamWithModifiersKeepsSlash(ch: Claim, st: Claim)
    requires WellFormedClaim(ch) && WellFormedClaim(st)
    ensures StreamWithModifiers(Render(Address(ChannelStream(ch, st), None))) == ("/" + RenderClaim(st), true)
    ensures StreamWithModifiersFixed(Render(Address(ChannelStream(ch, st), None))) == (RenderClaim(st), true)
  {
    var u := Render(Address(ChannelStream(ch, st), None));
    assert u == ChannelScheme + (RenderClaim(ch) + ("/" + (RenderClaim(st) + RenderQuery(None))));
    ChannelStreamCuts(ch, st, None, u);
  }
}
