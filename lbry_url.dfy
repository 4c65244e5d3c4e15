/** glib/lbry_url.go: the `lbry://[@channel[modifier]/]stream[modifier][?query]`
    address grammar, checked by a hand-written recursive-descent parser, and
    the accessors that cut a channel or stream name out of a valid address.

    Every parse step returns the unread input and an ok flag, as the Go
    functions return `(string, bool)`. */
module LbryUrl {
  import opened Base
  import opened Text

  /** Unicode NFD decomposition (golang.org/x/text/unicode/norm), left
      uninterpreted: every operation that normalizes takes it as a parameter. */
  type Nfd = string -> string

  const Scheme: string := "lbry://"
  const ChannelScheme: string := "lbry://@"

  /** utf8.RuneError.  DecodeRuneInString also returns it for a literal
      U+FFFD, so a scan that reaches one fails. */
  const RuneError: char := '\U{FFFD}'

  /** normalize: NFD, then lowercase. */
  function Normalize(nfd: Nfd, s: string): string {
    ToLower(nfd(s))
  }

  // ----- character classes ------------------------------------------------

  /** The characters isNameChar excludes by name: `= & # : * $ @ % ? /`. */
  predicate IsReserved(c: char) {
    c == '=' || c == '&' || c == '#' || c == ':' || c == '*' ||
    c == '$' || c == '@' || c == '%' || c == '?' || c == '/'
  }

  /** isNameChar: a character allowed in a channel, stream or query name. */
  predicate IsNameChar(c: char) {
    !IsReserved(c) &&
    (c as int == 0x9 || c as int == 0xA || c as int == 0xD ||
     0x20 <= c as int <= 0xD7FF ||
     0xE000 <= c as int <= 0xFFFD ||
     0x10000 <= c as int <= 0x10FFFF)
  }

  /** isHexChar: lowercase base16 digits only. */
  predicate IsHexChar(c: char) {
    0x61 <= c as int <= 0x66 || 0x30 <= c as int <= 0x39
  }

  /** isDigitChar */
  predicate IsDigitChar(c: char) {
    0x30 <= c as int <= 0x39
  }

  /** The three scanning loops differ only in the class they accept. */
  datatype CharClass = NameChars | HexChars | DigitChars

  predicate InClass(c: char, cls: CharClass) {
    match cls
    case NameChars => IsNameChar(c)
    case HexChars => IsHexChar(c)
    case DigitChars => IsDigitChar(c)
  }

  predicate AllIn(s: string, cls: CharClass) {
    forall i :: 0 <= i < |s| ==> InClass(s[i], cls)
  }

  // ----- the scanning loops -------------------------------------------------

  /** The unread input and the ok flag of one parse step. */
  datatype Scan = Scan(rest: string, ok: bool)

  /** What every parse function returns on a hard failure. */
  const Fail: Scan := Scan("", false)

  /** One run of the loop in parseName / parseHex / parsePositiveNumber,
      entered with the flag `ok`: stop at the end of input or at the first
      character outside the class, fail outright on RuneError. */
  function ScanFrom(x: string, cls: CharClass, ok: bool): Scan
    decreases |x|
  {
    if |x| == 0 then Scan(x, ok)
    else if x[0] == RuneError then Fail
    else if !InClass(x[0], cls) then Scan(x, ok)
    else ScanFrom(x[1..], cls, true)
  }

  /** The length of the longest prefix of `x` inside the class. */
  function Span(x: string, cls: CharClass): (n: nat)
    ensures n <= |x|
    ensures AllIn(x[..n], cls)
    ensures n < |x| ==> !InClass(x[n], cls)
  {
    if |x| == 0 || !InClass(x[0], cls) then 0
    else
      var n := 1 + Span(x[1..], cls);
      assert forall i :: 1 <= i < n ==> x[..n][i] == x[1..][..n - 1][i - 1];
      n
  }

  /** The characters the loop decodes: the span and the one that stops it. */
  function Visited(x: string, cls: CharClass): string {
    var n := Span(x, cls);
    if n < |x| then x[..n + 1] else x
  }

  /** The loop consumes exactly the span, and fails only on a RuneError it
      decodes on the way. */
  lemma {:induction false} ScanFromSpan(x: string, cls: CharClass, ok: bool)
    ensures ScanFrom(x, cls, ok) ==
      if RuneError in Visited(x, cls) then Fail
      else Scan(x[Span(x, cls)..], ok || Span(x, cls) > 0)
  {
    if |x| > 0 && x[0] != RuneError && InClass(x[0], cls) {
      ScanFromSpan(x[1..], cls, true);
      assert Visited(x, cls) == [x[0]] + Visited(x[1..], cls);
      assert x[Span(x, cls)..] == x[1..][Span(x[1..], cls)..];
    } else if |x| > 0 && !InClass(x[0], cls) {
      assert Visited(x, cls) == [x[0]];
    } else if |x| > 0 {
      assert Visited(x, cls)[0] == RuneError;
    }
  }

  /** A scan over a whole run of class characters stops right behind it. */
  lemma {:induction false} ScanOver(c: string, r: string, cls: CharClass, ok: bool)
    requires AllIn(c, cls) && RuneError !in c
    requires |r| == 0 || (!InClass(r[0], cls) && r[0] != RuneError)
    ensures ScanFrom(c + r, cls, ok) == Scan(r, ok || |c| > 0)
  {
    if |c| > 0 {
      assert (c + r)[0] == c[0] && (c + r)[1..] == c[1..] + r;
      ScanOver(c[1..], r, cls, true);
    } else {
      assert c + r == r;
    }
  }

  /** The loop itself, as parseName, parseHex and parsePositiveNumber run it:
      advance `x` one decoded character at a time and remember progress in `ok`. */
  method ScanLoop(input: string, cls: CharClass) returns (x: string, ok: bool)
    ensures ok ==> |x| < |input| && x == input[|input| - |x|..]
    ensures ok ==> |x| == 0 || !InClass(x[0], cls)
    ensures Scan(x, ok) == ScanFrom(input, cls, false)
  {
    x, ok := input, false;
    while true
      invariant ScanFrom(x, cls, ok) == ScanFrom(input, cls, false)
      invariant |x| <= |input| && x == input[|input| - |x|..]
      invariant ok ==> |x| < |input|
      decreases |x|
    {
      if |x| == 0 {
        break;
      }
      if x[0] == RuneError {
        return "", false;
      }
      if !InClass(x[0], cls) {
        break;
      }
      ok := true;
      x := x[1..];
    }
  }

  /** parseName: at least one name character, then stop at the first other one. */
  function ParseName(x: string): (r: Scan)
    ensures r.ok ==> |r.rest| < |x| && r.rest == x[|x| - |r.rest|..]
  {
    ScanFromSpan(x, NameChars, false);
    ScanFrom(x, NameChars, false)
  }

  /** parseName succeeds exactly on a nonempty run of name characters with no
      RuneError in it, and leaves what follows the run. */
  lemma ParseNameSpan(x: string)
    ensures ParseName(x).ok <==> Span(x, NameChars) > 0 && RuneError !in x[..Span(x, NameChars)]
    ensures ParseName(x).ok ==> ParseName(x).rest == x[Span(x, NameChars)..]
    ensures ParseName(x).ok ==> |ParseName(x).rest| == 0 || !IsNameChar(ParseName(x).rest[0])
  {
    ScanFromSpan(x, NameChars, false);
  }

  /** parseHex: at least one lowercase hex digit. */
  function ParseHex(x: string): Scan {
    ScanFrom(x, HexChars, false)
  }

  /** parsePositiveNumber: at least one decimal digit. */
  function ParsePositiveNumber(x: string): Scan {
    ScanFrom(x, DigitChars, false)
  }

  /** parseHex and parsePositiveNumber consume exactly a nonempty run of
      their class, and fail when the input does not start with one. */
  lemma ParseDigitsSpan(x: string, cls: CharClass)
    requires cls != NameChars
    ensures ScanFrom(x, cls, false).ok ==>
      Span(x, cls) > 0 && ScanFrom(x, cls, false).rest == x[Span(x, cls)..]
    ensures |x| == 0 || !InClass(x[0], cls) ==> !ScanFrom(x, cls, false).ok
  {
    ScanFromSpan(x, cls, false);
  }

  // ----- the recursive descent ---------------------------------------------

  /** parseScheme */
  function ParseScheme(x: string): (r: Scan)
    ensures r.ok <==> HasPrefix(x, Scheme)
    ensures r.ok ==> x == Scheme + r.rest
  {
    if !HasPrefix(x, Scheme) then Fail
    else
      assert x == x[..7] + x[7..];
      Scan(x[7..], true)
  }

  /** parseOptionalModifier: `:` and at least one hex digit, or `*` / `$` and
      at least one decimal digit, or nothing. */
  function ParseOptionalModifier(x: string): Scan {
    if HasPrefix(x, ":") then ParseHex(x[1..])
    else if HasPrefix(x, "*") || HasPrefix(x, "$") then ParsePositiveNumber(x[1..])
    else Scan(x, true)
  }

  /** parseClaimAndModifier */
  function ParseClaimAndModifier(x: string): Scan {
    var n := ParseName(x);
    if !n.ok then Fail else ParseOptionalModifier(n.rest)
  }

  /** parsePath: `@channel[/stream]` or `stream`. */
  function ParsePath(x: string): Scan {
    if HasPrefix(x, "@") then
      var c := ParseClaimAndModifier(x[1..]);
      if !c.ok then Fail
      else if HasPrefix(c.rest, "/") then ParseClaimAndModifier(c.rest[1..])
      else c
    else ParseClaimAndModifier(x)
  }

  /** parseQueryParameter: a name, optionally followed by `=` and another
      parseName, which fails at once because `=` is not a name character. */
  function ParseQueryParameter(x: string): (r: Scan)
    ensures r.ok ==> |r.rest| < |x| && r.rest == x[|x| - |r.rest|..]
  {
    var n := ParseName(x);
    if !n.ok then Fail
    else if HasPrefix(n.rest, "=") then ParseName(n.rest)
    else n
  }

  /** The `for strings.HasPrefix(x, "&")` loop of parseOptionalQuery. */
  function QueryLoop(x: string): (r: Scan)
    decreases |x|
  {
    if HasPrefix(x, "&") then
      var p := ParseQueryParameter(x);
      if !p.ok then Fail else QueryLoop(p.rest)
    else Scan(x, true)
  }

  /** parseOptionalQuery */
  function ParseOptionalQuery(x: string): (r: Scan)
    ensures !HasPrefix(x, "?") ==> r == Scan(x, true)
  {
    if !HasPrefix(x, "?") then Scan(x, true)
    else
      var p := ParseQueryParameter(x[1..]);
      if !p.ok then Fail else QueryLoop(p.rest)
  }

  /** parseOptionalQuery as written: one parameter after `?`, then the
      `for strings.HasPrefix(x, "&")` loop. */
  method ParseOptionalQueryLoop(input: string) returns (x: string, ok: bool)
    ensures Scan(x, ok) == ParseOptionalQuery(input)
  {
    if !HasPrefix(input, "?") {
      return input, true;
    }
    var p := ParseQueryParameter(input[1..]);
    if !p.ok {
      return "", false;
    }
    x := p.rest;
    while HasPrefix(x, "&")
      invariant QueryLoop(x) == ParseOptionalQuery(input)
      decreases |x|
    {
      p := ParseQueryParameter(x);
      if !p.ok {
        return "", false;
      }
      x := p.rest;
    }
    return x, true;
  }

  /** A `=value` never parses: `=` is not a name character, so a query
      parameter that succeeds is a bare name. */
  lemma QueryParameterIsName(x: string)
    requires ParseQueryParameter(x).ok
    ensures ParseQueryParameter(x) == ParseName(x)
    ensures |ParseName(x).rest| == 0 || ParseName(x).rest[0] != '='
  {
    ParseNameSpan(ParseName(x).rest);
  }

  /** The `&` loop never completes an iteration: parseQueryParameter is
      handed the `&` itself, which parseName rejects. */
  lemma QueryLoopNeverIterates(x: string)
    ensures HasPrefix(x, "&") ==> QueryLoop(x) == Fail
    ensures !HasPrefix(x, "&") ==> QueryLoop(x) == Scan(x, true)
  {
    if HasPrefix(x, "&") {
      ParseNameSpan(x);
    }
  }

  /** parseUrl */
  function ParseUrl(x: string): Scan {
    var s := ParseScheme(x);
    if !s.ok then Fail
    else
      var p := ParsePath(s.rest);
      if !p.ok then Fail
      else
        var q := ParseOptionalQuery(p.rest);
        if !q.ok then Fail else q
  }

  /** lbryUrl.IsValid */
  predicate IsValid(url: string) {
    ParseUrl(url).ok && |ParseUrl(url).rest| == 0
  }

  /** IsUrlValid: normalize, then validate; the scheme is not added. */
  predicate IsUrlValid(nfd: Nfd, x: string) {
    IsValid(Normalize(nfd, x))
  }

  /** The normalized text with the scheme in front of it, added only when
      it is missing. */
  function Completed(nfd: Nfd, x: string): (r: string)
    ensures HasPrefix(r, Scheme)
    ensures r == Normalize(nfd, x) <==> HasPrefix(Normalize(nfd, x), Scheme)
    ensures r != Normalize(nfd, x) ==> r == Scheme + Normalize(nfd, x)
  {
    var n := Normalize(nfd, x);
    if HasPrefix(n, Scheme) then n else Scheme + n
  }

  /** NewLbryUrl: normalize, add the scheme when it is missing, validate. */
  function NewLbryUrl(nfd: Nfd, x: string): (r: Result<string>)
    ensures r.Ok? <==> IsValid(Completed(nfd, x))
    ensures r.Ok? ==> r.value == Completed(nfd, x) && HasPrefix(r.value, Scheme)
    ensures r.Ok? ==> (r.value == Normalize(nfd, x) <==> HasPrefix(Normalize(nfd, x), Scheme))
    ensures r.Err? ==> r.error == InvalidLbryUrl
  {
    var y := Completed(nfd, x);
    if !IsValid(y) then Err(InvalidLbryUrl) else Ok(y)
  }

  // ----- accessors ------------------------------------------------------------

  /** HasModifiers: a claim-id, sequence or amount-order sigil is present. */
  function HasModifiers(x: string): (r: bool)
    ensures r <==> ':' in x || '*' in x || '$' in x
  {
    IndexAny(x, ":*$") != -1
  }

  /** The text of `x` up to the first of `stops`. */
  function CutAt(x: string, stops: string): (r: string)
    ensures |r| <= |x| && r == x[..|r|]
    ensures forall i :: 0 <= i < |r| ==> r[i] !in stops
    ensures |r| < |x| ==> x[|r|] in stops
  {
    var end := IndexAny(x, stops);
    if end != -1 then x[..end] else x
  }

  /** ChannelName: the channel name without its modifier, stream or query. */
  function ChannelName(url: string): (r: (string, bool))
    ensures r.1 <==> HasPrefix(url, ChannelScheme) && |r.0| > 0
    ensures forall i :: 0 <= i < |r.0| ==> r.0[i] !in ":*$/?"
  {
    if !HasPrefix(url, ChannelScheme) then ("", false)
    else
      var name := CutAt(url[8..], ":*$/?");
      (name, |name| > 0)
  }

  /** Cutting at more stop characters cuts no later. */
  lemma CutAtMoreStops(x: string, fewer: string, more: string)
    requires forall c :: c in fewer ==> c in more
    ensures CutAt(x, more) <= CutAt(x, fewer)
  {
    var a, b := CutAt(x, more), CutAt(x, fewer);
    if |a| > |b| {
      assert false;
    }
  }

  /** ChannelWithModifiers: the channel name and its modifier, so the
      channel name ChannelName returns is its prefix. */
  function ChannelWithModifiers(url: string): (r: (string, bool))
    ensures r.1 <==> HasPrefix(url, ChannelScheme) && |r.0| > 0
    ensures forall i :: 0 <= i < |r.0| ==> r.0[i] !in "/?"
    ensures ChannelName(url).0 <= r.0
  {
    if !HasPrefix(url, ChannelScheme) then ("", false)
    else
      var name := CutAt(url[8..], "/?");
      CutAtMoreStops(url[8..], "/?", ":*$/?");
      (name, |name| > 0)
  }

  /** StreamWithModifiers, as written: the slice after a channel starts at
      the `/`, so the separator is kept. */
  function StreamWithModifiers(url: string): (r: (string, bool))
    requires |url| >= 7
    ensures !r.1 ==> r.0 == ""
    ensures r.1 <==> !(HasPrefix(url[7..], "@") && '/' !in url[7..])
    ensures forall i :: 0 <= i < |r.0| ==> r.0[i] != '?'
  {
    var x := url[7..];
    if HasPrefix(x, "@") && IndexAny(x, "/") == -1 then ("", false)
    else
      var y := if HasPrefix(x, "@") then x[IndexAny(x, "/")..] else x;
      (CutAt(y, "?"), true)
  }

  /** StreamWithModifiers as its comment intends: the stream segment alone. */
  function StreamWithModifiersFixed(url: string): (r: (string, bool))
    requires |url| >= 7
    ensures !r.1 ==> r.0 == ""
    ensures r.1 <==> !(HasPrefix(url[7..], "@") && '/' !in url[7..])
    ensures forall i :: 0 <= i < |r.0| ==> r.0[i] != '?'
  {
    var x := url[7..];
    if HasPrefix(x, "@") && IndexAny(x, "/") == -1 then ("", false)
    else
      var y := if HasPrefix(x, "@") then x[IndexAny(x, "/") + 1..] else x;
      (CutAt(y, "?"), true)
  }

  /** StreamName: the stream name without modifier or query; false for a
      channel-only address. */
  function StreamName(url: string): (r: (string, bool))
    requires |url| >= 7
    ensures r.1 <==> |r.0| > 0
    ensures forall i :: 0 <= i < |r.0| ==> r.0[i] !in ":*$?"
    ensures HasPrefix(url[7..], "@") && '/' !in url[7..] ==> r == ("", false)
  {
    var x := url[7..];
    if HasPrefix(x, "@") && IndexAny(x, "/") == -1 then ("", false)
    else
      var y := if HasPrefix(x, "@") then x[IndexAny(x, "/") + 1..] else x;
      var name := CutAt(y, ":*$?");
      (name, |name| > 0)
  }
}
