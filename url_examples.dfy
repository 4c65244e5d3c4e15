/** The table of glib/lbry_url_test.go, and the examples in the doc comments
    of glib/lbry_url.go, as facts about the model. */
module UrlExamples {
  import opened Base
  import opened Text
  import opened LbryUrl
  import opened UrlAddress

  predicate IsAscii(s: string) {
    forall i :: 0 <= i < |s| ==> s[i] as int < 128
  }

  /** NFD decomposes only non-ASCII characters; that is all the examples
      need to know about it. */
  ghost predicate KeepsAscii(nfd: Nfd) {
    forall s :: IsAscii(s) ==> nfd(s) == s
  }

  /** The modifiers the test table attaches to channels and streams. */
  predicate TableModifier(m: string) {
    m == "" || m == "$1" || m == ":EF234" || m == "*234"
  }

  /** Each table modifier lowercases to the rendering of a well-formed one. */
  lemma ModifierEntry(m: string) returns (mod: Modifier)
    requires TableModifier(m)
    ensures IsAscii(m) && WellFormedModifier(mod) && ToLower(m) == RenderModifier(mod)
  {
    if m == "" {
      mod := NoModifier;
    } else if m == "$1" {
      mod := NumberModifier('$', "1");
    } else if m == ":EF234" {
      mod := ClaimIdModifier("ef234");
      assert ToLower(m) == ":ef234";
    } else {
      mod := NumberModifier('*', "234");
    }
  }

  /** A name of lowercase ASCII letters, like `channel` and `stream`. */
  predicate LowerWord(n: string) {
    |n| > 0 && forall i :: 0 <= i < |n| ==> 'a' <= n[i] <= 'z'
  }

  lemma LowerName(n: string)
    requires LowerWord(n)
    ensures WellFormedName(n) && IsAscii(n) && ToLower(n) == n
  {
  }

  /** A URL that lowercases to a well-formed rendering is accepted. */
  lemma Accepted(nfd: Nfd, u: string, a: Address)
    requires KeepsAscii(nfd) && IsAscii(u) && WellFormed(a) && ToLower(u) == Render(a)
    ensures IsUrlValid(nfd, u)
  {
    RenderIsValid(a);
  }

  lemma AsciiAppend(a: string, b: string)
    requires IsAscii(a) && IsAscii(b)
    ensures IsAscii(a + b)
  {
  }

  /** ASCII-ness and lowercasing of a URL assembled from five pieces. */
  lemma Pieces(p1: string, p2: string, p3: string, p4: string, p5: string)
    requires IsAscii(p1) && IsAscii(p2) && IsAscii(p3) && IsAscii(p4) && IsAscii(p5)
    ensures IsAscii(p1 + (p2 + (p3 + (p4 + p5))))
    ensures ToLower(p1 + (p2 + (p3 + (p4 + p5)))) ==
      ToLower(p1) + (ToLower(p2) + (ToLower(p3) + (ToLower(p4) + ToLower(p5))))
  {
    AsciiAppend(p4, p5);
    AsciiAppend(p3, p4 + p5);
    AsciiAppend(p2, p3 + (p4 + p5));
    AsciiAppend(p1, p2 + (p3 + (p4 + p5)));
    ToLowerAppend(p4, p5);
    ToLowerAppend(p3, p4 + p5);
    ToLowerAppend(p2, p3 + (p4 + p5));
    ToLowerAppend(p1, p2 + (p3 + (p4 + p5)));
  }

  lemma SchemeAndSeparators()
    ensures IsAscii(Scheme) && ToLower(Scheme) == Scheme
    ensures IsAscii("@") && ToLower("@") == "@"
    ensures IsAscii("/") && ToLower("/") == "/"
    ensures IsAscii("") && ToLower("") == ""
  {
  }

  /** A name followed by a table modifier lowercases to a rendered claim. */
  lemma ClaimLowers(n: string, m: string, mod: Modifier)
    requires LowerWord(n)
    requires WellFormedModifier(mod) && IsAscii(m) && ToLower(m) == RenderModifier(mod)
    ensures IsAscii(n + m) && ToLower(n + m) == RenderClaim(Claim(n, mod))
  {
    LowerName(n);
    AsciiAppend(n, m);
    ToLowerAppend(n, m);
  }

  /** `lbry://@<cn><cm>/<sn><sm>` lowercases to a rendered address. */
  lemma ChannelStreamLowers(cn: string, cm: string, sn: string, sm: string, c: Modifier, s: Modifier, u: string)
    returns (a: Address)
    requires LowerWord(cn) && LowerWord(sn)
    requires WellFormedModifier(c) && IsAscii(cm) && ToLower(cm) == RenderModifier(c)
    requires WellFormedModifier(s) && IsAscii(sm) && ToLower(sm) == RenderModifier(s)
    requires u == Scheme + ("@" + ((cn + cm) + ("/" + (sn + sm))))
    ensures WellFormed(a) && IsAscii(u) && ToLower(u) == Render(a)
  {
    LowerName(cn);
    LowerName(sn);
    SchemeAndSeparators();
    ClaimLowers(cn, cm, c);
    ClaimLowers(sn, sm, s);
    a := Address(ChannelStream(Claim(cn, c), Claim(sn, s)), None);
    Pieces(Scheme, "@", cn + cm, "/", sn + sm);
  }

  /** `lbry://@<cn><cm>` lowercases to a rendered address. */
  lemma ChannelLowers(cn: string, cm: string, c: Modifier, u: string) returns (a: Address)
    requires LowerWord(cn)
    requires WellFormedModifier(c) && IsAscii(cm) && ToLower(cm) == RenderModifier(c)
    requires u == Scheme + ("@" + ((cn + cm) + ("" + "")))
    ensures WellFormed(a) && IsAscii(u) && ToLower(u) == Render(a)
  {
    LowerName(cn);
    SchemeAndSeparators();
    ClaimLowers(cn, cm, c);
    a := Address(ChannelOnly(Claim(cn, c)), None);
    Pieces(Scheme, "@", cn + cm, "", "");
  }

  /** `lbry://<sn><sm>` lowercases to a rendered address. */
  lemma StreamLowers(sn: string, sm: string, s: Modifier, u: string) returns (a: Address)
    requires LowerWord(sn)
    requires WellFormedModifier(s) && IsAscii(sm) && ToLower(sm) == RenderModifier(s)
    requires u == Scheme + ((sn + sm) + ("" + ("" + "")))
    ensures WellFormed(a) && IsAscii(u) && ToLower(u) == Render(a)
  {
    LowerName(sn);
    SchemeAndSeparators();
    ClaimLowers(sn, sm, s);
    a := Address(StreamOnly(Claim(sn, s)), None);
    Pieces(Scheme, sn + sm, "", "", "");
  }

  /** Lines 15-16 and 30-40 of the test, for any lowercase names and every
      pairing of the table's modifiers: `lbry://@<cn><cm>/<sn><sm>` is valid. */
  lemma ChannelStreamEntries(nfd: Nfd, cn: string, cm: string, sn: string, sm: string)
    requires KeepsAscii(nfd) && LowerWord(cn) && LowerWord(sn)
    requires TableModifier(cm) && TableModifier(sm)
    ensures IsUrlValid(nfd, Scheme + "@" + cn + cm + "/" + sn + sm)
  {
    var c := ModifierEntry(cm);
    var s := ModifierEntry(sm);
    ChannelStreamValid(nfd, cn, cm, sn, sm, c, s, Scheme + "@" + cn + cm + "/" + sn + sm);
  }

  lemma ChannelStreamValid(nfd: Nfd, cn: string, cm: string, sn: string, sm: string, c: Modifier, s: Modifier, u: string)
    requires KeepsAscii(nfd) && LowerWord(cn) && LowerWord(sn)
    requires WellFormedModifier(c) && IsAscii(cm) && ToLower(cm) == RenderModifier(c)
    requires WellFormedModifier(s) && IsAscii(sm) && ToLower(sm) == RenderModifier(s)
    requires u == Scheme + "@" + cn + cm + "/" + sn + sm
    ensures IsUrlValid(nfd, u)
  {
    assert u == Scheme + ("@" + ((cn + cm) + ("/" + (sn + sm))));
    var a := ChannelStreamLowers(cn, cm, sn, sm, c, s, u);
    Accepted(nfd, u, a);
  }

  /** Lines 18-21 of the test: `lbry://@<cn><cm>` is valid. */
  lemma ChannelEntries(nfd: Nfd, cn: string, cm: string)
    requires KeepsAscii(nfd) && LowerWord(cn) && TableModifier(cm)
    ensures IsUrlValid(nfd, Scheme + "@" + cn + cm)
  {
    var c := ModifierEntry(cm);
    ChannelValid(nfd, cn, cm, c, Scheme + "@" + cn + cm);
  }

  lemma ChannelValid(nfd: Nfd, cn: string, cm: string, c: Modifier, u: string)
    requires KeepsAscii(nfd) && LowerWord(cn)
    requires WellFormedModifier(c) && IsAscii(cm) && ToLower(cm) == RenderModifier(c)
    requires u == Scheme + "@" + cn + cm
    ensures IsUrlValid(nfd, u)
  {
    assert u == Scheme + ("@" + ((cn + cm) + ("" + "")));
    var a := ChannelLowers(cn, cm, c, u);
    Accepted(nfd, u, a);
  }

  /** Lines 24-28 of the test: `lbry://<sn><sm>` is valid. */
  lemma StreamEntries(nfd: Nfd, sn: string, sm: string)
    requires KeepsAscii(nfd) && LowerWord(sn) && TableModifier(sm)
    ensures IsUrlValid(nfd, Scheme + sn + sm)
  {
    var s := ModifierEntry(sm);
    StreamValid(nfd, sn, sm, s, Scheme + sn + sm);
  }

  lemma StreamValid(nfd: Nfd, sn: string, sm: string, s: Modifier, u: string)
    requires KeepsAscii(nfd) && LowerWord(sn)
    requires WellFormedModifier(s) && IsAscii(sm) && ToLower(sm) == RenderModifier(s)
    requires u == Scheme + sn + sm
    ensures IsUrlValid(nfd, u)
  {
    assert u == Scheme + ((sn + sm) + ("" + ("" + "")));
    var a := StreamLowers(sn, sm, s, u);
    Accepted(nfd, u, a);
  }

  /** Lines 42-43 of the test: without the `lbry://` scheme nothing
      validates; IsUrlValid does not add it. */
  lemma RejectedEntries(nfd: Nfd)
    requires KeepsAscii(nfd)
    ensures !IsUrlValid(nfd, "lbry:\\\\@channel")
    ensures !IsUrlValid(nfd, "@channel")
  {
    var u1, u2 := "lbry:\\\\@channel", "@channel";
    assert IsAscii(u1) && IsAscii(u2);
    assert ToLower(u1)[5] == '\\';
    assert ToLower(u2)[0] == '@';
  }

  lemma MixedCaseLowers()
    ensures IsAscii("lbry://@chaNNel") && ToLower("lbry://@chaNNel") == Scheme + "@" + "channel" + ""
  {
  }

  /** Line 22 of the test: letter case is folded before validation. */
  lemma MixedCaseChannel(nfd: Nfd)
    requires KeepsAscii(nfd)
    ensures IsUrlValid(nfd, "lbry://@chaNNel")
  {
    var lowered := Scheme + "@" + "channel" + "";
    MixedCaseLowers();
    assert LowerWord("channel");
    ChannelValid(nfd, "channel", "", NoModifier, lowered);
    assert nfd(lowered) == lowered && nfd("lbry://@chaNNel") == "lbry://@chaNNel";
    ToLowerIdempotent("lbry://@chaNNel");
  }

  lemma ChannelLiteral(u: string)
    requires u == "@channel"
    ensures IsAscii(u) && ToLower(u) == u && !HasPrefix(u, Scheme)
    ensures Scheme + u == Render(Address(ChannelOnly(Claim("channel", NoModifier)), None))
  {
    assert u[0] != Scheme[0];
  }

  /** NewLbryUrl supplies the missing scheme that IsUrlValid does not. */
  lemma NewLbryUrlAddsScheme(nfd: Nfd, u: string)
    requires KeepsAscii(nfd) && u == "@channel"
    ensures !IsUrlValid(nfd, u)
    ensures NewLbryUrl(nfd, u) == Ok(Scheme + u)
  {
    RejectedEntries(nfd);
    ChannelLiteral(u);
    LowerName("channel");
    RenderIsValid(Address(ChannelOnly(Claim("channel", NoModifier)), None));
  }

  /** A claim id whose first digit is an uppercase hex letter stops the
      `:` modifier before it has read a digit. */
  lemma UppercaseClaimIdRejected(n: string, h: string, u: string)
    requires LowerWord(n) && |h| > 0 && 'A' <= h[0] <= 'F'
    requires u == Scheme + n + ":" + h
    ensures !IsValid(u)
  {
    LowerName(n);
    assert ParseScheme(u).rest == n + (":" + h);
    assert (":" + h)[0] == ':';
    ScanOver(n, ":" + h, NameChars, false);
    assert (":" + h)[1..] == h;
    ParseDigitsSpan(h, HexChars);
  }

  /** Uppercase hex is accepted only because normalisation lowercases it
      before validation (line 26 of the test table). */
  lemma UppercaseHexNeedsNormalize(nfd: Nfd, u: string)
    requires KeepsAscii(nfd) && u == "lbry://stream:EF234"
    ensures !IsValid(u)
    ensures IsUrlValid(nfd, u)
  {
    assert u == Scheme + "stream" + ":EF234";
    assert LowerWord("stream");
    UppercaseClaimIdRejected("stream", "EF234", u);
    StreamEntries(nfd, "stream", ":EF234");
  }
}
