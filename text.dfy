/** The parts of Go's `strings` and `fmt` packages that the core relies on,
    over strings of Unicode scalar values. */
module Text {

  /** strings.HasPrefix */
  predicate HasPrefix(s: string, p: string) {
    |p| <= |s| && s[..|p|] == p
  }

  /** Text that goes on with a string starting with `c` starts with `p`
      followed by `c`. */
  lemma PrefixThenChar(p: string, c: char, t: string, q: string)
    requires |t| > 0 && t[0] == c
    ensures HasPrefix(p + t + q, p + [c])
  {
    var u := p + t + q;
    assert u[..|p| + 1] == p + [c];
  }

  /** strings.IndexAny: the index of the first character of `s` that occurs
      in `chars`, or -1 when there is none. */
  function IndexAny(s: string, chars: string): (r: int)
    ensures -1 <= r < |s|
    ensures r == -1 ==> forall i :: 0 <= i < |s| ==> s[i] !in chars
    ensures 0 <= r ==> s[r] in chars && forall i :: 0 <= i < r ==> s[i] !in chars
  {
    if |s| == 0 then -1
    else if s[0] in chars then 0
    else
      var r := IndexAny(s[1..], chars);
      if r == -1 then -1 else r + 1
  }

  /** Searching past a prefix that holds none of `chars`. */
  lemma {:induction false} IndexAnyAfter(a: string, b: string, chars: string)
    requires forall i :: 0 <= i < |a| ==> a[i] !in chars
    ensures IndexAny(a + b, chars) == if IndexAny(b, chars) == -1 then -1 else |a| + IndexAny(b, chars)
  {
    if |a| > 0 {
      assert (a + b)[1..] == a[1..] + b;
      IndexAnyAfter(a[1..], b, chars);
    } else {
      assert a + b == b;
    }
  }

  /** strings.Index: the index of the first occurrence of `sub` in `s`, or -1. */
  function Index(s: string, sub: string): (r: int)
    ensures r == -1 || 0 <= r <= |s| - |sub|
    ensures 0 <= r ==> s[r..r + |sub|] == sub
    ensures 0 <= r ==> HasPrefix(s[r..], sub)
    ensures 0 <= r ==> forall i :: 0 <= i < r ==> !HasPrefix(s[i..], sub)
    ensures r == -1 ==> forall i :: 0 <= i <= |s| ==> !HasPrefix(s[i..], sub)
  {
    if HasPrefix(s, sub) then 0
    else if |s| == 0 then -1
    else
      var r := Index(s[1..], sub);
      assert forall i :: 1 <= i <= |s| ==> s[i..] == s[1..][i - 1..];
      if r == -1 then -1 else r + 1
  }

  /** strings.Replace(s, target, repl, 1): the first occurrence of `target` is replaced. */
  function ReplaceFirst(s: string, target: string, repl: string): (r: string)
    ensures Index(s, target) == -1 ==> r == s
    ensures Index(s, target) >= 0 ==>
      r == s[..Index(s, target)] + repl + s[Index(s, target) + |target|..]
  {
    var i := Index(s, target);
    if i == -1 then s else s[..i] + repl + s[i + |target|..]
  }

  /** strings.TrimRight(s, [c]): every trailing `c` removed. */
  function TrimRight(s: string, c: char): (r: string)
    ensures |r| <= |s| && r == s[..|r|]
    ensures |r| == 0 || r[|r| - 1] != c
    ensures forall i :: |r| <= i < |s| ==> s[i] == c
  {
    if |s| > 0 && s[|s| - 1] == c then TrimRight(s[..|s| - 1], c) else s
  }

  /** The inverse of strings.Split: the parts with `sep` between them. */
  function Join(parts: seq<string>, sep: char): string {
    if |parts| == 0 then ""
    else if |parts| == 1 then parts[0]
    else parts[0] + [sep] + Join(parts[1..], sep)
  }

  /** strings.Split(s, [sep]). */
  function Split(s: string, sep: char): (r: seq<string>)
    ensures |r| >= 1
    ensures forall i :: 0 <= i < |r| ==> sep !in r[i]
    ensures Join(r, sep) == s
    decreases |s|
  {
    var i := IndexAny(s, [sep]);
    if i == -1 then [s]
    else
      var tail := Split(s[i + 1..], sep);
      assert s == s[..i] + [sep] + s[i + 1..];
      [s[..i]] + tail
  }

  /** strings.SplitN(s, [sep], n) for n >= 1: at most n parts, the last one
      holding everything after the (n-1)-th separator. */
  function SplitN(s: string, sep: char, n: nat): (r: seq<string>)
    requires n >= 1
    ensures 1 <= |r| <= n
    ensures Join(r, sep) == s
    ensures forall i :: 0 <= i < |r| - 1 ==> sep !in r[i]
    ensures |r| < n ==> sep !in r[|r| - 1]
    decreases n
  {
    var i := IndexAny(s, [sep]);
    if n == 1 || i == -1 then [s]
    else
      var tail := SplitN(s[i + 1..], sep, n - 1);
      assert s == s[..i] + [sep] + s[i + 1..];
      [s[..i]] + tail
  }

  /** SplitN takes off a first field that holds no separator. */
  lemma SplitNCons(a: string, b: string, sep: char, n: nat)
    requires sep !in a && n >= 2
    ensures SplitN(a + [sep] + b, sep, n) == [a] + SplitN(b, sep, n - 1)
  {
    var s := a + [sep] + b;
    assert s == a + ([sep] + b);
    IndexAnyAfter(a, [sep] + b, [sep]);
    assert IndexAny([sep] + b, [sep]) == 0;
    assert s[..|a|] == a && s[|a| + 1..] == b;
  }

  /** The first separator in `a + [sep] + b` is the one after `a`. */
  lemma FirstSeparator(a: string, sep: char, b: string)
    requires sep !in a
    ensures IndexAny(a + [sep] + b, [sep]) == |a|
    ensures (a + [sep] + b)[|a|..] == [sep] + b
    ensures (a + [sep] + b)[|a| + 1..] == b
  {
    assert a + [sep] + b == a + ([sep] + b);
    IndexAnyAfter(a, [sep] + b, [sep]);
    assert IndexAny([sep] + b, [sep]) == 0;
  }

  /** Split undoes Join when no part holds the separator. */
  lemma {:induction false} SplitJoin(parts: seq<string>, sep: char)
    requires |parts| >= 1
    requires forall i :: 0 <= i < |parts| ==> sep !in parts[i]
    ensures Split(Join(parts, sep), sep) == parts
    decreases |parts|
  {
    var s := Join(parts, sep);
    if |parts| > 1 {
      var rest := Join(parts[1..], sep);
      assert s == parts[0] + ([sep] + rest);
      IndexAnyAfter(parts[0], [sep] + rest, [sep]);
      assert IndexAny([sep] + rest, [sep]) == 0;
      assert s[..|parts[0]|] == parts[0];
      assert s[|parts[0]| + 1..] == rest;
      SplitJoin(parts[1..], sep);
    }
  }

  /** A string that splits into two parts is those parts around the one
      separator. */
  lemma SplitTwo(s: string, sep: char)
    requires |Split(s, sep)| == 2
    ensures var parts := Split(s, sep);
      s == parts[0] + [sep] + parts[1] && sep !in parts[0] && sep !in parts[1]
  {
    var parts := Split(s, sep);
    assert Join(parts, sep) == parts[0] + [sep] + Join(parts[1..], sep);
    assert Join(parts[1..], sep) == parts[1];
  }

  /** A join ends with its last part. */
  lemma {:induction false} JoinEndsWith(parts: seq<string>, sep: char)
    requires |parts| >= 1
    ensures var s, last := Join(parts, sep), parts[|parts| - 1];
      |last| <= |s| && s[|s| - |last|..] == last
    decreases |parts|
  {
    if |parts| > 1 {
      JoinEndsWith(parts[1..], sep);
      var head, rest := parts[0] + [sep], Join(parts[1..], sep);
      var last := parts[|parts| - 1];
      assert Join(parts, sep) == head + rest;
      assert (head + rest)[|head + rest| - |last|..] == rest[|rest| - |last|..];
    }
  }

  /** TrimRight removes one appended `c` and stops at the first other character. */
  lemma TrimRightAppend(x: string, c: char)
    requires |x| == 0 || x[|x| - 1] != c
    ensures TrimRight(x + [c], c) == x
  {
    assert (x + [c])[..|x|] == x;
  }

  /** The decimal digit for d < 10. */
  function DigitChar(d: nat): (c: char)
    requires d < 10
    ensures '0' <= c <= '9'
  {
    (48 + d) as char
  }

  /** fmt's %v of a non-negative int: decimal, no leading zeros. */
  function NatToString(n: nat): (r: string)
    ensures |r| >= 1
    ensures forall i :: 0 <= i < |r| ==> '0' <= r[i] <= '9'
    ensures |r| >= 2 <==> n >= 10
  {
    if n < 10 then [DigitChar(n)] else NatToString(n / 10) + [DigitChar(n % 10)]
  }

  /** fmt's %v of an int. */
  function IntToString(i: int): string {
    if i < 0 then "-" + NatToString(-i) else NatToString(i)
  }

  /** Distinct numbers print differently. */
  lemma {:induction false} NatToStringInjective(a: nat, b: nat)
    requires NatToString(a) == NatToString(b)
    ensures a == b
  {
    if a >= 10 && b >= 10 {
      var sa, sb := NatToString(a), NatToString(b);
      assert sa[|sa| - 1] == DigitChar(a % 10) && sb[|sb| - 1] == DigitChar(b % 10);
      assert sa[..|sa| - 1] == NatToString(a / 10);
      assert sb[..|sb| - 1] == NatToString(b / 10);
      NatToStringInjective(a / 10, b / 10);
    } else if a < 10 && b < 10 {
      assert NatToString(a)[0] == DigitChar(a);
    }
  }

  /** The printed form starts with '-' exactly for negative numbers. */
  lemma IntToStringSign(i: int)
    ensures |IntToString(i)| > 0 && ((IntToString(i)[0] == '-') <==> i < 0)
  {
  }

  lemma IntToStringInjective(a: int, b: int)
    requires IntToString(a) == IntToString(b)
    ensures a == b
  {
    IntToStringSign(a);
    IntToStringSign(b);
    if a < 0 {
      assert NatToString(-a) == IntToString(a)[1..];
      NatToStringInjective(-a, -b);
    } else {
      NatToStringInjective(a, b);
    }
  }

  /** The per-character lowercasing that strings.ToLower performs on ASCII. */
  function LowerChar(c: char): char {
    if 'A' <= c <= 'Z' then (c as int + 32) as char else c
  }

  /** strings.ToLower, on the ASCII letters: a map over the characters. */
  function ToLower(s: string): (r: string)
    ensures |r| == |s|
  {
    seq(|s|, i requires 0 <= i < |s| => LowerChar(s[i]))
  }

  /** Lowercasing leaves no ASCII capital and changes nothing else. */
  lemma ToLowerSpec(s: string)
    ensures forall i :: 0 <= i < |s| ==> !('A' <= ToLower(s)[i] <= 'Z')
    ensures forall i :: 0 <= i < |s| && !('A' <= s[i] <= 'Z') ==> ToLower(s)[i] == s[i]
    ensures forall i :: 0 <= i < |s| && 'A' <= s[i] <= 'Z' ==> ToLower(s)[i] as int == s[i] as int + 32
  {
  }

  /** Lowercasing works character by character, so it distributes over `+`. */
  lemma ToLowerAppend(a: string, b: string)
    ensures ToLower(a + b) == ToLower(a) + ToLower(b)
  {
    assert forall i :: 0 <= i < |a| + |b| ==> ToLower(a + b)[i] == (ToLower(a) + ToLower(b))[i];
  }

  /** Lowercasing twice is lowercasing once. */
  lemma ToLowerIdempotent(s: string)
    ensures ToLower(ToLower(s)) == ToLower(s)
  {
    var t := ToLower(s);
    assert forall i :: 0 <= i < |t| ==> ToLower(t)[i] == t[i];
  }
}
