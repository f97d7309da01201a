/** The JavaScript string operations the plugin relies on (trim, split on one
    character, join, includes, number-to-string), stated over Dafny strings. */
module JsText {

  /** The characters String.prototype.trim removes: the ECMAScript WhiteSpace
      and LineTerminator code points. */
  predicate IsWhitespace(c: char) {
    c == '\t' || c == '\n' || c == '\U{B}' || c == '\U{C}' || c == '\r' || c == ' '
    || c == '\U{A0}' || c == '\U{1680}' || ('\U{2000}' <= c <= '\U{200A}')
    || c == '\U{2028}' || c == '\U{2029}' || c == '\U{202F}' || c == '\U{205F}'
    || c == '\U{3000}' || c == '\U{FEFF}'
  }

  predicate AllWhitespace(s: string) {
    forall k :: 0 <= k < |s| ==> IsWhitespace(s[k])
  }

  /** Neither end of `s` is whitespace. */
  predicate IsTrimmed(s: string) {
    |s| == 0 || (!IsWhitespace(s[0]) && !IsWhitespace(s[|s| - 1]))
  }

  /** The number of whitespace characters from index `start` on. */
  function SpaceFrom(s: string, start: nat): (n: nat)
    requires start <= |s|
    ensures start + n <= |s|
    ensures forall k :: start <= k < start + n ==> IsWhitespace(s[k])
    ensures start + n == |s| || !IsWhitespace(s[start + n])
    decreases |s| - start
  {
    if start < |s| && IsWhitespace(s[start]) then SpaceFrom(s, start + 1) + 1 else 0
  }

  /** The number of whitespace characters just before index `end`. */
  function SpaceBefore(s: string, end: nat): (n: nat)
    requires end <= |s|
    ensures n <= end
    ensures forall k :: end - n <= k < end ==> IsWhitespace(s[k])
    ensures n == end || !IsWhitespace(s[end - n - 1])
  {
    if end > 0 && IsWhitespace(s[end - 1]) then SpaceBefore(s, end - 1) + 1 else 0
  }

  /** String.prototype.trimStart: `r` is the suffix of `s` left after its
      leading whitespace. */
  function TrimStart(s: string): (r: string)
    ensures |r| <= |s| && r == s[|s| - |r|..]
    ensures AllWhitespace(s[..|s| - |r|])
    ensures r == [] || !IsWhitespace(r[0])
  {
    s[SpaceFrom(s, 0)..]
  }

  /** String.prototype.trimEnd: `r` is the prefix of `s` left before its
      trailing whitespace. */
  function TrimEnd(s: string): (r: string)
    ensures |r| <= |s| && r == s[..|r|]
    ensures AllWhitespace(s[|r|..])
    ensures r == [] || !IsWhitespace(r[|r| - 1])
  {
    s[..|s| - SpaceBefore(s, |s|)]
  }

  /** String.prototype.trim: the result has no whitespace at either end, and
      a string that has none is kept as it is. */
  function Trim(s: string): (r: string)
    ensures IsTrimmed(r)
    ensures IsTrimmed(s) ==> r == s
  {
    var t := TrimStart(s);
    var r := TrimEnd(t);
    assert r != [] ==> r[0] == t[0];
    r
  }

  /** Trim removes whitespace around `s` and nothing else: what is left is
      the middle of `s`, between a whitespace prefix and a whitespace suffix. */
  lemma TrimKeepsMiddle(s: string)
    ensures var lead := |s| - |TrimStart(s)|;
      && lead + |Trim(s)| <= |s|
      && Trim(s) == s[lead..lead + |Trim(s)|]
      && AllWhitespace(s[..lead])
      && AllWhitespace(s[lead + |Trim(s)|..])
  {
    var t := TrimStart(s);
    var r := TrimEnd(t);
    var lead := |s| - |t|;
    assert Trim(s) == r;
    assert r == s[lead..lead + |r|] by {
      assert t == s[lead..];
      assert r == t[..|r|];
    }
    assert AllWhitespace(s[lead + |r|..]) by {
      assert s[lead + |r|..] == t[|r|..] by {
        assert t == s[lead..];
      }
    }
  }

  /** Trim adds no character. */
  lemma TrimSubset(s: string)
    ensures forall c :: c in Trim(s) ==> c in s
  {
    TrimKeepsMiddle(s);
    var lead := |s| - |TrimStart(s)|;
    forall c | c in Trim(s) ensures c in s {
      var k :| 0 <= k < |Trim(s)| && Trim(s)[k] == c;
      assert s[lead + k] == c;
    }
  }

  /** String.prototype.includes (and `indexOf(t) !== -1`): `t` occurs in `s`. */
  predicate Contains(s: string, t: string)
    decreases |s|
  {
    if |t| > |s| then false
    else s[..|t|] == t || (|s| > 0 && Contains(s[1..], t))
  }

  lemma {:induction false} ContainsAt(a: string, t: string, b: string)
    ensures Contains(a + t + b, t)
  {
    var s := a + t + b;
    if a == [] {
      assert s[..|t|] == t;
    } else {
      assert s[1..] == a[1..] + t + b;
      ContainsAt(a[1..], t, b);
    }
  }

  /** The converse of ContainsAt: a string that includes `t` is built around it. */
  lemma {:induction false} ContainsOccurs(s: string, t: string)
    requires Contains(s, t)
    ensures exists a, b :: s == a + t + b
    decreases |s|
  {
    if s[..|t|] == t {
      assert s == [] + t + s[|t|..];
    } else {
      ContainsOccurs(s[1..], t);
      var a, b :| s[1..] == a + t + b;
      assert s == [s[0]] + a + t + b;
    }
  }

  /** Position of the first `c` in `s`, or `|s|` when there is none. */
  function IndexOf(s: string, c: char): (i: nat)
    ensures i <= |s|
    ensures c !in s[..i]
    ensures i < |s| ==> s[i] == c
  {
    if |s| == 0 then 0
    else if s[0] == c then 0
    else
      var j := IndexOf(s[1..], c);
      assert s[..j + 1] == [s[0]] + s[1..][..j];
      j + 1
  }

  /** Array.prototype.join with separator `d`. */
  function Join(xs: seq<string>, d: string): string {
    if |xs| == 0 then ""
    else if |xs| == 1 then xs[0]
    else xs[0] + d + Join(xs[1..], d)
  }

  /** String.prototype.split on the one-character separator `c`: at least
      one piece, no piece holds `c`, and joining the pieces back with `c`
      gives `s`. */
  function Split(s: string, c: char): (r: seq<string>)
    ensures |r| >= 1
    ensures forall k :: 0 <= k < |r| ==> c !in r[k]
    ensures Join(r, [c]) == s
    decreases |s|
  {
    var i := IndexOf(s, c);
    if i == |s| then
      assert s[..i] == s;
      [s]
    else
      var rest := Split(s[i + 1..], c);
      var r := [s[..i]] + rest;
      assert r[1..] == rest;
      assert s == s[..i] + [c] + s[i + 1..];
      r
  }

  lemma {:induction false} IndexOfAfter(a: string, c: char, b: string)
    requires c !in a
    ensures IndexOf(a + [c] + b, c) == |a|
  {
    var s := a + [c] + b;
    if a != [] {
      assert s[1..] == a[1..] + [c] + b;
      IndexOfAfter(a[1..], c, b);
    }
  }

  /** Splitting inverts joining when no piece holds the separator. */
  lemma {:induction false} SplitJoin(xs: seq<string>, c: char)
    requires |xs| >= 1
    requires forall k :: 0 <= k < |xs| ==> c !in xs[k]
    ensures Split(Join(xs, [c]), c) == xs
  {
    var s := Join(xs, [c]);
    if |xs| == 1 {
      assert IndexOf(s, c) == |s|;
    } else {
      var tail := Join(xs[1..], [c]);
      assert s == xs[0] + [c] + tail;
      IndexOfAfter(xs[0], c, tail);
      assert s[..|xs[0]|] == xs[0];
      assert s[|xs[0]| + 1..] == tail;
      SplitJoin(xs[1..], c);
      assert xs == [xs[0]] + xs[1..];
    }
  }

  function DigitChar(d: nat): char
    requires d < 10
  {
    "0123456789"[d]
  }

  function DigitValue(c: char): nat {
    if '0' <= c <= '9' then (c as int - '0' as int) as nat else 0
  }

  /** The decimal numeral of a natural number read back, most significant
      digit first. */
  function DecimalValue(s: string): nat {
    if |s| == 0 then 0 else 10 * DecimalValue(s[..|s| - 1]) + DigitValue(s[|s| - 1])
  }

  /** What JavaScript's `+` produces when a string is joined with a
      non-negative integer: its decimal numeral. */
  function DecimalString(n: nat): (r: string)
    ensures |r| >= 1
    ensures forall k :: 0 <= k < |r| ==> '0' <= r[k] <= '9'
  {
    if n < 10 then [DigitChar(n)] else DecimalString(n / 10) + [DigitChar(n % 10)]
  }

  /** The numeral denotes the number, so distinct numbers get distinct numerals. */
  lemma {:induction false} DecimalRoundTrip(n: nat)
    ensures DecimalValue(DecimalString(n)) == n
  {
    var s := DecimalString(n);
    if n < 10 {
      assert s[..0] == [];
    } else {
      assert s[..|s| - 1] == DecimalString(n / 10);
      DecimalRoundTrip(n / 10);
    }
  }

  lemma DecimalInjective(m: nat, n: nat)
    requires m != n
    ensures DecimalString(m) != DecimalString(n)
  {
    DecimalRoundTrip(m);
    DecimalRoundTrip(n);
  }
}
