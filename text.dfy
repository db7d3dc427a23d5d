/** The parts of Python's `str` that the link manager, the display and the
    port search rely on: `strip()`, `split()` with no separator, `int()` on one
    token, `lower()` and the substring test `sub in s`. */
module Text {
  import opened Wrappers

  /** Python's `str.isspace()` for a single character. */
  predicate IsSpace(c: char) {
    c == ' ' || ('\t' <= c <= '\r') || ('\U{1C}' <= c <= '\U{1F}') ||
    c == '\U{85}' || c == '\U{A0}' || c == '\U{1680}' ||
    ('\U{2000}' <= c <= '\U{200A}') || c == '\U{2028}' || c == '\U{2029}' ||
    c == '\U{202F}' || c == '\U{205F}' || c == '\U{3000}'
  }

  predicate AllSpace(s: string) {
    forall i :: 0 <= i < |s| ==> IsSpace(s[i])
  }

  predicate NoSpace(s: string) {
    forall i :: 0 <= i < |s| ==> !IsSpace(s[i])
  }

  // ---------------------------------------------------------------------
  // strip()

  /** `s.lstrip()`. */
  function TrimStart(s: string): string
    decreases |s|
  {
    if s != [] && IsSpace(s[0]) then TrimStart(s[1..]) else s
  }

  /** `s.lstrip()` drops the leading whitespace and nothing else. */
  lemma {:induction false} TrimStartSpec(s: string)
    ensures var r := TrimStart(s);
            |r| <= |s| && r == s[|s| - |r|..] && AllSpace(s[..|s| - |r|]) && (r == [] || !IsSpace(r[0]))
    decreases |s|
  {
    if s != [] && IsSpace(s[0]) {
      TrimStartSpec(s[1..]);
      var r := TrimStart(s[1..]);
      assert s[..|s| - |r|] == [s[0]] + s[1..][..|s| - 1 - |r|];
    }
  }

  /** `s.rstrip()`. */
  function TrimEnd(s: string): string
    decreases |s|
  {
    if s != [] && IsSpace(s[|s| - 1]) then TrimEnd(s[..|s| - 1]) else s
  }

  /** `s.rstrip()` drops the trailing whitespace and nothing else. */
  lemma {:induction false} TrimEndSpec(s: string)
    ensures var r := TrimEnd(s);
            |r| <= |s| && r == s[..|r|] && AllSpace(s[|r|..]) && (r == [] || !IsSpace(r[|r| - 1]))
    decreases |s|
  {
    if s != [] && IsSpace(s[|s| - 1]) {
      TrimEndSpec(s[..|s| - 1]);
      var r := TrimEnd(s[..|s| - 1]);
      assert s[|r|..] == s[..|s| - 1][|r|..] + [s[|s| - 1]];
    }
  }

  /** `s.strip()`. */
  function Strip(s: string): string {
    TrimEnd(TrimStart(s))
  }

  /** `s.strip()` neither starts nor ends with whitespace. */
  lemma StripEnds(s: string)
    ensures var r := Strip(s); r == [] || (!IsSpace(r[0]) && !IsSpace(r[|r| - 1]))
  {
    var t := TrimStart(s);
    TrimStartSpec(s);
    TrimEndSpec(t);
    var r := TrimEnd(t);
    assert Strip(s) == r;
    if r != [] {
      assert r[0] == t[0];
    }
  }

  /** `s.strip()` removes a whitespace prefix and a whitespace suffix and keeps
      everything between them. */
  lemma StripInfix(s: string) returns (i: nat)
    ensures var r := Strip(s); i + |r| <= |s| && s[i..i + |r|] == r && AllSpace(s[..i]) && AllSpace(s[i + |r|..])
  {
    var t := TrimStart(s);
    TrimStartSpec(s);
    TrimEndSpec(t);
    var r := TrimEnd(t);
    assert Strip(s) == r;
    i := |s| - |t|;
    assert s[i..i + |r|] == r;
    assert AllSpace(s[..i]);
    assert s[i + |r|..] == t[|r|..];
  }

  // ---------------------------------------------------------------------
  // split()

  /** `s.split()` read left to right, `cur` being the part of a word read so far. */
  function SplitFrom(s: string, cur: string): seq<string>
    decreases |s|
  {
    if s == [] then (if cur == [] then [] else [cur])
    else if IsSpace(s[0]) then (if cur == [] then [] else [cur]) + SplitFrom(s[1..], [])
    else SplitFrom(s[1..], cur + [s[0]])
  }

  /** `s.split()` with no separator. */
  function Split(s: string): seq<string> {
    SplitFrom(s, [])
  }

  /** Non-empty words that hold no whitespace. */
  predicate Words(ws: seq<string>) {
    forall k :: 0 <= k < |ws| ==> ws[k] != [] && NoSpace(ws[k])
  }

  /** The words joined back together, with no separator. */
  function Concat(ws: seq<string>): string {
    if ws == [] then [] else ws[0] + Concat(ws[1..])
  }

  /** The words joined with one blank between neighbours (`" ".join(ws)`). */
  function JoinSpaced(ws: seq<string>): string {
    if ws == [] then [] else if |ws| == 1 then ws[0] else ws[0] + " " + JoinSpaced(ws[1..])
  }

  /** `s` with every whitespace character removed. */
  function RemoveSpaces(s: string): string {
    if s == [] then [] else (if IsSpace(s[0]) then [] else [s[0]]) + RemoveSpaces(s[1..])
  }

  lemma {:induction false} SplitFromWords(s: string, cur: string)
    requires NoSpace(cur)
    ensures Words(SplitFrom(s, cur))
    decreases |s|
  {
    if s == [] {
    } else if IsSpace(s[0]) {
      SplitFromWords(s[1..], []);
    } else {
      SplitFromWords(s[1..], cur + [s[0]]);
    }
  }

  /** Every word of a split is non-empty and holds no whitespace. */
  lemma SplitWords(s: string)
    ensures Words(Split(s))
  {
    SplitFromWords(s, []);
  }

  /** Leading whitespace never changes the words. */
  lemma {:induction false} SplitSpaces(p: string, x: string)
    requires AllSpace(p)
    ensures Split(p + x) == Split(x)
    decreases |p|
  {
    if p == [] {
      assert p + x == x;
    } else {
      assert (p + x)[0] == p[0];
      assert (p + x)[1..] == p[1..] + x;
      SplitSpaces(p[1..], x);
    }
  }

  lemma {:induction false} SplitFromWord(w: string, q: string, cur: string)
    requires NoSpace(w)
    ensures SplitFrom(w + q, cur) == SplitFrom(q, cur + w)
    decreases |w|
  {
    if w == [] {
      assert w + q == q;
      assert cur + w == cur;
    } else {
      assert (w + q)[0] == w[0];
      assert (w + q)[1..] == w[1..] + q;
      SplitFromWord(w[1..], q, cur + [w[0]]);
      assert cur + [w[0]] + w[1..] == cur + w;
    }
  }

  /** A word between a whitespace prefix and a whitespace-led rest is the first word. */
  lemma SplitCons(p: string, w: string, q: string)
    requires AllSpace(p) && w != [] && NoSpace(w)
    requires q == [] || IsSpace(q[0])
    ensures Split(p + w + q) == [w] + Split(q)
  {
    assert p + w + q == p + (w + q);
    SplitSpaces(p, w + q);
    SplitFromWord(w, q, []);
    assert [] + w == w;
  }

  lemma {:induction false} SplitFromSpaces(q: string, cur: string)
    requires AllSpace(q)
    ensures SplitFrom(q, cur) == if cur == [] then [] else [cur]
    decreases |q|
  {
    if q != [] {
      SplitFromSpaces(q[1..], []);
    }
  }

  lemma {:induction false} SplitFromTrailing(x: string, q: string, cur: string)
    requires AllSpace(q)
    ensures SplitFrom(x + q, cur) == SplitFrom(x, cur)
    decreases |x|
  {
    if x == [] {
      assert x + q == q;
      SplitFromSpaces(q, cur);
    } else {
      assert (x + q)[0] == x[0];
      assert (x + q)[1..] == x[1..] + q;
      if IsSpace(x[0]) {
        SplitFromTrailing(x[1..], q, []);
      } else {
        SplitFromTrailing(x[1..], q, cur + [x[0]]);
      }
    }
  }

  /** Trailing whitespace never changes the words. */
  lemma SplitTrailingSpaces(x: string, q: string)
    requires AllSpace(q)
    ensures Split(x + q) == Split(x)
  {
    SplitFromTrailing(x, q, []);
  }

  lemma SplitOfTrimStart(s: string)
    ensures Split(TrimStart(s)) == Split(s)
  {
    var t := TrimStart(s);
    TrimStartSpec(s);
    var p := s[..|s| - |t|];
    assert s == p + t;
    SplitSpaces(p, t);
  }

  lemma SplitOfTrimEnd(t: string)
    ensures Split(TrimEnd(t)) == Split(t)
  {
    var r := TrimEnd(t);
    TrimEndSpec(t);
    var q := t[|r|..];
    assert t == r + q;
    SplitTrailingSpaces(r, q);
  }

  /** `s.strip().split()` and `s.split()` give the same words. */
  lemma SplitOfStrip(s: string)
    ensures Split(Strip(s)) == Split(s)
  {
    SplitOfTrimStart(s);
    SplitOfTrimEnd(TrimStart(s));
  }

  lemma {:induction false} SplitFromKeepsText(s: string, cur: string)
    ensures Concat(SplitFrom(s, cur)) == cur + RemoveSpaces(s)
    decreases |s|
  {
    if s == [] {
      if cur != [] {
        assert Concat([cur]) == cur + Concat([]);
      }
    } else if IsSpace(s[0]) {
      var rest := SplitFrom(s[1..], []);
      SplitFromKeepsText(s[1..], []);
      assert RemoveSpaces(s) == RemoveSpaces(s[1..]);
      if cur != [] {
        assert ([cur] + rest)[1..] == rest;
        assert Concat([cur] + rest) == cur + Concat(rest);
      } else {
        assert [] + rest == rest;
      }
    } else {
      SplitFromKeepsText(s[1..], cur + [s[0]]);
      assert cur + [s[0]] + RemoveSpaces(s[1..]) == cur + ([s[0]] + RemoveSpaces(s[1..]));
    }
  }

  /** Splitting loses only whitespace: the words, put back together, are the
      non-whitespace characters of `s` in their original order. */
  lemma SplitKeepsText(s: string)
    ensures Concat(Split(s)) == RemoveSpaces(s)
  {
    SplitFromKeepsText(s, []);
  }

  /** Splitting undoes joining with blanks, for words that hold no whitespace. */
  lemma {:induction false} SplitJoinSpaced(ws: seq<string>)
    requires Words(ws)
    ensures Split(JoinSpaced(ws)) == ws
    decreases |ws|
  {
    if ws == [] {
    } else if |ws| == 1 {
      SplitCons([], ws[0], []);
      assert [] + ws[0] + [] == ws[0];
    } else {
      var rest := JoinSpaced(ws[1..]);
      SplitCons([], ws[0], " " + rest);
      assert [] + ws[0] + (" " + rest) == ws[0] + " " + rest;
      SplitSpaces(" ", rest);
      SplitJoinSpaced(ws[1..]);
    }
  }

  // ---------------------------------------------------------------------
  // int() on one token

  predicate IsDigit(c: char) {
    '0' <= c <= '9'
  }

  predicate AllDigits(s: string) {
    forall i :: 0 <= i < |s| ==> IsDigit(s[i])
  }

  /** The tokens `int()` accepts in this model: an optional sign and one or more ASCII digits. */
  predicate IsIntLiteral(s: string) {
    if |s| > 0 && (s[0] == '+' || s[0] == '-') then |s| > 1 && AllDigits(s[1..])
    else |s| > 0 && AllDigits(s)
  }

  /** The decimal value of a digit string. */
  function DigitsValue(s: string): nat
    requires AllDigits(s)
  {
    if s == [] then 0 else DigitsValue(s[..|s| - 1]) * 10 + (s[|s| - 1] as int - '0' as int)
  }

  /** `int(s)`, or `None` where Python would raise `ValueError`. */
  function ParseInt(s: string): Option<int> {
    if !IsIntLiteral(s) then None
    else if s[0] == '-' then Some(0 - DigitsValue(s[1..]))
    else if s[0] == '+' then Some(DigitsValue(s[1..]))
    else Some(DigitsValue(s))
  }

  /** The decimal digits of `n`, most significant first (`str(n)` for `n >= 0`). */
  function NatToDigits(n: nat): (s: string)
    ensures s != [] && AllDigits(s) && !IsSpace(s[0])
    ensures DigitsValue(s) == n
  {
    var d := [('0' as int + n % 10) as char];
    if n < 10 then d else
      var p := NatToDigits(n / 10);
      assert (p + d)[..|p + d| - 1] == p;
      p + d
  }

  /** `str(n)`. */
  function IntToString(n: int): (s: string)
    ensures s != [] && NoSpace(s)
  {
    if n < 0 then "-" + NatToDigits(-n) else NatToDigits(n)
  }

  /** `int(str(n)) == n`. */
  lemma ParseIntRoundTrip(n: int)
    ensures ParseInt(IntToString(n)) == Some(n)
  {
    var s := IntToString(n);
    if n < 0 {
      assert s[1..] == NatToDigits(-n);
    }
  }

  // ---------------------------------------------------------------------
  // lower() and `in`

  function LowerChar(c: char): char {
    if 'A' <= c <= 'Z' then (c as int + 32) as char else c
  }

  /** `s.lower()` on ASCII letters; every other character is kept. */
  function Lower(s: string): (r: string)
    ensures |r| == |s|
  {
    seq(|s|, i requires 0 <= i < |s| => LowerChar(s[i]))
  }

  /** The result has no upper-case ASCII letter, each upper-case letter
      becomes its lower-case partner, every other character is kept, and
      lowering twice is lowering once. */
  lemma LowerSpec(s: string)
    ensures forall i :: 0 <= i < |s| ==> !('A' <= Lower(s)[i] <= 'Z')
    ensures forall i :: 0 <= i < |s| && 'A' <= s[i] <= 'Z' ==>
              Lower(s)[i] as int - 'a' as int == s[i] as int - 'A' as int
    ensures forall i :: 0 <= i < |s| && !('A' <= s[i] <= 'Z') ==> Lower(s)[i] == s[i]
    ensures Lower(Lower(s)) == Lower(s)
  {
  }

  /** Lowering commutes with taking a slice: a word found in `s` is found,
      lowered, at the same place in `Lower(s)`, whatever the case it was
      written in. */
  lemma LowerOccurs(s: string, w: string, i: nat)
    requires OccursAt(s, w, i)
    ensures OccursAt(Lower(s), Lower(w), i)
  {
    assert Lower(s)[i..i + |w|] == Lower(s[i..i + |w|]);
  }

  /** `sub` occurs in `s` starting at index `i`. */
  predicate OccursAt(s: string, sub: string, i: nat) {
    i + |sub| <= |s| && s[i..i + |sub|] == sub
  }

  /** `sub in s`: `sub` occurs in `s` at some position. */
  function Contains(s: string, sub: string): (b: bool)
    ensures b <==> exists i: nat :: OccursAt(s, sub, i)
    decreases |s|
  {
    if |s| < |sub| then false
    else if s[..|sub|] == sub then assert OccursAt(s, sub, 0); true
    else
      var b := Contains(s[1..], sub);
      assert forall i: nat :: OccursAt(s, sub, i) ==> i >= 1 && OccursAt(s[1..], sub, i - 1);
      assert forall j: nat :: OccursAt(s[1..], sub, j) ==> OccursAt(s, sub, j + 1);
      b
  }
}
