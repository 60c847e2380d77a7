/** Options, and the few ECMAScript string operations the modelled code relies on. */
module Text {
  datatype Option<+T> = None | Some(value: T)

  /** A JavaScript `\s`, which is also what `String.prototype.trim` removes. */
  predicate IsSpace(c: char) {
    c in "\t\n\r " || c == '\U{000B}' || c == '\U{000C}' || c == '\U{00A0}' || c == '\U{1680}'
    || '\U{2000}' <= c <= '\U{200A}' || c == '\U{2028}' || c == '\U{2029}' || c == '\U{202F}'
    || c == '\U{205F}' || c == '\U{3000}' || c == '\U{FEFF}'
  }

  /** The code points of ECMAScript's white space and line ends. */
  lemma SpacesAre(c: char)
    ensures IsSpace(c) <==>
      c as int in {0x09, 0x0a, 0x0b, 0x0c, 0x0d, 0x20, 0xa0, 0x1680, 0x2028, 0x2029, 0x202f, 0x205f, 0x3000, 0xfeff}
      || 0x2000 <= c as int <= 0x200a
  {
  }

  ghost predicate Blank(s: string) {
    forall i :: 0 <= i < |s| ==> IsSpace(s[i])
  }

  /** Neither starts nor ends with white space. */
  ghost predicate Tight(s: string) {
    s != [] ==> !IsSpace(s[0]) && !IsSpace(s[|s| - 1])
  }

  function TrimStart(s: string): string {
    if s != [] && IsSpace(s[0]) then TrimStart(s[1..]) else s
  }

  function TrimEnd(s: string): string {
    if s != [] && IsSpace(s[|s| - 1]) then TrimEnd(s[..|s| - 1]) else s
  }

  function Trim(s: string): string {
    TrimEnd(TrimStart(s))
  }

  lemma {:induction false} TrimStartDrops(w: string, s: string)
    requires Blank(w) && (s != [] ==> !IsSpace(s[0]))
    ensures TrimStart(w + s) == s
  {
    if w == [] {
      assert w + s == s;
    } else {
      assert (w + s)[1..] == w[1..] + s;
      TrimStartDrops(w[1..], s);
    }
  }

  lemma {:induction false} TrimEndDrops(s: string, w: string)
    requires Blank(w) && (s != [] ==> !IsSpace(s[|s| - 1]))
    ensures TrimEnd(s + w) == s
  {
    if w == [] {
      assert s + w == s;
    } else {
      assert (s + w)[..|s + w| - 1] == s + w[..|w| - 1];
      TrimEndDrops(s, w[..|w| - 1]);
    }
  }

  /** Trimming recovers a tight string from any padding with white space. */
  lemma TrimPadded(before: string, s: string, after: string)
    requires Blank(before) && Blank(after) && Tight(s)
    ensures Trim(before + s + after) == s
  {
    if s == [] {
      assert before + s + after == (before + after) + [];
      TrimStartDrops(before + after, []);
    } else {
      assert before + s + after == before + (s + after);
      TrimStartDrops(before, s + after);
      TrimEndDrops(s, after);
    }
  }

  lemma {:induction false} TrimStartSplits(s: string) returns (w: string)
    ensures Blank(w) && s == w + TrimStart(s)
    ensures TrimStart(s) != [] ==> !IsSpace(TrimStart(s)[0])
  {
    if s != [] && IsSpace(s[0]) {
      var v := TrimStartSplits(s[1..]);
      w := [s[0]] + v;
    } else {
      w := [];
    }
  }

  lemma {:induction false} TrimEndSplits(s: string) returns (w: string)
    ensures Blank(w) && s == TrimEnd(s) + w
    ensures TrimEnd(s) != [] ==> !IsSpace(TrimEnd(s)[|TrimEnd(s)| - 1])
  {
    if s != [] && IsSpace(s[|s| - 1]) {
      var v := TrimEndSplits(s[..|s| - 1]);
      w := v + [s[|s| - 1]];
    } else {
      w := [];
    }
  }

  /** Every string is its trimmed core inside white space. */
  lemma TrimSplits(s: string) returns (before: string, after: string)
    ensures Blank(before) && Blank(after) && Tight(Trim(s))
    ensures s == before + Trim(s) + after
  {
    before := TrimStartSplits(s);
    after := TrimEndSplits(TrimStart(s));
    var t := TrimStart(s);
    if TrimEnd(t) != [] {
      assert t[0] == TrimEnd(t)[0];
    }
  }

  function ToLowerChar(c: char): char {
    if 'A' <= c <= 'Z' then c + 32 as char else c
  }

  function ToUpperChar(c: char): char {
    if 'a' <= c <= 'z' then c - 32 as char else c
  }

  function ToLower(s: string): (r: string)
    ensures |r| == |s|
  {
    seq(|s|, i requires 0 <= i < |s| => ToLowerChar(s[i]))
  }

  function ToUpper(s: string): (r: string)
    ensures |r| == |s|
  {
    seq(|s|, i requires 0 <= i < |s| => ToUpperChar(s[i]))
  }

  predicate IsDigit(c: char) { '0' <= c <= '9' }

  predicate AllDigits(s: string) {
    forall i :: 0 <= i < |s| ==> IsDigit(s[i])
  }

  function DigitValue(c: char): (d: nat)
    requires IsDigit(c)
    ensures d < 10
  {
    (c - '0') as nat
  }

  /** The number a decimal numeral denotes; the empty numeral denotes zero. */
  function NumberOf(s: string): nat
    requires AllDigits(s)
  {
    if s == [] then 0 else 10 * NumberOf(s[..|s| - 1]) + DigitValue(s[|s| - 1])
  }

  function Pow10(n: nat): (p: nat)
    ensures p >= 1
  {
    if n == 0 then 1 else 10 * Pow10(n - 1)
  }

  lemma {:induction false} NumberBound(s: string)
    requires AllDigits(s)
    ensures NumberOf(s) < Pow10(|s|)
  {
    if s != [] { NumberBound(s[..|s| - 1]); }
  }

  function Repeat(c: char, n: nat): (s: string)
    ensures |s| == n && forall i :: 0 <= i < n ==> s[i] == c
  {
    seq(n, _ => c)
  }

  // --- Splitting ---------------------------------------------------------------

  /** The position of the first c in s from i on, or |s|. */
  function Find(s: string, c: char, i: nat): (k: nat)
    requires i <= |s|
    ensures i <= k <= |s| && (k < |s| ==> s[k] == c)
    ensures forall j :: i <= j < k ==> s[j] != c
    decreases |s| - i
  {
    if i == |s| || s[i] == c then i else Find(s, c, i + 1)
  }

  /** The text before the first c, and the text after it; nothing when there is no c. */
  function Cut(s: string, c: char): (r: Option<(string, string)>)
    ensures r.Some? ==> s == r.value.0 + [c] + r.value.1 && c !in r.value.0
    ensures r.None? ==> c !in s
  {
    var k := Find(s, c, 0);
    if k == |s| then None else Some((s[..k], s[k + 1..]))
  }

  lemma CutAt(a: string, c: char, b: string)
    requires c !in a
    ensures Cut(a + [c] + b, c) == Some((a, b))
  {
    var s := a + [c] + b;
    var k := Find(s, c, 0);
    assert s[|a|] == c && forall j :: 0 <= j < |a| ==> s[j] == a[j] != c;
    assert s[..k] == a && s[k + 1..] == b;
  }
}
