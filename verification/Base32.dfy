/** Unpadded base32 (section 6 of RFC 4648), over strings of '0' and '1' as the source does it. */
module Base32 {
  import opened Text
  import opened Bits

  const ALPHABET: string := "ABCDEFGHIJKLMNOPQRSTUVWXYZ234567"

  // --- Binary numerals --------------------------------------------------------

  predicate Binary(bits: string) {
    forall i :: 0 <= i < |bits| ==> bits[i] == '0' || bits[i] == '1'
  }

  /** `n.toString(2).padStart(width, '0')` for n below 2^width. */
  function ToBits(n: nat, width: nat): (bits: string)
    ensures |bits| == width && Binary(bits)
  {
    if width == 0 then "" else ToBits(n / 2, width - 1) + (if n % 2 == 1 then "1" else "0")
  }

  /** `Number.parseInt(bits, 2)`. */
  function FromBits(bits: string): (n: nat)
    requires Binary(bits)
    ensures n < Pow2(|bits|)
  {
    if bits == "" then 0
    else 2 * FromBits(bits[..|bits| - 1]) + (if bits[|bits| - 1] == '1' then 1 else 0)
  }

  lemma {:induction false} FromToBits(n: nat, width: nat)
    requires n < Pow2(width)
    ensures FromBits(ToBits(n, width)) == n
  {
    if width > 0 {
      FromToBits(n / 2, width - 1);
      var rest := ToBits(n / 2, width - 1);
      assert ToBits(n, width)[..width - 1] == rest;
    }
  }

  lemma {:induction false} ToFromBits(bits: string)
    requires Binary(bits)
    ensures ToBits(FromBits(bits), |bits|) == bits
  {
    if bits != "" {
      ToFromBits(bits[..|bits| - 1]);
      assert bits == bits[..|bits| - 1] + [bits[|bits| - 1]];
    }
  }

  /** n is a multiple of width. */
  predicate Whole(n: nat, width: nat)
    requires width > 0
  {
    n == 0 || (n >= width && Whole(n - width, width))
  }

  /** The largest multiple of width up to n. */
  function Floor(n: nat, width: nat): (m: nat)
    requires width > 0
    ensures m <= n < m + width && Whole(m, width)
  {
    if n < width then 0 else width + Floor(n - width, width)
  }

  lemma {:induction false} WholeSum(m: nat, n: nat, width: nat)
    requires width > 0 && Whole(m, width) && Whole(n, width)
    ensures Whole(m + n, width)
  {
    if m > 0 { WholeSum(m - width, n, width); }
  }

  lemma {:induction false} WholeFive(n: nat)
    ensures Whole(n, 5) <==> n % 5 == 0
  {
    if n >= 5 { WholeFive(n - 5); }
  }

  /** The bits of a string of numbers, `width` each. */
  function Spread(values: seq<nat>, width: nat): (bits: string)
    ensures Binary(bits)
    ensures width > 0 ==> Whole(|bits|, width)
  {
    if values == [] then "" else ToBits(values[0], width) + Spread(values[1..], width)
  }

  /** The numbers in a bit string, `width` bits each; bits left over at the end are dropped. */
  function Gather(bits: string, width: nat): (values: seq<nat>)
    requires Binary(bits) && width > 0
    ensures forall i :: 0 <= i < |values| ==> values[i] < Pow2(width)
  {
    if |bits| < width then [] else [FromBits(bits[..width])] + Gather(bits[width..], width)
  }

  lemma GatherHead(head: string, rest: string, width: nat)
    requires Binary(head) && Binary(rest) && width > 0 && |head| == width
    ensures Gather(head + rest, width) == [FromBits(head)] + Gather(rest, width)
  {
    assert (head + rest)[..width] == head && (head + rest)[width..] == rest;
  }

  lemma {:induction false} GatherSpread(values: seq<nat>, width: nat, tail: string)
    requires width > 0 && forall i :: 0 <= i < |values| ==> values[i] < Pow2(width)
    requires Binary(tail) && |tail| < width
    ensures Gather(Spread(values, width) + tail, width) == values
  {
    if values == [] {
      assert Spread(values, width) + tail == tail;
    } else {
      var head, rest := ToBits(values[0], width), Spread(values[1..], width);
      assert Spread(values, width) + tail == head + (rest + tail);
      GatherHead(head, rest + tail, width);
      FromToBits(values[0], width);
      GatherSpread(values[1..], width, tail);
    }
  }

  lemma SpreadHead(head: string, values: seq<nat>, width: nat)
    requires Binary(head) && |head| == width
    ensures Spread([FromBits(head)] + values, width) == head + Spread(values, width)
  {
    ToFromBits(head);
    assert ([FromBits(head)] + values)[1..] == values;
  }

  lemma {:induction false} SpreadGather(bits: string, width: nat)
    requires Binary(bits) && width > 0
    ensures Spread(Gather(bits, width), width) == bits[..Floor(|bits|, width)]
  {
    if |bits| >= width {
      var n, head, rest := Floor(|bits|, width), bits[..width], bits[width..];
      SpreadGather(rest, width);
      assert bits == head + rest;
      GatherHead(head, rest, width);
      SpreadHead(head, Gather(rest, width), width);
      assert bits[..n] == head + rest[..n - width];
    }
  }

  // --- Encoding -----------------------------------------------------------------

  function Zeros(n: nat): (bits: string)
    ensures |bits| == n && Binary(bits)
  {
    Repeat('0', n)
  }

  /** The zero bits that fill the last group of five. */
  function Padding(n: nat): (k: nat)
    ensures k < 5 && (n + k) % 5 == 0
  {
    FillsUp(n);
    (5 - n % 5) % 5
  }

  lemma FillsUp(n: nat)
    ensures var k := (5 - n % 5) % 5; k < 5 && (n + k) % 5 == 0 && k == if n % 5 == 0 then 0 else 5 - n % 5
  {
    var r := n % 5;
    assert r == 0 || r == 1 || r == 2 || r == 3 || r == 4;
    assert n == 5 * (n / 5) + r;
  }

  function Char(value: nat): char
    requires value < 32
  {
    ALPHABET[value]
  }

  function Chars(values: seq<nat>): (s: string)
    requires forall i :: 0 <= i < |values| ==> values[i] < Pow2(5)
    ensures |s| == |values|
  {
    Pow2Values();
    seq(|values|, i requires 0 <= i < |values| => Char(values[i]))
  }

  /** The bytes' bits, filled up with zeros to groups of five. */
  function Filled(buf: seq<Byte>): (bits: string)
    ensures Binary(bits)
  {
    Spread(buf, 8) + Zeros(Padding(8 * |buf|))
  }

  /** What `Encode` must produce: the bytes' bits, filled with zeros, five to a character. */
  function Encoded(buf: seq<Byte>): string {
    Chars(Gather(Filled(buf), 5))
  }

  /** One more group of five bits is one more character. */
  lemma SpellOne(bits: string, group: string)
    requires Binary(bits) && Binary(group) && Whole(|bits|, 5) && |group| == 5
    ensures FromBits(group) < 32
    ensures Chars(Gather(bits + group, 5)) == Chars(Gather(bits, 5)) + [Char(FromBits(group))]
  {
    Pow2Values();
    GatherAppend(bits, group, 5);
  }

  /** The first pass collects the bits. */
  method CollectBits(buf: seq<Byte>) returns (bits: string)
    ensures bits == Spread(buf, 8)
  {
    bits := "";
    for n := 0 to |buf|
      invariant bits == Spread(buf[..n], 8)
    {
      SpreadAppend(buf[..n], buf[n], 8);
      assert buf[..n + 1] == buf[..n] + [buf[n]];
      bits := bits + ToBits(buf[n], 8);
    }
    assert buf[..|buf|] == buf;
  }

  /** The second pass spells them in groups of five. */
  method SpellGroups(bits: string) returns (out: string, i: nat)
    requires Binary(bits)
    ensures i <= |bits| < i + 5 && Whole(i, 5) && out == Chars(Gather(bits[..i], 5))
  {
    out := "";
    i := 0;
    while i + 5 <= |bits|
      invariant 0 <= i <= |bits| && Whole(i, 5)
      invariant out == Chars(Gather(bits[..i], 5))
    {
      SpellOne(bits[..i], bits[i..i + 5]);
      assert bits[..i + 5] == bits[..i] + bits[i..i + 5];
      WholeSum(i, 5, 5);
      out := out + [Char(FromBits(bits[i..i + 5]))];
      i := i + 5;
    }
  }

  /** And then a last short group, if any. */
  method Encode(buf: seq<Byte>) returns (out: string)
    ensures out == Encoded(buf)
  {
    var bits := CollectBits(buf);
    var i;
    out, i := SpellGroups(bits);
    var rem := |bits| % 5;
    LastCharacter(buf, bits, i, out);
    if rem != 0 {
      out := out + [Char(FromBits(bits[|bits| - rem..] + Repeat('0', 5 - rem)))];
    }
  }

  lemma LastCharacter(buf: seq<Byte>, bits: string, i: nat, out: string)
    requires bits == Spread(buf, 8) && i <= |bits| < i + 5 && Whole(i, 5) && out == Chars(Gather(bits[..i], 5))
    ensures var rem := |bits| % 5;
      && (rem == 0 ==> Encoded(buf) == out)
      && (rem != 0 ==> var last := bits[|bits| - rem..] + Repeat('0', 5 - rem);
                       Binary(last) && FromBits(last) < 32 && Encoded(buf) == out + [Char(FromBits(last))])
  {
    WholeEight(buf);
    SpellLast(bits, |buf|, i);
  }

  lemma SpellLast(bits: string, n: nat, i: nat)
    requires Binary(bits) && |bits| == 8 * n && i <= |bits| < i + 5 && Whole(i, 5)
    ensures var rem := |bits| % 5;
      var spelled := Chars(Gather(bits + Zeros(Padding(8 * n)), 5));
      && i == |bits| - rem
      && (rem == 0 ==> spelled == Chars(Gather(bits[..i], 5)))
      && (rem != 0 ==> var last := bits[i..] + Repeat('0', 5 - rem);
                       && Binary(last) && FromBits(last) < 32
                       && spelled == Chars(Gather(bits[..i], 5)) + [Char(FromBits(last))])
  {
    WholeFive(i);
    LastGroup(bits, n, i);
    var rem := |bits| % 5;
    if rem != 0 { SpellOne(bits[..i], bits[i..] + Repeat('0', 5 - rem)); }
  }

  lemma FillOfFive(n: nat, i: nat)
    requires i <= n < i + 5 && i % 5 == 0
    ensures n % 5 == n - i && Padding(n) == if n == i then 0 else 5 - (n - i)
  {
  }

  lemma LastGroup(bits: string, n: nat, i: nat)
    requires Binary(bits) && |bits| == 8 * n && i <= |bits| < i + 5 && i % 5 == 0
    ensures var rem := |bits| % 5; var filled := bits + Zeros(Padding(8 * n));
      && i == |bits| - rem
      && (rem == 0 ==> filled == bits[..i])
      && (rem != 0 ==> var last := bits[i..] + Repeat('0', 5 - rem);
                       Binary(last) && filled == bits[..i] + last)
  {
    FillOfFive(|bits|, i);
    assert bits == bits[..i] + bits[i..];
  }

  lemma {:induction false} WholeEight(buf: seq<nat>)
    ensures |Spread(buf, 8)| == 8 * |buf|
  {
    if buf != [] { WholeEight(buf[1..]); }
  }

  lemma {:induction false} SpreadAppend(values: seq<nat>, v: nat, width: nat)
    ensures Spread(values + [v], width) == Spread(values, width) + ToBits(v, width)
  {
    if values == [] {
      assert [v][1..] == [];
    } else {
      var head, rest, last := ToBits(values[0], width), Spread(values[1..], width), ToBits(v, width);
      assert (values + [v])[1..] == values[1..] + [v];
      SpreadAppend(values[1..], v, width);
      assert head + (rest + last) == (head + rest) + last;
    }
  }

  lemma {:induction false} GatherAppend(bits: string, group: string, width: nat)
    requires Binary(bits) && Binary(group) && width > 0 && Whole(|bits|, width) && |group| == width
    ensures Gather(bits + group, width) == Gather(bits, width) + [FromBits(group)]
  {
    if bits == "" {
      assert bits + group == group && group[..width] == group && group[width..] == "";
    } else {
      var rest := bits[width..];
      assert (bits + group)[..width] == bits[..width] && (bits + group)[width..] == rest + group;
      GatherAppend(rest, group, width);
    }
  }

  // --- Decoding -------------------------------------------------------------------

  function StripTrailing(s: string, c: char): string {
    if s != "" && s[|s| - 1] == c then StripTrailing(s[..|s| - 1], c) else s
  }

  function RemoveSpaces(s: string): string {
    if s == "" then ""
    else (if IsSpace(s[0]) then "" else [s[0]]) + RemoveSpaces(s[1..])
  }

  /** Strip a run of '=' at the very end, then white space everywhere, then upper-case. */
  function Normalize(input: string): string {
    ToUpper(RemoveSpaces(StripTrailing(input, '=')))
  }

  /** `BASE32_ALPHABET.indexOf(c)`, see `IndexInAlphabet`. */
  function IndexOf(c: char): (i: int)
    ensures -1 <= i < 32
  {
    if 'A' <= c <= 'Z' then (c - 'A') as int
    else if '2' <= c <= '7' then 26 + (c - '2') as int
    else -1
  }

  lemma IndexInAlphabet(c: char)
    ensures IndexOf(c) != -1 ==> ALPHABET[IndexOf(c)] == c
    ensures IndexOf(c) == -1 <==> c !in ALPHABET
  {
  }

  lemma CharHasIndex(value: nat)
    requires value < 32
    ensures IndexOf(Char(value)) == value
  {
  }

  predicate InAlphabet(s: string) {
    forall i :: 0 <= i < |s| ==> IndexOf(s[i]) != -1
  }

  function Values(s: string): (values: seq<nat>)
    requires InAlphabet(s)
    ensures |values| == |s| && forall i :: 0 <= i < |s| ==> values[i] == IndexOf(s[i])
  {
    seq(|s|, i requires 0 <= i < |s| => IndexOf(s[i]) as nat)
  }

  /** What `ToBuffer` must produce: whole bytes out of the characters' bits, nothing on a bad character. */
  function Decoded(input: string): (bytes: seq<Byte>) {
    var s := Normalize(input);
    if InAlphabet(s) then Octets(Spread(Values(s), 5)) else []
  }

  function Octets(bits: string): (bytes: seq<Byte>)
    requires Binary(bits)
  {
    Pow2Values();
    var values := Gather(bits, 8);
    seq(|values|, i requires 0 <= i < |values| => values[i])
  }

  /** One more group of eight bits is one more byte. */
  lemma PackOne(bits: string, group: string)
    requires Binary(bits) && Binary(group) && Whole(|bits|, 8) && |group| == 8
    ensures FromBits(group) < 256
    ensures Octets(bits + group) == Octets(bits) + [FromBits(group)]
  {
    Pow2Values();
    GatherAppend(bits, group, 8);
  }

  lemma ReadOne(s: string, n: nat, width: nat)
    requires n < |s| && InAlphabet(s[..n]) && IndexOf(s[n]) != -1
    ensures InAlphabet(s[..n + 1])
    ensures Spread(Values(s[..n + 1]), width) == Spread(Values(s[..n]), width) + ToBits(IndexOf(s[n]), width)
  {
    assert forall k :: 0 <= k < n ==> s[..n + 1][k] == s[..n][k];
    SpreadAppend(Values(s[..n]), IndexOf(s[n]), width);
    assert Values(s[..n + 1]) == Values(s[..n]) + [IndexOf(s[n])];
  }

  method ToBuffer(input: string) returns (bytes: seq<Byte>)
    ensures bytes == Decoded(input)
  {
    var s := Normalize(input);
    var bits := "";
    for n := 0 to |s|
      invariant InAlphabet(s[..n]) && bits == Spread(Values(s[..n]), 5)
    {
      var value := IndexOf(s[n]);
      if value == -1 {
        return [];
      }
      ReadOne(s, n, 5);
      bits := bits + ToBits(value, 5);
    }
    assert s[..|s|] == s;
    bytes := [];
    var i := 0;
    while i + 8 <= |bits|
      invariant 0 <= i <= |bits| && Whole(i, 8)
      invariant bytes == Octets(bits[..i])
    {
      PackOne(bits[..i], bits[i..i + 8]);
      assert bits[..i + 8] == bits[..i] + bits[i..i + 8];
      WholeSum(i, 8, 8);
      bytes := bytes + [FromBits(bits[i..i + 8])];
      i := i + 8;
    }
    TailDropped(bits, i, 8);
  }

  lemma TailDropped(bits: string, i: nat, width: nat)
    requires Binary(bits) && width > 0 && i <= |bits| < i + width && Whole(i, width)
    ensures Gather(bits, width) == Gather(bits[..i], width)
    decreases i
  {
    if i >= width {
      TailDropped(bits[width..], i - width, width);
      assert bits[..i][width..] == bits[width..][..i - width] && bits[..i][..width] == bits[..width];
    }
  }

  lemma OctetsBits(bits: string) returns (tail: string)
    requires Binary(bits)
    ensures |tail| < 8 && bits == Spread(Octets(bits), 8) + tail
  {
    var n := Floor(|bits|, 8);
    SpreadGather(bits, 8);
    assert Octets(bits) == Gather(bits, 8);
    tail := bits[n..];
    assert bits == bits[..n] + tail;
  }

  /** The decoded bytes spell all the characters' bits but fewer than eight at the end. */
  lemma DecodedBits(input: string) returns (tail: string)
    ensures var s := Normalize(input);
      && (!InAlphabet(s) ==> Decoded(input) == [])
      && (InAlphabet(s) ==> |tail| < 8 && Spread(Values(s), 5) == Spread(Decoded(input), 8) + tail)
  {
    var s := Normalize(input);
    tail := "";
    if InAlphabet(s) { tail := OctetsBits(Spread(Values(s), 5)); }
  }

  // --- Round trip -------------------------------------------------------------------

  lemma CharsHaveValues(values: seq<nat>)
    requires forall i :: 0 <= i < |values| ==> values[i] < Pow2(5)
    ensures InAlphabet(Chars(values)) && Values(Chars(values)) == values
  {
    Pow2Values();
    forall i | 0 <= i < |values| ensures IndexOf(Chars(values)[i]) == values[i] {
      CharHasIndex(values[i]);
    }
  }

  lemma WholeGather(bits: string, width: nat)
    requires Binary(bits) && width > 0 && Whole(|bits|, width)
    ensures Spread(Gather(bits, width), width) == bits
  {
    SpreadGather(bits, width);
    FloorWhole(|bits|, width);
    assert bits[..|bits|] == bits;
  }

  lemma FilledWhole(buf: seq<Byte>)
    ensures Whole(|Filled(buf)|, 5)
  {
    WholeEight(buf);
    WholeFive(|Filled(buf)|);
  }

  /** The characters of an encoding spell the bytes' bits and then only zeros, at most four. */
  lemma EncodedBits(buf: seq<Byte>)
    ensures InAlphabet(Encoded(buf))
    ensures Spread(Values(Encoded(buf)), 5) == Filled(buf)
  {
    FilledWhole(buf);
    WholeGather(Filled(buf), 5);
    CharsHaveValues(Gather(Filled(buf), 5));
  }

  lemma {:induction false} FloorWhole(n: nat, width: nat)
    requires width > 0 && Whole(n, width)
    ensures Floor(n, width) == n
  {
    if n > 0 { FloorWhole(n - width, width); }
  }

  lemma {:induction false} FiveEach(values: seq<nat>)
    ensures |Spread(values, 5)| == 5 * |values|
  {
    if values != [] { FiveEach(values[1..]); }
  }

  /** ceil(8n / 5) characters for n bytes. */
  lemma EncodedLength(buf: seq<Byte>)
    ensures |Encoded(buf)| == (8 * |buf| + 4) / 5
  {
    EncodedBits(buf);
    FiveEach(Values(Encoded(buf)));
    WholeEight(buf);
  }

  // --- What an encoding is, without a bit string -------------------------------------

  lemma {:induction false} FromBitsSum(a: string, b: string)
    requires Binary(a) && Binary(b)
    ensures FromBits(a + b) == Doubled(FromBits(a), |b|) + FromBits(b)
  {
    if b == "" {
      assert a + b == a;
    } else {
      FromBitsSum(a, b[..|b| - 1]);
      FromBitsLast(b);
      FromBitsLast(a + b);
      assert (a + b)[..|a + b| - 1] == a + b[..|b| - 1];
    }
  }

  lemma FromBitsLast(b: string)
    requires Binary(b) && b != ""
    ensures FromBits(b) == 2 * FromBits(b[..|b| - 1]) + (if b[|b| - 1] == '1' then 1 else 0)
  {
  }

  lemma {:induction false} SpreadValue(values: seq<nat>, width: nat)
    requires forall i :: 0 <= i < |values| ==> values[i] < Pow2(width)
    ensures FromBits(Spread(values, width)) == BaseValue(values, Pow2(width))
  {
    if values != [] {
      var m := |values| - 1;
      SpreadValue(values[..m], width);
      SpreadAppend(values[..m], values[m], width);
      assert values[..m] + [values[m]] == values;
      FromBitsSum(Spread(values[..m], width), ToBits(values[m], width));
      FromToBits(values[m], width);
      DoubledTimes(BaseValue(values[..m], Pow2(width)), width);
    }
  }

  lemma {:induction false} ZerosValue(n: nat)
    ensures FromBits(Zeros(n)) == 0
  {
    if n > 0 {
      ZerosValue(n - 1);
      assert Zeros(n)[..n - 1] == Zeros(n - 1);
    }
  }

  /** The same bits in groups of two widths: one number, shifted by the zeros that fill it up. */
  lemma RegroupedValue(a: seq<nat>, v: nat, b: seq<nat>, w: nat, fill: nat)
    requires forall i :: 0 <= i < |a| ==> a[i] < Pow2(v)
    requires forall i :: 0 <= i < |b| ==> b[i] < Pow2(w)
    requires Spread(a, v) == Spread(b, w) + Zeros(fill)
    ensures BaseValue(a, Pow2(v)) == Doubled(BaseValue(b, Pow2(w)), fill)
  {
    SpreadValue(a, v);
    SpreadValue(b, w);
    FromBitsSum(Spread(b, w), Zeros(fill));
    ZerosValue(fill);
  }

  /** Base-32 digits that are the bytes' base-256 number, filled up with zero bits. */
  ghost predicate DigitsOf(s: string, buf: seq<Byte>)
    requires InAlphabet(s)
  {
    BaseValue(Values(s), Pow2(5)) == Doubled(BaseValue(buf, Pow2(8)), Padding(8 * |buf|))
  }

  lemma EncodedDigits(buf: seq<Byte>)
    ensures InAlphabet(Encoded(buf)) && DigitsOf(Encoded(buf), buf)
  {
    Pow2Values();
    EncodedBits(buf);
    RegroupedValue(Values(Encoded(buf)), 5, buf, 8, Padding(8 * |buf|));
  }

  lemma SameSpelling(s: string, t: string)
    requires InAlphabet(s) && InAlphabet(t) && |s| == |t|
    requires BaseValue(Values(s), Pow2(5)) == BaseValue(Values(t), Pow2(5))
    ensures s == t
  {
    Pow2Values();
    SameDigits(Values(s), Values(t), Pow2(5));
    forall i | 0 <= i < |s| ensures s[i] == t[i] {
      assert Values(s)[i] == Values(t)[i];
      IndexInAlphabet(s[i]);
      IndexInAlphabet(t[i]);
    }
  }

  lemma SameEncoding(buf: seq<Byte>, s: string, t: string)
    requires InAlphabet(s) && InAlphabet(t) && |s| == |t| && DigitsOf(s, buf) && DigitsOf(t, buf)
    ensures s == t
  {
    SameSpelling(s, t);
  }

  /** Section 6 of RFC 4648 as arithmetic: the digits and their number leave no other encoding. */
  lemma OnlyEncoding(buf: seq<Byte>, s: string)
    ensures s == Encoded(buf) <==> InAlphabet(s) && |s| == (8 * |buf| + 4) / 5 && DigitsOf(s, buf)
  {
    EncodedDigits(buf);
    EncodedLength(buf);
    if InAlphabet(s) && |s| == |Encoded(buf)| && DigitsOf(s, buf) {
      SameEncoding(buf, s, Encoded(buf));
    }
  }

  lemma OctetsOf(buf: seq<Byte>, tail: string)
    requires Binary(tail) && |tail| < 8
    ensures Octets(Spread(buf, 8) + tail) == buf
  {
    Pow2Values();
    GatherSpread(buf, 8, tail);
  }

  /** Whatever normalizes to the encoding of some bytes decodes to those bytes. */
  lemma DecodesNormalized(buf: seq<Byte>, input: string)
    requires Normalize(input) == Encoded(buf)
    ensures Decoded(input) == buf
  {
    EncodedBits(buf);
    OctetsOf(buf, Zeros(Padding(8 * |buf|)));
  }

  lemma {:induction false} StripRun(s: string, c: char, n: nat)
    requires s != "" ==> s[|s| - 1] != c
    ensures StripTrailing(s + Repeat(c, n), c) == s
  {
    var t := s + Repeat(c, n);
    if n == 0 {
      assert t == s;
    } else {
      assert t[..|t| - 1] == s + Repeat(c, n - 1);
      StripRun(s, c, n - 1);
    }
  }

  /** The characters that stay: white space is removed, letters are upper-cased. */
  function Kept(s: string): string {
    ToUpper(RemoveSpaces(s))
  }

  lemma {:induction false} KeptHas(s: string, c: char)
    requires c in s && !IsSpace(c)
    ensures ToUpperChar(c) in Kept(s)
  {
    if s[0] == c {
      assert RemoveSpaces(s)[0] == c;
      assert Kept(s)[0] == ToUpperChar(c);
    } else {
      KeptHas(s[1..], c);
      var i :| 0 <= i < |Kept(s[1..])| && Kept(s[1..])[i] == ToUpperChar(c);
      var d := |RemoveSpaces(s)| - |RemoveSpaces(s[1..])|;
      assert Kept(s)[i + d] == ToUpperChar(c);
    }
  }

  lemma KeptLacks(s: string, c: char)
    requires !IsSpace(c) && ToUpperChar(c) !in Kept(s)
    ensures c !in s
  {
    if c in s { KeptHas(s, c); }
  }

  lemma {:induction false} RemoveSum(a: string, b: string)
    ensures RemoveSpaces(a + b) == RemoveSpaces(a) + RemoveSpaces(b)
  {
    if a == "" {
      assert a + b == b;
    } else {
      assert (a + b)[1..] == a[1..] + b;
      RemoveSum(a[1..], b);
    }
  }

  lemma KeptSum(a: string, b: string)
    ensures Kept(a + b) == Kept(a) + Kept(b)
  {
    RemoveSum(a, b);
    assert forall s: string, t: string :: ToUpper(s + t) == ToUpper(s) + ToUpper(t);
  }

  lemma {:induction false} KeptBlank(w: string)
    requires Blank(w)
    ensures Kept(w) == ""
  {
    if w != "" { KeptBlank(w[1..]); }
  }

  lemma KeptRoundTrip(buf: seq<Byte>, spelled: string, n: nat)
    requires Kept(spelled) == Encoded(buf)
    ensures Decoded(spelled + Repeat('=', n)) == buf
  {
    EncodedBits(buf);
    assert IndexOf('=') == -1;
    KeptLacks(spelled, '=');
    StripRun(spelled, '=', n);
    DecodesNormalized(buf, spelled + Repeat('=', n));
  }

  /** The same characters, letters in either case, with white space anywhere. */
  predicate Respells(spelled: string, s: string) {
    if spelled == "" then s == ""
    else if IsSpace(spelled[0]) then Respells(spelled[1..], s)
    else s != "" && (spelled[0] == s[0] || spelled[0] == ToLowerChar(s[0])) && Respells(spelled[1..], s[1..])
  }

  lemma KeptFirst(s: string)
    requires s != ""
    ensures Kept(s) == (if IsSpace(s[0]) then "" else [ToUpperChar(s[0])]) + Kept(s[1..])
  {
    assert s == [s[0]] + s[1..];
    KeptSum([s[0]], s[1..]);
    assert RemoveSpaces([s[0]]) == (if IsSpace(s[0]) then "" else [s[0]]) + RemoveSpaces([s[0]][1..]);
  }

  /** For texts over the alphabet this is what the normalizer undoes. */
  lemma {:induction false} RespellsKept(spelled: string, s: string)
    requires InAlphabet(s)
    ensures Respells(spelled, s) <==> Kept(spelled) == s
  {
    if spelled != "" {
      KeptFirst(spelled);
      if IsSpace(spelled[0]) {
        RespellsKept(spelled[1..], s);
      } else if s != "" {
        RespellsKept(spelled[1..], s[1..]);
        assert s == [s[0]] + s[1..];
        assert Kept(spelled)[1..] == Kept(spelled[1..]);
      }
    }
  }

  /**
   The encoding of any bytes still decodes to them in any letter case, with white space anywhere in
   it, and with any run of '=' after it.
   */
  lemma RoundTrip(buf: seq<Byte>, spelled: string, n: nat)
    requires Respells(spelled, Encoded(buf))
    ensures Decoded(spelled + Repeat('=', n)) == buf
  {
    EncodedBits(buf);
    RespellsKept(spelled, Encoded(buf));
    KeptRoundTrip(buf, spelled, n);
  }

  lemma LettersKept(c: char)
    requires IndexOf(c) != -1
    ensures Kept([c]) == [c] && Kept([ToLowerChar(c)]) == [c]
  {
    assert RemoveSpaces([c]) == [c] + RemoveSpaces([c][1..]);
    assert RemoveSpaces([ToLowerChar(c)]) == [ToLowerChar(c)] + RemoveSpaces([ToLowerChar(c)][1..]);
  }

  lemma {:induction false} SpellingKept(s: string)
    requires InAlphabet(s)
    ensures Kept(s) == s && Kept(ToLower(s)) == s
  {
    if s != "" {
      LettersKept(s[0]);
      SpellingKept(s[1..]);
      KeptSum([s[0]], s[1..]);
      KeptSum([ToLowerChar(s[0])], ToLower(s[1..]));
      assert s == [s[0]] + s[1..];
      assert ToLower(s) == [ToLowerChar(s[0])] + ToLower(s[1..]);
    }
  }

  lemma SplitKept(s: string, k: nat, w: string)
    requires InAlphabet(s) && k <= |s| && Blank(w)
    ensures Kept(s[..k] + w + s[k..]) == s
  {
    SpellingKept(s[..k]);
    SpellingKept(s[k..]);
    KeptBlank(w);
    KeptSum(s[..k] + w, s[k..]);
    KeptSum(s[..k], w);
  }

  lemma UnpaddedRoundTrip(buf: seq<Byte>, spelled: string)
    requires Kept(spelled) == Encoded(buf)
    ensures Decoded(spelled) == buf
  {
    KeptRoundTrip(buf, spelled, 0);
    assert spelled + Repeat('=', 0) == spelled;
  }

  /** Plain, in lower case, or split by white space anywhere: instances of the general round trip. */
  lemma PlainRoundTrip(buf: seq<Byte>, k: nat, w: string)
    requires k <= |Encoded(buf)| && Blank(w)
    ensures var e := Encoded(buf);
      Decoded(e) == buf && Decoded(ToLower(e)) == buf && Decoded(e[..k] + w + e[k..]) == buf
  {
    var e := Encoded(buf);
    EncodedBits(buf);
    SpellingKept(e);
    SplitKept(e, k, w);
    UnpaddedRoundTrip(buf, e);
    UnpaddedRoundTrip(buf, ToLower(e));
    UnpaddedRoundTrip(buf, e[..k] + w + e[k..]);
  }

  /** White space after the '=' signs: they are then no longer at the end and stay in. */
  lemma BlanksAfterPadding(buf: seq<Byte>, spelled: string, n: nat, after: string)
    requires Respells(spelled, Encoded(buf)) && buf != [] && n > 0 && Blank(after)
    ensures Decoded(spelled + Repeat('=', n) + after) == buf <==> after == ""
  {
    var s := spelled + Repeat('=', n) + after;
    if after == "" {
      assert s == spelled + Repeat('=', n);
      RoundTrip(buf, spelled, n);
    } else {
      assert s[|s| - 1] == after[|after| - 1];
      assert StripTrailing(s, '=') == s;
      assert s[|spelled|] == '=';
      KeptHas(s, '=');
      var i :| 0 <= i < |Kept(s)| && Kept(s)[i] == '=';
      assert IndexOf(Normalize(s)[i]) == -1;
      assert Decoded(s) == [];
    }
  }

  function WithoutChar(s: string, c: char): string {
    if s == "" then "" else (if s[0] == c then "" else [s[0]]) + WithoutChar(s[1..], c)
  }

  lemma {:induction false} WithoutCharSum(a: string, b: string, c: char)
    ensures WithoutChar(a + b, c) == WithoutChar(a, c) + WithoutChar(b, c)
  {
    if a == "" {
      assert a + b == b;
    } else {
      var head := if a[0] == c then "" else [a[0]];
      assert (a + b)[1..] == a[1..] + b;
      WithoutCharSum(a[1..], b, c);
      assert head + (WithoutChar(a[1..], c) + WithoutChar(b, c)) == (head + WithoutChar(a[1..], c)) + WithoutChar(b, c);
    }
  }

  lemma {:induction false} WithoutCharKeeps(s: string, c: char)
    requires c !in s
    ensures WithoutChar(s, c) == s
  {
    if s != "" {
      assert s == [s[0]] + s[1..];
      WithoutCharKeeps(s[1..], c);
    }
  }

  lemma {:induction false} WithoutRun(c: char, n: nat)
    ensures WithoutChar(Repeat(c, n), c) == ""
  {
    if n > 0 {
      assert Repeat(c, n)[1..] == Repeat(c, n - 1);
      WithoutRun(c, n - 1);
    }
  }

  lemma {:induction false} StripSplits(s: string, c: char) returns (n: nat)
    ensures s == StripTrailing(s, c) + Repeat(c, n)
  {
    if s != "" && s[|s| - 1] == c {
      var m := StripSplits(s[..|s| - 1], c);
      n := m + 1;
      assert Repeat(c, n) == Repeat(c, m) + [c];
      assert s == s[..|s| - 1] + [c];
    } else {
      n := 0;
      assert Repeat(c, 0) == "";
    }
  }

  /** A sign that is not stripped spoils the whole text. */
  lemma SignSpoils(text: string)
    requires '=' in StripTrailing(text, '=')
    ensures Decoded(text) == []
  {
    var core := StripTrailing(text, '=');
    KeptHas(core, '=');
    var i :| 0 <= i < |Kept(core)| && Kept(core)[i] == '=';
    assert IndexOf(Normalize(text)[i]) == -1;
  }

  /** If all signs are stripped, what is left is the text without signs. */
  lemma AllStripped(text: string, c: char) returns (n: nat)
    requires c !in StripTrailing(text, c)
    ensures text == WithoutChar(text, c) + Repeat(c, n)
  {
    var core := StripTrailing(text, c);
    n := StripSplits(text, c);
    WithoutCharSum(core, Repeat(c, n), c);
    WithoutCharKeeps(core, c);
    WithoutRun(c, n);
  }

  /**
   Whatever '=' signs are put into a respelling of an encoding, and wherever: the text decodes to the
   bytes if and only if stripping the run at the very end leaves none, or there were no bytes.
   */
  lemma PaddingMustBeLast(buf: seq<Byte>, text: string)
    requires Respells(WithoutChar(text, '='), Encoded(buf))
    ensures Decoded(text) == buf <==> buf == [] || '=' !in StripTrailing(text, '=')
  {
    if '=' in StripTrailing(text, '=') {
      SignSpoils(text);
    } else {
      var n := AllStripped(text, '=');
      RoundTrip(buf, WithoutChar(text, '='), n);
    }
  }

  lemma SignFirst(b: string, c: char)
    requires c !in b
    ensures WithoutChar([c] + b, c) == b
  {
    assert ([c] + b)[1..] == b;
    WithoutCharKeeps(b, c);
  }

  lemma SignBetween(a: string, b: string, c: char)
    requires c !in a && c !in b
    ensures WithoutChar(a + ([c] + b), c) == a + b
  {
    SignFirst(b, c);
    WithoutCharKeeps(a, c);
    WithoutCharSum(a, [c] + b, c);
  }

  lemma SignInside(s: string, k: nat, c: char)
    requires c !in s && k < |s|
    ensures var text := s[..k] + [c] + s[k..];
            WithoutChar(text, c) == s && c in StripTrailing(text, c)
  {
    var text := s[..k] + [c] + s[k..];
    SignBetween(s[..k], s[k..], c);
    assert text == s[..k] + ([c] + s[k..]) && s[..k] + s[k..] == s;
    assert text[|text| - 1] == s[|s| - 1] && text[k] == c;
  }

  lemma LacksSign(s: string)
    requires InAlphabet(s)
    ensures '=' !in s
  {
    assert IndexOf('=') == -1;
  }

  /** So a sign inside an encoding spoils it. */
  lemma PaddingInside(buf: seq<Byte>, k: nat)
    requires k < |Encoded(buf)|
    ensures Decoded(Encoded(buf)[..k] + ['='] + Encoded(buf)[k..]) != buf
  {
    EncodedBits(buf);
    EncodedLength(buf);
    LacksSign(Encoded(buf));
    SpellingKept(Encoded(buf));
    RespellsKept(Encoded(buf), Encoded(buf));
    SignInside(Encoded(buf), k, '=');
    PaddingMustBeLast(buf, Encoded(buf)[..k] + ['='] + Encoded(buf)[k..]);
  }

  /** For instance with one '=' and one space after any encoding. */
  lemma PaddedThenBlank(buf: seq<Byte>)
    requires buf != []
    ensures Decoded(Encoded(buf) + "=" + " ") != buf
  {
    EncodedBits(buf);
    SpellingKept(Encoded(buf));
    RespellsKept(Encoded(buf), Encoded(buf));
    BlanksAfterPadding(buf, Encoded(buf), 1, " ");
    assert Repeat('=', 1) == "=";
  }
}
