/** Time-based one-time passwords (RFC 6238 over RFC 4226), with HMAC-SHA-1 as a parameter. */
module Totp {
  import opened Text
  import opened Bits
  import Base32

  const PERIOD_MS: int := 30_000
  const DIGITS: nat := 6

  type Digest = d: seq<Byte> | |d| == 20 witness seq(20, _ => 0)

  /** Key and message to digest. */
  type Mac = (seq<Byte>, seq<Byte>) -> Digest

  // --- Decimal numerals ---------------------------------------------------------

  /** `String(n)`. */
  function ToDecimal(n: nat): (s: string)
    ensures s != "" && AllDigits(s)
  {
    var last := ['0' + (n % 10) as char];
    if n < 10 then last else ToDecimal(n / 10) + last
  }

  lemma {:induction false} DecimalValue(n: nat)
    ensures NumberOf(ToDecimal(n)) == n
  {
    if n >= 10 {
      DecimalValue(n / 10);
      assert ToDecimal(n)[..|ToDecimal(n)| - 1] == ToDecimal(n / 10);
    }
  }

  lemma {:induction false} DecimalLength(n: nat, k: nat)
    requires k > 0 && n < Pow10(k)
    ensures |ToDecimal(n)| <= k
  {
    if n >= 10 { DecimalLength(n / 10, k - 1); }
  }

  function PadStart(s: string, width: nat): string {
    if |s| >= width then s else Repeat('0', width - |s|) + s
  }

  lemma {:induction false} ZerosAreNothing(k: nat, s: string)
    requires AllDigits(s)
    ensures AllDigits(Repeat('0', k) + s) && NumberOf(Repeat('0', k) + s) == NumberOf(s)
    decreases |s|, k
  {
    var t := Repeat('0', k) + s;
    if s == "" {
      assert t == Repeat('0', k);
      if k > 0 {
        assert t[..k - 1] == Repeat('0', k - 1) + "";
        ZerosAreNothing(k - 1, "");
      }
    } else {
      assert t[..|t| - 1] == Repeat('0', k) + s[..|s| - 1];
      ZerosAreNothing(k, s[..|s| - 1]);
    }
  }

  lemma LastDigit(x: nat, a: char, y: nat, b: char)
    requires IsDigit(a) && IsDigit(b) && 10 * x + DigitValue(a) == 10 * y + DigitValue(b)
    ensures x == y && a == b
  {
  }

  /** Numerals of the same length are equal when their values are. */
  lemma {:induction false} SameNumeral(a: string, b: string)
    requires AllDigits(a) && AllDigits(b) && |a| == |b| && NumberOf(a) == NumberOf(b)
    ensures a == b
  {
    if a != "" {
      var m := |a| - 1;
      LastDigit(NumberOf(a[..m]), a[m], NumberOf(b[..m]), b[m]);
      SameNumeral(a[..m], b[..m]);
      assert a == a[..m] + [a[m]] && b == b[..m] + [b[m]];
    }
  }

  // --- Dynamic truncation (section 5.3 of RFC 4226) -----------------------------------

  function Offset(digest: Digest): nat {
    And(digest[19], 0x0f)
  }

  /** The four bytes at the offset, masked, shifted and joined as the source does it. */
  function Truncate(digest: Digest): nat
    requires Offset(digest) + 3 < 20
  {
    var o := Offset(digest);
    Or(Or(Or(Shl(And(digest[o], 0x7f), 24), Shl(And(digest[o + 1], 0xff), 16)),
          Shl(And(digest[o + 2], 0xff), 8)),
       And(digest[o + 3], 0xff))
  }

  /** The same four bytes read as a big-endian number without its sign bit. */
  function BigEndian31(digest: Digest, o: nat): nat
    requires o + 3 < 20
  {
    var a: nat, b: nat, c: nat, d: nat := digest[o], digest[o + 1], digest[o + 2], digest[o + 3];
    a % 128 * 0x100_0000 + b * 0x1_0000 + c * 0x100 + d
  }

  lemma OffsetInside(digest: Digest)
    ensures Offset(digest) == digest[19] % 16
  {
    AndLowMask(digest[19], 4);
    Pow2Values();
  }

  lemma ByteMask(b: Byte)
    ensures And(b, 0xff) == b && And(b, 0x7f) == b % 128
  {
    Pow2Values();
    AndLowMask(b, 8);
    SmallMod(b, 256);
    AndLowMask(b, 7);
  }

  lemma JoinMasked(a: Byte, b: Byte, c: Byte, d: Byte)
    ensures Or(Or(Or(Shl(And(a, 0x7f), 24), Shl(And(b, 0xff), 16)), Shl(And(c, 0xff), 8)), And(d, 0xff))
            == a % 128 * 0x100_0000 + b * 0x1_0000 + c * 0x100 + d < 0x8000_0000
  {
    ByteMask(a);
    ByteMask(b);
    ByteMask(c);
    ByteMask(d);
    JoinBytes(a % 128, b, c, d);
  }

  /** Truncation reads inside the digest and yields the big-endian number, below 2^31. */
  lemma TruncateIsBigEndian(digest: Digest)
    ensures Offset(digest) + 3 < 20
    ensures Truncate(digest) == BigEndian31(digest, Offset(digest))
    ensures Truncate(digest) < 0x8000_0000
  {
    OffsetInside(digest);
    var o := Offset(digest);
    JoinMasked(digest[o], digest[o + 1], digest[o + 2], digest[o + 3]);
  }

  // --- Codes ------------------------------------------------------------------------

  /** `writeBigUInt64BE`, one byte at a time. */
  function BigEndian(n: nat, width: nat): (bytes: seq<Byte>)
    ensures |bytes| == width
  {
    if width == 0 then [] else BigEndian(n / 256, width - 1) + [n % 256]
  }

  function Pow256(n: nat): nat {
    if n == 0 then 1 else 256 * Pow256(n - 1)
  }

  /** Different counters make different messages. */
  lemma {:induction false} BigEndianValue(n: nat, width: nat)
    requires n < Pow256(width)
    ensures BaseValue(BigEndian(n, width), 256) == n
  {
    if width > 0 {
      BigEndianValue(n / 256, width - 1);
      assert BigEndian(n, width)[..width - 1] == BigEndian(n / 256, width - 1);
    }
  }

  /** The six digits for a digest. */
  function CodeOf(digest: Digest): (code: string)
  {
    TruncateIsBigEndian(digest);
    PadStart(ToDecimal(Truncate(digest) % 1_000_000), DIGITS)
  }

  predicate SixDigits(s: string) {
    |s| == 6 && AllDigits(s)
  }

  lemma SixDigitNumeral(n: nat)
    requires n < 1_000_000
    ensures var s := PadStart(ToDecimal(n), DIGITS); SixDigits(s) && NumberOf(s) == n
  {
    var s := ToDecimal(n);
    assert Pow10(6) == 1_000_000;
    DecimalLength(n, 6);
    DecimalValue(n);
    ZerosAreNothing(6 - |s|, s);
  }

  /** Always six digits, whose value is the truncated number modulo 10^6. */
  lemma CodeIsSixDigits(digest: Digest)
    ensures |CodeOf(digest)| == 6 && AllDigits(CodeOf(digest))
    ensures NumberOf(CodeOf(digest)) == BigEndian31(digest, digest[19] % 16) % 1_000_000
  {
    TruncateIsBigEndian(digest);
    OffsetInside(digest);
    SixDigitNumeral(Truncate(digest) % 1_000_000);
  }

  lemma CodeByDigest(digest: Digest, s: string)
    requires SixDigits(s) && NumberOf(s) == BigEndian31(digest, digest[19] % 16) % 1_000_000
    ensures CodeOf(digest) == s
  {
    CodeIsSixDigits(digest);
    SameNumeral(s, CodeOf(digest));
  }

  lemma OneDigitMore(s: string, c: char)
    requires AllDigits(s) && IsDigit(c)
    ensures AllDigits(s + [c]) && NumberOf(s + [c]) == 10 * NumberOf(s) + DigitValue(c)
  {
    assert (s + [c])[..|s|] == s;
  }

  lemma ExampleNumeral()
    ensures SixDigits("872921") && NumberOf("872921") == 872_921
  {
    OneDigitMore("", '8');
    OneDigitMore("8", '7');
    OneDigitMore("87", '2');
    OneDigitMore("872", '9');
    OneDigitMore("8729", '2');
    OneDigitMore("87292", '1');
    assert "8729" + ['2'] == "87292" && "87292" + ['1'] == "872921";
    assert "" + ['8'] == "8" && "8" + ['7'] == "87" && "87" + ['2'] == "872" && "872" + ['9'] == "8729";
  }

  /** The worked example of section 5.4 of RFC 4226, of whose digest five bytes matter. */
  lemma Rfc4226Example(digest: Digest)
    requires digest[10] == 0x50 && digest[11] == 0xef && digest[12] == 0x7f && digest[13] == 0x19
    requires digest[19] == 0x5a
    ensures CodeOf(digest) == "872921"
  {
    assert BigEndian31(digest, 10) == 0x50ef7f19 == 1357 * 1_000_000 + 872_921;
    ExampleNumeral();
    CodeByDigest(digest, "872921");
  }

  const MESSAGE_BYTES: nat := 8

  const COUNTERS: int := 0x1_0000_0000_0000_0000

  /** The codes of a secret, one for each 30-second step. */
  function Codes(mac: Mac, secret: seq<Byte>): nat -> string {
    (counter: nat) => CodeOf(mac(secret, BigEndian(counter, MESSAGE_BYTES)))
  }

  /** The code at a time; `None` when the counter does not fit in 64 bits and writing it throws. */
  function CodeAt(codes: nat -> string, timestamp: int): Option<string> {
    var counter := timestamp / PERIOD_MS;
    if 0 <= counter < COUNTERS then Some(codes(counter)) else None
  }

  /** The code at a time, "" without a secret. */
  function Code(mac: Mac, secret: seq<Byte>, timestamp: int): Option<string> {
    if secret == [] then Some("") else CodeAt(Codes(mac, secret), timestamp)
  }

  /** The loop over the skews from the i-th on. */
  function VerifyFrom(codes: nat -> string, candidate: string, timestamp: int, i: nat): Option<bool>
    requires i <= 3
    decreases 3 - i
  {
    if i == 3 then Some(false)
    else
      var expected := CodeAt(codes, timestamp + (i - 1) * PERIOD_MS);
      if expected.None? then None
      else if candidate == expected.value then Some(true)
      else VerifyFrom(codes, candidate, timestamp, i + 1)
  }

  /** Whether a code is accepted for a decoded secret; `None` when the verifier throws. */
  function Verified(mac: Mac, secret: seq<Byte>, code: Option<string>, timestamp: int): Option<bool> {
    var candidate := Trim(if code.None? then "" else code.value);
    if !SixDigits(candidate) || secret == [] then Some(false)
    else VerifyFrom(Codes(mac, secret), candidate, timestamp, 0)
  }

  method WriteUInt64BE(msg: array<Byte>, counter: nat)
    requires msg.Length == MESSAGE_BYTES
    modifies msg
    ensures msg[..] == BigEndian(counter, MESSAGE_BYTES)
  {
    var n, i := counter, MESSAGE_BYTES;
    while i > 0
      invariant 0 <= i <= MESSAGE_BYTES
      invariant BigEndian(counter, MESSAGE_BYTES) == BigEndian(n, i) + msg[i..]
    {
      i := i - 1;
      msg[i] := n % 256;
      assert BigEndian(n, i + 1) == BigEndian(n / 256, i) + [n % 256];
      assert msg[i..] == [n % 256] + msg[i + 1..];
      n := n / 256;
    }
    assert BigEndian(n, 0) == [];
  }

  method TotpCode(mac: Mac, secretBase32: string, timestamp: int) returns (code: Option<string>)
    ensures code == Code(mac, Base32.Decoded(secretBase32), timestamp)
  {
    var secret := Base32.ToBuffer(secretBase32);
    if secret == [] {
      return Some("");
    }
    var counter := timestamp / PERIOD_MS;
    if counter < 0 || counter >= COUNTERS {
      return None;
    }
    var msg := new Byte[MESSAGE_BYTES](_ => 0);
    WriteUInt64BE(msg, counter);
    var digest := mac(secret, msg[..]);
    OffsetInside(digest);
    return Some(PadStart(ToDecimal(Truncate(digest) % 1_000_000), DIGITS));
  }

  method VerifyTotp(mac: Mac, secretBase32: string, code: Option<string>, timestamp: int) returns (r: Option<bool>)
    ensures r == Verified(mac, Base32.Decoded(secretBase32), code, timestamp)
  {
    var candidate := Trim(if code.None? then "" else code.value);
    if !SixDigits(candidate) {
      return Some(false);
    }
    var secret := Base32.ToBuffer(secretBase32);
    if secret == [] {
      return Some(false);
    }
    r := TrySkews(mac, secretBase32, candidate, timestamp, Codes(mac, secret));
  }

  /** Whatever the given text decodes to, its codes are the ones in the table. */
  ghost predicate Computes(mac: Mac, secretBase32: string, codes: nat -> string) {
    forall secret, t {:trigger Code(mac, secret, t)} ::
      secret == Base32.Decoded(secretBase32) ==> Code(mac, secret, t) == CodeAt(codes, t)
  }

  method CodeAtSkew(mac: Mac, secretBase32: string, timestamp: int, ghost codes: nat -> string)
    returns (code: Option<string>)
    requires Computes(mac, secretBase32, codes)
    ensures code == CodeAt(codes, timestamp)
  {
    code := TotpCode(mac, secretBase32, timestamp);
  }

  /** One step back, none, one step on; the first hit or the first error ends it. */
  method TrySkews(mac: Mac, secretBase32: string, candidate: string, timestamp: int, ghost codes: nat -> string)
    returns (r: Option<bool>)
    requires Computes(mac, secretBase32, codes)
    ensures r == VerifyFrom(codes, candidate, timestamp, 0)
  {
    var skews := [-PERIOD_MS, 0, PERIOD_MS];
    for i := 0 to 3
      invariant VerifyFrom(codes, candidate, timestamp, 0) == VerifyFrom(codes, candidate, timestamp, i)
    {
      var expected := CodeAtSkew(mac, secretBase32, timestamp + skews[i], codes);
      if expected.None? {
        return None;
      }
      if |expected.value| == |candidate| && candidate == expected.value {
        return Some(true);
      }
    }
    return Some(false);
  }

  // --- The acceptance window ----------------------------------------------------------

  lemma VerifyThree(codes: nat -> string, candidate: string, timestamp: int)
    requires PERIOD_MS <= timestamp < PERIOD_MS * (COUNTERS - 1)
    ensures var c := timestamp / PERIOD_MS;
      VerifyFrom(codes, candidate, timestamp, 0)
      == Some(candidate == codes(c - 1) || candidate == codes(c) || candidate == codes(c + 1))
  {
  }

  // What the statements below measure times and counters with, in numbers of their own.
  const TWO_TO_64: int := 18_446_744_073_709_551_616

  /** The code at a time is that of its 30-second step since the epoch, as long as its number fits in 64 bits. */
  lemma CodeOfItsStep(mac: Mac, secret: seq<Byte>, timestamp: int)
    requires secret != []
    ensures Code(mac, secret, timestamp)
            == if 0 <= timestamp < 30_000 * TWO_TO_64 then Some(Codes(mac, secret)(timestamp / 30_000)) else None
  {
  }

  /** Text that decodes to no secret has the empty code, and no code is accepted for it. */
  lemma NoSecretNoCode(mac: Mac, code: Option<string>, timestamp: int)
    ensures Code(mac, [], timestamp) == Some("") && Verified(mac, [], code, timestamp) == Some(false)
  {
  }

  /** The big-endian number a step's digest truncates to, modulo 10^6. */
  function StepNumber(mac: Mac, secret: seq<Byte>, counter: nat): nat {
    var d := mac(secret, BigEndian(counter, 8));
    BigEndian31(d, d[19] % 16) % 1_000_000
  }

  lemma CodesAreSixDigits(mac: Mac, secret: seq<Byte>, counter: nat)
    ensures SixDigits(Codes(mac, secret)(counter))
  {
    CodeIsSixDigits(mac(secret, BigEndian(counter, MESSAGE_BYTES)));
  }

  /**
   From the second step on, a code is accepted exactly when, trimmed, it is the code of the current
   step, the one before or the one after.
   */
  lemma AcceptsThreeSteps(mac: Mac, secret: seq<Byte>, code: string, timestamp: int)
    requires 30_000 <= timestamp < 30_000 * (TWO_TO_64 - 1) && secret != []
    ensures var c: nat, codes := timestamp / 30_000, Codes(mac, secret);
      Verified(mac, secret, Some(code), timestamp)
      == Some(Trim(code) == codes(c - 1) || Trim(code) == codes(c) || Trim(code) == codes(c + 1))
  {
    var c := timestamp / PERIOD_MS;
    VerifyThree(Codes(mac, secret), Trim(code), timestamp);
    CodesAreSixDigits(mac, secret, c - 1);
    CodesAreSixDigits(mac, secret, c);
    CodesAreSixDigits(mac, secret, c + 1);
  }

  /** Six digits are the code of a step exactly when they denote the number of its digest. */
  lemma CodeByNumber(mac: Mac, secret: seq<Byte>, counter: nat, candidate: string)
    requires SixDigits(candidate)
    ensures candidate == Codes(mac, secret)(counter) <==> NumberOf(candidate) == StepNumber(mac, secret, counter)
  {
    var d := mac(secret, BigEndian(counter, MESSAGE_BYTES));
    CodeIsSixDigits(d);
    if NumberOf(candidate) == NumberOf(CodeOf(d)) { CodeByDigest(d, candidate); }
  }

  lemma PaddedCode(mac: Mac, secret: seq<Byte>, k: nat, before: string, after: string)
    requires Blank(before) && Blank(after)
    ensures var code := Codes(mac, secret)(k); Trim(before + code + after) == code
  {
    var code := Codes(mac, secret)(k);
    CodesAreSixDigits(mac, secret, k);
    DigitsAreTight(code);
    TrimPadded(before, code, after);
  }

  lemma AcceptsNearStep(mac: Mac, secret: seq<Byte>, k: nat, t: int, before: string, after: string)
    requires secret != [] && Blank(before) && Blank(after)
    requires PERIOD_MS <= t < PERIOD_MS * (COUNTERS - 1) && t / PERIOD_MS - 1 <= k <= t / PERIOD_MS + 1
    ensures Verified(mac, secret, Some(before + Codes(mac, secret)(k) + after), t) == Some(true)
  {
    PaddedCode(mac, secret, k, before, after);
    AcceptsThreeSteps(mac, secret, before + Codes(mac, secret)(k) + after, t);
  }

  /** A code is accepted for 30 seconds either way, with white space around it. */
  lemma AcceptedFor30Seconds(mac: Mac, secret: seq<Byte>, t0: int, t: int, before: string, after: string)
    requires secret != [] && Blank(before) && Blank(after)
    requires 0 <= t0 && 30_000 <= t < 30_000 * (TWO_TO_64 - 1) && t0 - 30_000 <= t <= t0 + 30_000
    ensures var code := Code(mac, secret, t0);
      code.Some? && Verified(mac, secret, Some(before + code.value + after), t) == Some(true)
  {
    NearSteps(t0, t);
    AcceptsNearStep(mac, secret, t0 / PERIOD_MS, t, before, after);
  }

  lemma NearSteps(t0: int, t: int)
    requires t0 - PERIOD_MS <= t <= t0 + PERIOD_MS
    ensures t / PERIOD_MS - 1 <= t0 / PERIOD_MS <= t / PERIOD_MS + 1
  {
  }

  lemma DigitsAreTight(s: string)
    requires AllDigits(s)
    ensures Tight(s)
  {
  }

  /** Whether the verifier throws on a well-formed code: a skew it comes to has no 64-bit counter. */
  predicate Throws(codes: nat -> string, candidate: string, c: int) {
    || c < 1 || c > TWO_TO_64
    || (c == TWO_TO_64 && candidate != codes(c - 1))
    || (c == TWO_TO_64 - 1 && candidate != codes(c - 1) && candidate != codes(c))
  }

  lemma SkewedStep(timestamp: int, k: int)
    ensures (timestamp + k * PERIOD_MS) / PERIOD_MS == timestamp / PERIOD_MS + k
  {
  }

  lemma VerifyThrows(codes: nat -> string, candidate: string, timestamp: int)
    ensures VerifyFrom(codes, candidate, timestamp, 0) == None <==> Throws(codes, candidate, timestamp / PERIOD_MS)
  {
    SkewedStep(timestamp, -1);
    SkewedStep(timestamp, 0);
    SkewedStep(timestamp, 1);
    assert VerifyFrom(codes, candidate, timestamp, 3) == Some(false);
    assert VerifyFrom(codes, candidate, timestamp, 2).None?
           <==> CodeAt(codes, timestamp + PERIOD_MS).None?;
  }

  /**
   The verifier throws exactly on well-formed codes, right or wrong, before the second step, where the
   first skew it tries has a negative counter, and when it comes to a counter of more than 64 bits.
   */
  lemma ThrowsExactly(mac: Mac, secret: seq<Byte>, code: Option<string>, timestamp: int)
    ensures Verified(mac, secret, code, timestamp) == None
            <==> code.Some? && |Trim(code.value)| == 6 && AllDigits(Trim(code.value)) && secret != []
                 && Throws(Codes(mac, secret), Trim(code.value), timestamp / 30_000)
  {
    if code.Some? { VerifyThrows(Codes(mac, secret), Trim(code.value), timestamp); }
  }

  /** So even the right code is an error in the first 30 seconds of the epoch. */
  lemma ThrowsAtFirst(mac: Mac, secret: seq<Byte>, timestamp: int)
    requires secret != [] && 0 <= timestamp < 30_000
    ensures Code(mac, secret, timestamp).Some?
    ensures Verified(mac, secret, Code(mac, secret, timestamp), timestamp) == None
  {
    var code := Codes(mac, secret)(0);
    assert timestamp / PERIOD_MS == 0;
    CodesAreSixDigits(mac, secret, 0);
    DigitsAreTight(code);
    TrimPadded("", code, "");
    assert "" + code + "" == code;
    ThrowsExactly(mac, secret, Some(code), timestamp);
  }
}
