/** Time-based one-time codes (sections 4.2 and 5.2 of RFC 6238, truncation of section 5.3 of
    RFC 4226). The key's text form and the MAC are parameters. */
module Totp {
  import opened Common
  import opened Text
  import opened Base64Url

  const PERIOD := 30
  const DIGITS := 6

  /** An HMAC-SHA1. */
  type Mac = mac: seq<Byte> | |mac| == 20 witness [0, 0, 0, 0, 0, 0, 0, 0, 0, 0, 0, 0, 0, 0, 0, 0, 0, 0, 0, 0]

  datatype Algorithm = Algorithm(
    decodeKey: string -> Option<seq<Byte>>,
    mac: (seq<Byte>, seq<Byte>) -> Mac)

  // ---- Bits ----

  function Power2(k: nat): (p: nat)
    ensures p > 0
  {
    if k == 0 then 1 else 2 * Power2(k - 1)
  }

  function And(a: nat, b: nat): nat {
    if a == 0 || b == 0 then 0 else 2 * And(a / 2, b / 2) + (if a % 2 == 1 && b % 2 == 1 then 1 else 0)
  }

  function Or(a: nat, b: nat): nat
    decreases a + b
  {
    if a == 0 then b
    else if b == 0 then a
    else 2 * Or(a / 2, b / 2) + (if a % 2 == 1 || b % 2 == 1 then 1 else 0)
  }

  function Shl(a: nat, k: nat): nat {
    a * Power2(k)
  }

  /** A mask of `k` ones keeps the remainder. */
  lemma {:induction false} MaskIsRemainder(a: nat, k: nat)
    ensures And(a, Power2(k) - 1) == a % Power2(k)
  {
    if a != 0 && k != 0 {
      MaskIsRemainder(a / 2, k - 1);
      assert (Power2(k) - 1) / 2 == Power2(k - 1) - 1 && (Power2(k) - 1) % 2 == 1;
      HalfRemainder(a, Power2(k - 1));
    }
  }

  lemma HalfRemainder(a: nat, p: nat)
    requires p > 0
    ensures a % (2 * p) == 2 * (a / 2 % p) + a % 2
  {
    var q, r := a / 2 / p, a / 2 % p;
    assert a / 2 == p * q + r;
    assert a == 2 * p * q + (2 * r + a % 2);
    RemainderIs(a, 2 * p, q, 2 * r + a % 2);
  }

  lemma RemainderIs(a: int, m: int, q: int, r: int)
    requires m > 0 && a == m * q + r && 0 <= r < m
    ensures a % m == r
  {
    var d := a / m - q;
    assert m * d == r - a % m;
    assert d >= 1 ==> m * d >= m;
    assert d <= -1 ==> m * d <= -m;
  }

  /** Numbers that share no bit are added by OR. */
  lemma {:induction false} OrIsSum(a: nat, b: nat, k: nat)
    requires b < Power2(k)
    ensures Or(Shl(a, k), b) == Shl(a, k) + b
  {
    if k > 0 && a > 0 && b > 0 {
      OrIsSum(a, b / 2, k - 1);
      assert Shl(a, k) == 2 * Shl(a, k - 1);
    }
  }

  // ---- Truncation ----

  /** The last byte's low four bits say where to cut. */
  function Offset(mac: Mac): nat
  {
    And(mac[19], 0x0f)
  }

  lemma OffsetIs(mac: Mac)
    ensures Offset(mac) == mac[19] % 16 && Offset(mac) + 3 < |mac|
  {
    assert Power2(4) == 16 by { assert Power2(2) == 4; }
    MaskIsRemainder(mac[19], 4);
  }

  function Truncate(mac: Mac): nat
  {
    OffsetIs(mac);
    var o := Offset(mac);
    Or(Or(Or(Shl(And(mac[o], 0x7f), 24), Shl(And(mac[o + 1], 0xff), 16)), Shl(And(mac[o + 2], 0xff), 8)),
       And(mac[o + 3], 0xff))
  }

  lemma Powers()
    ensures Power2(7) == 0x80 && Power2(8) == 0x100 && Power2(16) == 0x1_0000 && Power2(24) == 0x100_0000
  {
    assert Power2(4) == 16 by { assert Power2(2) == 4; }
    assert Power2(8) == 0x100 by { assert Power2(6) == 64; }
    assert Power2(12) == 0x1000 by { assert Power2(10) == 0x400; }
    assert Power2(16) == 0x1_0000 by { assert Power2(14) == 0x4000; }
    assert Power2(20) == 0x10_0000 by { assert Power2(18) == 0x4_0000; }
    assert Power2(24) == 0x100_0000 by { assert Power2(22) == 0x40_0000; }
  }

  lemma MasksAre(b: Byte)
    ensures And(b, 0x7f) == b % 128 && And(b, 0xff) == b
  {
    hide And, Power2;
    Powers();
    MaskIsRemainder(b, 7);
    MaskIsRemainder(b, 8);
  }

  /** The cut stays inside the MAC, and OR-ing the shifted bytes gives their big-endian sum without
      its top bit. */
  lemma TruncateIsBigEndian(mac: Mac)
    ensures var o := mac[19] % 16;
            Truncate(mac) == (mac[o] as int) % 128 * 0x100_0000 + (mac[o + 1] as int) * 0x1_0000
                             + (mac[o + 2] as int) * 0x100 + mac[o + 3] as int
    ensures Truncate(mac) < 0x8000_0000
  {
    hide And, Or, Shl, Power2, Offset;
    OffsetIs(mac);
    var o := Offset(mac);
    MasksAre(mac[o]);
    MasksAre(mac[o + 1]);
    MasksAre(mac[o + 2]);
    MasksAre(mac[o + 3]);
    OrOfBytes(mac[o] % 128, mac[o + 1], mac[o + 2], mac[o + 3]);
  }

  lemma OrOfBytes(a: Byte, b: Byte, c: Byte, d: Byte)
    ensures Or(Or(Or(Shl(a, 24), Shl(b, 16)), Shl(c, 8)), d) == a * 0x100_0000 + b * 0x1_0000 + c * 0x100 + d
  {
    hide Or, Power2;
    Powers();
    OrIsSum(a, Shl(b, 16), 24);
    var ab := a * 0x100 + b;
    assert Shl(ab, 16) == Shl(a, 24) + Shl(b, 16);
    OrIsSum(ab, Shl(c, 8), 16);
    var abc := ab * 0x100 + c;
    assert Shl(abc, 8) == Shl(ab, 16) + Shl(c, 8);
    OrIsSum(abc, d, 8);
  }

  // ---- Codes ----

  /** The counter as eight bytes, a negative one as its two's complement. */
  function Unsigned64(counter: int): nat {
    counter % 0x1_0000_0000_0000_0000
  }

  function BigEndian(n: nat, width: nat): seq<Byte> {
    if width == 0 then [] else BigEndian(n / 256, width - 1) + [n % 256]
  }

  function FromBigEndian(bytes: seq<Byte>): nat {
    if bytes == [] then 0 else FromBigEndian(bytes[..|bytes| - 1]) * 256 + bytes[|bytes| - 1]
  }

  /** Bytes of one length tell their number. */
  lemma {:induction false} BytesTell(a: seq<Byte>, b: seq<Byte>)
    requires |a| == |b| && FromBigEndian(a) == FromBigEndian(b)
    ensures a == b
  {
    if a != [] {
      var n := |a| - 1;
      assert FromBigEndian(a[..n]) == FromBigEndian(a) / 256 && FromBigEndian(b[..n]) == FromBigEndian(b) / 256;
      BytesTell(a[..n], b[..n]);
      assert a == a[..n] + [a[n]] && b == b[..n] + [b[n]];
    }
  }

  lemma {:induction false} BigEndianTells(n: nat, width: nat)
    ensures |BigEndian(n, width)| == width
    ensures FromBigEndian(BigEndian(n, width)) == n % Power2(8 * width)
  {
    if width > 0 {
      BigEndianTells(n / 256, width - 1);
      assert BigEndian(n, width)[..width - 1] == BigEndian(n / 256, width - 1);
      hide Power2, BigEndian;
      EightMore(8 * (width - 1));
      LastByte(n, Power2(8 * (width - 1)));
    }
  }

  lemma LastByte(n: nat, p: nat)
    requires p > 0
    ensures n % (256 * p) == n / 256 % p * 256 + n % 256
  {
    var m := n / 256;
    var q, r := m / p, m % p;
    assert m == p * q + r;
    assert 256 * (p * q) == 256 * p * q;
    RemainderIs(n, 256 * p, q, 256 * r + n % 256);
  }

  lemma EightMore(k: nat)
    ensures Power2(k + 8) == 256 * Power2(k)
  {
    assert Power2(k + 4) == 16 * Power2(k) by { assert Power2(k + 2) == 4 * Power2(k); }
    assert Power2(k + 6) == 4 * Power2(k + 4);
  }

  function Code(mac: Mac): string
  {
    ZeroPadded(Truncate(mac) % 1_000_000, DIGITS)
  }

  /** A code is exactly six digits: the last six of the truncated number. */
  lemma CodeIsSixDigits(mac: Mac)
    ensures |Code(mac)| == 6 && Digits(Code(mac)) && ValueOf(Code(mac)) == Truncate(mac) % 1_000_000
  {
    assert Power10(6) == 1_000_000 by { assert Power10(2) == 100 && Power10(4) == 10_000; }
    ZeroPaddedIs(Truncate(mac) % 1_000_000, 6);
    hide Power10, ZeroPadded, Digits, ValueOf, Truncate;
  }

  function TotpAt(alg: Algorithm, secret: string, counter: int): Option<string>
  {
    var key := alg.decodeKey(secret);
    if key.None? then None
    else
      var mac := alg.mac(key.value, BigEndian(Unsigned64(counter), 8));
      Some(Code(mac))
  }

  /** Division as Go does it, towards zero. */
  function Counter(unix: int): int {
    if unix >= 0 then unix / PERIOD else -(-unix / PERIOD)
  }

  predicate Space(c: char) {
    c == ' ' || 9 as char <= c <= 13 as char || c == 0x85 as char || c == 0xA0 as char
  }

  /** The eight bytes of a counter, a negative one as its two's complement. */
  ghost predicate AreBytesOf(bytes: seq<Byte>, counter: int) {
    |bytes| == 8 && FromBigEndian(bytes) == counter % 0x1_0000_0000_0000_0000
  }

  /** The six digits of the truncated MAC of the counter's bytes. */
  ghost predicate IsCodeOf(alg: Algorithm, secret: string, code: string, counter: int) {
    exists bytes ::
      && AreBytesOf(bytes, counter) && alg.decodeKey(secret).Some?
      && |code| == 6 && Digits(code)
      && ValueOf(code) == Truncate(alg.mac(alg.decodeKey(secret).value, bytes)) % 1_000_000
  }

  ghost predicate Accepts(alg: Algorithm, secret: string, code: string, counter: int) {
    exists c :: counter - 1 <= c <= counter + 1 && IsCodeOf(alg, secret, code, c)
  }

  lemma CounterBytes(counter: int)
    ensures AreBytesOf(BigEndian(Unsigned64(counter), 8), counter)
  {
    BigEndianTells(Unsigned64(counter), 8);
    PowerOf64();
    hide BigEndian, FromBigEndian, Power2;
  }

  lemma PowerOf64()
    ensures Power2(64) == 0x1_0000_0000_0000_0000
  {
    hide Power2;
    Powers();
    EightMore(24);
    EightMore(32);
    EightMore(40);
    EightMore(48);
    EightMore(56);
  }

  /** There is a code exactly for a key that decodes, and it is the only text that is a code of this
      counter: each counter, modulo 2^64, has its own eight bytes under the MAC. */
  lemma CodeIsOfItsCounter(alg: Algorithm, secret: string, counter: int, code: string)
    ensures TotpAt(alg, secret, counter).Some? <==> alg.decodeKey(secret).Some?
    ensures TotpAt(alg, secret, counter) == Some(code) <==> IsCodeOf(alg, secret, code, counter)
  {
    var bytes := BigEndian(Unsigned64(counter), 8);
    CounterBytes(counter);
    hide BigEndian, Unsigned64, Truncate, FromBigEndian, Power10;
    if alg.decodeKey(secret).Some? {
      var mac := alg.mac(alg.decodeKey(secret).value, bytes);
      CodeIsSixDigits(mac);
      hide Code;
      if IsCodeOf(alg, secret, code, counter) {
        var other :| AreBytesOf(other, counter) && |code| == 6 && Digits(code)
          && ValueOf(code) == Truncate(alg.mac(alg.decodeKey(secret).value, other)) % 1_000_000;
        BytesTell(other, bytes);
        DigitsTell(code, Code(mac));
      }
    }
  }

  /** `totpAt`, whose failure to decode the key is an absent code. */
  method ComputeTotp(alg: Algorithm, secret: string, counter: int) returns (code: Option<string>)
    ensures code == TotpAt(alg, secret, counter)
  {
    var key := alg.decodeKey(secret);
    if key.None? { return None; }
    var mac := alg.mac(key.value, BigEndian(Unsigned64(counter), 8));
    code := Some(Code(mac));
  }

  /** Accepted are exactly the codes of three adjacent counters, white space around them aside; what
      the check of the form turns away is no code of any counter. */
  method ValidateTotp(alg: Algorithm, secret: string, input: string, unix: int) returns (ok: bool)
    ensures ok <==> Accepts(alg, secret, Trim(input, Space), Counter(unix))
  {
    var code := Trim(input, Space);
    var center := Counter(unix);
    hide Trim, Counter, TotpAt, Truncate, FromBigEndian, ValueOf;
    if |code| != 6 { return false; }
    for i := 0 to |code|
      invariant forall j | 0 <= j < i :: '0' <= code[j] <= '9'
    {
      if code[i] < '0' || code[i] > '9' { return false; }
    }
    var offset := -1;
    while offset <= 1
      invariant -1 <= offset <= 2
      invariant forall c | center - 1 <= c < center + offset :: !IsCodeOf(alg, secret, code, c)
    {
      CodeIsOfItsCounter(alg, secret, center + offset, code);
      var expected := ComputeTotp(alg, secret, center + offset);
      if expected == Some(code) { return true; }
      offset := offset + 1;
    }
    return false;
  }

  /** The counter is the number of whole periods since the epoch. Times within a period of each other
      have the same or adjacent counters; from two periods on they do not. */
  lemma CountersAreClose(t: int, now: int)
    ensures 0 <= t ==> PERIOD * Counter(t) <= t < PERIOD * (Counter(t) + 1)
    ensures t < 0 ==> PERIOD * (Counter(t) - 1) < t <= PERIOD * Counter(t)
    ensures -PERIOD <= now - t <= PERIOD ==> -1 <= Counter(t) - Counter(now) <= 1
    ensures 0 <= t && now - t >= 2 * PERIOD ==> Counter(now) - Counter(t) >= 2
  {
  }

  /** The code of the time `t`, typed in with any white space around it, is accepted at every time
      within thirty seconds of `t`. */
  lemma CodeLivesThirtySeconds(alg: Algorithm, secret: string, t: int, now: int, left: string, right: string)
    requires -30 <= now - t <= 30
    requires AllBlank(left, Space) && AllBlank(right, Space)
    ensures var code := TotpAt(alg, secret, Counter(t));
            code.Some? ==>
              && Trim(left + code.value + right, Space) == code.value
              && Accepts(alg, secret, code.value, Counter(now))
  {
    hide TotpAt;
    CountersAreClose(t, now);
    hide Counter;
    var code := TotpAt(alg, secret, Counter(t));
    if code.Some? {
      CodeIsOfItsCounter(alg, secret, Counter(t), code.value);
      TrimTakesOff(left, code.value, right, Space);
    }
    hide Trim, AllBlank, Truncate, FromBigEndian, ValueOf;
  }
}
