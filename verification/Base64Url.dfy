/** Base64 as `btoa` and `atob` do it (sections 4 and 3.2 of RFC 4648; `atob` forgives white space
    and missing padding), and the URL-safe form of section 5 with its padding taken off. */
module Base64Url {
  import opened Common

  type Byte = b: int | 0 <= b < 256

  // ---- Letters ----

  function Letter(n: int): char
    requires 0 <= n < 64
  {
    if n < 26 then ('A' as int + n) as char
    else if n < 52 then ('a' as int + (n - 26)) as char
    else if n < 62 then ('0' as int + (n - 52)) as char
    else if n == 62 then '+'
    else '/'
  }

  /** The value of a letter, or -1. */
  function Digit(c: char): (d: int)
    ensures -1 <= d < 64
  {
    if 'A' <= c <= 'Z' then c as int - 'A' as int
    else if 'a' <= c <= 'z' then c as int - 'a' as int + 26
    else if '0' <= c <= '9' then c as int - '0' as int + 52
    else if c == '+' then 62
    else if c == '/' then 63
    else -1
  }

  predicate Letters(s: string) {
    forall c | c in s :: Digit(c) >= 0
  }

  lemma DigitOfLetter(n: int)
    requires 0 <= n < 64
    ensures Digit(Letter(n)) == n
  {
  }

  lemma LetterOfDigit(c: char)
    requires Digit(c) >= 0
    ensures Letter(Digit(c)) == c
  {
  }

  // ---- Groups ----

  function Encode(b: seq<Byte>): string {
    if |b| == 0 then ""
    else if |b| == 1 then [Letter(b[0] / 4), Letter(b[0] % 4 * 16), '=', '=']
    else if |b| == 2 then [Letter(b[0] / 4), Letter(b[0] % 4 * 16 + b[1] / 16), Letter(b[1] % 16 * 4), '=']
    else Group(b[0], b[1], b[2]) + Encode(b[3..])
  }

  function Group(x: Byte, y: Byte, z: Byte): (group: string)
    ensures |group| == 4
  {
    [Letter(x / 4), Letter(x % 4 * 16 + y / 16), Letter(y % 16 * 4 + z / 64), Letter(z % 64)]
  }

  /** The same without padding. */
  function Pack(b: seq<Byte>): string {
    if |b| == 0 then ""
    else if |b| == 1 then [Letter(b[0] / 4), Letter(b[0] % 4 * 16)]
    else if |b| == 2 then [Letter(b[0] / 4), Letter(b[0] % 4 * 16 + b[1] / 16), Letter(b[1] % 16 * 4)]
    else Group(b[0], b[1], b[2]) + Pack(b[3..])
  }

  /** The bytes of a run of letters; bits left over at the end are dropped. */
  function Unpack(s: string): seq<Byte>
    requires Letters(s) && |s| % 4 != 1
  {
    if |s| == 0 then []
    else
      var d0, d1 := Digit(s[0]), Digit(s[1]);
      if |s| == 2 then [d0 * 4 + d1 / 16]
      else
        var d2 := Digit(s[2]);
        if |s| == 3 then [d0 * 4 + d1 / 16, d1 % 16 * 16 + d2 / 4]
        else
          var d3 := Digit(s[3]);
          [d0 * 4 + d1 / 16, d1 % 16 * 16 + d2 / 4, d2 % 4 * 64 + d3] + Unpack(s[4..])
  }

  // ---- btoa and atob ----

  function Binary(b: seq<Byte>): string {
    seq(|b|, i requires 0 <= i < |b| => b[i] as char)
  }

  predicate Latin1(binary: string) {
    forall c | c in binary :: c as int < 256
  }

  function CodeAt(binary: string, i: nat): Byte
    requires Latin1(binary) && i < |binary|
  {
    assert binary[i] in binary;
    binary[i] as int
  }

  function Codes(binary: string): seq<Byte>
    requires Latin1(binary)
  {
    seq(|binary|, i requires 0 <= i < |binary| => CodeAt(binary, i))
  }

  function Btoa(binary: string): Option<string> {
    if Latin1(binary) then Some(Encode(Codes(binary))) else None
  }

  predicate White(c: char) {
    c == ' ' || c == '\t' || c == '\n' || c == '\r' || c == 12 as char
  }

  function NoWhite(s: string): string {
    if s == "" then "" else NoWhite(s[..|s| - 1]) + if White(s[|s| - 1]) then "" else [s[|s| - 1]]
  }

  /** At most two, and only from a whole number of groups. */
  function NoPadding(s: string): string {
    if |s| % 4 != 0 || |s| == 0 || s[|s| - 1] != '=' then s
    else if s[|s| - 2] == '=' then s[..|s| - 2]
    else s[..|s| - 1]
  }

  function Atob(text: string): Option<string> {
    var s := NoPadding(NoWhite(text));
    if |s| % 4 == 1 || !Letters(s) then None else Some(Binary(Unpack(s)))
  }

  // ---- The URL-safe form ----

  function Replaced(s: string, from: char, to: char): string {
    seq(|s|, i requires 0 <= i < |s| => if s[i] == from then to else s[i])
  }

  function Removed(s: string, c: char): string {
    if s == "" then "" else Removed(s[..|s| - 1], c) + if s[|s| - 1] == c then "" else [s[|s| - 1]]
  }

  function StrippedEnd(s: string, c: char): string {
    if s != "" && s[|s| - 1] == c then StrippedEnd(s[..|s| - 1], c) else s
  }

  function Repeat(c: char, n: nat): string {
    seq(n, i => c)
  }

  function PaddedTo(s: string, n: nat, c: char): string {
    if n <= |s| then s else s + Repeat(c, n - |s|)
  }

  /** Up to a whole number of groups of four. */
  function Padded(s: string): string {
    PaddedTo(s, (|s| + 3) / 4 * 4, '=')
  }

  function ToUrl(text: string): string {
    Removed(Replaced(Replaced(text, '+', '-'), '/', '_'), '=')
  }

  function FromUrl(value: string): string {
    Padded(Replaced(Replaced(value, '-', '+'), '_', '/'))
  }

  function BytesToBase64Url(b: seq<Byte>): string {
    ToUrl(Encode(b))
  }

  function Base64UrlToBytes(value: string): Option<seq<Byte>> {
    var binary := Atob(FromUrl(value));
    if binary.Some? && Latin1(binary.value) then Some(Codes(binary.value)) else None
  }

  predicate UrlLetter(c: char) {
    'A' <= c <= 'Z' || 'a' <= c <= 'z' || '0' <= c <= '9' || c == '-' || c == '_'
  }

  // ---- Round trips ----

  lemma CodesOfBinary(b: seq<Byte>)
    ensures Latin1(Binary(b)) && Codes(Binary(b)) == b
  {
  }

  lemma {:induction false} PackIsLetters(b: seq<Byte>)
    ensures Letters(Pack(b)) && |Pack(b)| == (4 * |b| + 2) / 3
  {
    if |b| > 2 {
      PackIsLetters(b[3..]);
      GroupIsLetters(b[0], b[1], b[2]);
      hide Group, Letter, Digit;
    }
  }

  lemma GroupIsLetters(x: Byte, y: Byte, z: Byte)
    ensures Letters(Group(x, y, z))
  {
  }

  /** Three bytes are put together again from the four parts they were cut into. */
  lemma BitsFit(x: Byte, y: Byte, z: Byte)
    ensures x / 4 * 4 + (x % 4 * 16 + y / 16) / 16 == x
    ensures (x % 4 * 16 + y / 16) % 16 * 16 + (y % 16 * 4 + z / 64) / 4 == y
    ensures (y % 16 * 4 + z / 64) % 4 * 64 + z % 64 == z
  {
  }

  lemma GroupDigits(x: Byte, y: Byte, z: Byte)
    ensures var g := Group(x, y, z);
            && Digit(g[0]) == x / 4 && Digit(g[1]) == x % 4 * 16 + y / 16
            && Digit(g[2]) == y % 16 * 4 + z / 64 && Digit(g[3]) == z % 64
  {
    DigitOfLetter(x / 4);
    DigitOfLetter(x % 4 * 16 + y / 16);
    DigitOfLetter(y % 16 * 4 + z / 64);
    DigitOfLetter(z % 64);
    hide Letter, Digit;
  }

  lemma GroupUnpacks(x: Byte, y: Byte, z: Byte, rest: string)
    requires Letters(rest) && |rest| % 4 != 1
    ensures var s := Group(x, y, z) + rest;
            Letters(s) && |s| % 4 != 1 && Unpack(s) == [x, y, z] + Unpack(rest)
  {
    hide Letter, Digit, Group;
    var g := Group(x, y, z);
    var s := g + rest;
    GroupIsLetters(x, y, z);
    GroupDigits(x, y, z);
    BitsFit(x, y, z);
    assert s[0] == g[0] && s[1] == g[1] && s[2] == g[2] && s[3] == g[3];
    assert s[4..] == rest && |s| % 4 == |rest| % 4;
  }

  lemma {:induction false} UnpackPack(b: seq<Byte>)
    ensures Letters(Pack(b)) && |Pack(b)| % 4 != 1 && Unpack(Pack(b)) == b
  {
    hide Letter, Digit, Group;
    PackIsLetters(b);
    if |b| == 1 {
      DigitOfLetter(b[0] / 4);
      DigitOfLetter(b[0] % 4 * 16);
    } else if |b| == 2 {
      DigitOfLetter(b[0] / 4);
      DigitOfLetter(b[0] % 4 * 16 + b[1] / 16);
      DigitOfLetter(b[1] % 16 * 4);
    } else if |b| > 2 {
      assert Pack(b) == Group(b[0], b[1], b[2]) + Pack(b[3..]);
      hide Pack, Unpack, Letters;
      UnpackPack(b[3..]);
      GroupUnpacks(b[0], b[1], b[2], Pack(b[3..]));
      assert b == [b[0], b[1], b[2]] + b[3..];
    }
  }

  lemma GroupPads(group: string, rest: string)
    requires |group| == 4
    ensures Padded(group + rest) == group + Padded(rest)
  {
  }

  /** Padding fills the last group up. */
  lemma {:induction false} EncodeIsPadded(b: seq<Byte>)
    ensures Encode(b) == Padded(Pack(b)) && |Encode(b)| % 4 == 0
  {
    hide Letter, Digit, Group;
    if |b| > 2 {
      EncodeIsPadded(b[3..]);
      GroupPads(Group(b[0], b[1], b[2]), Pack(b[3..]));
      hide Padded;
    }
  }

  // ---- Taking off and putting back ----

  lemma {:induction false} NoWhiteKeeps(s: string)
    requires forall c | c in s :: !White(c)
    ensures NoWhite(s) == s
  {
    if s != "" {
      assert s == s[..|s| - 1] + [s[|s| - 1]];
      NoWhiteKeeps(s[..|s| - 1]);
      hide White;
    }
  }

  lemma {:induction false} RemovedKeeps(s: string, c: char)
    requires c !in s
    ensures Removed(s, c) == s
  {
    if s != "" {
      assert s == s[..|s| - 1] + [s[|s| - 1]];
      RemovedKeeps(s[..|s| - 1], c);
    }
  }

  lemma {:induction false} EndComesOff(s: string, c: char, n: nat)
    requires c !in s
    ensures Removed(s + Repeat(c, n), c) == s && StrippedEnd(s + Repeat(c, n), c) == s
  {
    if n == 0 {
      RemovedKeeps(s, c);
      assert s + Repeat(c, n) == s;
    } else {
      var t := s + Repeat(c, n);
      assert t[..|t| - 1] == s + Repeat(c, n - 1) && t[|t| - 1] == c;
      EndComesOff(s, c, n - 1);
    }
  }

  lemma PaddedBy(s: string)
    requires |s| % 4 != 1
    ensures |Padded(s)| % 4 == 0
    ensures Padded(s) == s + if |s| % 4 == 2 then ['=', '='] else if |s| % 4 == 3 then ['='] else []
  {
  }

  lemma TwoComeOff(s: string)
    requires |s| % 4 == 2
    ensures NoPadding(s + ['=', '=']) == s
  {
  }

  lemma OneComesOff(s: string)
    requires |s| % 4 == 3 && s[|s| - 1] != '='
    ensures NoPadding(s + ['=']) == s
  {
  }

  lemma PaddingComesOff(s: string)
    requires Letters(s) && |s| % 4 != 1
    ensures NoPadding(Padded(s)) == s
  {
    PaddedBy(s);
    hide Padded;
    if s != "" { assert s[|s| - 1] in s && s[|s| - 1] != '='; }
    hide Digit, Letters;
    if |s| % 4 == 2 { TwoComeOff(s); }
    else if |s| % 4 == 3 { OneComesOff(s); }
    else { assert s + [] == s; }
  }

  /** `atob` decodes every padded run of letters that is not one letter too long. */
  lemma AtobOfPadded(s: string)
    requires Letters(s)
    ensures |s| % 4 != 1 ==> Atob(Padded(s)) == Some(Binary(Unpack(s)))
  {
    if |s| % 4 != 1 {
      hide Padded, NoPadding, NoWhite, Unpack, Binary, White, Letters;
      PaddedIsNotWhite(s);
      NoWhiteKeeps(Padded(s));
      PaddingComesOff(s);
    }
  }

  lemma PaddedIsNotWhite(s: string)
    requires Letters(s) && |s| % 4 != 1
    ensures forall c | c in Padded(s) :: !White(c)
  {
    PaddedBy(s);
    hide Padded;
    forall c | c in Padded(s) ensures !White(c) {
      assert c in s || c == '=';
    }
  }

  /** Letters in the URL-safe alphabet, and back. */
  function Swapped(s: string): string {
    Replaced(Replaced(s, '+', '-'), '/', '_')
  }

  function SwappedBack(s: string): string {
    Replaced(Replaced(s, '-', '+'), '_', '/')
  }

  lemma SwapUndone(s: string)
    requires Letters(s)
    ensures SwappedBack(Swapped(s)) == s && '=' !in Swapped(s)
    ensures forall c | c in Swapped(s) :: UrlLetter(c)
  {
    var u := Swapped(s);
    forall i | 0 <= i < |s| ensures SwappedBack(u)[i] == s[i] && UrlLetter(u[i]) {
      assert s[i] in s;
    }
  }

  /** What the encoder gives is the packed letters, swapped: the padding comes off by removing every
      `=` as well as by removing those at the end. */
  lemma EncodedIsPacked(b: seq<Byte>)
    ensures BytesToBase64Url(b) == Swapped(Pack(b))
    ensures StrippedEnd(Swapped(Encode(b)), '=') == Swapped(Pack(b))
  {
    EncodeIsPadded(b);
    PackIsLetters(b);
    var p := Pack(b);
    var n := (|p| + 3) / 4 * 4 - |p|;
    SwapUndone(p);
    assert Encode(b) == p + Repeat('=', n);
    hide Pack, Encode, Letters, UrlLetter;
    assert Swapped(p + Repeat('=', n)) == Swapped(p) + Repeat('=', n);
    EndComesOff(Swapped(p), '=', n);
  }

  /** The padding that the decoder computes from the length is the padding that came off. */
  lemma PaddingIsRestored(b: seq<Byte>)
    ensures FromUrl(BytesToBase64Url(b)) == Encode(b)
  {
    EncodedIsPacked(b);
    EncodeIsPadded(b);
    PackIsLetters(b);
    SwapUndone(Pack(b));
    hide Pack, Encode, Letters, Padded, BytesToBase64Url;
  }

  /** `atob` undoes `btoa`. */
  lemma AtobOfBtoa(b: seq<Byte>)
    ensures Atob(Encode(b)) == Some(Binary(b)) && Latin1(Binary(b)) && Codes(Binary(b)) == b
  {
    EncodeIsPadded(b);
    UnpackPack(b);
    AtobOfPadded(Pack(b));
    CodesOfBinary(b);
    hide Atob, Pack, Encode, Padded, Letters, Unpack, Latin1, Binary, Codes;
  }

  /** Every byte string comes back. */
  lemma UrlRoundTrip(b: seq<Byte>)
    ensures Base64UrlToBytes(BytesToBase64Url(b)) == Some(b)
  {
    PaddingIsRestored(b);
    AtobOfBtoa(b);
    hide Atob, Encode, FromUrl, BytesToBase64Url, Latin1, Binary, Codes;
  }

  /** The output has only URL-safe letters, never one letter beyond a whole number of groups. */
  lemma OutputIsUrlSafe(b: seq<Byte>)
    ensures forall c | c in BytesToBase64Url(b) :: UrlLetter(c)
    ensures |BytesToBase64Url(b)| == (4 * |b| + 2) / 3 && |BytesToBase64Url(b)| % 4 != 1
  {
    EncodedIsPacked(b);
    PackIsLetters(b);
    UnpackPack(b);
    SwapUndone(Pack(b));
    hide Pack, Unpack, Encode, Letters, UrlLetter, BytesToBase64Url;
  }

  // ---- The other way round ----

  /** Nothing of a last, partial group is dropped in decoding. */
  predicate NothingLeftOver(s: string) {
    && (|s| % 4 == 2 ==> Digit(s[|s| - 1]) % 16 == 0)
    && (|s| % 4 == 3 ==> Digit(s[|s| - 1]) % 4 == 0)
  }

  lemma DigitsFit(d0: int, d1: int, d2: int, d3: int)
    requires 0 <= d0 < 64 && 0 <= d1 < 64 && 0 <= d2 < 64 && 0 <= d3 < 64
    ensures var x, y, z := d0 * 4 + d1 / 16, d1 % 16 * 16 + d2 / 4, d2 % 4 * 64 + d3;
            && 0 <= x < 256 && 0 <= y < 256 && 0 <= z < 256
            && x / 4 == d0 && x % 4 * 16 + y / 16 == d1 && y % 16 * 4 + z / 64 == d2 && z % 64 == d3
            && x % 4 * 16 == d1 / 16 * 16 && y % 16 * 4 == d2 / 4 * 4
  {
  }

  lemma TailIsLetters(s: string)
    requires Letters(s) && |s| % 4 != 1 && |s| >= 4
    ensures Letters(s[4..]) && |s[4..]| % 4 != 1
    ensures NothingLeftOver(s) <==> NothingLeftOver(s[4..])
  {
    hide Digit;
    assert forall c | c in s[4..] :: c in s;
    assert |s[4..]| % 4 == |s| % 4;
  }

  lemma {:induction false} PackUnpack(s: string)
    requires Letters(s) && |s| % 4 != 1
    ensures Pack(Unpack(s)) == s <==> NothingLeftOver(s)
  {
    hide Letter, Digit, Letters, Group;
    if |s| == 2 {
      PackUnpackTwo(s);
    } else if |s| == 3 {
      PackUnpackThree(s);
    } else if |s| >= 4 {
      hide Pack, Unpack, NothingLeftOver;
      TailIsLetters(s);
      PackUnpack(s[4..]);
      GroupRepacks(s);
      assert s == s[..4] + s[4..];
    }
  }

  lemma PackUnpackTwo(s: string)
    requires Letters(s) && |s| == 2
    ensures Pack(Unpack(s)) == s <==> NothingLeftOver(s)
  {
    hide Letter, Digit;
    var d0, d1 := Digit(s[0]), Digit(s[1]);
    DigitsFit(d0, d1, 0, 0);
    assert Pack(Unpack(s)) == [Letter(d0), Letter(d1 / 16 * 16)];
    hide Pack, Unpack;
    LetterOfDigit(s[0]);
    LetterOfDigit(s[1]);
    DigitOfLetter(d1 / 16 * 16);
  }

  lemma PackUnpackThree(s: string)
    requires Letters(s) && |s| == 3
    ensures Pack(Unpack(s)) == s <==> NothingLeftOver(s)
  {
    hide Letter, Digit;
    var d0, d1, d2 := Digit(s[0]), Digit(s[1]), Digit(s[2]);
    DigitsFit(d0, d1, d2, 0);
    assert Pack(Unpack(s)) == [Letter(d0), Letter(d1), Letter(d2 / 4 * 4)];
    hide Pack, Unpack;
    LetterOfDigit(s[0]);
    LetterOfDigit(s[1]);
    LetterOfDigit(s[2]);
    DigitOfLetter(d2 / 4 * 4);
  }

  lemma GroupOfDigits(d0: int, d1: int, d2: int, d3: int)
    requires 0 <= d0 < 64 && 0 <= d1 < 64 && 0 <= d2 < 64 && 0 <= d3 < 64
    ensures var x, y, z := d0 * 4 + d1 / 16, d1 % 16 * 16 + d2 / 4, d2 % 4 * 64 + d3;
            && 0 <= x < 256 && 0 <= y < 256 && 0 <= z < 256
            && Group(x, y, z) == [Letter(d0), Letter(d1), Letter(d2), Letter(d3)]
  {
    hide Letter;
    DigitsFit(d0, d1, d2, d3);
  }

  lemma UnpackGroup(s: string) returns (x: Byte, y: Byte, z: Byte)
    requires Letters(s) && |s| >= 4 && |s| % 4 != 1 && Letters(s[4..])
    ensures Unpack(s) == [x, y, z] + Unpack(s[4..]) && Group(x, y, z) == s[..4]
  {
    hide Letter, Digit, Group;
    var d0, d1, d2, d3 := Digit(s[0]), Digit(s[1]), Digit(s[2]), Digit(s[3]);
    GroupOfDigits(d0, d1, d2, d3);
    x, y, z := d0 * 4 + d1 / 16, d1 % 16 * 16 + d2 / 4, d2 % 4 * 64 + d3;
    assert Group(x, y, z) == s[..4] by {
      hide Unpack;
      LetterOfDigit(s[0]);
      LetterOfDigit(s[1]);
      LetterOfDigit(s[2]);
      LetterOfDigit(s[3]);
    }
  }

  lemma GroupRepacks(s: string)
    requires Letters(s) && |s| >= 4 && |s| % 4 != 1 && Letters(s[4..])
    ensures Pack(Unpack(s)) == s[..4] + Pack(Unpack(s[4..]))
  {
    hide Unpack, Pack, Group, Letters;
    var x, y, z := UnpackGroup(s);
    PackGroup(x, y, z, Unpack(s[4..]));
  }

  lemma PackGroup(x: Byte, y: Byte, z: Byte, rest: seq<Byte>)
    ensures Pack([x, y, z] + rest) == Group(x, y, z) + Pack(rest)
  {
    hide Group;
    assert ([x, y, z] + rest)[3..] == rest;
  }

  predicate UrlLetters(s: string) {
    forall c | c in s :: UrlLetter(c)
  }

  lemma SwappedBackIsLetters(s: string)
    requires UrlLetters(s)
    ensures Letters(SwappedBack(s)) && Swapped(SwappedBack(s)) == s && |SwappedBack(s)| == |s|
  {
    var t := SwappedBack(s);
    forall i | 0 <= i < |s| ensures Digit(t[i]) >= 0 && Swapped(t)[i] == s[i] {
      assert s[i] in s;
    }
  }

  /** Exactly the URL-safe texts that waste no bits are what the encoder writes. */
  lemma DecodingIsUndone(s: string)
    requires UrlLetters(s) && |s| % 4 != 1
    ensures Base64UrlToBytes(s).Some?
    ensures BytesToBase64Url(Base64UrlToBytes(s).value) == s <==> NothingLeftOver(SwappedBack(s))
  {
    SwappedBackIsLetters(s);
    var p := SwappedBack(s);
    AtobOfPadded(p);
    PackUnpack(p);
    CodesOfBinary(Unpack(p));
    EncodedIsPacked(Unpack(p));
    PackIsLetters(Unpack(p));
    SwapUndone(Pack(Unpack(p)));
    hide Atob, Pack, Encode, Padded, Letters, Unpack, BytesToBase64Url, Latin1, Binary, Codes, NothingLeftOver,
        UrlLetters, Replaced;
  }

  // ---- The loops ----

  method EncodeBytes(bytes: array<Byte>) returns (text: string)
    ensures text == BytesToBase64Url(bytes[..])
  {
    var binary := "";
    for i := 0 to bytes.Length
      invariant binary == Binary(bytes[..i])
    {
      binary := binary + [bytes[i] as char];
    }
    assert bytes[..bytes.Length] == bytes[..];
    CodesOfBinary(bytes[..]);
    hide Latin1, Binary, Codes, Encode, ToUrl;
    text := ToUrl(Btoa(binary).value);
  }

  /** No array comes back where `atob` throws. */
  method DecodeText(value: string) returns (bytes: array?<Byte>)
    ensures bytes == null <==> Base64UrlToBytes(value).None?
    ensures bytes != null ==> fresh(bytes) && Base64UrlToBytes(value) == Some(bytes[..])
  {
    var binary := Atob(FromUrl(value));
    if binary.None? { return null; }
    AtobIsLatin1(FromUrl(value));
    hide Atob, FromUrl;
    var text := binary.value;
    bytes := new Byte[|text|];
    for i := 0 to |text|
      invariant bytes[..i] == Codes(text)[..i]
    {
      bytes[i] := CodeAt(text, i);
    }
    assert bytes[..] == Codes(text);
  }

  lemma AtobIsLatin1(text: string)
    ensures Atob(text).Some? ==> Latin1(Atob(text).value)
  {
    var s := NoPadding(NoWhite(text));
    if Atob(text).Some? { CodesOfBinary(Unpack(s)); }
    hide NoPadding, NoWhite, Letters, Unpack, Binary;
  }
}
