/** Invite links: a room and its secret as one token. JSON and UTF-8 are parameters, of which only
    that they can be undone is used. */
module InviteToken {
  import opened Common
  import opened Base64Url
  import opened Text

  const INVITE_PREFIX := "ql_"

  datatype Invite = Invite(roomId: string, secret: string)

  /** What parsed JSON has under the two names; a missing one is absent. */
  datatype Fields = Fields(roomId: Option<string>, secret: Option<string>)

  datatype Codec = Codec(
    stringify: (string, string) -> string,
    parse: string -> Option<Fields>,      // nothing if it throws
    utf8: string -> seq<Byte>,
    text: seq<Byte> -> string)

  ghost predicate Undoes(codec: Codec) {
    forall r, s :: codec.text(codec.utf8(codec.stringify(r, s))) == codec.stringify(r, s)
                && codec.parse(codec.stringify(r, s)) == Some(Fields(Some(r), Some(s)))
  }

  /** What `String.trim` takes off; the rarer blanks of Unicode are not listed. */
  predicate Blank(c: char) {
    White(c) || c == 11 as char || c == 0xA0 as char || c == 0xFEFF as char
  }

  function CreateInviteToken(codec: Codec, roomId: string, secret: string): string {
    INVITE_PREFIX + StrippedEnd(Swapped(Encode(codec.utf8(codec.stringify(roomId, secret)))), '=')
  }

  /** The place of the first one, or the length. */
  function IndexOf(s: string, c: char): (i: nat)
    ensures i <= |s| && c !in s[..i] && (i < |s| ==> s[i] == c)
  {
    if s == "" || s[0] == c then 0
    else
      var i := 1 + IndexOf(s[1..], c);
      assert s[..i] == [s[0]] + s[1..][..i - 1];
      i
  }

  /** Both must be there and not be empty. */
  function Checked(roomId: Option<string>, secret: Option<string>): Option<Invite> {
    if roomId.Some? && roomId.value != "" && secret.Some? && secret.value != ""
    then Some(Invite(roomId.value, secret.value))
    else None
  }

  /** The first two parts between colons. */
  function ParseLegacy(text: string): Option<Invite> {
    var i := IndexOf(text, ':');
    if i == |text| then None
    else
      var rest := text[i + 1..];
      Checked(Some(text[..i]), Some(rest[..IndexOf(rest, ':')]))
  }

  function ParseInviteToken(codec: Codec, value: string): Option<Invite> {
    var trimmed := Trim(value, Blank);
    if trimmed == "" then None
    else if INVITE_PREFIX <= trimmed then
      var bytes := Base64UrlToBytes(trimmed[|INVITE_PREFIX|..]);
      if bytes.None? then None
      else
        var fields := codec.parse(codec.text(bytes.value));
        if fields.None? then None else Checked(fields.value.roomId, fields.value.secret)
    else ParseLegacy(trimmed)
  }

  lemma TokenIs(codec: Codec, roomId: string, secret: string)
    ensures var url := BytesToBase64Url(codec.utf8(codec.stringify(roomId, secret)));
            CreateInviteToken(codec, roomId, secret) == INVITE_PREFIX + url
    ensures Trim(CreateInviteToken(codec, roomId, secret), Blank) == CreateInviteToken(codec, roomId, secret)
  {
    var bytes := codec.utf8(codec.stringify(roomId, secret));
    var url := BytesToBase64Url(bytes);
    EncodedIsPacked(bytes);
    OutputIsUrlSafe(bytes);
    hide BytesToBase64Url, Encode, Swapped, Pack, StrippedEnd;
    var token := CreateInviteToken(codec, roomId, secret);
    assert token == INVITE_PREFIX + url;
    if url != "" { assert token[|token| - 1] == url[|url| - 1] && url[|url| - 1] in url; }
    hide CreateInviteToken;
    TrimKeeps(token, Blank);
  }

  /** A token comes back as the invite it was made from, unless a part was empty; then it is no
      invite. */
  lemma CreateThenParse(codec: Codec, roomId: string, secret: string)
    requires Undoes(codec)
    ensures ParseInviteToken(codec, CreateInviteToken(codec, roomId, secret))
         == if roomId != "" && secret != "" then Some(Invite(roomId, secret)) else None
  {
    var bytes := codec.utf8(codec.stringify(roomId, secret));
    TokenIs(codec, roomId, secret);
    UrlRoundTrip(bytes);
    hide BytesToBase64Url, Base64UrlToBytes, CreateInviteToken, Trim;
    var token := CreateInviteToken(codec, roomId, secret);
    assert token[|INVITE_PREFIX|..] == BytesToBase64Url(bytes);
  }

  lemma {:induction false} IndexOfIs(head: string, c: char, tail: string)
    requires c !in head
    ensures IndexOf(head + [c] + tail, c) == |head| && IndexOf(head, c) == |head|
  {
    if head != "" {
      assert head[0] in head && forall d | d in head[1..] :: d in head;
      IndexOfIs(head[1..], c, tail);
      assert (head + [c] + tail)[1..] == head[1..] + [c] + tail;
    }
  }

  /** The older form: of a text without the prefix exactly what stands before the first colon and
      between it and the next one, or the end, is read. */
  lemma LegacyReads(codec: Codec, value: string, roomId: string, secret: string)
    requires var text := Trim(value, Blank); text != "" && !(INVITE_PREFIX <= text)
    ensures ParseInviteToken(codec, value) == Some(Invite(roomId, secret))
       <==> && roomId != "" && secret != "" && ':' !in roomId && ':' !in secret
            && (Trim(value, Blank) == roomId + ":" + secret || roomId + ":" + secret + ":" <= Trim(value, Blank))
  {
    var text := Trim(value, Blank);
    hide Trim;
    var pair := roomId + ":" + secret;
    if ':' !in roomId && ':' !in secret && (text == pair || pair + ":" <= text) {
      LegacyFinds(text, roomId, secret);
    } else if ParseLegacy(text) == Some(Invite(roomId, secret)) {
      LegacyFound(text, roomId, secret);
    }
  }

  lemma LegacyFinds(text: string, roomId: string, secret: string)
    requires ':' !in roomId && ':' !in secret
    requires text == roomId + ":" + secret || roomId + ":" + secret + ":" <= text
    ensures ParseLegacy(text) == Checked(Some(roomId), Some(secret))
  {
    var tail := text[|roomId| + 1..];
    assert text == roomId + [':'] + tail;
    IndexOfIs(roomId, ':', tail);
    if text == roomId + ":" + secret {
      assert tail == secret;
      IndexOfIs(secret, ':', "");
    } else {
      var last := text[|roomId| + 1 + |secret| + 1..];
      assert tail == secret + [':'] + last;
      IndexOfIs(secret, ':', last);
    }
    hide IndexOf;
    assert text[..|roomId|] == roomId && tail[..|secret|] == secret;
  }

  lemma LegacyFound(text: string, roomId: string, secret: string)
    requires ParseLegacy(text) == Some(Invite(roomId, secret))
    ensures roomId != "" && secret != "" && ':' !in roomId && ':' !in secret
    ensures text == roomId + ":" + secret || roomId + ":" + secret + ":" <= text
  {
    var i := IndexOf(text, ':');
    var rest := text[i + 1..];
    var j := IndexOf(rest, ':');
    hide IndexOf;
    assert roomId == text[..i] && secret == rest[..j];
    assert text == roomId + ":" + rest;
    if j == |rest| {
      assert rest == secret;
    } else {
      assert rest == secret + ":" + rest[j + 1..];
      var pair := roomId + ":" + secret + ":";
      assert text == pair + rest[j + 1..];
      assert pair <= text;
    }
  }
}
