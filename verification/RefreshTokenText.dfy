/**
 The text of a refresh token, `r1.<credential>.<generation>.<secret>`, and the unpadded base64url
 text (section 5 of RFC 4648) of its secret.
 */
module RefreshTokenText {
  import opened Wrappers

  type Byte = x: int | 0 <= x < 256

  // ---- base64url ----

  function Char64(i: nat): char
    requires i < 64
  {
    if i < 26 then ('A' as int + i) as char
    else if i < 52 then ('a' as int + i - 26) as char
    else if i < 62 then ('0' as int + i - 52) as char
    else if i == 62 then '-' else '_'
  }

  function Value64(c: char): Option<nat> {
    if 'A' <= c <= 'Z' then Some(c as int - 'A' as int)
    else if 'a' <= c <= 'z' then Some(c as int - 'a' as int + 26)
    else if '0' <= c <= '9' then Some(c as int - '0' as int + 52)
    else if c == '-' then Some(62)
    else if c == '_' then Some(63)
    else None
  }

  /** The alphabet is read back, and holds neither the separator nor the padding character. */
  lemma AlphabetReads(i: nat)
    requires i < 64
    ensures Value64(Char64(i)) == Some(i) && Char64(i) != '.' && Char64(i) != '='
  {
  }

  /** The alphabet of section 5 of RFC 4648: the 26 capitals in order, the 26 small letters, the ten
      digits, and two signs. */
  lemma AlphabetRuns(i: nat, j: nat)
    requires i < j < 64
    ensures j < 26 ==> 'A' <= Char64(i) < Char64(j) <= 'Z'
    ensures 26 <= i && j < 52 ==> 'a' <= Char64(i) < Char64(j) <= 'z'
    ensures 52 <= i && j < 62 ==> '0' <= Char64(i) < Char64(j) <= '9'
    ensures Char64(62) == '-' && Char64(63) == '_'
  {
  }

  /** The padded encoding: every three bytes give four characters. */
  function EncodePadded(bytes: seq<Byte>): string
    decreases |bytes|
  {
    if |bytes| == 0 then ""
    else if |bytes| == 1 then [Char64(bytes[0] / 4), Char64(bytes[0] % 4 * 16), '=', '=']
    else if |bytes| == 2
      then [Char64(bytes[0] / 4), Char64(bytes[0] % 4 * 16 + bytes[1] / 16), Char64(bytes[1] % 16 * 4), '=']
    else
      [Char64(bytes[0] / 4), Char64(bytes[0] % 4 * 16 + bytes[1] / 16), Char64(bytes[1] % 16 * 4 + bytes[2] / 64),
        Char64(bytes[2] % 64)]
      + EncodePadded(bytes[3..])
  }

  function DecodePadded(text: string): Option<seq<Byte>>
    decreases |text|
  {
    if |text| == 0 then Some([])
    else if |text| < 4 then None
    else
      match (Value64(text[0]), Value64(text[1]))
      case (Some(a), Some(b)) =>
        var first: Byte := (a * 4 + b / 16) % 256;
        if |text| == 4 && text[2] == '=' && text[3] == '=' then Some([first])
        else
          (match Value64(text[2])
           case None => None
           case Some(c) =>
             var second: Byte := b % 16 * 16 + c / 4;
             if |text| == 4 && text[3] == '=' then Some([first, second])
             else
               match (Value64(text[3]), DecodePadded(text[4..]))
               case (Some(d), Some(rest)) => Some([first, second, (c % 4 * 64 + d) % 256] + rest)
               case _ => None)
      case _ => None
  }

  /** Trailing padding removed. */
  function Strip(text: string): string {
    if |text| > 0 && text[|text| - 1] == '=' then Strip(text[..|text| - 1]) else text
  }

  /** Padding up to a multiple of four restored. */
  function Pad(text: string): string {
    text + if |text| % 4 == 0 then "" else if |text| % 4 == 1 then "===" else if |text| % 4 == 2 then "==" else "="
  }

  function Base64Url(bytes: seq<Byte>): string {
    Strip(EncodePadded(bytes))
  }

  function Decode64Url(text: string): Option<seq<Byte>> {
    DecodePadded(Pad(text))
  }

  /** The number a character stands for, by its place in the alphabet. */
  ghost predicate StandsFor(c: char, n: nat) {
    n < 64 && c == Char64(n)
  }

  /** Three bytes and their four characters are the same 24 bits, the first byte highest. */
  lemma GroupIsNumber(x: Byte, y: Byte, z: Byte, rest: seq<Byte>) returns (a: nat, b: nat, c: nat, d: nat)
    ensures var text := EncodePadded([x, y, z] + rest);
            && |text| >= 4 && text[4..] == EncodePadded(rest)
            && StandsFor(text[0], a) && StandsFor(text[1], b) && StandsFor(text[2], c) && StandsFor(text[3], d)
    ensures ((a * 64 + b) * 64 + c) * 64 + d == (x * 256 + y) * 256 + z
  {
    a, b, c, d := x / 4, x % 4 * 16 + y / 16, y % 16 * 4 + z / 64, z % 64;
    assert ([x, y, z] + rest)[3..] == rest;
    Regrouped(x, y, z);
  }

  /** One or two bytes left over: the same bits, then zero bits, then the padding. */
  lemma TailIsNumber(x: Byte, y: Byte) returns (a: nat, b: nat, c: nat, d: nat, e: nat)
    ensures |EncodePadded([x])| == 4 && EncodePadded([x])[2..] == "=="
    ensures StandsFor(EncodePadded([x])[0], a) && StandsFor(EncodePadded([x])[1], b) && a * 64 + b == x * 16
    ensures |EncodePadded([x, y])| == 4 && EncodePadded([x, y])[3] == '='
    ensures StandsFor(EncodePadded([x, y])[0], c) && StandsFor(EncodePadded([x, y])[1], d)
            && StandsFor(EncodePadded([x, y])[2], e)
    ensures (c * 64 + d) * 64 + e == (x * 256 + y) * 4
  {
    a, b := x / 4, x % 4 * 16;
    c, d, e := x / 4, x % 4 * 16 + y / 16, y % 16 * 4;
  }

  lemma DecodesOne(x: Byte)
    ensures DecodePadded(EncodePadded([x])) == Some([x])
  {
    AlphabetReads(x / 4);
    AlphabetReads(x % 4 * 16);
  }

  lemma DecodesTwo(x: Byte, y: Byte)
    ensures DecodePadded(EncodePadded([x, y])) == Some([x, y])
  {
    var a, b, c := x / 4, x % 4 * 16 + y / 16, y % 16 * 4;
    AlphabetReads(a);
    AlphabetReads(b);
    AlphabetReads(c);
    assert EncodePadded([x, y]) == [Char64(a), Char64(b), Char64(c), '='];
    assert a * 4 + b / 16 == x && b % 16 * 16 + c / 4 == y;
  }

  /** The bit fields of three bytes, put together again. */
  lemma Regrouped(x: Byte, y: Byte, z: Byte)
    ensures x / 4 * 4 + (x % 4 * 16 + y / 16) / 16 == x
    ensures (x % 4 * 16 + y / 16) % 16 * 16 + (y % 16 * 4 + z / 64) / 4 == y
    ensures (y % 16 * 4 + z / 64) % 4 * 64 + z % 64 == z
  {
  }

  lemma DecodesThree(x: Byte, y: Byte, z: Byte, tail: string, rest: seq<Byte>)
    requires DecodePadded(tail) == Some(rest)
    ensures DecodePadded([Char64(x / 4), Char64(x % 4 * 16 + y / 16), Char64(y % 16 * 4 + z / 64), Char64(z % 64)]
      + tail) == Some([x, y, z] + rest)
  {
    Regrouped(x, y, z);
    DecodesFour(x / 4, x % 4 * 16 + y / 16, y % 16 * 4 + z / 64, z % 64, x, y, z, tail, rest);
  }

  lemma DecodesFour(a: nat, b: nat, c: nat, d: nat, x: Byte, y: Byte, z: Byte, tail: string, rest: seq<Byte>)
    requires a < 64 && b < 64 && c < 64 && d < 64 && DecodePadded(tail) == Some(rest)
    requires a * 4 + b / 16 == x && b % 16 * 16 + c / 4 == y && c % 4 * 64 + d == z
    ensures DecodePadded([Char64(a), Char64(b), Char64(c), Char64(d)] + tail) == Some([x, y, z] + rest)
  {
    hide Char64, Value64;
    AlphabetReads(a);
    AlphabetReads(b);
    AlphabetReads(c);
    AlphabetReads(d);
    assert ([Char64(a), Char64(b), Char64(c), Char64(d)] + tail)[4..] == tail;
  }

  lemma {:induction false} DecodesWhatWasEncoded(bytes: seq<Byte>)
    ensures DecodePadded(EncodePadded(bytes)) == Some(bytes)
    decreases |bytes|
  {
    hide DecodePadded, Char64, Value64, EncodePadded;
    if |bytes| == 0 {
      DecodesNothing();
    } else if |bytes| == 1 {
      assert bytes == [bytes[0]];
      DecodesOne(bytes[0]);
    } else if |bytes| == 2 {
      assert bytes == [bytes[0], bytes[1]];
      DecodesTwo(bytes[0], bytes[1]);
    } else {
      DecodesWhatWasEncoded(bytes[3..]);
      DecodesThree(bytes[0], bytes[1], bytes[2], EncodePadded(bytes[3..]), bytes[3..]);
      assert bytes == [bytes[0], bytes[1], bytes[2]] + bytes[3..];
      EncodesThree(bytes);
    }
  }

  lemma DecodesNothing()
    ensures DecodePadded(EncodePadded([])) == Some([])
  {
  }

  lemma EncodesThree(bytes: seq<Byte>)
    requires |bytes| >= 3
    ensures EncodePadded(bytes)
            == [Char64(bytes[0] / 4), Char64(bytes[0] % 4 * 16 + bytes[1] / 16),
                Char64(bytes[1] % 16 * 4 + bytes[2] / 64), Char64(bytes[2] % 64)]
               + EncodePadded(bytes[3..])
  {
    hide Char64;
  }

  /** Only the alphabet. */
  predicate Plain64(text: string) {
    forall i :: 0 <= i < |text| ==> text[i] != '.' && text[i] != '='
  }

  /** The padded text is its stripped form with the padding that its length calls for. */
  lemma {:induction false} PaddedShape(bytes: seq<Byte>)
    ensures var text := EncodePadded(bytes);
            && |text| % 4 == 0
            && Plain64(Strip(text)) && Pad(Strip(text)) == text
    decreases |bytes|
  {
    var text := EncodePadded(bytes);
    if |bytes| == 0 {
    } else if |bytes| == 1 {
      AlphabetReads(bytes[0] / 4);
      AlphabetReads(bytes[0] % 4 * 16);
      assert text[..3][..2] == text[..2];
      assert Strip(text) == Strip(text[..3]) == Strip(text[..2]) == text[..2];
    } else if |bytes| == 2 {
      AlphabetReads(bytes[0] / 4);
      AlphabetReads(bytes[0] % 4 * 16 + bytes[1] / 16);
      AlphabetReads(bytes[1] % 16 * 4);
      assert Strip(text) == Strip(text[..3]) == text[..3];
    } else {
      PaddedShape(bytes[3..]);
      AlphabetReads(bytes[0] / 4);
      AlphabetReads(bytes[0] % 4 * 16 + bytes[1] / 16);
      AlphabetReads(bytes[1] % 16 * 4 + bytes[2] / 64);
      AlphabetReads(bytes[2] % 64);
      GroupShape(text[..4], EncodePadded(bytes[3..]));
      assert text == text[..4] + EncodePadded(bytes[3..]);
    }
  }

  /** Four plain characters in front change neither the padding nor what it stands for. */
  lemma GroupShape(head: string, tail: string)
    requires |head| == 4 && Plain64(head) && |tail| % 4 == 0 && Plain64(Strip(tail)) && Pad(Strip(tail)) == tail
    ensures |head + tail| % 4 == 0 && Plain64(Strip(head + tail)) && Pad(Strip(head + tail)) == head + tail
  {
    hide Strip;
    StripAfter(head, tail);
    var rest := Strip(tail);
    assert |head + rest| % 4 == |rest| % 4;
    assert Pad(head + rest) == head + Pad(rest);
  }

  lemma {:induction false} StripAfter(head: string, tail: string)
    requires head != "" && head[|head| - 1] != '='
    ensures Strip(head + tail) == head + Strip(tail)
    decreases |tail|
  {
    if tail == "" {
      assert head + tail == head;
    } else if tail[|tail| - 1] == '=' {
      assert (head + tail)[..|head + tail| - 1] == head + tail[..|tail| - 1];
      StripAfter(head, tail[..|tail| - 1]);
    }
  }

  /** Unpadded base64url is read back, and never contains the separator of tokens. */
  lemma Base64UrlRoundTrip(bytes: seq<Byte>)
    ensures Decode64Url(Base64Url(bytes)) == Some(bytes)
    ensures NoDot(Base64Url(bytes))
  {
    PaddedShape(bytes);
    DecodesWhatWasEncoded(bytes);
  }

  // ---- tokens ----

  predicate NoDot(s: string) {
    forall i :: 0 <= i < |s| ==> s[i] != '.'
  }

  /** The parts between separators. */
  function Split(s: string): (parts: seq<string>)
    ensures |parts| >= 1
  {
    if s == "" then [""]
    else if s[0] == '.' then [""] + Split(s[1..])
    else
      var rest := Split(s[1..]);
      [[s[0]] + rest[0]] + rest[1..]
  }

  lemma {:induction false} SplitFirst(part: string, rest: string)
    requires NoDot(part)
    ensures Split(part) == [part]
    ensures Split(part + "." + rest) == [part] + Split(rest)
    decreases |part|
  {
    if part == "" {
      assert part + "." + rest == "." + rest && ("." + rest)[1..] == rest;
    } else {
      var s := part + "." + rest;
      assert s[0] == part[0] && s[1..] == part[1..] + "." + rest && part == [part[0]] + part[1..];
      SplitFirst(part[1..], rest);
    }
  }

  /** The canonical hexadecimal form of a credential id. */
  predicate Hex32(s: string) {
    |s| == 32 && forall i :: 0 <= i < |s| ==> '0' <= s[i] <= '9' || 'a' <= s[i] <= 'f'
  }

  lemma {:induction false} DecimalHasNoDot(n: nat)
    ensures NoDot(Decimal(n))
    decreases n
  {
    if n >= 10 { DecimalHasNoDot(n / 10); }
  }

  function Materialize(secret: (string, nat) -> seq<Byte>, id: string, generation: nat): string {
    "r1" + "." + (id + "." + (Decimal(generation) + "." + Base64Url(secret(id, generation))))
  }

  /** The library readers: lenient about spelling, but they read canonical text. */
  ghost predicate ReadsCanonical(readId: string -> Option<string>, readInt: string -> Option<int>) {
    && (forall s :: Hex32(s) ==> readId(s) == Some(s))
    && (forall s :: readId(s).Some? ==> Hex32(readId(s).value))
    && (forall n: nat :: readInt(Decimal(n)) == Some(n))
  }

  function Parse(secret: (string, nat) -> seq<Byte>, readId: string -> Option<string>, readInt: string -> Option<int>,
                 token: string): Option<(string, nat)> {
    var parts := Split(token);
    if |parts| != 4 || parts[0] != "r1" then None
    else
      match (readId(parts[1]), readInt(parts[2]))
      case (Some(id), Some(generation)) =>
        if generation < 1 || Materialize(secret, id, generation) != token then None else Some((id, generation))
      case _ => None
  }

  /** A materialized token splits into its four parts. */
  lemma MaterializedParts(secret: (string, nat) -> seq<Byte>, id: string, generation: nat)
    requires Hex32(id)
    ensures Split(Materialize(secret, id, generation))
      == ["r1", id, Decimal(generation), Base64Url(secret(id, generation))]
  {
    var text := Base64Url(secret(id, generation));
    Base64UrlRoundTrip(secret(id, generation));
    DecimalHasNoDot(generation);
    SplitFirst(text, "");
    SplitFirst(Decimal(generation), text);
    SplitFirst(id, Decimal(generation) + "." + text);
    SplitFirst("r1", id + "." + (Decimal(generation) + "." + text));
  }

  /** Parsing gives back what was materialized, and accepts nothing else: only the one canonical
      text of a credential and a positive generation. */
  lemma ParseIffCanonical(secret: (string, nat) -> seq<Byte>, readId: string -> Option<string>,
                          readInt: string -> Option<int>, token: string, id: string, generation: nat)
    requires ReadsCanonical(readId, readInt)
    ensures Parse(secret, readId, readInt, token) == Some((id, generation))
            <==> Hex32(id) && generation >= 1 && token == Materialize(secret, id, generation)
  {
    if Hex32(id) && generation >= 1 && token == Materialize(secret, id, generation) {
      MaterializedParts(secret, id, generation);
    }
  }
}
