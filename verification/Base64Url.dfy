/** `webauthnBrowser.ts`: base64url text for byte buffers, over the browser's `btoa` and `atob`,
    which are modelled by section 4 of RFC 4648. */
module Base64Url {
  import opened Basics

  type Byte = bv8
  type Sextet = bv6

  // ---------------------------------------------------------------- groups of bits

  // The six-bit values of a group of bytes.
  function Six0(a: Byte): Sextet { (a >> 2) as bv6 }
  function Six1(a: Byte, b: Byte): Sextet { (((a & 3) as bv6) << 4) | ((b >> 4) as bv6) }
  function Six2(b: Byte, c: Byte): Sextet { (((b & 15) as bv6) << 2) | ((c >> 6) as bv6) }
  function Six3(c: Byte): Sextet { (c & 63) as bv6 }

  // The bytes of a group of six-bit values.
  function Byte0(p: Sextet, q: Sextet): Byte { ((p as bv8) << 2) | ((q >> 4) as bv8) }
  function Byte1(q: Sextet, r: Sextet): Byte { ((q as bv8) << 4) | ((r >> 2) as bv8) }
  function Byte2(r: Sextet, t: Sextet): Byte { ((r as bv8) << 6) | (t as bv8) }

  function Four(a: Byte, b: Byte, c: Byte): (s: seq<Sextet>)
    ensures |s| == 4
  {
    [Six0(a), Six1(a, b), Six2(b, c), Six3(c)]
  }

  function Three(p: Sextet, q: Sextet, r: Sextet, t: Sextet): (b: seq<Byte>)
    ensures |b| == 3
  {
    [Byte0(p, q), Byte1(q, r), Byte2(r, t)]
  }

  /** Three bytes are four six-bit groups; one byte left over fills two, two fill three, the
      missing low bits being zero. */
  function ToSextets(b: seq<Byte>): seq<Sextet> {
    if b == [] then []
    else if |b| == 1 then Four(b[0], 0, 0)[..2]
    else if |b| == 2 then Four(b[0], b[1], 0)[..3]
    else Four(b[0], b[1], b[2]) + ToSextets(b[3..])
  }

  /** Whole bytes of the groups; bits that fill no byte are dropped. */
  function FromSextets(s: seq<Sextet>): seq<Byte> {
    if |s| < 2 then []
    else if |s| == 2 then Three(s[0], s[1], 0, 0)[..1]
    else if |s| == 3 then Three(s[0], s[1], s[2], 0)[..2]
    else Three(s[0], s[1], s[2], s[3]) + FromSextets(s[4..])
  }

  /** The bits that fill no byte are zero. */
  predicate Canonical(s: seq<Sextet>) {
    var n := |s|;
    && (n % 4 == 2 ==> s[n - 1] & 15 == 0)
    && (n % 4 == 3 ==> s[n - 1] & 3 == 0)
  }

  /** A group is one 24-bit number, most significant part first, read in two ways. */
  lemma GroupIsOneNumber(a: Byte, b: Byte, c: Byte)
    ensures var s := Four(a, b, c);
            ((a as bv24) << 16) | ((b as bv24) << 8) | (c as bv24)
            == ((s[0] as bv24) << 18) | ((s[1] as bv24) << 12) | ((s[2] as bv24) << 6) | (s[3] as bv24)
  {
  }

  lemma {:induction false} NoLoneSextet(b: seq<Byte>)
    ensures |ToSextets(b)| % 4 != 1
  {
    if |b| >= 3 { NoLoneSextet(b[3..]); }
  }

  lemma GroupOfBytes(a: Byte, b: Byte, c: Byte)
    ensures var s := Four(a, b, c); Three(s[0], s[1], s[2], s[3]) == [a, b, c]
  {
  }

  lemma GroupOfSextets(p: Sextet, q: Sextet, r: Sextet, t: Sextet)
    ensures var b := Three(p, q, r, t); Four(b[0], b[1], b[2]) == [p, q, r, t]
  {
  }

  lemma BytesAhead(a: Byte, b: Byte, c: Byte, rest: seq<Sextet>)
    ensures FromSextets(Four(a, b, c) + rest) == [a, b, c] + FromSextets(rest)
  {
    var s := Four(a, b, c) + rest;
    assert s[4..] == rest;
    GroupOfBytes(a, b, c);
  }

  lemma SextetsAhead(p: Sextet, q: Sextet, r: Sextet, t: Sextet, rest: seq<Byte>)
    ensures ToSextets(Three(p, q, r, t) + rest) == [p, q, r, t] + ToSextets(rest)
  {
    var b := Three(p, q, r, t) + rest;
    assert b[3..] == rest;
    GroupOfSextets(p, q, r, t);
  }

  lemma FewBytes(b: seq<Byte>)
    requires |b| < 3
    ensures FromSextets(ToSextets(b)) == b
  {
    if |b| == 1 {
      GroupOfBytes(b[0], 0, 0);
    } else if |b| == 2 {
      GroupOfBytes(b[0], b[1], 0);
    }
  }

  lemma TwoBack(p: Sextet, q: Sextet)
    ensures ToSextets(FromSextets([p, q])) == [p, q & 48]
  {
    assert FromSextets([p, q]) == [Byte0(p, q)];
  }

  lemma ThreeBack(p: Sextet, q: Sextet, r: Sextet)
    ensures ToSextets(FromSextets([p, q, r])) == [p, q, r & 60]
  {
    assert FromSextets([p, q, r]) == [Byte0(p, q), Byte1(q, r)];
  }

  lemma TwoSextets(s: seq<Sextet>, p: Sextet, q: Sextet)
    requires s == [p, q]
    ensures ToSextets(FromSextets(s)) == s <==> Canonical(s)
  {
    TwoBack(p, q);
    assert [p, q & 48][1] == s[1] <==> s[1] & 15 == 0;
  }

  lemma ThreeSextets(s: seq<Sextet>, p: Sextet, q: Sextet, r: Sextet)
    requires s == [p, q, r]
    ensures ToSextets(FromSextets(s)) == s <==> Canonical(s)
  {
    ThreeBack(p, q, r);
    assert [p, q, r & 60][2] == s[2] <==> s[2] & 3 == 0;
  }

  lemma {:induction false} BytesRoundTrip(b: seq<Byte>)
    ensures FromSextets(ToSextets(b)) == b
  {
    if |b| < 3 {
      FewBytes(b);
    } else {
      BytesRoundTrip(b[3..]);
      BytesAhead(b[0], b[1], b[2], ToSextets(b[3..]));
      assert b == [b[0], b[1], b[2]] + b[3..];
    }
  }

  lemma {:induction false} SextetsRoundTrip(s: seq<Sextet>)
    requires |s| % 4 != 1
    ensures ToSextets(FromSextets(s)) == s <==> Canonical(s)
  {
    if |s| == 2 {
      TwoSextets(s, s[0], s[1]);
    } else if |s| == 3 {
      ThreeSextets(s, s[0], s[1], s[2]);
    } else if |s| >= 4 {
      SextetsRoundTrip(s[4..]);
      SextetsAhead(s[0], s[1], s[2], s[3], FromSextets(s[4..]));
      Prefixed([s[0], s[1], s[2], s[3]], ToSextets(FromSextets(s[4..])), s);
      CanonicalAhead(s);
    }
  }

  lemma CanonicalAhead(s: seq<Sextet>)
    requires |s| >= 4 && |s| % 4 != 1
    ensures Canonical(s) <==> Canonical(s[4..])
  {
    assert |s[4..]| % 4 == |s| % 4;
  }

  lemma Prefixed(head: seq<Sextet>, tail: seq<Sextet>, s: seq<Sextet>)
    requires |head| <= |s| && s[..|head|] == head
    ensures head + tail == s <==> tail == s[|head|..]
  {
    assert s == head + s[|head|..];
    assert (head + tail)[|head|..] == tail;
  }

  // ---------------------------------------------------------------- letters

  function Letter(n: Sextet): char {
    var k := n as int;
    if k < 26 then ('A' as int + k) as char
    else if k < 52 then ('a' as int + k - 26) as char
    else if k < 62 then ('0' as int + k - 52) as char
    else if k == 62 then '+'
    else '/'
  }

  /** Table 1 of RFC 4648: A to Z, a to z and 0 to 9 in order, then plus and slash. */
  lemma StandardAlphabet(n: Sextet)
    ensures Letter(0) == 'A' && Letter(25) == 'Z' && Letter(26) == 'a' && Letter(51) == 'z'
    ensures Letter(52) == '0' && Letter(61) == '9' && Letter(62) == '+' && Letter(63) == '/'
    ensures n < 61 && n != 25 && n != 51 ==> Letter(n + 1) as int == Letter(n) as int + 1
  {
    if n < 61 { assert (n + 1) as int == n as int + 1; }
  }

  predicate IsLetter(c: char) {
    'A' <= c <= 'Z' || 'a' <= c <= 'z' || '0' <= c <= '9' || c == '+' || c == '/'
  }

  predicate IsUrlLetter(c: char) {
    'A' <= c <= 'Z' || 'a' <= c <= 'z' || '0' <= c <= '9' || c == '-' || c == '_'
  }

  function Value(c: char): Sextet
    requires IsLetter(c)
  {
    if 'A' <= c <= 'Z' then (c as int - 'A' as int) as bv6
    else if 'a' <= c <= 'z' then (c as int - 'a' as int + 26) as bv6
    else if '0' <= c <= '9' then (c as int - '0' as int + 52) as bv6
    else if c == '+' then 62
    else 63
  }

  lemma SmallInt(k: int)
    requires 0 <= k < 64
    ensures (k as bv6) as int == k
  {
  }

  lemma LetterRoundTrip(n: Sextet)
    ensures Value(Letter(n)) == n
  {
  }

  lemma ValueRoundTrip(c: char)
    requires IsLetter(c)
    ensures Letter(Value(c)) == c
  {
    if 'A' <= c <= 'Z' {
      SmallInt(c as int - 'A' as int);
    } else if 'a' <= c <= 'z' {
      SmallInt(c as int - 'a' as int + 26);
    } else if '0' <= c <= '9' {
      SmallInt(c as int - '0' as int + 52);
    }
  }

  predicate AllLetters(text: string) { forall i :: 0 <= i < |text| ==> IsLetter(text[i]) }

  predicate UrlSafe(text: string) { forall i :: 0 <= i < |text| ==> IsUrlLetter(text[i]) }

  function Letters(s: seq<Sextet>): (text: string)
    ensures |text| == |s| && AllLetters(text)
  {
    seq(|s|, i requires 0 <= i < |s| => Letter(s[i]))
  }

  function Values(text: string): seq<Sextet>
    requires AllLetters(text)
  {
    seq(|text|, i requires 0 <= i < |text| => Value(text[i]))
  }

  lemma LettersRoundTrip(s: seq<Sextet>, text: string)
    ensures Values(Letters(s)) == s
    ensures AllLetters(text) ==> Letters(Values(text)) == text
  {
    forall n: Sextet ensures Value(Letter(n)) == n { LetterRoundTrip(n); }
    forall c: char | IsLetter(c) ensures Letter(Value(c)) == c { ValueRoundTrip(c); }
  }

  // ---------------------------------------------------------------- btoa and atob

  function Equals(n: nat): string { seq(n, _ => '=') }

  function PaddingFor(n: nat): nat { (4 - n % 4) % 4 }

  /** A binary string: one character per byte. */
  function BinaryString(b: seq<Byte>): string { seq(|b|, i requires 0 <= i < |b| => b[i] as int as char) }

  predicate IsBinary(s: string) { forall i :: 0 <= i < |s| ==> s[i] as int < 256 }

  function CharCodes(s: string): seq<Byte>
    requires IsBinary(s)
  {
    seq(|s|, i requires 0 <= i < |s| => s[i] as int as bv8)
  }

  lemma BinaryRoundTrip(b: seq<Byte>)
    ensures IsBinary(BinaryString(b)) && CharCodes(BinaryString(b)) == b
  {
  }

  /** Throws on a character above 255. */
  function Btoa(binary: string): Option<string> {
    if !IsBinary(binary) then None
    else
      var text := Letters(ToSextets(CharCodes(binary)));
      Some(text + Equals(PaddingFor(|text|)))
  }

  function DropUpTo(text: string, n: nat): string {
    if n == 0 || text == "" || text[|text| - 1] != '=' then text else DropUpTo(text[..|text| - 1], n - 1)
  }

  /** Full padding is optional and partial padding refused; throws on anything that is not a
      letter and on a lone final letter. */
  function Atob(text: string): Option<string> {
    AtobUnpadded(if |text| % 4 == 0 then DropUpTo(text, 2) else text)
  }

  function AtobUnpadded(core: string): Option<string> {
    if |core| % 4 == 1 || !AllLetters(core) then None
    else Some(BinaryString(FromSextets(Values(core))))
  }

  // ---------------------------------------------------------------- the two functions

  function Replace(s: string, from: char, to: char): string {
    seq(|s|, i requires 0 <= i < |s| => if s[i] == from then to else s[i])
  }

  function StripEquals(s: string): string {
    if s == "" || s[|s| - 1] != '=' then s else StripEquals(s[..|s| - 1])
  }

  function Encode(bytes: seq<Byte>): Option<string> {
    match Btoa(BinaryString(bytes))
    case None => None
    case Some(text) => Some(StripEquals(Replace(Replace(text, '+', '-'), '/', '_')))
  }

  function Padded(base64url: string): string { base64url + Equals(PaddingFor(|base64url|)) }

  function Decode(base64url: string): Option<seq<Byte>> {
    match Atob(Replace(Replace(Padded(base64url), '-', '+'), '_', '/'))
    case None => None
    case Some(raw) => if IsBinary(raw) then Some(CharCodes(raw)) else None
  }

  method BufferToBase64url(buffer: array<Byte>) returns (text: Option<string>)
    ensures text == Encode(buffer[..])
  {
    var binary := "";
    for i := 0 to buffer.Length
      invariant binary == BinaryString(buffer[..i])
    {
      binary := binary + [buffer[i] as int as char];
    }
    assert buffer[..buffer.Length] == buffer[..];
    match Btoa(binary)
    case None => text := None;
    case Some(t) => text := Some(StripEquals(Replace(Replace(t, '+', '-'), '/', '_')));
  }

  method FillBytes(raw: string) returns (bytes: array<Byte>)
    requires IsBinary(raw)
    ensures fresh(bytes) && bytes[..] == CharCodes(raw)
  {
    bytes := new Byte[|raw|];
    for i := 0 to |raw|
      invariant forall k :: 0 <= k < i ==> bytes[k] == raw[k] as int as bv8
    {
      bytes[i] := raw[i] as int as bv8;
    }
  }

  /** The buffer is filled byte by byte; nothing is returned where `atob` throws. */
  method Base64urlToBuffer(base64url: string) returns (ok: bool, bytes: array<Byte>)
    ensures fresh(bytes)
    ensures Decode(base64url) == if ok then Some(bytes[..]) else None
  {
    var base64 := Replace(Replace(Padded(base64url), '-', '+'), '_', '/');
    var raw := Atob(base64);
    AtobIsBinary(base64);
    if raw.None? {
      ok, bytes := false, new Byte[0];
    } else {
      ok := true;
      bytes := FillBytes(raw.value);
    }
  }

  /** `atob` never gives a character that does not fit the byte array. */
  lemma AtobIsBinary(text: string)
    ensures Atob(text).Some? ==> IsBinary(Atob(text).value)
  {
  }

  // ---------------------------------------------------------------- padding

  /** The letters of the URL alphabet. */
  function UrlText(text: string): string { Replace(Replace(text, '+', '-'), '/', '_') }

  function StandardText(text: string): string { Replace(Replace(text, '-', '+'), '_', '/') }

  lemma {:induction false} StripsPadding(text: string, n: nat, most: nat)
    requires (text == "" || text[|text| - 1] != '=') && n <= most
    ensures StripEquals(text + Equals(n)) == text
    ensures DropUpTo(text + Equals(n), most) == text
  {
    if n == 0 {
      assert text + Equals(n) == text;
    } else {
      var s := text + Equals(n);
      assert s[..|s| - 1] == text + Equals(n - 1) && s[|s| - 1] == '=';
      StripsPadding(text, n - 1, most - 1);
    }
  }

  /** Encoding never throws. Its text is the URL form of the letters, and the padding recomputed
      from its length is exactly the padding that was stripped. */
  lemma EncodeText(b: seq<Byte>)
    ensures var text := Letters(ToSextets(b));
            && Encode(b) == Some(UrlText(text))
            && Btoa(BinaryString(b)) == Some(StandardText(Padded(UrlText(text))))
  {
    BinaryRoundTrip(b);
    NoLoneSextet(b);
    var text := Letters(ToSextets(b));
    var padding := Equals(PaddingFor(|text|));
    assert UrlText(text + padding) == UrlText(text) + padding;
    StripsPadding(UrlText(text), PaddingFor(|text|), 3);
    assert StandardText(UrlText(text) + padding) == text + padding;
  }

  /** Every byte sequence has a text, made of URL-safe letters only. */
  lemma EncodeIsUrlSafe(b: seq<Byte>)
    ensures Encode(b).Some? && UrlSafe(Encode(b).value) && |Encode(b).value| % 4 != 1
  {
    EncodeText(b);
    NoLoneSextet(b);
  }

  lemma LeavesOne(text: string)
    ensures DropUpTo(text + Equals(3), 2) == text + Equals(1)
  {
    var s3, s2, s1 := text + Equals(3), text + Equals(2), text + Equals(1);
    assert s3[..|s3| - 1] == s2 && s3[|s3| - 1] == '=';
    assert s2[..|s2| - 1] == s1 && s2[|s2| - 1] == '=';
    assert DropUpTo(s2, 1) == DropUpTo(s1, 0);
  }

  lemma PaddingFills(n: nat)
    requires n % 4 != 1
    ensures (n + PaddingFor(n)) % 4 == 0 && PaddingFor(n) <= 2
  {
  }

  lemma AtobStrips(text: string, core: string)
    requires |text| % 4 == 0 && DropUpTo(text, 2) == core
    ensures Atob(text) == AtobUnpadded(core)
  {
  }

  lemma AtobWhole(letters: string, n: nat)
    requires AllLetters(letters) && |letters| % 4 != 1 && n == PaddingFor(|letters|)
    ensures Atob(letters + Equals(n)) == AtobUnpadded(letters)
  {
    PaddingFills(|letters|);
    assert letters != "" ==> IsLetter(letters[|letters| - 1]);
    StripsPadding(letters, n, 2);
    var text := letters + Equals(n);
    assert |text| == |letters| + n;
    AtobStrips(text, letters);
  }

  lemma AtobLone(letters: string)
    requires |letters| % 4 == 1
    ensures Atob(letters + Equals(3)) == None
  {
    LeavesOne(letters);
    var core := letters + Equals(1);
    assert core[|letters|] == '=';
  }

  lemma UnpaddedLetters(letters: string)
    requires AllLetters(letters) && |letters| % 4 != 1
    ensures AtobUnpadded(letters) == Some(BinaryString(FromSextets(Values(letters))))
  {
  }

  lemma AtobPadded(letters: string)
    requires AllLetters(letters)
    ensures Atob(letters + Equals(PaddingFor(|letters|)))
            == if |letters| % 4 == 1 then None else Some(BinaryString(FromSextets(Values(letters))))
  {
    if |letters| % 4 == 1 {
      AtobLone(letters);
    } else {
      AtobWhole(letters, PaddingFor(|letters|));
      UnpaddedLetters(letters);
    }
  }

  /** Decoding text in the URL alphabet comes down to its six-bit groups. */
  lemma DecodeText(text: string)
    requires UrlSafe(text)
    ensures AllLetters(StandardText(text))
    ensures Decode(text) == if |text| % 4 == 1 then None else Some(FromSextets(Values(StandardText(text))))
  {
    var letters := StandardText(text);
    assert StandardText(Padded(text)) == letters + Equals(PaddingFor(|letters|));
    AtobPadded(letters);
    if |text| % 4 != 1 { BinaryRoundTrip(FromSextets(Values(letters))); }
  }

  /** Decoding undoes encoding, for every byte sequence. */
  lemma RoundTrip(b: seq<Byte>)
    ensures Encode(b).Some? && Decode(Encode(b).value) == Some(b)
  {
    EncodeText(b);
    var text := Letters(ToSextets(b));
    EncodeIsUrlSafe(b);
    DecodeText(UrlText(text));
    assert StandardText(UrlText(text)) == text;
    LettersRoundTrip(ToSextets(b), text);
    BytesRoundTrip(b);
  }

  lemma LettersDiffer(s: seq<Sextet>, text: string)
    requires AllLetters(text) && UrlText(Letters(s)) == UrlText(text)
    ensures s == Values(text)
  {
    assert StandardText(UrlText(Letters(s))) == Letters(s);
    assert StandardText(UrlText(text)) == text;
    LettersRoundTrip(s, text);
  }

  lemma SameText(text: string, s: seq<Sextet>)
    requires UrlSafe(text) && AllLetters(StandardText(text))
    ensures UrlText(Letters(s)) == text <==> s == Values(StandardText(text))
  {
    var letters := StandardText(text);
    assert UrlText(letters) == text;
    if UrlText(Letters(s)) == text {
      LettersDiffer(s, letters);
    } else {
      LettersRoundTrip(s, letters);
    }
  }

  /** Unpadded text decodes exactly if no lone letter is left over, and encoding then gives the
      same text back exactly if the bits that fill no byte are zero. */
  lemma TextRoundTrip(text: string)
    requires UrlSafe(text)
    ensures Decode(text).Some? <==> |text| % 4 != 1
    ensures AllLetters(StandardText(text))
    ensures Decode(text).Some? ==> (Encode(Decode(text).value) == Some(text) <==> Canonical(Values(StandardText(text))))
  {
    DecodeText(text);
    if |text| % 4 != 1 {
      var letters := StandardText(text);
      var s := Values(letters);
      SextetsRoundTrip(s);
      EncodeText(FromSextets(s));
      LettersRoundTrip(s, letters);
      SameText(text, ToSextets(FromSextets(s)));
    }
  }

  // ---------------------------------------------------------------- the text, letter by letter

  /** The byte at `i`, and zero past the end. */
  function At(b: seq<Byte>, i: nat): (n: int)
    ensures 0 <= n < 256
  {
    if i < |b| then b[i] as int else 0
  }

  /** The four parts of six bits that three bytes have, by position. */
  function Part(a: int, b: int, c: int, r: nat): (k: int)
    requires 0 <= a < 256 && 0 <= b < 256 && 0 <= c < 256
    ensures 0 <= k < 64
  {
    if r == 0 then a / 4 else if r == 1 then a % 4 * 16 + b / 16 else if r == 2 then b % 16 * 4 + c / 64 else c % 64
  }

  /** Table 2 of RFC 4648. */
  function UrlLetter(k: int): char
    requires 0 <= k < 64
  {
    if k < 26 then ('A' as int + k) as char
    else if k < 52 then ('a' as int + (k - 26)) as char
    else if k < 62 then ('0' as int + (k - 52)) as char
    else if k == 62 then '-' else '_'
  }

  lemma HighBits(a: Byte)
    ensures (a >> 2) as bv6 as int == a as int / 4
    ensures (a >> 4) < 16 && (a >> 4) as bv6 as int == a as int / 16
    ensures (a >> 6) < 4 && (a >> 6) as bv6 as int == a as int / 64
  {
  }

  lemma LowTwo(a: Byte)
    ensures (a & 3) < 4 && (a & 3) as bv6 as int == a as int % 4
  {
  }

  lemma LowFour(a: Byte)
    ensures (a & 15) < 16 && (a & 15) as bv6 as int == a as int % 16
  {
  }

  lemma LowSix(a: Byte)
    ensures (a & 63) as bv6 as int == a as int % 64
  {
  }

  lemma JoinBits(x: Sextet, y: Sextet)
    ensures x < 4 && y < 16 ==> ((x << 4) | y) as int == x as int * 16 + y as int
    ensures x < 16 && y < 4 ==> ((x << 2) | y) as int == x as int * 4 + y as int
  {
  }

  lemma FirstPart(a: Byte)
    ensures Six0(a) as int == a as int / 4
  {
    HighBits(a);
  }

  lemma FourthPart(c: Byte)
    ensures Six3(c) as int == c as int % 64
  {
    LowSix(c);
  }

  lemma SecondPart(a: Byte, b: Byte)
    ensures Six1(a, b) as int == a as int % 4 * 16 + b as int / 16
  {
    LowTwo(a);
    HighBits(b);
    JoinBits((a & 3) as bv6, (b >> 4) as bv6);
  }

  lemma ThirdPart(b: Byte, c: Byte)
    ensures Six2(b, c) as int == b as int % 16 * 4 + c as int / 64
  {
    LowFour(b);
    HighBits(c);
    JoinBits((b & 15) as bv6, (c >> 6) as bv6);
  }

  lemma PartsOfGroup(a: Byte, b: Byte, c: Byte, r: nat)
    requires r < 4
    ensures Four(a, b, c)[r] as int == Part(a as int, b as int, c as int, r)
  {
    FirstPart(a);
    SecondPart(a, b);
    ThirdPart(b, c);
    FourthPart(c);
  }

  lemma {:induction false} SextetCount(b: seq<Byte>)
    ensures |ToSextets(b)| == (4 * |b| + 2) / 3
  {
    if |b| > 2 { SextetCount(b[3..]); }
  }

  /** The six bits of letter `j`. */
  function Bits(b: seq<Byte>, j: nat): int {
    var q := 3 * (j / 4);
    Part(At(b, q), At(b, q + 1), At(b, q + 2), j % 4)
  }

  lemma BitsAhead(b: seq<Byte>, j: nat)
    requires |b| >= 3 && j >= 4
    ensures Bits(b, j) == Bits(b[3..], j - 4)
  {
    var q := 3 * (j / 4);
    assert 3 * ((j - 4) / 4) == q - 3 && (j - 4) % 4 == j % 4;
    assert At(b[3..], q - 3) == At(b, q) && At(b[3..], q - 2) == At(b, q + 1) && At(b[3..], q - 1) == At(b, q + 2);
  }

  lemma FirstBits(b: seq<Byte>, j: nat)
    requires j < 4 && j < |ToSextets(b)|
    ensures ToSextets(b)[j] as int == Bits(b, j)
  {
    PartsOfGroup(b[0], if |b| > 1 then b[1] else 0, if |b| > 2 then b[2] else 0, j);
  }

  lemma {:induction false} SextetAt(b: seq<Byte>, j: nat)
    requires j < |ToSextets(b)|
    ensures ToSextets(b)[j] as int == Bits(b, j)
  {
    if j < 4 {
      FirstBits(b, j);
    } else {
      SextetAt(b[3..], j - 4);
      BitsAhead(b, j);
    }
  }

  lemma UrlLetterOf(n: Sextet)
    ensures UrlText([Letter(n)])[0] == UrlLetter(n as int)
  {
  }

  /** Every letter of the encoded text, by arithmetic on the bytes: four letters for three bytes, two
      for one byte left over and three for two, each the letter of its six bits in table 2. */
  lemma EncodedLetters(b: seq<Byte>, j: nat)
    ensures Encode(b).Some? && |Encode(b).value| == (4 * |b| + 2) / 3
    ensures j < |Encode(b).value| ==>
              var q := 3 * (j / 4); var k := Part(At(b, q), At(b, q + 1), At(b, q + 2), j % 4);
              Encode(b).value[j] == UrlLetter(k)
  {
    EncodeText(b);
    SextetCount(b);
    if j < |ToSextets(b)| {
      SextetAt(b, j);
      UrlLetterOf(ToSextets(b)[j]);
    }
  }
}
