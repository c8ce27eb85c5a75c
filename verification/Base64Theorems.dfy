/**
 What the base64 codec promises: decoding undoes encoding, through data-URL headers and inserted white
 space; lengths; which texts are accepted, and which of them encoding gives back.
 */
module Base64Theorems {
  import opened Wrappers
  import opened Text
  import opened Base64

  // ---- Text and bytes ----

  predicate Ascii(s: string) {
    forall i :: 0 <= i < |s| ==> s[i] as int < 128
  }

  function Codes(s: string): (b: seq<Byte>)
    requires Ascii(s)
    ensures |b| == |s|
  {
    seq(|s|, i requires 0 <= i < |s| => s[i] as int)
  }

  lemma {:induction false} Utf8OfAscii(s: string)
    requires Ascii(s)
    ensures Utf8(s) == Codes(s)
  {
    if s != [] {
      Utf8OfAscii(s[1..]);
      assert Codes(s) == [s[0] as int] + Codes(s[1..]);
    }
  }

  /** A character outside ASCII brings a byte of at least 128. */
  lemma {:induction false} AsciiIfBytesAre(s: string)
    requires forall i :: 0 <= i < |Utf8(s)| ==> Utf8(s)[i] < 128
    ensures Ascii(s)
  {
    if s != [] {
      var first, rest := Utf8Char(s[0]), Utf8(s[1..]);
      assert Utf8(s)[0] == first[0];
      assert forall i :: 0 <= i < |rest| ==> rest[i] == Utf8(s)[|first| + i];
      AsciiIfBytesAre(s[1..]);
    }
  }

  /** Characters the codec writes: no comma, no white space. */
  predicate Written(s: string) {
    forall i :: 0 <= i < |s| ==> s[i] as int < 128 && !IsWhitespace(s[i]) && s[i] != ','
  }

  lemma {:induction false} VisibleWritten(s: string)
    requires Written(s)
    ensures Visible(s) == s && AfterComma(s).None?
  {
    if s != [] {
      VisibleWritten(s[1..]);
    }
  }

  lemma {:induction false} WrittenConcat(a: string, b: string)
    requires Written(a) && Written(b)
    ensures Written(a + b)
  {
  }

  lemma {:induction false} ChunkWritten(chunk: seq<Byte>)
    requires 1 <= |chunk| <= 3
    ensures Written(EncodeChunk(chunk))
  {
    var n := Group(chunk);
    SymbolsInvert(n / 0x4_0000 % 64);
    SymbolsInvert(n / 0x1000 % 64);
    SymbolsInvert(n / 64 % 64);
    SymbolsInvert(n % 64);
  }

  lemma {:induction false} EncodedWritten(bytes: seq<Byte>)
    ensures Written(Encoded(bytes))
  {
    if 0 < |bytes| <= 3 {
      ChunkWritten(bytes);
    } else if bytes != [] {
      EncodedWritten(bytes[3..]);
      ChunkWritten(bytes[..3]);
      WrittenConcat(EncodeChunk(bytes[..3]), Encoded(bytes[3..]));
    }
  }

  /** Four characters for every three bytes or part of three. */
  lemma {:induction false} EncodedLength(bytes: seq<Byte>)
    ensures |Encoded(bytes)| == 4 * ((|bytes| + 2) / 3)
  {
    if |bytes| > 3 {
      EncodedLength(bytes[3..]);
    }
  }

  // ---- One chunk ----

  lemma {:induction false} SymbolsAre(chunk: seq<Byte>, k: nat)
    requires k <= |chunk| && PAD !in chunk[..k] && (k < |chunk| ==> chunk[k] == PAD)
    ensures Symbols(chunk) == k
  {
    if k > 0 {
      assert chunk[0] == chunk[..k][0];
      assert chunk[..k] == [chunk[0]] + chunk[1..][..k - 1];
      SymbolsAre(chunk[1..], k - 1);
    }
  }

  /** Four six-bit digits make up a 24-bit number. */
  lemma {:induction false} Digits(n: nat)
    requires n < 0x100_0000
    ensures 0x4_0000 * (n / 0x4_0000 % 64) + 0x1000 * (n / 0x1000 % 64) + 64 * (n / 64 % 64) + n % 64 == n
  {
    assert n / 0x4_0000 == n / 64 / 64 / 64 && n / 0x1000 == n / 64 / 64;
  }

  lemma {:induction false} GroupBytes(chunk: seq<Byte>)
    requires 1 <= |chunk| <= 3
    ensures Bytes3(Group(chunk))[..|chunk|] == chunk
    ensures |chunk| < 3 ==> Group(chunk) % 64 == 0
    ensures |chunk| < 2 ==> Group(chunk) / 64 % 64 == 0
  {
    if |chunk| == 1 {
      SplitGroup(chunk[0], 0, 0);
    } else if |chunk| == 2 {
      SplitGroup(chunk[0], chunk[1], 0);
    } else {
      SplitGroup(chunk[0], chunk[1], chunk[2]);
    }
  }

  lemma {:induction false} SplitGroup(a: Byte, b: Byte, c: Byte)
    ensures var n := 0x1_0000 * (a as int) + 256 * (b as int) + (c as int);
      && n / 0x1_0000 == a && n / 256 % 256 == b && n % 256 == c
      && (c == 0 ==> n % 64 == 0) && (b == 0 && c == 0 ==> n / 64 % 64 == 0)
  {
  }

  /** The codes of a written chunk: `k` symbols with the digits of its number, then padding. */
  ghost predicate DigitCodes(c: seq<Byte>, n: nat, k: nat) {
    && |c| == 4 && 2 <= k <= 4
    && Value(c[0]) == Some(n / 0x4_0000 % 64) && Value(c[1]) == Some(n / 0x1000 % 64)
    && (if k > 2 then Value(c[2]) == Some(n / 64 % 64) else c[2] == PAD)
    && (if k > 3 then Value(c[3]) == Some(n % 64) else c[3] == PAD)
  }

  lemma {:induction false} ChunkDigits(chunk: seq<Byte>)
    requires 1 <= |chunk| <= 3
    ensures Ascii(EncodeChunk(chunk)) && DigitCodes(Codes(EncodeChunk(chunk)), Group(chunk), |chunk| + 1)
  {
    var n := Group(chunk);
    ChunkWritten(chunk);
    SymbolsInvert(n / 0x4_0000 % 64);
    SymbolsInvert(n / 0x1000 % 64);
    SymbolsInvert(n / 64 % 64);
    SymbolsInvert(n % 64);
  }

  lemma {:induction false} DigitsDecode(c: seq<Byte>, n: nat, k: nat)
    requires n < 0x100_0000 && DigitCodes(c, n, k)
    requires (k < 4 ==> n % 64 == 0) && (k < 3 ==> n / 64 % 64 == 0)
    ensures DecodedChunk(c) == Ok(Bytes3(n)[..k - 1])
  {
    SymbolsAre(c, k);
    Digits(n);
    assert Number(c, k) == n;
  }

  lemma {:induction false} ChunkRoundTrip(chunk: seq<Byte>)
    requires 1 <= |chunk| <= 3
    ensures Ascii(EncodeChunk(chunk)) && DecodedChunk(Codes(EncodeChunk(chunk))) == Ok(chunk)
  {
    ChunkDigits(chunk);
    GroupBytes(chunk);
    DigitsDecode(Codes(EncodeChunk(chunk)), Group(chunk), |chunk| + 1);
  }

  // ---- Decoding undoes encoding ----

  lemma {:induction false} BytesRoundTrip(bytes: seq<Byte>)
    ensures Ascii(Encoded(bytes)) && |Encoded(bytes)| % 4 == 0
    ensures DecodedChunks(Codes(Encoded(bytes))) == Ok(bytes)
  {
    EncodedWritten(bytes);
    EncodedLength(bytes);
    if 0 < |bytes| <= 3 {
      ChunkRoundTrip(bytes);
      LastChunk(Codes(EncodeChunk(bytes)), bytes);
    } else if bytes != [] {
      ChunkRoundTrip(bytes[..3]);
      BytesRoundTrip(bytes[3..]);
      ChunkThen(EncodeChunk(bytes[..3]), Encoded(bytes[3..]), bytes[..3], bytes[3..]);
      assert bytes == bytes[..3] + bytes[3..];
    }
  }

  lemma {:induction false} ChunkThen(first: string, rest: string, out: seq<Byte>, out': seq<Byte>)
    requires Ascii(first) && Ascii(rest) && |first| == 4 && |rest| % 4 == 0
    requires DecodedChunk(Codes(first)) == Ok(out) && DecodedChunks(Codes(rest)) == Ok(out')
    ensures |first + rest| % 4 == 0 && DecodedChunks(Codes(first + rest)) == Ok(out + out')
  {
    assert Codes(first + rest) == Codes(first) + Codes(rest);
    DecodedStep(Codes(first + rest), Codes(first), Codes(rest));
  }

  lemma {:induction false} LastChunk(chunk: seq<Byte>, out: seq<Byte>)
    requires |chunk| == 4 && DecodedChunk(chunk) == Ok(out)
    ensures DecodedChunks(chunk) == Ok(out)
  {
    assert chunk == chunk + [];
    DecodedStep(chunk, chunk, []);
    assert out + [] == out;
  }

  lemma {:induction false} AfterHeader(header: string, rest: string)
    requires ',' !in header
    ensures AfterComma(header + "," + rest) == Some(rest)
  {
    var s := header + "," + rest;
    if header == [] {
      assert s[1..] == rest;
    } else {
      assert s[1..] == header[1..] + "," + rest;
      AfterHeader(header[1..], rest);
    }
  }

  /** Dropping white space keeps every comma. */
  lemma {:induction false} NoCommaVisible(s: string)
    requires ',' !in Visible(s)
    ensures AfterComma(s).None?
  {
    if s != [] {
      if !IsWhitespace(s[0]) {
        assert Visible(s)[0] == s[0];
        assert Visible(s)[1..] == Visible(s[1..]);
      }
      NoCommaVisible(s[1..]);
    }
  }

  /**
   Decoding undoes encoding for every non-empty byte string: for the text itself, for the text with white
   space inserted anywhere, and for either behind a comma-free data-URL header and a comma.
   */
  lemma {:induction false} RoundTrip(bytes: seq<Byte>, header: string, text: string)
    requires bytes != [] && ',' !in header && Visible(text) == Encoded(bytes)
    ensures Decoded(text) == Ok(bytes) && Decoded(header + "," + text) == Ok(bytes)
  {
    EncodedWritten(bytes);
    BytesRoundTrip(bytes);
    Utf8OfAscii(Encoded(bytes));
    NoCommaVisible(text);
    AfterHeader(header, text);
    assert Codes(Encoded(bytes)) != [];
  }

  /** The bare text decodes to its bytes if and only if there are any: nothing is not accepted. */
  lemma {:induction false} PlainRoundTripIff(bytes: seq<Byte>)
    ensures Decoded(Encoded(bytes)) == Ok(bytes) <==> bytes != []
  {
    if bytes != [] {
      EncodedWritten(bytes);
      VisibleWritten(Encoded(bytes));
      RoundTrip(bytes, "", Encoded(bytes));
    }
  }

  // ---- Accepted texts ----

  predicate SymbolsThenPadding(chunk: seq<Byte>, k: nat) {
    && k <= |chunk|
    && (forall i :: 0 <= i < k ==> Value(chunk[i]).Some?)
    && forall i :: k <= i < |chunk| ==> chunk[i] == PAD
  }

  /** Two to four symbols of the alphabet, then padding. */
  predicate GoodChunk(chunk: seq<Byte>)
    requires |chunk| == 4
  {
    SymbolsThenPadding(chunk, 2) || SymbolsThenPadding(chunk, 3) || SymbolsThenPadding(chunk, 4)
  }

  lemma {:induction false} GoodChunkIff(chunk: seq<Byte>)
    requires |chunk| == 4
    ensures DecodedChunk(chunk).Ok? <==> GoodChunk(chunk)
  {
    GoodAt(chunk, 2);
    GoodAt(chunk, 3);
    GoodAt(chunk, 4);
    var k := Symbols(chunk);
    if DecodedChunk(chunk).Ok? {
      assert SymbolsThenPadding(chunk, k);
    }
  }

  lemma {:induction false} GoodAt(chunk: seq<Byte>, k: nat)
    requires |chunk| == 4 && 2 <= k <= 4
    ensures SymbolsThenPadding(chunk, k) ==> DecodedChunk(chunk).Ok?
  {
    if SymbolsThenPadding(chunk, k) {
      assert forall i :: 0 <= i < k ==> chunk[..k][i] == chunk[i];
      SymbolsAre(chunk, k);
    }
  }

  function ChunkAt(bytes: seq<Byte>, j: nat): (c: seq<Byte>)
    requires 4 * j + 4 <= |bytes|
    ensures |c| == 4
  {
    bytes[4 * j..4 * j + 4]
  }

  predicate GoodChunks(bytes: seq<Byte>) {
    |bytes| % 4 == 0 && forall j: nat :: j < |bytes| / 4 ==> GoodChunk(ChunkAt(bytes, j))
  }

  lemma {:induction false} GoodChunksStep(bytes: seq<Byte>)
    requires bytes != [] && |bytes| % 4 == 0
    ensures GoodChunks(bytes) <==> GoodChunk(bytes[..4]) && GoodChunks(bytes[4..])
  {
    var rest := bytes[4..];
    assert ChunkAt(bytes, 0) == bytes[..4];
    assert |rest| / 4 == |bytes| / 4 - 1;
    forall j: nat | j < |rest| / 4 ensures ChunkAt(rest, j) == ChunkAt(bytes, j + 1) {
    }
    if GoodChunk(bytes[..4]) && GoodChunks(rest) {
      forall j: nat | j < |bytes| / 4 ensures GoodChunk(ChunkAt(bytes, j)) {
        if j > 0 {
          var p := j - 1;
          assert GoodChunk(ChunkAt(rest, p));
        }
      }
    }
  }

  lemma {:induction false} ChunksAcceptedIff(bytes: seq<Byte>)
    requires |bytes| % 4 == 0
    ensures DecodedChunks(bytes).Ok? <==> GoodChunks(bytes)
  {
    if bytes != [] {
      GoodChunksStep(bytes);
      GoodChunkIff(bytes[..4]);
      ChunksAcceptedIff(bytes[4..]);
    }
  }

  /** Exactly the texts whose visible payload is a positive number of good chunks are accepted. */
  lemma {:induction false} AcceptedIff(s: string)
    ensures Decoded(s).Ok? <==> Normalized(s) != [] && GoodChunks(Normalized(s))
  {
    if |Normalized(s)| % 4 == 0 {
      ChunksAcceptedIff(Normalized(s));
    }
  }

  function CountPad(bytes: seq<Byte>): nat {
    if bytes == [] then 0 else (if bytes[0] == PAD then 1 else 0) + CountPad(bytes[1..])
  }

  lemma {:induction false} CountPadConcat(a: seq<Byte>, b: seq<Byte>)
    ensures CountPad(a + b) == CountPad(a) + CountPad(b)
  {
    if a == [] {
      assert a + b == b;
    } else {
      assert (a + b)[1..] == a[1..] + b;
      CountPadConcat(a[1..], b);
    }
  }

  lemma {:induction false} PadsOfChunk(chunk: seq<Byte>)
    requires |chunk| == 4
    ensures CountPad(chunk) == Pad(chunk[0]) + Pad(chunk[1]) + Pad(chunk[2]) + Pad(chunk[3])
  {
    assert chunk == [chunk[0]] + ([chunk[1]] + ([chunk[2]] + [chunk[3]]));
    CountPadConcat([chunk[0]], [chunk[1]] + ([chunk[2]] + [chunk[3]]));
    CountPadConcat([chunk[1]], [chunk[2]] + [chunk[3]]);
    CountPadConcat([chunk[2]], [chunk[3]]);
  }

  function Pad(byte: Byte): nat {
    if byte == PAD then 1 else 0
  }

  lemma {:induction false} ChunkFacts(chunk: seq<Byte>)
    requires |chunk| == 4 && DecodedChunk(chunk).Ok?
    ensures |DecodedChunk(chunk).value| == 3 - CountPad(chunk)
    ensures forall i :: 0 <= i < 4 ==> chunk[i] < 128
  {
    var k := Symbols(chunk);
    PadsOfChunk(chunk);
    assert forall i :: 0 <= i < k ==> chunk[i] == chunk[..k][i];
    assert forall i :: 0 <= i < k ==> Value(chunk[i]).Some?;
  }

  lemma {:induction false} ChunksFacts(bytes: seq<Byte>)
    requires |bytes| % 4 == 0 && DecodedChunks(bytes).Ok?
    ensures |DecodedChunks(bytes).value| == 3 * (|bytes| / 4) - CountPad(bytes)
    ensures forall i :: 0 <= i < |bytes| ==> bytes[i] < 128
  {
    if bytes != [] {
      ChunkFacts(bytes[..4]);
      ChunksFacts(bytes[4..]);
      assert bytes == bytes[..4] + bytes[4..];
      CountPadConcat(bytes[..4], bytes[4..]);
    }
  }

  /** Three bytes for every four visible characters, less one for each padding character. */
  lemma {:induction false} DecodedLength(s: string)
    requires Decoded(s).Ok?
    ensures |Normalized(s)| == |Visible(Payload(s))|
    ensures |Decoded(s).value| == 3 * (|Visible(Payload(s))| / 4) - CountPad(Normalized(s))
  {
    ChunksFacts(Normalized(s));
    AsciiIfBytesAre(Visible(Payload(s)));
    Utf8OfAscii(Visible(Payload(s)));
  }

  // ---- Encoding undoes decoding ----

  /** The bits of the last symbol that reach no byte are zero. */
  predicate UnusedBitsZero(chunk: seq<Byte>)
    requires |chunk| == 4
  {
    && (chunk[3] == PAD && chunk[2] == PAD ==> Value(chunk[1]).GetOr(0) % 16 == 0)
    && (chunk[3] == PAD && chunk[2] != PAD ==> Value(chunk[2]).GetOr(0) % 4 == 0)
  }

  /** Padding only in the last chunk, and no unused bits in it. */
  predicate Canonical(bytes: seq<Byte>) {
    |bytes| >= 4 && (forall i :: 0 <= i < |bytes| - 4 ==> bytes[i] != PAD) && UnusedBitsZero(bytes[|bytes| - 4..])
  }

  lemma {:induction false} SymbolOf(byte: Byte, v: nat)
    requires v < 64 && Value(byte).Some?
    ensures Symbol(v) as int == byte <==> v == Value(byte).value
  {
    ValuesInvert(byte);
    SymbolsInvert(v);
  }

  lemma {:induction false} Digit(m: nat, d: nat)
    requires d < 64
    ensures (64 * m + d) / 64 == m && (64 * m + d) % 64 == d
  {
  }

  /** A 24-bit number has one set of four six-bit digits. */
  lemma {:induction false} DigitsOf(n: nat, a: nat, b: nat, c: nat, d: nat)
    requires a < 64 && b < 64 && c < 64 && d < 64 && n == 0x4_0000 * a + 0x1000 * b + 64 * c + d
    ensures n / 0x4_0000 % 64 == a && n / 0x1000 % 64 == b && n / 64 % 64 == c && n % 64 == d
  {
    Digit(0x1000 * a + 64 * b + c, d);
    Digit(64 * a + b, c);
    Digit(a, b);
    assert n / 0x1000 == n / 64 / 64 && n / 0x4_0000 == n / 64 / 64 / 64;
  }

  lemma {:induction false} FullChunkReencodes(chunk: seq<Byte>)
    requires |chunk| == 4 && SymbolsThenPadding(chunk, 4)
    ensures var out := Bytes3(Number(chunk, 4)); Ascii(EncodeChunk(out)) && Codes(EncodeChunk(out)) == chunk
  {
    var n := Number(chunk, 4);
    var a, b, c, d := Value(chunk[0]).value, Value(chunk[1]).value, Value(chunk[2]).value, Value(chunk[3]).value;
    GroupOfThree(n);
    DigitsOf(n, a, b, c, d);
    ChunkWritten(Bytes3(n));
    SymbolOf(chunk[0], a);
    SymbolOf(chunk[1], b);
    SymbolOf(chunk[2], c);
    SymbolOf(chunk[3], d);
  }

  lemma {:induction false} TwoBytesOf(a: nat, b: nat, c: nat, n: nat)
    requires a < 64 && b < 64 && c < 64 && n == 0x4_0000 * a + 0x1000 * b + 64 * c
    ensures n < 0x100_0000 && Group(Bytes3(n)[..2]) == 0x4_0000 * a + 0x1000 * b + 64 * (c - c % 4)
  {
    var m := 0x400 * a + 16 * b + c / 4;
    assert n == 256 * m + 64 * (c % 4);
    ByteDigit(m, 64 * (c % 4));
    GroupOfTwo(n, m);
  }

  lemma {:induction false} ByteDigit(m: nat, d: nat)
    requires d < 256
    ensures (256 * m + d) / 256 == m && (256 * m + d) % 256 == d
  {
  }

  lemma {:induction false} GroupOfTwo(n: nat, m: nat)
    requires n < 0x100_0000 && n / 256 == m
    ensures Group(Bytes3(n)[..2]) == 256 * m
  {
    assert n / 0x1_0000 == m / 256;
    assert m == 256 * (m / 256) + m % 256;
  }

  lemma {:induction false} GroupOfThree(n: nat)
    requires n < 0x100_0000
    ensures Group(Bytes3(n)) == n
  {
    assert n / 0x1_0000 == n / 256 / 256;
    assert n == 256 * (n / 256) + n % 256;
    assert n / 256 == 256 * (n / 256 / 256) + n / 256 % 256;
  }

  lemma {:induction false} OnePadReencodes(chunk: seq<Byte>)
    requires |chunk| == 4 && SymbolsThenPadding(chunk, 3)
    ensures var out := Bytes3(Number(chunk, 3))[..2];
      Ascii(EncodeChunk(out)) && (Codes(EncodeChunk(out)) == chunk <==> UnusedBitsZero(chunk))
  {
    var a, b, c := Value(chunk[0]).value, Value(chunk[1]).value, Value(chunk[2]).value;
    TwoBytesOf(a, b, c, Number(chunk, 3));
    var out := Bytes3(Number(chunk, 3))[..2];
    DigitsOf(Group(out), a, b, c - c % 4, 0);
    ChunkWritten(out);
    SymbolOf(chunk[0], a);
    SymbolOf(chunk[1], b);
    ThirdSymbol(chunk, EncodeChunk(out), c);
  }

  lemma {:induction false} ThirdSymbol(chunk: seq<Byte>, text: string, c: nat)
    requires |chunk| == 4 && SymbolsThenPadding(chunk, 3) && Value(chunk[2]) == Some(c) && c < 64
    requires Ascii(text) && |text| == 4 && text[0] as int == chunk[0] && text[1] as int == chunk[1]
    requires text[2] == Symbol(c - c % 4) && text[3] == '='
    ensures Codes(text) == chunk <==> UnusedBitsZero(chunk)
  {
    SymbolOf(chunk[2], c - c % 4);
    assert Codes(text)[2] == text[2] as int;
  }

  lemma {:induction false} TwoPadsReencode(chunk: seq<Byte>)
    requires |chunk| == 4 && SymbolsThenPadding(chunk, 2)
    ensures var out := Bytes3(Number(chunk, 2))[..1];
      Ascii(EncodeChunk(out)) && (Codes(EncodeChunk(out)) == chunk <==> UnusedBitsZero(chunk))
  {
    var n := Number(chunk, 2);
    var a, b := Value(chunk[0]).value, Value(chunk[1]).value;
    var out := Bytes3(n)[..1];
    var kept := b - b % 16;
    assert n % 0x1_0000 == 0x1000 * (b % 16);
    assert Group(out) == n - n % 0x1_0000;
    DigitsOf(Group(out), a, kept, 0, 0);
    ChunkWritten(out);
    SymbolOf(chunk[0], a);
    SymbolOf(chunk[1], kept);
    assert Codes(EncodeChunk(out))[1] == Symbol(kept) as int;
  }

  lemma {:induction false} ChunkReencodesIff(chunk: seq<Byte>)
    requires |chunk| == 4 && DecodedChunk(chunk).Ok?
    ensures var out := DecodedChunk(chunk).value;
      && Ascii(EncodeChunk(out)) && (Codes(EncodeChunk(out)) == chunk <==> UnusedBitsZero(chunk))
      && (chunk[3] != PAD <==> |out| == 3) && (chunk[3] != PAD ==> PAD !in chunk)
  {
    var k := Symbols(chunk);
    assert forall i :: 0 <= i < k ==> chunk[..k][i] == chunk[i];
    assert SymbolsThenPadding(chunk, k);
    if k == 4 {
      FullChunkReencodes(chunk);
      assert Bytes3(Number(chunk, 4))[..3] == Bytes3(Number(chunk, 4));
    } else if k == 3 {
      OnePadReencodes(chunk);
    } else {
      TwoPadsReencode(chunk);
    }
  }

  lemma {:induction false} CanonicalStep(chunk: seq<Byte>, rest: seq<Byte>)
    requires |chunk| == 4 && |rest| >= 4
    ensures Canonical(chunk + rest) <==> PAD !in chunk && Canonical(rest)
  {
    var bytes := chunk + rest;
    assert bytes[|bytes| - 4..] == rest[|rest| - 4..];
    assert forall i :: 0 <= i < 4 ==> bytes[i] == chunk[i];
    assert forall i :: 0 <= i < |rest| ==> rest[i] == bytes[i + 4];
  }

  /** An inner chunk without padding is written again in its place. */
  lemma {:induction false} InnerChunk(chunk: seq<Byte>, rest: seq<Byte>, out: seq<Byte>, out': seq<Byte>)
    requires |chunk| == 4 && |out| == 3 && Ascii(EncodeChunk(out)) && Codes(EncodeChunk(out)) == chunk
    requires Ascii(Encoded(out'))
    ensures Ascii(Encoded(out + out'))
    ensures Codes(Encoded(out + out')) == chunk + rest <==> Codes(Encoded(out')) == rest
  {
    EncodedStep(out + out', out, out');
    var first, second := EncodeChunk(out), Encoded(out');
    assert Codes(first + second) == chunk + Codes(second);
    assert (chunk + Codes(second))[4..] == Codes(second) && (chunk + rest)[4..] == rest;
  }

  /** A padded chunk with something behind it is never written. */
  lemma {:induction false} InnerPadding(out: seq<Byte>, bytes: seq<Byte>)
    requires |bytes| > 4 && bytes[3] == PAD
    ensures Ascii(Encoded(out)) && Codes(Encoded(out)) != bytes
  {
    EncodedWritten(out);
    EncodedLength(out);
    if |out| >= 3 {
      assert out == out[..3] + out[3..];
      EncodedStep(out, out[..3], out[3..]);
      SymbolsInvert(Group(out[..3]) % 64);
      assert Codes(Encoded(out))[3] == EncodeChunk(out[..3])[3] as int;
    }
  }

  lemma {:induction false} LongerReencodesIff(chunk: seq<Byte>, rest: seq<Byte>, out: seq<Byte>, out': seq<Byte>)
    requires |chunk| == 4 && |rest| >= 4 && DecodedChunk(chunk) == Ok(out)
    requires Ascii(Encoded(out')) && (Codes(Encoded(out')) == rest <==> Canonical(rest))
    ensures Ascii(Encoded(out + out')) && (Codes(Encoded(out + out')) == chunk + rest <==> Canonical(chunk + rest))
  {
    ChunkReencodesIff(chunk);
    CanonicalStep(chunk, rest);
    if chunk[3] == PAD {
      InnerPadding(out + out', chunk + rest);
    } else {
      InnerChunk(chunk, rest, out, out');
    }
  }

  lemma {:induction false} ChunksReencodeIff(bytes: seq<Byte>)
    requires |bytes| % 4 == 0 && bytes != [] && DecodedChunks(bytes).Ok?
    ensures var out := DecodedChunks(bytes).value;
      Ascii(Encoded(out)) && (Codes(Encoded(out)) == bytes <==> Canonical(bytes))
  {
    var chunk, rest := bytes[..4], bytes[4..];
    assert bytes == chunk + rest;
    if rest == [] {
      assert bytes == chunk;
      OnlyChunk(chunk);
    } else {
      ChunksReencodeIff(rest);
      LongerReencodesIff(chunk, rest, DecodedChunk(chunk).value, DecodedChunks(rest).value);
    }
  }

  lemma {:induction false} OnlyChunk(chunk: seq<Byte>)
    requires |chunk| == 4 && DecodedChunks(chunk).Ok?
    ensures var out := DecodedChunks(chunk).value;
      Ascii(Encoded(out)) && (Codes(Encoded(out)) == chunk <==> Canonical(chunk))
  {
    assert chunk[..4] == chunk && chunk[0..] == chunk;
    LastChunk(chunk, DecodedChunk(chunk).value);
    ChunkReencodesIff(chunk);
  }

  /**
   Encoding gives an accepted text back, less header and white space, if and only if padding stands in
   its last chunk only and the unused bits there are zero. The decoder accepts more than that.
   */
  lemma {:induction false} ReencodesIff(s: string)
    requires Decoded(s).Ok?
    ensures Encoded(Decoded(s).value) == Visible(Payload(s)) <==> Canonical(Normalized(s))
  {
    var text := Visible(Payload(s));
    ChunksFacts(Normalized(s));
    AsciiIfBytesAre(text);
    Utf8OfAscii(text);
    ChunksReencodeIff(Normalized(s));
    CodesInjective(Encoded(Decoded(s).value), text);
  }

  lemma {:induction false} CodesInjective(a: string, b: string)
    requires Ascii(a) && Ascii(b)
    ensures Codes(a) == Codes(b) <==> a == b
  {
    if Codes(a) == Codes(b) {
      assert |a| == |b|;
      forall i | 0 <= i < |a| ensures a[i] == b[i] {
        assert Codes(a)[i] == Codes(b)[i];
      }
    }
  }

  /** An accepted text that is not canonical is never written by the encoder. */
  lemma {:induction false} AcceptedNotWritten(s: string, bytes: seq<Byte>)
    requires Ascii(s) && Written(s) && Codes(s) == bytes && bytes != []
    requires GoodChunks(bytes) && !Canonical(bytes)
    ensures Decoded(s).Ok? && Encoded(Decoded(s).value) != s
  {
    VisibleWritten(s);
    Utf8OfAscii(s);
    AcceptedIff(s);
    ReencodesIff(s);
  }

  lemma {:induction false} TwoSymbols(chunk: seq<Byte>)
    requires |chunk| == 4 && Value(chunk[0]).Some? && Value(chunk[1]).Some? && chunk[2] == PAD && chunk[3] == PAD
    ensures GoodChunk(chunk)
  {
    assert SymbolsThenPadding(chunk, 2);
  }

  /** Unused bits that are not zero occur: `QR==` is accepted like `QQ==`, but only the latter is ever written. */
  lemma {:induction false} UnusedBitsAccepted()
    ensures Decoded("QR==").Ok? && Encoded(Decoded("QR==").value) != "QR=="
  {
    var bytes: seq<Byte> := [81, 82, 61, 61];
    TwoSymbols(bytes);
    assert ChunkAt(bytes, 0) == bytes;
    assert GoodChunks(bytes);
    assert bytes[|bytes| - 4..] == bytes;
    assert Codes("QR==") == bytes;
    AcceptedNotWritten("QR==", bytes);
  }

  lemma {:induction false} PaddedTwice(chunk: seq<Byte>)
    requires |chunk| == 4 && GoodChunk(chunk) && chunk[3] == PAD
    ensures GoodChunks(chunk + chunk) && !Canonical(chunk + chunk)
  {
    var bytes := chunk + chunk;
    assert ChunkAt(bytes, 0) == chunk && ChunkAt(bytes, 1) == chunk;
    assert bytes[3] == PAD;
  }

  lemma {:induction false} CodesTwice(s: string)
    requires Ascii(s)
    ensures Ascii(s + s) && Codes(s + s) == Codes(s) + Codes(s)
  {
  }

  /** Padding inside a text occurs: `QQ==QQ==` is accepted, but never written. */
  lemma {:induction false} InnerPaddingAccepted()
    ensures var s := "QQ==" + "QQ=="; Decoded(s).Ok? && Encoded(Decoded(s).value) != s
  {
    var s, chunk: seq<Byte> := "QQ==", [81, 81, 61, 61];
    assert Codes(s) == chunk;
    TwoSymbols(chunk);
    PaddedTwice(chunk);
    CodesTwice(s);
    WrittenConcat(s, s);
    AcceptedNotWritten(s + s, chunk + chunk);
  }

  // ---- The encoded text, character by character ----

  /** The byte at a position, or zero behind the end. */
  function ByteAt(bytes: seq<Byte>, i: nat): Byte {
    if i < |bytes| then bytes[i] else 0
  }

  /** The six bits that character `k` stands for, cut out of at most two bytes; none where padding stands. */
  function SixBits(bytes: seq<Byte>, k: nat): (v: Option<nat>)
    ensures v.Some? ==> v.value < 64
  {
    var i := k / 4 * 3;
    match k % 4
    case 0 => Some(ByteAt(bytes, i) / 4)
    case 1 => Some(ByteAt(bytes, i) % 4 * 16 + ByteAt(bytes, i + 1) / 16)
    case 2 => if i + 1 < |bytes| then Some(ByteAt(bytes, i + 1) % 16 * 4 + ByteAt(bytes, i + 2) / 64) else None
    case _ => if i + 2 < |bytes| then Some(ByteAt(bytes, i + 2) % 64) else None
  }

  /** The alphabet of section 4 of RFC 4648. */
  predicate InAlphabet(c: char, v: nat) {
    if v < 26 then c as int == 'A' as int + v
    else if v < 52 then c as int == 'a' as int + (v - 26)
    else if v < 62 then c as int == '0' as int + (v - 52)
    else if v == 62 then c == '+'
    else c == '/'
  }

  lemma {:induction false} SymbolInAlphabet(v: nat)
    requires v < 64
    ensures InAlphabet(Symbol(v), v)
  {
    if v < 26 {
      UpperAt(v);
    } else if v < 52 {
      LowerAt(v - 26);
    } else if v < 62 {
      DigitAt(v - 52);
    }
  }

  lemma {:induction false} FourDigits(n: nat, x: nat, y: nat, z: nat, w: nat)
    requires x < 64 && y < 64 && z < 64 && w < 64 && n == 64 * (64 * (64 * x + y) + z) + w
    ensures n / 0x4_0000 % 64 == x && n / 0x1000 % 64 == y && n / 64 % 64 == z && n % 64 == w
  {
    Digit(64 * (64 * x + y) + z, w);
    Digit(64 * x + y, z);
    Digit(x, y);
    assert n / 0x4_0000 == n / 64 / 64 / 64 && n / 0x1000 == n / 64 / 64;
  }

  /** Three bytes are cut into four groups of six bits. */
  lemma {:induction false} GroupCut(a: Byte, b: Byte, c: Byte)
    ensures var n := 0x1_0000 * (a as int) + 256 * (b as int) + (c as int);
      && n / 0x4_0000 % 64 == a / 4 && n / 0x1000 % 64 == a % 4 * 16 + b / 16
      && n / 64 % 64 == b % 16 * 4 + c / 64 && n % 64 == c % 64
  {
    var x: nat, y: nat, z: nat, w: nat := a / 4, a % 4 * 16 + b / 16, b % 16 * 4 + c / 64, c % 64;
    FourDigits(0x1_0000 * (a as int) + 256 * (b as int) + (c as int), x, y, z, w);
  }

  lemma {:induction false} ChunkNumber(chunk: seq<Byte>)
    requires 1 <= |chunk| <= 3
    ensures Group(chunk) == 0x1_0000 * (chunk[0] as int) + 256 * (ByteAt(chunk, 1) as int) + (ByteAt(chunk, 2) as int)
  {
  }

  lemma {:induction false} ChunkCharacter(chunk: seq<Byte>, k: nat)
    requires 1 <= |chunk| <= 3 && k < 4
    ensures match SixBits(chunk, k)
            case None => EncodeChunk(chunk)[k] == '='
            case Some(v) => EncodeChunk(chunk)[k] == Symbol(v)
  {
    ChunkNumber(chunk);
    GroupCut(chunk[0], ByteAt(chunk, 1), ByteAt(chunk, 2));
    assert k / 4 == 0 && k % 4 == k;
    CutCharacter(chunk, Group(chunk), k);
  }

  lemma {:induction false} CutCharacter(chunk: seq<Byte>, n: nat, k: nat)
    requires 1 <= |chunk| <= 3 && n == Group(chunk) && k < 4
    requires k / 4 == 0 && k % 4 == k
    requires n / 0x4_0000 % 64 == chunk[0] / 4 && n / 0x1000 % 64 == chunk[0] % 4 * 16 + ByteAt(chunk, 1) / 16
    requires n / 64 % 64 == ByteAt(chunk, 1) % 16 * 4 + ByteAt(chunk, 2) / 64 && n % 64 == ByteAt(chunk, 2) % 64
    ensures match SixBits(chunk, k)
            case None => EncodeChunk(chunk)[k] == '='
            case Some(v) => EncodeChunk(chunk)[k] == Symbol(v)
  {
  }

  lemma {:induction false} SixBitsLater(chunk: seq<Byte>, rest: seq<Byte>, k: nat)
    requires |chunk| == 3
    ensures k < 4 ==> SixBits(chunk + rest, k) == SixBits(chunk, k)
    ensures k >= 4 ==> SixBits(chunk + rest, k) == SixBits(rest, k - 4)
  {
    if k >= 4 {
      assert (k - 4) / 4 == k / 4 - 1 && (k - 4) % 4 == k % 4;
      assert forall i: nat :: i >= 3 ==> ByteAt(chunk + rest, i) == ByteAt(rest, i - 3);
    }
  }

  /** Every character of the encoded text is the symbol of its six bits, or padding behind the last byte. */
  lemma {:induction false} EncodedCharacter(bytes: seq<Byte>, k: nat)
    requires k < |Encoded(bytes)|
    ensures match SixBits(bytes, k)
            case None => Encoded(bytes)[k] == '='
            case Some(v) => InAlphabet(Encoded(bytes)[k], v)
  {
    if |bytes| <= 3 {
      ChunkCharacter(bytes, k);
      if SixBits(bytes, k).Some? {
        SymbolInAlphabet(SixBits(bytes, k).value);
      }
    } else {
      var chunk, rest := bytes[..3], bytes[3..];
      assert bytes == chunk + rest;
      SixBitsLater(chunk, rest, k);
      if k < 4 {
        ChunkCharacter(chunk, k);
        if SixBits(bytes, k).Some? {
          SymbolInAlphabet(SixBits(bytes, k).value);
        }
      } else {
        EncodedCharacter(rest, k - 4);
      }
    }
  }

  // ---- Which error ----

  /** Symbols only up to a byte that is neither a symbol nor padding. */
  predicate BadCharacter(chunk: seq<Byte>, i: nat) {
    && i < |chunk| && chunk[i] != PAD && Value(chunk[i]).None?
    && forall j :: 0 <= j < i ==> chunk[j] != PAD && Value(chunk[j]).Some?
  }

  /** A chunk that is not good has a bad character before any padding, or else its padding is wrong. */
  lemma {:induction false} ChunkErrorIs(chunk: seq<Byte>)
    requires |chunk| == 4 && !GoodChunk(chunk)
    ensures DecodedChunk(chunk) == Err(if exists i: nat :: BadCharacter(chunk, i) then InvalidCharacter else InvalidPadding)
  {
    GoodChunkIff(chunk);
    var k := Symbols(chunk);
    assert forall j :: 0 <= j < k ==> chunk[j] == chunk[..k][j];
    if DecodedChunk(chunk) == Err(InvalidCharacter) {
      var i := FirstBad(chunk, k, 0);
    } else {
      assert forall i: nat :: BadCharacter(chunk, i) ==> i < k;
    }
  }

  lemma {:induction false} FirstBad(chunk: seq<Byte>, k: nat, from: nat) returns (i: nat)
    requires from <= k <= |chunk| && (forall j :: 0 <= j < k ==> chunk[j] != PAD)
    requires forall j :: 0 <= j < from ==> Value(chunk[j]).Some?
    requires exists j :: from <= j < k && Value(chunk[j]).None?
    ensures BadCharacter(chunk, i)
    decreases k - from
  {
    i := from;
    if Value(chunk[from]).Some? {
      i := FirstBad(chunk, k, from + 1);
    }
  }

  /** A text of the wrong length is refused as such; otherwise the first chunk that is not good decides. */
  lemma {:induction false} DecodeErrorIs(s: string)
    ensures Decoded(s) == Err(InvalidLength) <==> Normalized(s) == [] || |Normalized(s)| % 4 != 0
    ensures |Normalized(s)| % 4 == 0 ==> forall j: nat ::
      j < |Normalized(s)| / 4 && !GoodChunk(ChunkAt(Normalized(s), j)) &&
      (forall i: nat :: i < j ==> GoodChunk(ChunkAt(Normalized(s), i))) ==>
      Decoded(s) == DecodedChunk(ChunkAt(Normalized(s), j))
  {
    if |Normalized(s)| % 4 == 0 {
      NoLengthError(Normalized(s));
      forall j: nat |
        j < |Normalized(s)| / 4 && !GoodChunk(ChunkAt(Normalized(s), j)) &&
        forall i: nat :: i < j ==> GoodChunk(ChunkAt(Normalized(s), i))
        ensures Decoded(s) == DecodedChunk(ChunkAt(Normalized(s), j))
      {
        FirstBadChunk(Normalized(s), j);
      }
    }
  }

  lemma {:induction false} NoLengthError(bytes: seq<Byte>)
    requires |bytes| % 4 == 0
    ensures DecodedChunks(bytes) != Err(InvalidLength)
  {
    if bytes != [] {
      NoLengthError(bytes[4..]);
    }
  }

  lemma {:induction false} FirstBadChunk(bytes: seq<Byte>, j: nat)
    requires |bytes| % 4 == 0 && j < |bytes| / 4 && !GoodChunk(ChunkAt(bytes, j))
    requires forall i: nat :: i < j ==> GoodChunk(ChunkAt(bytes, i))
    ensures DecodedChunks(bytes) == DecodedChunk(ChunkAt(bytes, j)) && DecodedChunks(bytes).Err?
  {
    var rest := bytes[4..];
    assert ChunkAt(bytes, 0) == bytes[..4];
    GoodChunkIff(bytes[..4]);
    GoodChunkIff(ChunkAt(bytes, j));
    if j > 0 {
      assert |rest| / 4 == |bytes| / 4 - 1;
      forall i: nat | i < |rest| / 4 ensures ChunkAt(rest, i) == ChunkAt(bytes, i + 1) {
      }
      FirstBadChunk(rest, j - 1);
    }
  }

  // ---- UTF-8 ----

  /** The code point that one to four bytes carry. */
  function Carried(b: seq<Byte>): int {
    match |b|
    case 1 => b[0] as int
    case 2 => 64 * (b[0] as int - 0xC0) + (b[1] as int - 0x80)
    case 3 => 0x1000 * (b[0] as int - 0xE0) + 64 * (b[1] as int - 0x80) + (b[2] as int - 0x80)
    case 4 =>
      0x4_0000 * (b[0] as int - 0xF0) + 0x1000 * (b[1] as int - 0x80) + 64 * (b[2] as int - 0x80) + (b[3] as int - 0x80)
    case _ => -1
  }

  lemma {:induction false} ThreeSixes(n: nat)
    ensures n == 0x1000 * (n / 0x1000) + 64 * (n / 64 % 64) + n % 64
  {
    assert n / 0x1000 == n / 64 / 64;
  }

  lemma {:induction false} FourSixes(n: nat)
    ensures n == 0x4_0000 * (n / 0x4_0000) + 0x1000 * (n / 0x1000 % 64) + 64 * (n / 64 % 64) + n % 64
  {
    ThreeSixes(n);
    assert n / 0x4_0000 == n / 0x1000 / 64;
  }

  lemma {:induction false} WideDenotes(c: char)
    requires c as int >= 0x800
    ensures var b, n := Utf8Char(c), c as int; Carried(b) == n && |b| == if n < 0x1_0000 then 3 else 4
  {
    if c as int < 0x1_0000 {
      ThreeSixes(c as int);
    } else {
      FourSixes(c as int);
    }
  }

  /** The bytes of a character carry its code point, six bits in each byte but the first, in as few bytes as possible. */
  lemma {:induction false} Utf8Denotes(c: char)
    ensures var b, n := Utf8Char(c), c as int;
      Carried(b) == n && |b| == if n < 0x80 then 1 else if n < 0x800 then 2 else if n < 0x1_0000 then 3 else 4
    ensures forall i :: 1 <= i < |Utf8Char(c)| ==> 0x80 <= Utf8Char(c)[i] < 0xC0
  {
    if c as int >= 0x800 {
      WideDenotes(c);
    }
  }
}
