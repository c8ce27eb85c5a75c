/**
 The hand-written base64 codec (section 4 of RFC 4648) of attachment uploads
 (src-tauri/src/commands_conversation.rs). The decoder takes the payload of a data URL, skips white
 space and works on the UTF-8 bytes of the text.
 */
module Base64 {
  import opened Wrappers
  import opened Collections
  import opened Text

  // ---- Alphabet ----

  const UPPER := "ABCDEFGHIJKLMNOPQRSTUVWXYZ"
  const LOWER := "abcdefghijklmnopqrstuvwxyz"
  const DIGITS := "0123456789"
  const PAD: Byte := 61

  function Symbol(v: nat): char
    requires v < 64
  {
    if v < 26 then UPPER[v] else if v < 52 then LOWER[v - 26] else if v < 62 then DIGITS[v - 52]
    else if v == 62 then '+' else '/'
  }

  /** `base64_value`. */
  function Value(byte: Byte): (v: Option<nat>)
    ensures v.Some? ==> v.value < 64
  {
    if 'A' as int <= byte <= 'Z' as int then Some(byte - 'A' as int)
    else if 'a' as int <= byte <= 'z' as int then Some(byte - 'a' as int + 26)
    else if '0' as int <= byte <= '9' as int then Some(byte - '0' as int + 52)
    else if byte == '+' as int then Some(62)
    else if byte == '/' as int then Some(63)
    else None
  }

  lemma {:induction false} UpperAt(i: nat)
    requires i < 26
    ensures UPPER[i] as int == 65 + i
  {
  }

  lemma {:induction false} LowerAt(i: nat)
    requires i < 26
    ensures LOWER[i] as int == 97 + i
  {
  }

  lemma {:induction false} DigitAt(i: nat)
    requires i < 10
    ensures DIGITS[i] as int == 48 + i
  {
  }

  /** The table and the match arms are inverse to each other. */
  lemma {:induction false} SymbolsInvert(v: nat)
    requires v < 64
    ensures var n := Symbol(v) as int; n < 128 && n != PAD && Value(n) == Some(v)
    ensures !IsWhitespace(Symbol(v)) && Symbol(v) != ','
  {
    if v < 26 {
      UpperAt(v);
    } else if v < 52 {
      LowerAt(v - 26);
    } else if v < 62 {
      DigitAt(v - 52);
    }
  }

  lemma {:induction false} ValuesInvert(byte: Byte)
    requires Value(byte).Some?
    ensures Symbol(Value(byte).value) as int == byte
  {
    var v := Value(byte).value;
    if v < 26 {
      UpperAt(v);
    } else if v < 52 {
      LowerAt(v - 26);
    } else if v < 62 {
      DigitAt(v - 52);
    }
  }

  // ---- Encoding ----

  /** Up to three bytes as one 24-bit number, missing bytes as zero. */
  function Group(chunk: seq<Byte>): (n: nat)
    requires 1 <= |chunk| <= 3
    ensures n < 0x100_0000
  {
    0x1_0000 * (chunk[0] as int) + (if |chunk| > 1 then 256 * (chunk[1] as int) else 0)
    + (if |chunk| > 2 then chunk[2] as int else 0)
  }

  function EncodeChunk(chunk: seq<Byte>): (s: string)
    requires 1 <= |chunk| <= 3
    ensures |s| == 4
  {
    var n := Group(chunk);
    [ Symbol(n / 0x4_0000 % 64),
      Symbol(n / 0x1000 % 64),
      if |chunk| > 1 then Symbol(n / 64 % 64) else '=',
      if |chunk| > 2 then Symbol(n % 64) else '=' ]
  }

  function Encoded(bytes: seq<Byte>): string {
    if |bytes| <= 3 then if bytes == [] then "" else EncodeChunk(bytes)
    else EncodeChunk(bytes[..3]) + Encoded(bytes[3..])
  }

  function Min(a: nat, b: nat): nat {
    if a <= b then a else b
  }

  /** The body of the loop over chunks: four symbols, of which the last two may be padding. */
  method WriteChunk(chunk: seq<Byte>) returns (out: string)
    requires 1 <= |chunk| <= 3
    ensures out == EncodeChunk(chunk)
  {
    var n := Group(chunk);
    var first, second := Symbol(n / 0x4_0000 % 64), Symbol(n / 0x1000 % 64);
    var third := if |chunk| > 1 then Symbol(n / 64 % 64) else '=';
    var fourth := if |chunk| > 2 then Symbol(n % 64) else '=';
    out := [first, second, third, fourth];
  }

  /** `base64_encode`. */
  method Encode(bytes: seq<Byte>) returns (out: string)
    ensures out == Encoded(bytes)
  {
    out := "";
    var i := 0;
    ghost var rest := bytes;
    while i < |bytes|
      invariant 0 <= i <= |bytes| && rest == bytes[i..]
      invariant out + Encoded(rest) == Encoded(bytes)
    {
      var next := Min(i + 3, |bytes|);
      var symbols := WriteChunk(bytes[i..next]);
      EncodeAdvance(Encoded(bytes), out, rest, bytes[i..next], bytes[next..]);
      out := out + symbols;
      i, rest := next, bytes[next..];
    }
  }

  lemma {:induction false} EncodeAdvance(
    total: string, out: string, bytes: seq<Byte>, chunk: seq<Byte>, rest: seq<Byte>)
    requires out + Encoded(bytes) == total
    requires bytes == chunk + rest && 1 <= |chunk| <= 3 && (|chunk| < 3 ==> rest == [])
    ensures (out + EncodeChunk(chunk)) + Encoded(rest) == total
  {
    EncodedStep(bytes, chunk, rest);
    Associative(out, EncodeChunk(chunk), Encoded(rest));
  }

  lemma {:induction false} EncodedStep(bytes: seq<Byte>, chunk: seq<Byte>, rest: seq<Byte>)
    requires bytes == chunk + rest && 1 <= |chunk| <= 3 && (|chunk| < 3 ==> rest == [])
    ensures Encoded(bytes) == EncodeChunk(chunk) + Encoded(rest)
  {
    if rest == [] {
      assert bytes == chunk;
    } else {
      assert bytes[..3] == chunk && bytes[3..] == rest;
    }
  }

  // ---- Decoding ----

  /** The UTF-8 form of a character. */
  function Utf8Char(c: char): (b: seq<Byte>)
    ensures b != []
  {
    var n := c as int;
    if n < 0x80 then [n]
    else if n < 0x800 then [0xC0 + n / 64, 0x80 + n % 64]
    else if n < 0x1_0000 then [0xE0 + n / 0x1000, 0x80 + n / 64 % 64, 0x80 + n % 64]
    else [0xF0 + n / 0x4_0000, 0x80 + n / 0x1000 % 64, 0x80 + n / 64 % 64, 0x80 + n % 64]
  }

  function Utf8(s: string): seq<Byte> {
    if s == [] then [] else Utf8Char(s[0]) + Utf8(s[1..])
  }

  /** What follows the first comma, or everything (`split_once`). */
  function Payload(s: string): string {
    AfterComma(s).GetOr(s)
  }

  function AfterComma(s: string): Option<string> {
    if s == [] then None else if s[0] == ',' then Some(s[1..]) else AfterComma(s[1..])
  }

  function Visible(s: string): string {
    if s == [] then [] else (if IsWhitespace(s[0]) then [] else [s[0]]) + Visible(s[1..])
  }

  datatype DecodeError = InvalidLength | InvalidPadding | InvalidCharacter

  /** How many symbols precede the first padding byte. */
  function Symbols(chunk: seq<Byte>): (k: nat)
    ensures k <= |chunk| && PAD !in chunk[..k] && (k < |chunk| ==> chunk[k] == PAD)
  {
    if chunk == [] || chunk[0] == PAD then 0
    else
      var k := Symbols(chunk[1..]);
      assert chunk[..k + 1] == [chunk[0]] + chunk[1..][..k];
      k + 1
  }

  /** The first `k` symbols of a chunk as a 24-bit number, padded with zeros. */
  function Number(chunk: seq<Byte>, k: nat): (n: nat)
    requires |chunk| == 4 && k <= 4 && forall i :: 0 <= i < k ==> Value(chunk[i]).Some?
    ensures n < 0x100_0000
  {
    (if k > 0 then 0x4_0000 * Value(chunk[0]).value else 0)
    + (if k > 1 then 0x1000 * Value(chunk[1]).value else 0)
    + (if k > 2 then 64 * Value(chunk[2]).value else 0)
    + (if k > 3 then Value(chunk[3]).value else 0)
  }

  function Bytes3(n: nat): (b: seq<Byte>)
    requires n < 0x100_0000
    ensures |b| == 3
  {
    [n / 0x1_0000, n / 256 % 256, n % 256]
  }

  /** One chunk: symbols, then only padding, at most two of it. */
  function DecodedChunk(chunk: seq<Byte>): (r: Result<seq<Byte>, DecodeError>)
    requires |chunk| == 4
    ensures r.Ok? ==> 1 <= |r.value| <= 3
  {
    var k := Symbols(chunk);
    if exists i :: 0 <= i < k && Value(chunk[i]).None? then Err(InvalidCharacter)
    else if k < 2 || exists i :: k <= i < 4 && chunk[i] != PAD then Err(InvalidPadding)
    else Ok(Bytes3(Number(chunk, k))[..k - 1])
  }

  function DecodedChunks(bytes: seq<Byte>): Result<seq<Byte>, DecodeError>
    requires |bytes| % 4 == 0
  {
    if bytes == [] then Ok([])
    else
      var first := DecodedChunk(bytes[..4]);
      if first.Err? then first
      else
        var rest := DecodedChunks(bytes[4..]);
        if rest.Err? then rest else Ok(first.value + rest.value)
  }

  function Normalized(s: string): seq<Byte> {
    Utf8(Visible(Payload(s)))
  }

  function Decoded(s: string): Result<seq<Byte>, DecodeError> {
    var bytes := Normalized(s);
    if bytes == [] || |bytes| % 4 != 0 then Err(InvalidLength) else DecodedChunks(bytes)
  }

  /** The inner loop over one chunk, with the table of its four values. */
  method ReadValues(chunk: seq<Byte>) returns (r: Result<(nat, nat), DecodeError>)
    requires |chunk| == 4
    ensures r.Err? ==> DecodedChunk(chunk) == Err(r.error)
    ensures r.Ok? ==>
      r.value.1 <= 2 && r.value.0 < 0x100_0000 && DecodedChunk(chunk) == Ok(Bytes3(r.value.0)[..3 - r.value.1])
  {
    var values := new nat[4](_ => 0);
    var padding := 0;
    var k := 0;
    ghost var symbols := Symbols(chunk);
    while k < 4
      invariant 0 <= k <= 4 && padding == if k <= symbols then 0 else k - symbols
      invariant forall i :: 0 <= i < k && i < symbols ==> Value(chunk[i]) == Some(values[i])
      invariant forall i :: 0 <= i < 4 && (i >= k || i >= symbols) ==> values[i] == 0
      invariant forall i :: symbols <= i < k ==> chunk[i] == PAD
    {
      assert k < symbols ==> chunk[k] == chunk[..symbols][k];
      if chunk[k] == PAD {
        padding := padding + 1;
        values[k] := 0;
      } else if padding > 0 {
        return Err(InvalidPadding);
      } else {
        var v := Value(chunk[k]);
        if v.None? {
          return Err(InvalidCharacter);
        }
        values[k] := v.value;
      }
      k := k + 1;
    }
    if padding > 2 {
      return Err(InvalidPadding);
    }
    var n := 0x4_0000 * values[0] + 0x1000 * values[1] + 64 * values[2] + values[3];
    assert n == Number(chunk, symbols);
    r := Ok((n, padding));
  }

  lemma {:induction false} FirstBytes(n: nat)
    requires n < 0x100_0000
    ensures var b := Bytes3(n);
      && b[..1] == [n / 0x1_0000 % 256] && b[..2] == [n / 0x1_0000 % 256] + [n / 256 % 256]
      && b[..3] == [n / 0x1_0000 % 256] + [n / 256 % 256] + [n % 256]
  {
  }

  method ReadChunk(chunk: seq<Byte>) returns (r: Result<seq<Byte>, DecodeError>)
    requires |chunk| == 4
    ensures r == DecodedChunk(chunk)
  {
    var read := ReadValues(chunk);
    if read.Err? {
      return Err(read.error);
    }
    var (n, padding) := read.value;
    FirstBytes(n);
    var out: seq<Byte> := [n / 0x1_0000 % 256];
    if padding < 2 {
      out := out + [n / 256 % 256];
    }
    if padding < 1 {
      out := out + [n % 256];
    }
    r := Ok(out);
  }

  /** `base64_decode`. */
  method Decode(value: string) returns (r: Result<seq<Byte>, DecodeError>)
    ensures r == Decoded(value)
  {
    var bytes := Normalized(value);
    if bytes == [] || |bytes| % 4 != 0 {
      return Err(InvalidLength);
    }
    r := DecodeAll(bytes);
  }

  /** After `out`, the chunks of `rest` decide the outcome `total`. */
  ghost predicate Continues(total: Result<seq<Byte>, DecodeError>, out: seq<Byte>, rest: seq<Byte>) {
    |rest| % 4 == 0 && total == Prepended(out, DecodedChunks(rest))
  }

  /** The loop over `chunks(4)`: `rest` is what the iterator still holds. */
  method DecodeAll(bytes: seq<Byte>) returns (r: Result<seq<Byte>, DecodeError>)
    requires |bytes| % 4 == 0
    ensures r == DecodedChunks(bytes)
  {
    var out: seq<Byte> := [];
    var rest := bytes;
    ghost var total := DecodedChunks(bytes);
    PrependedNone(total);
    while rest != []
      invariant Continues(total, out, rest)
    {
      var chunk := ReadChunk(rest[..4]);
      DecodeAdvance(total, out, rest, rest[..4], rest[4..]);
      if chunk.Err? {
        return chunk;
      }
      out := out + chunk.value;
      rest := rest[4..];
    }
    DecodeEnd(total, out);
    r := Ok(out);
  }

  lemma {:induction false} DecodeAdvance(
    total: Result<seq<Byte>, DecodeError>, out: seq<Byte>, bytes: seq<Byte>, chunk: seq<Byte>, rest: seq<Byte>)
    requires Continues(total, out, bytes) && |chunk| == 4 && bytes == chunk + rest
    ensures DecodedChunk(chunk).Err? ==> total == DecodedChunk(chunk)
    ensures DecodedChunk(chunk).Ok? ==> Continues(total, out + DecodedChunk(chunk).value, rest)
  {
    DecodedStep(bytes, chunk, rest);
    if DecodedChunk(chunk).Ok? {
      PrependedTwice(out, DecodedChunk(chunk).value, DecodedChunks(rest));
    }
  }

  lemma {:induction false} DecodeEnd(total: Result<seq<Byte>, DecodeError>, out: seq<Byte>)
    requires Continues(total, out, [])
    ensures total == Ok(out)
  {
    assert out + [] == out;
  }

  lemma {:induction false} DecodedStep(bytes: seq<Byte>, chunk: seq<Byte>, rest: seq<Byte>)
    requires |rest| % 4 == 0 && |chunk| == 4 && bytes == chunk + rest
    ensures |bytes| % 4 == 0
    ensures DecodedChunks(bytes) ==
            if DecodedChunk(chunk).Err? then DecodedChunk(chunk)
            else Prepended(DecodedChunk(chunk).value, DecodedChunks(rest))
  {
    assert bytes[..4] == chunk && bytes[4..] == rest;
  }

  lemma {:induction false} PrependedNone(rest: Result<seq<Byte>, DecodeError>)
    ensures Prepended([], rest) == rest
  {
    if rest.Ok? {
      assert [] + rest.value == rest.value;
    }
  }

  function Prepended(out: seq<Byte>, rest: Result<seq<Byte>, DecodeError>): Result<seq<Byte>, DecodeError> {
    if rest.Err? then rest else Ok(out + rest.value)
  }

  lemma {:induction false} PrependedTwice(a: seq<Byte>, b: seq<Byte>, rest: Result<seq<Byte>, DecodeError>)
    ensures Prepended(a, Prepended(b, rest)) == Prepended(a + b, rest)
  {
    if rest.Ok? {
      assert a + (b + rest.value) == (a + b) + rest.value;
    }
  }
}
