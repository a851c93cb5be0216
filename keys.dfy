/**
 The key decoder `read_key` of the Unix terminal session: it reads one to
 three bytes and classifies them as one key, or as no key at the end of the
 stream or after an escape sequence it does not know.
 */
module KeyDecoder {
  import opened Wrappers

  type Byte = x: int | 0 <= x < 256

  datatype Direction = Up | Down | Left | Right

  datatype Key =
    | Char(c: char)
    | Symbol(c: char)
    | Digit(d: int)
    | Arrow(dir: Direction)
    | Whitespace
    | Backspace
    | Del
    | Tab
    | Newline
    | Etx

  const ESC: Byte := 0x1B
  const BRACKET: Byte := 0x5B

  predicate IsDigitByte(b: Byte)
  {
    0x30 <= b <= 0x39
  }

  predicate IsLetterByte(b: Byte)
  {
    (0x41 <= b <= 0x5A) || (0x61 <= b <= 0x7A)
  }

  /** The bytes with a key of their own, or that start an escape sequence. */
  predicate IsSpecialByte(b: Byte)
  {
    b == ESC || b == 0x20 || b == 0x7F || b == 0x09 || b == 0x08 || b == 0x0A || b == 0x03
  }

  /** A byte that `read_key` reports as a `Symbol`. */
  predicate IsSymbolByte(b: Byte)
  {
    !IsDigitByte(b) && !IsLetterByte(b) && !IsSpecialByte(b)
  }

  /** The keys `read_key` can produce. */
  predicate ValidKey(k: Key)
  {
    match k
    case Char(c) => c as int < 256 && IsLetterByte(c as int)
    case Symbol(c) => c as int < 256 && IsSymbolByte(c as int)
    case Digit(d) => 0 <= d <= 9
    case _ => true
  }

  /** The byte sequence a key is typed as. */
  function Encode(k: Key): seq<Byte>
    requires ValidKey(k)
  {
    match k
    case Char(c) => [c as int]
    case Symbol(c) => [c as int]
    case Digit(d) => [0x30 + d]
    case Arrow(dir) => [ESC, BRACKET, match dir case Up => 0x41 case Down => 0x42 case Right => 0x43 case Left => 0x44]
    case Whitespace => [0x20]
    case Backspace => [0x08]
    case Del => [0x7F]
    case Tab => [0x09]
    case Newline => [0x0A]
    case Etx => [0x03]
  }

  /** The third byte of `ESC [ x`: A, B, C and D are the arrows, anything else is no key. */
  function ArrowKey(b: Byte): (r: Option<Key>)
    ensures r.Some? <==> 0x41 <= b <= 0x44
    ensures r.Some? ==> r.value.Arrow?
  {
    if b == 0x41 then Some(Arrow(Up))
    else if b == 0x42 then Some(Arrow(Down))
    else if b == 0x43 then Some(Arrow(Right))
    else if b == 0x44 then Some(Arrow(Left))
    else None
  }

  /** Whether `bytes` starts with one of the four arrow escape sequences. */
  predicate StartsWithArrow(bytes: seq<Byte>)
  {
    |bytes| >= 3 && bytes[0] == ESC && bytes[1] == BRACKET && 0x41 <= bytes[2] <= 0x44
  }

  /** The key of one byte that does not start an escape sequence. */
  function ByteKey(b: Byte): (k: Key)
    requires b != ESC
    ensures k.Digit? <==> IsDigitByte(b)
    ensures k.Char? <==> IsLetterByte(b)
    ensures k.Symbol? <==> IsSymbolByte(b)
  {
    if IsDigitByte(b) then Digit(b - 0x30)
    else if IsLetterByte(b) then Char(b as char)
    else if b == 0x20 then Whitespace
    else if b == 0x7F then Del
    else if b == 0x09 then Tab
    else if b == 0x08 then Backspace
    else if b == 0x0A then Newline
    else if b == 0x03 then Etx
    else Symbol(b as char)
  }

  /**
   What follows an escape byte: `[` and one of A to D make an arrow; any other
   byte makes no key. The stream ending after the escape is taken as no key.
   */
  function EscapeKey(bytes: seq<Byte>): (r: (Option<Key>, seq<Byte>))
    requires bytes != [] && bytes[0] == ESC
    ensures |r.1| < |bytes|
  {
    if |bytes| < 2 then (None, [])
    else if bytes[1] == BRACKET then
      if |bytes| < 3 then (None, [])
      else (ArrowKey(bytes[2]), bytes[3..])
    else (None, bytes[2..])
  }

  /**
   `read_key`: the next key and the bytes after it. A key consumes at least
   one byte.
   */
  function ReadKey(bytes: seq<Byte>): (r: (Option<Key>, seq<Byte>))
    ensures |r.1| <= |bytes|
    ensures r.0.Some? ==> |r.1| < |bytes|
  {
    if bytes == [] then (None, [])
    else if bytes[0] == ESC then EscapeKey(bytes)
    else (Some(ByteKey(bytes[0])), bytes[1..])
  }

  /**
   What `read_key` leaves is a suffix of its input, and there is no key
   exactly at the end of the stream and at an escape that does not start an
   arrow.
   */
  lemma ReadKeyConsumes(bytes: seq<Byte>)
    ensures var (key, rest) := ReadKey(bytes);
      rest == bytes[|bytes| - |rest|..] &&
      (key.None? <==> bytes == [] || (bytes[0] == ESC && !StartsWithArrow(bytes)))
  {
  }

  /** Every byte but the escape is read as a key that is typed as that byte. */
  lemma ByteKeySound(b: Byte)
    requires b != ESC
    ensures ValidKey(ByteKey(b)) && Encode(ByteKey(b)) == [b]
  {
  }

  /** Every key decoded is one `read_key` can produce, read from exactly its encoding. */
  lemma ReadKeySound(bytes: seq<Byte>)
    ensures var (key, rest) := ReadKey(bytes);
      key.Some? ==> ValidKey(key.value) && bytes == Encode(key.value) + rest
  {
    if bytes != [] && bytes[0] != ESC {
      ByteKeySound(bytes[0]);
      assert bytes == [bytes[0]] + bytes[1..];
    } else if StartsWithArrow(bytes) {
      assert bytes == bytes[..3] + bytes[3..];
    }
  }

  /** Decoding the encoding of a key gives the key back and leaves what follows. */
  lemma ReadKeyEncode(k: Key, rest: seq<Byte>)
    requires ValidKey(k)
    ensures ReadKey(Encode(k) + rest) == (Some(k), rest)
  {
    var bytes := Encode(k) + rest;
    match k
    case Char(c) =>
      assert bytes[0] as char == c;
      assert bytes[1..] == rest;
    case Symbol(c) =>
      assert bytes[0] as char == c;
      assert bytes[1..] == rest;
    case Arrow(dir) =>
      assert bytes[3..] == rest;
    case _ =>
      assert bytes[1..] == rest;
  }
}
