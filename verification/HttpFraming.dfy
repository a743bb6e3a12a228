/** How HttpClient finds the end of a response body: what the bytes of a
    connection mean, whatever pieces they arrive in.

    A connection is the bytes it still has to deliver and the way it ends. */
module HttpFraming {
  import opened Common

  const LF: byte := 10
  const CR: byte := 13
  const SEMICOLON: byte := 59
  const MAX_LINE: nat := 8192
  const LLONG_MAX: nat := 0x7FFF_FFFF_FFFF_FFFF

  datatype Code = Ok | IoError | Canceled | WriteError

  /** The peer closes in order, or the read fails: broken, idle too long, cancelled. */
  datatype Ending = Eof | Fail(code: Code)

  predicate EndingOk(e: Ending) {
    e.Fail? ==> e.code == IoError || e.code == Canceled
  }

  /** What a reader in need of more bytes reports. */
  function CodeOf(e: Ending): Code {
    if e.Eof? then IoError else e.code
  }

  // ------------------------------------------------------------------------- lines

  function DropCR(s: seq<byte>): seq<byte> {
    if s != [] && s[|s| - 1] == CR then s[..|s| - 1] else s
  }

  datatype LineRead = Line(text: seq<byte>, rest: seq<byte>) | NoLine(code: Code)

  /** One line, ended by LF or CRLF, at most MAX_LINE bytes before the LF. */
  function TakeLine(s: seq<byte>, e: Ending): (l: LineRead)
    ensures l.Line? ==> |l.rest| < |s|
  {
    var i := Find(s, LF);
    if i > MAX_LINE then NoLine(IoError)
    else if i == |s| then NoLine(CodeOf(e))
    else Line(DropCR(s[..i]), s[i + 1..])
  }

  // -------------------------------------------------------------------- chunk sizes

  predicate IsSpace(c: byte) {
    c == 32 || 9 <= c <= 13
  }

  function TrimLeft(s: seq<byte>): seq<byte> {
    if s != [] && IsSpace(s[0]) then TrimLeft(s[1..]) else s
  }

  function TrimRight(s: seq<byte>): seq<byte> {
    if s != [] && IsSpace(s[|s| - 1]) then TrimRight(s[..|s| - 1]) else s
  }

  function Trim(s: seq<byte>): seq<byte> {
    TrimRight(TrimLeft(s))
  }

  function HexValue(c: byte): Option<nat> {
    if 48 <= c <= 57 then Some(c - 48)
    else if 97 <= c <= 102 then Some(c - 87)
    else if 65 <= c <= 70 then Some(c - 55)
    else None
  }

  /** The digits strtoll takes: all up to the first that is not one. */
  function HexRun(s: seq<byte>): (r: seq<byte>)
    ensures forall c <- r :: HexValue(c).Some?
  {
    if s == [] || HexValue(s[0]).None? then [] else [s[0]] + HexRun(s[1..])
  }

  function HexNumber(s: seq<byte>): nat
    requires forall c <- s :: HexValue(c).Some?
  {
    if s == [] then 0 else 16 * HexNumber(s[..|s| - 1]) + HexValue(s[|s| - 1]).value
  }

  predicate Marks0x(c: byte) {
    c == 88 || c == 120
  }

  /** Without the 0x in front of a digit. */
  function AfterPrefix(u: seq<byte>): seq<byte> {
    if |u| >= 3 && u[0] == 48 && Marks0x(u[1]) && HexValue(u[2]).Some? then u[2..] else u
  }

  /** strtoll(text, &end, 16) on trimmed text, when it converts anything and the
      result is not negative. */
  function ParseHex(text: seq<byte>): Option<nat> {
    var signed := text != [] && text[0] in {43, 45};
    var u := if signed then text[1..] else text;
    var run := HexRun(AfterPrefix(u));
    if run == [] then None
    else
      var v := HexNumber(run);
      if signed && text[0] == 45 && v > 0 then None
      else Some(if v > LLONG_MAX then LLONG_MAX else v)
  }

  function ChunkSize(line: seq<byte>): Option<nat> {
    ParseHex(Trim(line[..Find(line, SEMICOLON)]))
  }

  // ------------------------------------------------------------------------- bodies

  /** The bytes handed to the sink, the bytes left on the connection, the result. */
  datatype Outcome = Outcome(delivered: seq<byte>, rest: seq<byte>, code: Code)

  /** Exactly `want` bytes, or everything up to the end of the connection. */
  function Plain(s: seq<byte>, e: Ending, want: Option<nat>): Outcome {
    match want
    case None => Outcome(s, [], if e.Eof? then Ok else e.code)
    case Some(n) => if n <= |s| then Outcome(s[..n], s[n..], Ok) else Outcome(s, [], CodeOf(e))
  }

  function Prepend(d: seq<byte>, o: Outcome): Outcome {
    o.(delivered := d + o.delivered)
  }

  /** A chunked body.  Whatever follows the last chunk, the body is complete. */
  function Chunked(s: seq<byte>, e: Ending): Outcome
    decreases |s|
  {
    var header := TakeLine(s, e);
    if header.NoLine? then Outcome([], [], header.code)
    else
      var size := ChunkSize(header.text);
      if size.None? then Outcome([], header.rest, IoError)
      else if size.value == 0 then Outcome([], [], Ok)
      else
        var part := Plain(header.rest, e, size);
        if part.code != Ok then part
        else
          var ending := TakeLine(part.rest, e);
          if ending.NoLine? then Outcome(part.delivered, [], ending.code)
          else Prepend(part.delivered, Chunked(ending.rest, e))
  }

  // ---------------------------------------------------------- what a server sends

  const LOWER_DIGITS: string := "0123456789abcdef"
  const UPPER_DIGITS: string := "0123456789ABCDEF"

  /** `c` is a hexadecimal digit of either case, worth `v`. */
  predicate IsDigit(c: byte, v: nat) {
    v < 16 && c in {LOWER_DIGITS[v] as int, UPPER_DIGITS[v] as int}
  }

  /** `digits`, leading zeros or not, are a spelling of `n`. */
  predicate Denotes(digits: seq<byte>, n: nat) {
    if digits == [] then n == 0
    else IsDigit(digits[|digits| - 1], n % 16) && Denotes(digits[..|digits| - 1], n / 16)
  }

  /** Tabs, VT, FF, CR and spaces. */
  predicate Blank(s: seq<byte>) {
    forall i :: 0 <= i < |s| ==> s[i] == 9 || 11 <= s[i] <= 13 || s[i] == 32
  }

  /** A size as a header line gives it: digits, with space around them. */
  datatype Size = Size(before: seq<byte>, digits: seq<byte>, after: seq<byte>)

  function SizeText(z: Size): seq<byte> {
    z.before + z.digits + z.after
  }

  /** One chunk: how its size is spelled, whatever extension its header line
      carries, and its data. */
  datatype Chunk = Chunk(size: Size, ext: seq<byte>, data: seq<byte>)

  predicate HeaderOk(n: nat, z: Size, ext: seq<byte>) {
    && z.digits != [] && Denotes(z.digits, n) && Blank(z.before) && Blank(z.after)
    && (ext == [] || ext[0] == SEMICOLON)
    && LF !in ext
    && |SizeText(z)| + |ext| < MAX_LINE
  }

  predicate ChunkOk(c: Chunk) {
    0 < |c.data| <= LLONG_MAX && HeaderOk(|c.data|, c.size, c.ext)
  }

  function HeaderLine(z: Size, ext: seq<byte>): seq<byte> {
    SizeText(z) + ext + [CR]
  }

  function EncodeChunk(c: Chunk): seq<byte> {
    HeaderLine(c.size, c.ext) + [LF] + c.data + [CR, LF]
  }

  /** The header of the last, empty chunk. */
  datatype Final = Final(size: Size, ext: seq<byte>)

  predicate FinalOk(last: Final) {
    HeaderOk(0, last.size, last.ext)
  }

  /** The chunks and the last, empty one, up to the end of its line. */
  function EncodeChunks(cs: seq<Chunk>, last: Final): seq<byte> {
    if cs == [] then HeaderLine(last.size, last.ext) + [LF] else EncodeChunk(cs[0]) + EncodeChunks(cs[1..], last)
  }

  function Body(cs: seq<Chunk>): seq<byte> {
    if cs == [] then [] else cs[0].data + Body(cs[1..])
  }
}
