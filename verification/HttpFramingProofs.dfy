/** Chunked coding carries every body, and no cut of it goes unnoticed. */
module HttpFramingProofs {
  import opened Common
  import opened HttpFraming

  // ------------------------------------------------------------------- plain bodies

  lemma PlainComplete(s: seq<byte>, e: Ending, n: nat)
    requires n <= |s|
    ensures Plain(s, e, Some(n)).code == Ok && |Plain(s, e, Some(n)).delivered| == n
  {
  }

  lemma PlainEnds(s: seq<byte>, e: Ending, want: Option<nat>)
    requires want.Some? ==> |s| < want.value
    ensures var o := Plain(s, e, want);
            |o.delivered| == |s| && o.code == if e.Eof? && want.None? then Ok else CodeOf(e)
  {
  }

  lemma PlainReaches(s: seq<byte>, e: Ending, want: Option<nat>, k: nat)
    requires k <= |s| && (want.Some? ==> k <= want.value)
    ensures k <= |Plain(s, e, want).delivered|
  {
  }

  // ------------------------------------------------------------------------- lines

  lemma LineTooLong(s: seq<byte>, a: seq<byte>, e: Ending)
    requires a <= s && LF !in a && |a| > MAX_LINE
    ensures TakeLine(s, e) == NoLine(IoError)
  {
    NotFoundIn(s, LF, a);
  }

  lemma LineMissing(s: seq<byte>, e: Ending)
    requires LF !in s && |s| <= MAX_LINE
    ensures TakeLine(s, e) == NoLine(CodeOf(e))
  {
    FindNone(s, LF);
  }

  /** A complete line is read the same whatever follows it and however that ends. */
  lemma LineIsTaken(line: seq<byte>, t: seq<byte>, e: Ending)
    requires LF !in line && |line| <= MAX_LINE
    ensures TakeLine(line + [LF] + t, e) == Line(DropCR(line), t)
  {
    FindFirst(line, LF, t);
    assert (line + [LF] + t)[..|line|] == line;
    assert (line + [LF] + t)[|line| + 1..] == t;
  }

  /** Lines end with LF, which a CR may precede; 8192 bytes is the longest one taken. */
  lemma LineEnds(line: seq<byte>, t: seq<byte>, e: Ending)
    requires 10 !in line
    ensures var l := TakeLine(line + [10] + t, e);
      if |line| > 8192 then l == NoLine(IoError)
      else l == Line(if line != [] && line[|line| - 1] == 13 then line[..|line| - 1] else line, t)
  {
    if |line| > 8192 {
      NotFoundIn(line + [10] + t, LF, line);
    } else {
      LineIsTaken(line, t, e);
    }
  }

  lemma LineIsCut(line: seq<byte>, k: nat, e: Ending)
    requires LF !in line && |line| <= MAX_LINE && k <= |line|
    ensures TakeLine(line[..k], e) == NoLine(CodeOf(e))
  {
    FindNone(line[..k], LF);
  }

  // -------------------------------------------------------------------- chunk sizes

  lemma DigitsAre(v: nat)
    requires v < 16
    ensures LOWER_DIGITS[v] as int == if v < 10 then 48 + v else 87 + v
    ensures UPPER_DIGITS[v] as int == if v < 10 then 48 + v else 55 + v
  {
  }

  /** A byte is a digit exactly as the two tables have it, in either case. */
  lemma DigitIsWorth(c: byte, v: nat)
    ensures IsDigit(c, v) <==> HexValue(c) == Some(v)
  {
    if v < 16 { DigitsAre(v); }
  }

  lemma {:induction false} DenotesIsNumber(s: seq<byte>, n: nat)
    requires Denotes(s, n)
    ensures (forall c <- s :: HexValue(c).Some?) && HexNumber(s) == n
  {
    if s != [] {
      var init := s[..|s| - 1];
      DigitIsWorth(s[|s| - 1], n % 16);
      DenotesIsNumber(init, n / 16);
      assert s == init + [s[|s| - 1]];
    }
  }

  lemma {:induction false} RunStops(digits: seq<byte>, rest: seq<byte>)
    requires forall c <- digits :: HexValue(c).Some?
    requires rest == [] || HexValue(rest[0]).None?
    ensures HexRun(digits + rest) == digits
  {
    if digits == [] {
      assert digits + rest == rest;
    } else {
      RunStops(digits[1..], rest);
      assert (digits + rest)[1..] == digits[1..] + rest;
    }
  }

  lemma NoSignNorPrefix(c: byte)
    requires HexValue(c).Some?
    ensures c !in {43, 45} && !Marks0x(c)
  {
  }

  lemma NotADigit(c: byte)
    requires forall v :: !IsDigit(c, v)
    ensures HexValue(c).None?
  {
    if HexValue(c).Some? { DigitIsWorth(c, HexValue(c).value); }
  }

  /** Nothing, 0X or 0x; nothing also where `digits` and `rest` look like that. */
  predicate PrefixOk(prefix: seq<byte>, digits: seq<byte>, rest: seq<byte>) {
    || prefix == [48, 88] || prefix == [48, 120]
    || (prefix == [] && (digits == [48] && |rest| >= 2 && rest[0] in {88, 120} ==> HexValue(rest[1]).None?))
  }

  lemma PrefixGoes(prefix: seq<byte>, digits: seq<byte>, rest: seq<byte>)
    requires digits != [] && (forall c <- digits :: HexValue(c).Some?) && PrefixOk(prefix, digits, rest)
    ensures AfterPrefix(prefix + digits + rest) == digits + rest
  {
    var u := prefix + digits + rest;
    if prefix == [] {
      assert u == digits + rest;
      if |digits| > 1 {
        assert u[1] == digits[1];
        NoSignNorPrefix(u[1]);
      }
    } else {
      assert u[2..] == digits + rest && u[2] == digits[0];
    }
  }

  lemma SignGoes(sign: seq<byte>, u: seq<byte>)
    requires sign in {[], [43], [45]} && u != [] && u[0] !in {43, 45}
    ensures var text := sign + u;
      && (text[0] in {43, 45} <==> sign != [])
      && (text[0] == 45 <==> sign == [45])
      && (sign != [] ==> text[1..] == u) && (sign == [] ==> text == u)
  {
  }

  lemma RunIsParsed(sign: seq<byte>, u: seq<byte>, digits: seq<byte>)
    requires sign in {[], [43], [45]} && u != [] && u[0] !in {43, 45}
    requires digits != [] && HexRun(AfterPrefix(u)) == digits
    ensures var n := HexNumber(digits);
      ParseHex(sign + u) == if sign == [45] && n > 0 then None else Some(Min(n, LLONG_MAX))
  {
    SignGoes(sign, u);
    hide HexRun, AfterPrefix, HexNumber, HexValue;
  }

  /** strtoll in base 16, on any number it finds: a sign, 0x, digits of either case,
      and whatever follows them; too large a number is the largest. */
  lemma NumberIsParsed(sign: seq<byte>, prefix: seq<byte>, digits: seq<byte>, rest: seq<byte>, n: nat)
    requires sign in {[], [43], [45]} && digits != [] && Denotes(digits, n) && PrefixOk(prefix, digits, rest)
    requires rest != [] ==> forall v :: !IsDigit(rest[0], v)
    ensures ParseHex(sign + (prefix + digits + rest)) ==
              if sign == [45] && n > 0 then None else Some(Min(n, 9_223_372_036_854_775_807))
  {
    DenotesIsNumber(digits, n);
    if rest != [] { NotADigit(rest[0]); }
    RunStops(digits, rest);
    PrefixGoes(prefix, digits, rest);
    var u := prefix + digits + rest;
    assert u[0] == if prefix == [] then digits[0] else 48;
    NoSignNorPrefix(digits[0]);
    hide *;
    RunIsParsed(sign, u, digits);
  }

  /** And where it finds none. */
  lemma NoNumber(sign: seq<byte>, text: seq<byte>)
    requires sign in {[], [43], [45]} && (text != [] ==> forall v :: !IsDigit(text[0], v))
    requires sign == [] && text != [] ==> text[0] !in {43, 45}
    ensures ParseHex(sign + text) == None
  {
    if text != [] { NotADigit(text[0]); }
    assert sign != [] ==> (sign + text)[1..] == text;
    assert sign == [] ==> sign + text == text;
  }

  lemma {:induction false} LeftTrimmed(before: seq<byte>, s: seq<byte>)
    requires Blank(before) && s != [] && HexValue(s[0]).Some?
    ensures TrimLeft(before + s) == s
  {
    if before == [] {
      assert before + s == s;
    } else {
      LeftTrimmed(before[1..], s);
      assert (before + s)[1..] == before[1..] + s;
    }
  }

  lemma {:induction false} RightTrimmed(s: seq<byte>, after: seq<byte>)
    requires Blank(after) && s != [] && HexValue(s[|s| - 1]).Some?
    ensures TrimRight(s + after) == s
  {
    if after == [] {
      assert s + after == s;
    } else {
      var n := |after| - 1;
      RightTrimmed(s, after[..n]);
      assert (s + after)[..|s + after| - 1] == s + after[..n];
    }
  }

  /** Nothing but white space is trimmed. */
  lemma OnlySpaceIsTrimmed(s: seq<byte>)
    requires s != [] && s[0] !in {9, 10, 11, 12, 13, 32} && s[|s| - 1] !in {9, 10, 11, 12, 13, 32}
    ensures Trim(s) == s
  {
  }

  lemma SizeIsTrimmed(n: nat, z: Size)
    requires z.digits != [] && Denotes(z.digits, n) && Blank(z.before) && Blank(z.after)
    ensures SEMICOLON !in SizeText(z) && Trim(SizeText(z)) == z.digits
  {
    DenotesIsNumber(z.digits, n);
    assert HexValue(SEMICOLON).None?;
    assert HexValue(z.digits[0]).Some? && HexValue(z.digits[|z.digits| - 1]).Some?;
    hide HexValue, Denotes;
    assert SizeText(z) == z.before + (z.digits + z.after);
    LeftTrimmed(z.before, z.digits + z.after);
    RightTrimmed(z.digits, z.after);
  }

  lemma DigitsAreParsed(digits: seq<byte>, n: nat)
    requires digits != [] && Denotes(digits, n) && n <= LLONG_MAX
    ensures ParseHex(digits) == Some(n)
  {
    hide Denotes, ParseHex, IsDigit, HexValue;
    NumberIsParsed([], [], digits, [], n);
    assert [] + ([] + digits + []) == digits;
  }

  /** Digits of either case, with leading zeros, space around them and any extension
      behind: the size is the number they denote. */
  lemma SizeOfHeader(n: nat, z: Size, ext: seq<byte>)
    requires n <= LLONG_MAX && HeaderOk(n, z, ext)
    ensures ChunkSize(SizeText(z) + ext) == Some(n)
  {
    SizeIsTrimmed(n, z);
    SizeEnds(SizeText(z), ext);
    DigitsAreParsed(z.digits, n);
    hide ParseHex, Trim, Find, SizeText, Denotes, Blank;
  }

  lemma SizeEnds(s: seq<byte>, ext: seq<byte>)
    requires 59 !in s && (ext == [] || ext[0] == 59)
    ensures (s + ext)[..Find(s + ext, SEMICOLON)] == s
  {
    if ext == [] {
      FindNone(s, SEMICOLON);
      assert s + ext == s;
    } else {
      FindFirst(s, SEMICOLON, ext[1..]);
      assert s + [SEMICOLON] + ext[1..] == s + ext;
    }
  }

  lemma HeaderHasNoLF(n: nat, z: Size, ext: seq<byte>)
    requires HeaderOk(n, z, ext)
    ensures LF !in HeaderLine(z, ext) && |HeaderLine(z, ext)| <= MAX_LINE
    ensures DropCR(HeaderLine(z, ext)) == SizeText(z) + ext
  {
    DenotesIsNumber(z.digits, n);
    assert HexValue(LF).None? && LF !in z.digits;
  }

  /** Every number has such a header, also with upper-case digits. */
  lemma {:induction false} SomeSpelling(n: nat) returns (digits: seq<byte>)
    ensures digits != [] && Denotes(digits, n)
    ensures forall c <- digits :: c as char in UPPER_DIGITS
  {
    var d := UPPER_DIGITS[n % 16] as int;
    DigitsAre(n % 16);
    if n < 16 {
      digits := [d];
      assert digits[..0] == [];
    } else {
      var init := SomeSpelling(n / 16);
      digits := init + [d];
      assert digits[..|digits| - 1] == init;
    }
  }

  // --------------------------------------------------------------------- whole chunks

  /** What is read behind a header: so many bytes, and a line that ends them. */
  lemma ChunkBegins(c: Chunk, after: seq<byte>, e: Ending)
    requires ChunkOk(c)
    ensures var part := Plain(after, e, Some(|c.data|));
      Chunked(HeaderLine(c.size, c.ext) + [LF] + after, e) ==
        if part.code != Ok then part
        else
          var ending := TakeLine(part.rest, e);
          if ending.NoLine? then Outcome(part.delivered, [], ending.code)
          else Prepend(part.delivered, Chunked(ending.rest, e))
  {
    HeaderHasNoLF(|c.data|, c.size, c.ext);
    SizeOfHeader(|c.data|, c.size, c.ext);
    hide HeaderLine, SizeText, HeaderOk, ChunkSize, TakeLine, DropCR;
    LineIsTaken(HeaderLine(c.size, c.ext), after, e);
  }

  /** One chunk in front of any stream adds its data to what that stream delivers. */
  lemma ChunkDelivered(c: Chunk, t: seq<byte>, e: Ending)
    requires ChunkOk(c)
    ensures Chunked(EncodeChunk(c) + t, e) == Prepend(c.data, Chunked(t, e))
  {
    ChunkBegins(c, c.data + ([CR, LF] + t), e);
    EncodedApart(c, t);
    PlainTakes(c.data, [CR, LF] + t, e);
    EmptyLine(t, e);
    hide *;
  }

  lemma EncodedApart(c: Chunk, t: seq<byte>)
    ensures EncodeChunk(c) + t == HeaderLine(c.size, c.ext) + [LF] + (c.data + ([CR, LF] + t))
  {
    hide HeaderLine;
  }

  lemma PlainTakes(data: seq<byte>, rest: seq<byte>, e: Ending)
    ensures Plain(data + rest, e, Some(|data|)) == Outcome(data, rest, Ok)
  {
  }

  lemma EmptyLine(t: seq<byte>, e: Ending)
    ensures TakeLine([CR, LF] + t, e) == Line([], t)
  {
    assert [CR] + [LF] + t == [CR, LF] + t;
    LineIsTaken([CR], t, e);
  }

  lemma LastChunk(last: Final, t: seq<byte>, e: Ending)
    requires FinalOk(last)
    ensures Chunked(HeaderLine(last.size, last.ext) + [LF] + t, e) == Outcome([], [], Ok)
  {
    HeaderHasNoLF(0, last.size, last.ext);
    SizeOfHeader(0, last.size, last.ext);
    LineIsTaken(HeaderLine(last.size, last.ext), t, e);
    hide HeaderLine, SizeText, HeaderOk, ChunkSize, TakeLine, DropCR;
  }

  /** Every body comes through, for every way of cutting it into chunks and of
      spelling their sizes, with any extensions, whatever trailers follow and
      however the connection then ends. */
  lemma {:induction false} ChunkedRoundTrip(cs: seq<Chunk>, last: Final, trailers: seq<byte>, e: Ending)
    requires (forall c <- cs :: ChunkOk(c)) && FinalOk(last)
    ensures Chunked(EncodeChunks(cs, last) + trailers, e) == Outcome(Body(cs), [], Ok)
  {
    hide Chunked, EncodeChunk, HeaderLine, FinalOk;
    if cs == [] {
      LastChunk(last, trailers, e);
    } else {
      var t := EncodeChunks(cs[1..], last) + trailers;
      ChunkedRoundTrip(cs[1..], last, trailers, e);
      ChunkDelivered(cs[0], t, e);
      assert EncodeChunks(cs, last) + trailers == EncodeChunk(cs[0]) + t;
    }
  }

  // ---------------------------------------------------------------------------- cuts

  lemma CutHeader(n: nat, z: Size, ext: seq<byte>, k: nat, t: seq<byte>, e: Ending)
    requires HeaderOk(n, z, ext) && k <= |HeaderLine(z, ext)|
    ensures Chunked((HeaderLine(z, ext) + [LF] + t)[..k], e) == Outcome([], [], CodeOf(e))
  {
    var h := HeaderLine(z, ext);
    HeaderHasNoLF(n, z, ext);
    LineIsCut(h, k, e);
    assert (h + [LF] + t)[..k] == h[..k];
  }

  lemma CutEnding(k: nat, e: Ending)
    requires k < 2
    ensures TakeLine([CR, LF][..k], e) == NoLine(CodeOf(e))
  {
    LineIsCut([CR], k, e);
    assert [CR, LF][..k] == [CR][..k];
  }

  lemma PlainFallsShort(s: seq<byte>, e: Ending, n: nat)
    requires |s| < n && EndingOk(e)
    ensures Plain(s, e, Some(n)) == Outcome(s, [], CodeOf(e)) && CodeOf(e) != Ok
  {
  }

  /** What there is of a chunk and its ending, cut after `j` bytes. */
  lemma CutParts(c: Chunk, j: nat)
    requires j < |c.data| + 2
    ensures (c.data + [CR, LF])[..j] == if j < |c.data| then c.data[..j] else c.data + [CR, LF][..j - |c.data|]
  {
  }

  lemma CutInside(c: Chunk, j: nat, e: Ending)
    requires ChunkOk(c) && j < |c.data| + 2 && EndingOk(e)
    ensures var o := Chunked(HeaderLine(c.size, c.ext) + [LF] + (c.data + [CR, LF])[..j], e);
            o.code == CodeOf(e) && o.delivered <= c.data
  {
    var n := |c.data|;
    ChunkBegins(c, (c.data + [CR, LF])[..j], e);
    CutParts(c, j);
    hide *;
    if j >= n {
      PlainTakes(c.data, [CR, LF][..j - n], e);
      CutEnding(j - n, e);
      CodeIsError(e);
    } else {
      PlainFallsShort(c.data[..j], e, n);
    }
  }

  lemma CodeIsError(e: Ending)
    requires EndingOk(e)
    ensures CodeOf(e) != Ok
  {
  }

  lemma TakeAfter<T>(a: seq<T>, b: seq<T>, k: nat)
    requires |a| <= k <= |a| + |b|
    ensures (a + b)[..k] == a + b[..k - |a|]
  {
  }

  lemma OkHeader(c: Chunk)
    requires ChunkOk(c)
    ensures HeaderOk(|c.data|, c.size, c.ext)
  {
  }

  lemma CutChunk(c: Chunk, k: nat, e: Ending)
    requires ChunkOk(c) && k < |EncodeChunk(c)| && EndingOk(e)
    ensures var o := Chunked(EncodeChunk(c)[..k], e); o.code == CodeOf(e) && o.delivered <= c.data
  {
    hide HeaderLine, Chunked, ChunkOk, HeaderOk;
    var n := |c.data|;
    var h := HeaderLine(c.size, c.ext);
    OkHeader(c);
    assert EncodeChunk(c) == h + [LF] + (c.data + [CR, LF]);
    if k <= |h| {
      CutHeader(n, c.size, c.ext, k, c.data + [CR, LF], e);
    } else {
      CutInside(c, k - |h| - 1, e);
      TakeAfter(h + [LF], c.data + [CR, LF], k);
    }
  }

  /** A connection that ends anywhere before the end of the last chunk's line never
      passes for a complete body: the error is reported, and what was handed over
      is a prefix of the body. */
  lemma {:induction false} CutIsNoticed(cs: seq<Chunk>, last: Final, k: nat, e: Ending)
    requires (forall c <- cs :: ChunkOk(c)) && FinalOk(last)
    requires k < |EncodeChunks(cs, last)| && EndingOk(e)
    ensures var o := Chunked(EncodeChunks(cs, last)[..k], e);
            o.code == CodeOf(e) && o.code != Ok && o.delivered <= Body(cs)
  {
    hide Chunked, EncodeChunk;
    var s := EncodeChunks(cs, last);
    if cs == [] {
      assert s == HeaderLine(last.size, last.ext) + [LF] + [];
      CutHeader(0, last.size, last.ext, k, [], e);
    } else {
      var first := EncodeChunk(cs[0]);
      if k < |first| {
        assert s[..k] == first[..k];
        CutChunk(cs[0], k, e);
      } else {
        CutIsNoticed(cs[1..], last, k - |first|, e);
        ChunkDelivered(cs[0], EncodeChunks(cs[1..], last)[..k - |first|], e);
        assert s[..k] == first + EncodeChunks(cs[1..], last)[..k - |first|];
      }
    }
  }

  // ------------------------------------------------------------- more bytes, more body

  lemma LineGrows(s: seq<byte>, t: seq<byte>, e: Ending, f: Ending)
    requires TakeLine(s, e).Line?
    ensures var l := TakeLine(s, e); TakeLine(s + t, f) == Line(l.text, l.rest + t)
  {
    var i := Find(s, LF);
    assert s == s[..i] + [LF] + s[i + 1..];
    LineIsTaken(s[..i], s[i + 1..] + t, f);
    assert s + t == s[..i] + [LF] + (s[i + 1..] + t);
  }

  /** Whatever the server sends, well formed or not: a connection that ends early
      never hands the sink a byte that the longer one would not. */
  lemma {:induction false} ChunkedGrows(s: seq<byte>, t: seq<byte>, e: Ending, f: Ending)
    ensures Chunked(s, e).delivered <= Chunked(s + t, f).delivered
    decreases |s|
  {
    hide ChunkSize, TakeLine;
    var l := TakeLine(s, e);
    if l.Line? && ChunkSize(l.text).Some? && ChunkSize(l.text).value != 0 {
      var n := ChunkSize(l.text).value;
      LineGrows(s, t, e, f);
      var p := Plain(l.rest, e, Some(n));
      var q := Plain(l.rest + t, f, Some(n));
      if n <= |l.rest| {
        assert q.delivered == p.delivered && q.rest == p.rest + t;
        var m := TakeLine(p.rest, e);
        if m.Line? {
          LineGrows(p.rest, t, e, f);
          ChunkedGrows(m.rest, t, e, f);
        }
      }
    }
  }
}
