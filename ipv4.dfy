/**
 * The control plane's dotted-quad parser, `ConvertIpToBytes`: split on '.', then parse the
 * first four chunks with `byte.Parse` into a four-byte array.
 */
module Ipv4 {
  import opened Wrappers

  newtype byte = x: int | 0 <= x < 256

  /** The exceptions `ConvertIpToBytes` can raise. */
  datatype ParseError =
    | NullReference     // `ip.Split` on a null string
    | IndexOutOfRange   // fewer than four chunks
    | FormatError       // `byte.Parse` of a chunk that is not a number
    | OverflowError     // `byte.Parse` of a number above 255

  // ---------------------------------------------------------------- Split and Join

  /** `s.Split(sep)`: every chunk between separators, empty ones included. */
  function Split(s: string, sep: char): (chunks: seq<string>)
    ensures |chunks| >= 1
    decreases |s|
  {
    if |s| == 0 then [""] else Prepend(s[0], Split(s[1..], sep), sep)
  }

  /** The chunks of `[c] + w`, from the chunks of `w`: a separator opens a new, empty chunk. */
  function Prepend(c: char, chunks: seq<string>, sep: char): (r: seq<string>)
    requires |chunks| >= 1
    ensures |r| >= 1
  {
    if c == sep then [""] + chunks else [[c] + chunks[0]] + chunks[1..]
  }

  /** Chunks appended after the first are untouched by a prepended character. */
  lemma PrependAppend(c: char, chunks: seq<string>, tail: seq<string>, sep: char)
    requires |chunks| >= 1
    ensures Prepend(c, chunks + tail, sep) == Prepend(c, chunks, sep) + tail
  {
    if c != sep {
      assert (chunks + tail)[0] == chunks[0] && (chunks + tail)[1..] == chunks[1..] + tail;
    }
  }

  /** `string.Join(sep, chunks)`. */
  function Join(chunks: seq<string>, sep: char): string
    requires |chunks| >= 1
  {
    if |chunks| == 1 then chunks[0] else chunks[0] + [sep] + Join(chunks[1..], sep)
  }

  ghost predicate NoSeparator(chunks: seq<string>, sep: char)
  {
    forall i :: 0 <= i < |chunks| ==> sep !in chunks[i]
  }

  /** Splitting loses nothing: joining the chunks gives the string back, and no chunk holds a separator. */
  lemma {:induction false} JoinSplit(s: string, sep: char)
    ensures Join(Split(s, sep), sep) == s
    ensures NoSeparator(Split(s, sep), sep)
    decreases |s|
  {
    if |s| > 0 {
      var rest := Split(s[1..], sep);
      JoinSplit(s[1..], sep);
      if s[0] == sep {
        assert Split(s, sep)[1..] == rest;
        assert s == [sep] + s[1..];
      } else {
        var chunks := Split(s, sep);
        assert chunks[1..] == rest[1..];
        if |rest| == 1 {
          assert s == [s[0]] + rest[0];
        } else {
          assert Join(rest, sep) == rest[0] + [sep] + Join(rest[1..], sep);
          assert s == [s[0]] + rest[0] + [sep] + Join(rest[1..], sep);
        }
        forall i | 0 <= i < |chunks| ensures sep !in chunks[i] {
          if i == 0 { assert chunks[0] == [s[0]] + rest[0]; } else { assert chunks[i] == rest[i]; }
        }
      }
    }
  }

  /** Joining chunks free of separators and splitting again gives the same chunks. */
  lemma {:induction false} SplitJoin(chunks: seq<string>, sep: char)
    requires |chunks| >= 1 && NoSeparator(chunks, sep)
    ensures Split(Join(chunks, sep), sep) == chunks
    decreases |chunks|
  {
    if |chunks| == 1 {
      SplitChunk(chunks[0], [], sep);
      assert chunks[0] + [] == chunks[0];
    } else {
      var tail := chunks[1..];
      assert NoSeparator(tail, sep) by {
        forall i | 0 <= i < |tail| ensures sep !in tail[i] { assert tail[i] == chunks[i + 1]; }
      }
      SplitJoin(tail, sep);
      var t := [sep] + Join(tail, sep);
      SplitChunk(chunks[0], t, sep);
      assert Join(chunks, sep) == chunks[0] + t;
      assert t[1..] == Join(tail, sep);
      assert Split(t, sep) == [""] + tail;
      assert chunks == [chunks[0]] + tail;
    }
  }

  /** A chunk free of separators in front of a separator or the end of the string stays whole. */
  lemma {:induction false} SplitChunk(c: string, t: string, sep: char)
    requires sep !in c && (t == [] || t[0] == sep)
    ensures Split(c + t, sep) == [c] + (if t == [] then [] else Split(t, sep)[1..])
    decreases |c|
  {
    if |c| == 0 {
      assert c + t == t;
      if t != [] {
        assert Split(t, sep) == [""] + Split(t[1..], sep);
      }
    } else {
      SplitChunk(c[1..], t, sep);
      assert (c + t)[1..] == c[1..] + t;
      assert (c + t)[0] == c[0];
      assert [c[0]] + c[1..] == c;
    }
  }

  /** Splitting `s + sep + t` splits `s` and `t` separately. */
  lemma {:induction false} SplitAppend(s: string, t: string, sep: char)
    ensures Split(s + [sep] + t, sep) == Split(s, sep) + Split(t, sep)
    decreases |s|
  {
    if |s| == 0 {
      assert s + [sep] + t == [sep] + t;
      assert ([sep] + t)[1..] == t;
    } else {
      var u := s + [sep] + t;
      assert u[0] == s[0] && u[1..] == s[1..] + [sep] + t;
      SplitAppend(s[1..], t, sep);
      PrependAppend(s[0], Split(s[1..], sep), Split(t, sep), sep);
    }
  }

  // ---------------------------------------------------------------- decimal digits

  predicate IsDigit(c: char) { '0' <= c <= '9' }

  predicate AllDigits(s: string) { forall i :: 0 <= i < |s| ==> IsDigit(s[i]) }

  function DigitValue(c: char): nat requires IsDigit(c) { c as int - '0' as int }

  function DigitChar(d: nat): (c: char)
    requires d < 10
    ensures IsDigit(c) && DigitValue(c) == d
  {
    ('0' as int + d) as char
  }

  /** The number a string of decimal digits denotes (most significant digit first). */
  function DigitsValue(s: string): nat
    requires AllDigits(s)
  {
    if |s| == 0 then 0 else DigitsValue(s[..|s| - 1]) * 10 + DigitValue(s[|s| - 1])
  }

  /** `n.ToString()`: the shortest decimal numeral for `n`; it denotes `n` again. */
  function Decimal(n: nat): (s: string)
    ensures 1 <= |s| && AllDigits(s) && DigitsValue(s) == n
    ensures '.' !in s
  {
    if n < 10 then [DigitChar(n)]
    else
      var s := Decimal(n / 10) + [DigitChar(n % 10)];
      assert s[..|s| - 1] == Decimal(n / 10);
      s
  }

  /**
   * `byte.Parse` restricted to strings of ASCII digits: the empty string and any other
   * character fail with a format error, a value above 255 with an overflow.
   */
  function ParseByte(s: string): (r: Result<byte, ParseError>)
    ensures r.Success? ==> 0 < |s| && AllDigits(s) && r.value as int == DigitsValue(s)
    ensures r.Failure? ==> r.error == FormatError || r.error == OverflowError
    ensures r == Failure(OverflowError) ==> 0 < |s| && AllDigits(s) && DigitsValue(s) > 255
  {
    if |s| == 0 || !AllDigits(s) then Failure(FormatError)
    else if DigitsValue(s) > 255 then Failure(OverflowError)
    else Success(DigitsValue(s) as byte)
  }

  /** Parsing a digit string succeeds exactly when it denotes a value in 0..255, and yields that value. */
  lemma ParseByteSpec(s: string)
    ensures ParseByte(s).Success? <==> 0 < |s| && AllDigits(s) && DigitsValue(s) <= 255
    ensures ParseByte(s).Success? ==> ParseByte(s).value as int == DigitsValue(s)
    ensures '.' in s ==> ParseByte(s) == Failure(FormatError)
  {
  }

  /** Every byte printed in decimal parses back to itself. */
  lemma ParseDecimalByte(b: byte)
    ensures ParseByte(Decimal(b as nat)) == Success(b)
  {
  }

  // ---------------------------------------------------------------- the dotted quad

  /**
   * The first `n` iterations of the loop in `ConvertIpToBytes`: index chunk i (out of range
   * when there are too few chunks), then parse it; the first exception ends the loop.
   */
  function ParseChunks(chunks: seq<string>, n: nat): (r: Result<seq<byte>, ParseError>)
    ensures r.Success? ==> |r.value| == n && n <= |chunks|
    ensures r.Failure? ==> r.error != NullReference
  {
    if n == 0 then Success([])
    else match ParseChunks(chunks, n - 1)
      case Failure(e) => Failure(e)
      case Success(bytes) =>
        if n - 1 >= |chunks| then Failure(IndexOutOfRange)
        else match ParseByte(chunks[n - 1])
          case Failure(e) => Failure(e)
          case Success(b) => Success(bytes + [b])
  }

  /** What `ConvertIpToBytes(ip)` returns or throws. */
  function ParseIp(ip: Option<string>): (r: Result<seq<byte>, ParseError>)
    ensures r.Success? ==> |r.value| == 4
  {
    match ip
    case None => Failure(NullReference)
    case Some(s) => ParseChunks(Split(s, '.'), 4)
  }

  /** `ConvertIpToBytes`: fill a fresh four-byte array chunk by chunk. */
  method ConvertIpToBytes(ip: Option<string>) returns (r: Result<array<byte>, ParseError>)
    ensures r.Success? <==> ParseIp(ip).Success?
    ensures r.Success? ==> r.value.Length == 4 && r.value[..] == ParseIp(ip).value
    ensures r.Failure? ==> r.error == ParseIp(ip).error
  {
    if ip.None? {
      return Failure(NullReference);
    }
    var ipStringChunks := Split(ip.value, '.');
    var bytes := new byte[4];
    for i := 0 to 4
      invariant ParseChunks(ipStringChunks, i) == Success(bytes[..i])
    {
      if i >= |ipStringChunks| {
        ParseChunksStops(ipStringChunks, i + 1, 4);
        return Failure(IndexOutOfRange);
      }
      var b := ParseByte(ipStringChunks[i]);
      if b.Failure? {
        ParseChunksStops(ipStringChunks, i + 1, 4);
        return Failure(b.error);
      }
      bytes[i] := b.value;
      assert bytes[..i + 1] == bytes[..i] + [b.value];
    }
    assert bytes[..] == bytes[..4];
    return Success(bytes);
  }

  // ---------------------------------------------------------------- properties of the parser

  /** The loop's outcome over n chunks is decided chunk by chunk, in order. */
  lemma {:induction false} ParseChunksSpec(chunks: seq<string>, n: nat)
    ensures ParseChunks(chunks, n).Success?
        <==> n <= |chunks| && forall i :: 0 <= i < n ==> ParseByte(chunks[i]).Success?
    ensures ParseChunks(chunks, n).Success? ==>
        forall i :: 0 <= i < n ==> ParseChunks(chunks, n).value[i] == ParseByte(chunks[i]).value
  {
    if n > 0 {
      ParseChunksSpec(chunks, n - 1);
    }
  }

  /** The first failing chunk decides the outcome: later chunks are never looked at. */
  lemma {:induction false} ParseChunksStops(chunks: seq<string>, i: nat, n: nat)
    requires i <= n && ParseChunks(chunks, i).Failure?
    ensures ParseChunks(chunks, n) == ParseChunks(chunks, i)
    decreases n
  {
    if n > i {
      ParseChunksStops(chunks, i, n - 1);
    }
  }

  /** Chunks after the n-th play no part. */
  lemma {:induction false} ParseChunksPrefix(chunks: seq<string>, more: seq<string>, n: nat)
    requires n <= |chunks|
    ensures ParseChunks(chunks + more, n) == ParseChunks(chunks, n)
  {
    if n > 0 {
      ParseChunksPrefix(chunks, more, n - 1);
      assert (chunks + more)[n - 1] == chunks[n - 1];
    }
  }

  /** Parsing succeeds exactly when there are at least four chunks and each of the first four is a byte. */
  lemma ParseIpSpec(s: string)
    ensures var chunks := Split(s, '.');
      (ParseIp(Some(s)).Success? <==>
         |chunks| >= 4 && forall i :: 0 <= i < 4 ==> ParseByte(chunks[i]).Success?)
    ensures var chunks := Split(s, '.');
      ParseIp(Some(s)).Success? ==>
        forall i :: 0 <= i < 4 ==> ParseIp(Some(s)).value[i] == ParseByte(chunks[i]).value
  {
    ParseChunksSpec(Split(s, '.'), 4);
  }

  /** A string free of separators is a single chunk. */
  lemma SplitWhole(c: string, sep: char)
    requires sep !in c
    ensures Split(c, sep) == [c]
  {
    SplitChunk(c, [], sep);
    assert c + [] == c;
  }

  /** Four chunks free of dots, joined by dots, split back into the same four. */
  lemma SplitQuad(a: string, b: string, c: string, d: string)
    requires '.' !in a && '.' !in b && '.' !in c && '.' !in d
    ensures Split(a + "." + b + "." + c + "." + d, '.') == [a, b, c, d]
  {
    SplitWhole(a, '.'); SplitWhole(b, '.'); SplitWhole(c, '.'); SplitWhole(d, '.');
    SplitAppend(a, b, '.');
    SplitAppend(a + "." + b, c, '.');
    SplitAppend(a + "." + b + "." + c, d, '.');
  }

  /** `"a.b.c.d"` with decimal parts in 0..255 parses to `[a, b, c, d]`, in order. */
  lemma ParseWellFormed(a: string, b: string, c: string, d: string)
    requires ParseByte(a).Success? && ParseByte(b).Success?
    requires ParseByte(c).Success? && ParseByte(d).Success?
    ensures ParseIp(Some(a + "." + b + "." + c + "." + d))
         == Success([ParseByte(a).value, ParseByte(b).value, ParseByte(c).value, ParseByte(d).value])
  {
    ParseByteSpec(a); ParseByteSpec(b); ParseByteSpec(c); ParseByteSpec(d);
    SplitQuad(a, b, c, d);
    var chunks := [a, b, c, d];
    ParseChunksSpec(chunks, 4);
    var r := ParseChunks(chunks, 4);
    assert r.Success?;
    assert r.value == [r.value[0], r.value[1], r.value[2], r.value[3]];
  }

  /** Fewer than four chunks always fail; when every chunk present is a byte, the failure is the index. */
  lemma TooFewChunks(s: string)
    requires |Split(s, '.')| < 4
    ensures ParseIp(Some(s)).Failure?
    ensures (forall i :: 0 <= i < |Split(s, '.')| ==> ParseByte(Split(s, '.')[i]).Success?)
        ==> ParseIp(Some(s)).error == IndexOutOfRange
  {
    var chunks := Split(s, '.');
    ParseChunksSpec(chunks, 4);
    if forall i :: 0 <= i < |chunks| ==> ParseByte(chunks[i]).Success? {
      ParseChunksSpec(chunks, |chunks|);
      var k := |chunks|;
      assert ParseChunks(chunks, k).Success?;
      if k == 1 {
        assert ParseChunks(chunks, 2) == Failure(IndexOutOfRange);
        assert ParseChunks(chunks, 3) == Failure(IndexOutOfRange);
      } else if k == 2 {
        assert ParseChunks(chunks, 3) == Failure(IndexOutOfRange);
      }
    }
  }

  /** A first-four chunk that is not a decimal in 0..255 makes the parse fail. */
  lemma BadChunk(s: string, i: nat)
    requires i < 4 && i < |Split(s, '.')| && ParseByte(Split(s, '.')[i]).Failure?
    ensures ParseIp(Some(s)).Failure?
  {
    ParseIpSpec(s);
  }

  /** When `s` already has four chunks, anything after a further '.' is ignored. */
  lemma IgnoresExtraChunks(s: string, rest: string)
    requires |Split(s, '.')| >= 4
    ensures ParseIp(Some(s + "." + rest)) == ParseIp(Some(s))
  {
    SplitAppend(s, rest, '.');
    ParseChunksPrefix(Split(s, '.'), Split(rest, '.'), 4);
  }

  /** `"1.2.3.4.x"` yields `[1, 2, 3, 4]`. */
  lemma FifthChunkIgnored()
    ensures ParseIp(Some("1.2.3.4.x")) == Success([1, 2, 3, 4])
  {
    var quad := "1" + "." + "2" + "." + "3" + "." + "4";
    assert ParseIp(Some(quad)) == Success([1, 2, 3, 4]) by {
      assert ParseByte("1") == Success(1) && ParseByte("2") == Success(2);
      assert ParseByte("3") == Success(3) && ParseByte("4") == Success(4);
      ParseWellFormed("1", "2", "3", "4");
    }
    assert |Split(quad, '.')| >= 4 by { SplitQuad("1", "2", "3", "4"); }
    IgnoresExtraChunks(quad, "x");
    assert quad + "." + "x" == "1.2.3.4.x";
  }

  /** Four bytes in decimal, joined by '.': the inverse of the parser. */
  function FormatIp(bytes: seq<byte>): string
    requires |bytes| == 4
  {
    Decimal(bytes[0] as nat) + "." + Decimal(bytes[1] as nat) + "."
      + Decimal(bytes[2] as nat) + "." + Decimal(bytes[3] as nat)
  }

  /** Formatting any four bytes and parsing the result gives them back. */
  lemma FormatParseRoundTrip(bytes: seq<byte>)
    requires |bytes| == 4
    ensures ParseIp(Some(FormatIp(bytes))) == Success(bytes)
  {
    ParseDecimalByte(bytes[0]); ParseDecimalByte(bytes[1]);
    ParseDecimalByte(bytes[2]); ParseDecimalByte(bytes[3]);
    ParseWellFormed(Decimal(bytes[0] as nat), Decimal(bytes[1] as nat),
                    Decimal(bytes[2] as nat), Decimal(bytes[3] as nat));
    assert [bytes[0], bytes[1], bytes[2], bytes[3]] == bytes;
  }
}
