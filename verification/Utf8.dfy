/**
 UTF-8: encoding characters, and decoding bytes the lossy way, where every maximal part of a broken
 sequence becomes one replacement character. Decoding chunk by chunk gives the decoding of the whole
 exactly if no chunk ends inside a character.
 */
module Utf8 {
  import opened Types

  const REPLACEMENT: char := '\U{FFFD}'

  // ----- Decoding -----

  predicate IsContinuation(b: byte) {
    0x80 <= b <= 0xBF
  }

  /** How many bytes a sequence with this first byte has; zero if none begins with it. */
  function Length(lead: byte): (n: nat)
    ensures n <= 4
  {
    if lead <= 0x7F then 1
    else if 0xC2 <= lead <= 0xDF then 2
    else if 0xE0 <= lead <= 0xEF then 3
    else if 0xF0 <= lead <= 0xF4 then 4
    else 0
  }

  /** What may follow the first byte; overlong forms, surrogates and too large values are excluded here. */
  predicate MayFollow(lead: byte, b: byte) {
    && IsContinuation(b)
    && (lead == 0xE0 ==> 0xA0 <= b)
    && (lead == 0xED ==> b <= 0x9F)
    && (lead == 0xF0 ==> 0x90 <= b)
    && (lead == 0xF4 ==> b <= 0x8F)
  }

  /** How many of the first bytes belong to one sequence, up to the length it should have. */
  function Span(bytes: Bytes): (n: nat)
    requires bytes != [] && Length(bytes[0]) > 0
    ensures 1 <= n <= Length(bytes[0]) && n <= |bytes|
    ensures n > 1 ==> MayFollow(bytes[0], bytes[1])
    ensures forall k | 2 <= k < n :: IsContinuation(bytes[k])
  {
    var len := Length(bytes[0]);
    if len == 1 || |bytes| == 1 || !MayFollow(bytes[0], bytes[1]) then 1
    else if len == 2 || |bytes| == 2 || !IsContinuation(bytes[2]) then 2
    else if len == 3 || |bytes| == 3 || !IsContinuation(bytes[3]) then 3
    else 4
  }

  /** The bytes begin with a whole character. */
  predicate BeginsWhole(bytes: Bytes) {
    bytes != [] && Length(bytes[0]) > 0 && Span(bytes) == Length(bytes[0])
  }

  /** How many bytes the first character, or the first broken part, takes. */
  function Taken(bytes: Bytes): (n: nat)
    requires bytes != []
    ensures 1 <= n <= |bytes| && n <= 4
  {
    if Length(bytes[0]) == 0 then 1 else Span(bytes)
  }

  function CharOf(bytes: Bytes): char
    requires BeginsWhole(bytes)
  {
    var a := bytes[0] as int;
    match Length(bytes[0])
    case 1 => a as char
    case 2 => ((a - 0xC0) * 0x40 + (bytes[1] as int - 0x80)) as char
    case 3 => ((a - 0xE0) * 0x1000 + (bytes[1] as int - 0x80) * 0x40 + (bytes[2] as int - 0x80)) as char
    case _ =>
      ((a - 0xF0) * 0x40000 + (bytes[1] as int - 0x80) * 0x1000 + (bytes[2] as int - 0x80) * 0x40
       + (bytes[3] as int - 0x80)) as char
  }

  function First(bytes: Bytes): char {
    if BeginsWhole(bytes) then CharOf(bytes) else REPLACEMENT
  }

  function DecodeLossy(bytes: Bytes): string {
    if bytes == [] then "" else [First(bytes)] + DecodeLossy(bytes[Taken(bytes)..])
  }

  // ----- Encoding -----

  function EncodeChar(c: char): (b: Bytes)
    ensures 1 <= |b| <= 4
  {
    var x := c as int;
    if x < 0x80 then [x as byte]
    else if x < 0x800 then [(0xC0 + x / 0x40) as byte, (0x80 + x % 0x40) as byte]
    else if x < 0x10000 then
      [(0xE0 + x / 0x1000) as byte, (0x80 + x / 0x40 % 0x40) as byte, (0x80 + x % 0x40) as byte]
    else
      [(0xF0 + x / 0x40000) as byte, (0x80 + x / 0x1000 % 0x40) as byte, (0x80 + x / 0x40 % 0x40) as byte,
       (0x80 + x % 0x40) as byte]
  }

  function Encode(s: string): Bytes {
    if s == "" then [] else EncodeChar(s[0]) + Encode(s[1..])
  }

  /** The bytes are whole characters from beginning to end. */
  predicate WellFormed(bytes: Bytes) {
    bytes == [] || (BeginsWhole(bytes) && WellFormed(bytes[Taken(bytes)..]))
  }

  /** A number by its digits to the base 64. */
  lemma Digits(x: nat)
    ensures x == x / 0x40 * 0x40 + x % 0x40
    ensures x == x / 0x1000 * 0x1000 + x / 0x40 % 0x40 * 0x40 + x % 0x40
    ensures x == x / 0x40000 * 0x40000 + x / 0x1000 % 0x40 * 0x1000 + x / 0x40 % 0x40 * 0x40 + x % 0x40
  {
    assert x / 0x1000 == x / 0x40 / 0x40 && x / 0x40000 == x / 0x1000 / 0x40;
  }

  lemma EncodedTwo(c: char, bytes: Bytes)
    requires 0x80 <= c as int < 0x800 && EncodeChar(c) <= bytes
    ensures BeginsWhole(bytes) && Taken(bytes) == 2 && CharOf(bytes) == c
  {
    var e := EncodeChar(c);
    assert bytes[0] == e[0] && bytes[1] == e[1];
    Digits(c as int);
  }

  lemma EncodedThree(c: char, bytes: Bytes)
    requires 0x800 <= c as int < 0x10000 && EncodeChar(c) <= bytes
    ensures BeginsWhole(bytes) && Taken(bytes) == 3 && CharOf(bytes) == c
  {
    var e, x := EncodeChar(c), c as int;
    assert bytes[0] == e[0] && bytes[1] == e[1] && bytes[2] == e[2];
    Digits(x);
    assert e[0] == 0xE0 ==> x < 0x1000;
    assert e[0] == 0xED ==> 0xD000 <= x < 0xD800;
  }

  lemma EncodedFour(c: char, bytes: Bytes)
    requires 0x10000 <= c as int && EncodeChar(c) <= bytes
    ensures BeginsWhole(bytes) && Taken(bytes) == 4 && CharOf(bytes) == c
  {
    var e, x := EncodeChar(c), c as int;
    assert bytes[0] == e[0] && bytes[1] == e[1] && bytes[2] == e[2] && bytes[3] == e[3];
    Digits(x);
    assert e[0] == 0xF0 ==> x < 0x40000;
    assert e[0] == 0xF4 ==> 0x100000 <= x < 0x110000;
  }

  lemma EncodedCharIsDecoded(c: char, bytes: Bytes)
    requires EncodeChar(c) <= bytes
    ensures BeginsWhole(bytes) && Taken(bytes) == |EncodeChar(c)| && CharOf(bytes) == c
  {
    if c as int < 0x80 {
      assert bytes[0] == EncodeChar(c)[0];
    } else if c as int < 0x800 {
      EncodedTwo(c, bytes);
    } else if c as int < 0x10000 {
      EncodedThree(c, bytes);
    } else {
      EncodedFour(c, bytes);
    }
  }

  lemma EncodedFirst(c: char, rest: Bytes)
    ensures DecodeLossy(EncodeChar(c) + rest) == [c] + DecodeLossy(rest)
  {
    var bytes := EncodeChar(c) + rest;
    EncodedCharIsDecoded(c, bytes);
    assert bytes[|EncodeChar(c)|..] == rest;
  }

  lemma {:induction false} EncodedPrefix(s: string, rest: Bytes)
    ensures DecodeLossy(Encode(s) + rest) == s + DecodeLossy(rest)
  {
    if s == "" {
      assert Encode(s) + rest == rest;
    } else {
      EncodedPrefix(s[1..], rest);
      EncodedNext(s, rest);
    }
  }

  lemma EncodedNext(s: string, rest: Bytes)
    requires s != "" && DecodeLossy(Encode(s[1..]) + rest) == s[1..] + DecodeLossy(rest)
    ensures DecodeLossy(Encode(s) + rest) == s + DecodeLossy(rest)
  {
    EncodeSplit(s, rest);
    EncodedFirst(s[0], Encode(s[1..]) + rest);
    Regroup(s, DecodeLossy(rest));
  }

  lemma EncodeSplit(s: string, rest: Bytes)
    requires s != ""
    ensures Encode(s) + rest == EncodeChar(s[0]) + (Encode(s[1..]) + rest)
  {
  }

  lemma Regroup(s: string, t: string)
    requires s != ""
    ensures [s[0]] + (s[1..] + t) == s + t
  {
  }

  lemma {:induction false} EncodedIsWellFormed(s: string)
    ensures WellFormed(Encode(s))
  {
    if s != "" {
      EncodedIsWellFormed(s[1..]);
      EncodedCharIsDecoded(s[0], Encode(s));
      assert Encode(s)[|EncodeChar(s[0])|..] == Encode(s[1..]);
    }
  }

  /** What is encoded is well-formed and decodes to itself. */
  lemma EncodedIsDecoded(s: string)
    ensures WellFormed(Encode(s)) && DecodeLossy(Encode(s)) == s
  {
    EncodedIsWellFormed(s);
    EncodedPrefix(s, []);
    assert Encode(s) + [] == Encode(s);
  }

  lemma {:induction false} EncodeConcat(a: string, b: string)
    ensures Encode(a + b) == Encode(a) + Encode(b)
  {
    if a == "" {
      assert a + b == b;
    } else {
      assert (a + b)[1..] == a[1..] + b;
      EncodeConcat(a[1..], b);
    }
  }

  // ----- Decoding in chunks -----

  /** The input ends inside its first character. */
  predicate EndsInside(bytes: Bytes) {
    bytes != [] && |bytes| < Length(bytes[0]) && Span(bytes) == |bytes|
  }

  /** A character or broken part that does not reach the end of the input does not depend on what follows. */
  lemma FirstStays(a: Bytes, b: Bytes)
    requires a != [] && !EndsInside(a)
    ensures Taken(a + b) == Taken(a) && (BeginsWhole(a + b) <==> BeginsWhole(a))
    ensures First(a + b) == First(a)
  {
  }

  /** One that does takes only continuation bytes of what follows, and at least one if it becomes whole. */
  lemma FirstGrows(a: Bytes, b: Bytes)
    requires EndsInside(a)
    ensures |a| <= Taken(a + b)
    ensures forall k | 0 <= k < Taken(a + b) - |a| :: IsContinuation(b[k])
    ensures BeginsWhole(a + b) ==> |a| < Taken(a + b)
  {
    forall k | 0 <= k < Taken(a + b) - |a| ensures IsContinuation(b[k]) {
      assert b[k] == (a + b)[|a| + k];
    }
  }

  /** Every continuation byte at the beginning is a broken part of its own. */
  lemma {:induction false} LooseContinuations(bytes: Bytes, n: nat)
    requires n <= |bytes| && forall k | 0 <= k < n :: IsContinuation(bytes[k])
    ensures |DecodeLossy(bytes)| == n + |DecodeLossy(bytes[n..])|
    decreases n
  {
    if n > 0 {
      LooseContinuations(bytes[1..], n - 1);
      assert bytes[1..][n - 1..] == bytes[n..];
    } else {
      assert bytes[n..] == bytes;
    }
  }

  /** Cutting the input never makes the text shorter. */
  lemma {:induction false} NeverShorter(a: Bytes, b: Bytes)
    ensures |DecodeLossy(a)| + |DecodeLossy(b)| >= |DecodeLossy(a + b)|
    decreases |a|
  {
    if a == [] {
      assert a + b == b;
    } else if EndsInside(a) {
      CutInside(a, b);
    } else {
      OneLess(a, b);
      NeverShorter(a[Taken(a)..], b);
    }
  }

  lemma OneLess(a: Bytes, b: Bytes)
    requires a != [] && !EndsInside(a)
    ensures |DecodeLossy(a)| == 1 + |DecodeLossy(a[Taken(a)..])|
    ensures |DecodeLossy(a + b)| == 1 + |DecodeLossy(a[Taken(a)..] + b)|
  {
    FirstStays(a, b);
    RestOf(a, b, Taken(a));
  }

  lemma CutInside(a: Bytes, b: Bytes)
    requires EndsInside(a)
    ensures |DecodeLossy(a)| + |DecodeLossy(b)| == |DecodeLossy(a + b)| + Taken(a + b) - |a|
    ensures |a| <= Taken(a + b) && (BeginsWhole(a + b) ==> |a| < Taken(a + b))
  {
    FirstGrows(a, b);
    var n := Taken(a + b) - |a|;
    LooseContinuations(b, n);
    assert (a + b)[Taken(a + b)..] == b[n..];
    assert a[Taken(a)..] == [];
  }

  /** The position is the end of a character or broken part, or the beginning. */
  predicate IsBoundary(bytes: Bytes, k: nat)
    requires k <= |bytes|
    decreases k
  {
    k == 0 || (Taken(bytes) <= k && IsBoundary(bytes[Taken(bytes)..], k - Taken(bytes)))
  }

  /** At a boundary of well-formed input the two parts decode to the whole. */
  lemma {:induction false} CleanCut(a: Bytes, b: Bytes)
    requires WellFormed(a + b) && IsBoundary(a + b, |a|)
    ensures WellFormed(b) && DecodeLossy(a + b) == DecodeLossy(a) + DecodeLossy(b)
    decreases |a|
  {
    if a == [] {
      assert a + b == b;
    } else {
      CleanStart(a, b);
      CleanCut(a[Taken(a)..], b);
    }
  }

  lemma CleanStart(a: Bytes, b: Bytes)
    requires a != [] && WellFormed(a + b) && IsBoundary(a + b, |a|)
    ensures var rest := a[Taken(a)..];
            && WellFormed(rest + b) && IsBoundary(rest + b, |rest|)
            && DecodeLossy(a + b) == [First(a)] + DecodeLossy(rest + b)
  {
    NotInside(a, b);
    FirstStays(a, b);
    RestOf(a, b, Taken(a));
  }

  lemma RestOf(a: Bytes, b: Bytes, n: nat)
    requires n <= |a|
    ensures (a + b)[n..] == a[n..] + b
  {
  }

  lemma NotInside(a: Bytes, b: Bytes)
    requires a != [] && BeginsWhole(a + b) && Taken(a + b) <= |a|
    ensures !EndsInside(a)
  {
    if EndsInside(a) {
      FirstGrows(a, b);
    }
  }

  /** Inside a character of well-formed input they decode to more. */
  lemma {:induction false} UncleanCut(a: Bytes, b: Bytes)
    requires WellFormed(a + b) && !IsBoundary(a + b, |a|)
    ensures |DecodeLossy(a)| + |DecodeLossy(b)| > |DecodeLossy(a + b)|
    decreases |a|
  {
    if EndsInside(a) {
      CutInside(a, b);
    } else {
      var n := Taken(a);
      FirstStays(a, b);
      RestOf(a, b, n);
      UncleanCut(a[n..], b);
    }
  }

  function Joined(chunks: seq<Bytes>): Bytes {
    if chunks == [] then [] else chunks[0] + Joined(chunks[1..])
  }

  /** Each chunk decoded on its own. */
  function DecodeEach(chunks: seq<Bytes>): string {
    if chunks == [] then "" else DecodeLossy(chunks[0]) + DecodeEach(chunks[1..])
  }

  /** No chunk ends inside a character. */
  predicate CutsClean(chunks: seq<Bytes>) {
    chunks == [] || (IsBoundary(Joined(chunks), |chunks[0]|) && CutsClean(chunks[1..]))
  }

  lemma {:induction false} EachNeverShorter(chunks: seq<Bytes>)
    ensures |DecodeEach(chunks)| >= |DecodeLossy(Joined(chunks))|
  {
    if chunks != [] {
      EachNeverShorter(chunks[1..]);
      NeverShorter(chunks[0], Joined(chunks[1..]));
    }
  }

  /** Well-formed input decodes chunk by chunk to what it decodes to as a whole exactly if it is cut cleanly. */
  lemma {:induction false} ChunksDecodeIff(chunks: seq<Bytes>)
    requires WellFormed(Joined(chunks))
    ensures DecodeEach(chunks) == DecodeLossy(Joined(chunks)) <==> CutsClean(chunks)
  {
    if chunks != [] {
      var a, rest := chunks[0], chunks[1..];
      if IsBoundary(Joined(chunks), |a|) {
        CleanCut(a, Joined(rest));
        ChunksDecodeIff(rest);
        SameFront(DecodeLossy(a), DecodeEach(rest), DecodeLossy(Joined(rest)));
      } else {
        UncleanCut(a, Joined(rest));
        EachNeverShorter(rest);
      }
    }
  }

  lemma SameFront(a: string, b: string, c: string)
    ensures a + b == a + c <==> b == c
  {
    if a + b == a + c {
      assert b == (a + b)[|a|..] && c == (a + c)[|a|..];
    }
  }

  // ----- What is accepted, and what is replaced -----

  lemma WholeTwo(bytes: Bytes)
    requires BeginsWhole(bytes) && Taken(bytes) == 2
    ensures bytes[..2] == EncodeChar(CharOf(bytes))
  {
    var x := CharOf(bytes) as int;
    assert x / 0x40 == bytes[0] as int - 0xC0 && x % 0x40 == bytes[1] as int - 0x80;
  }

  lemma WholeThree(bytes: Bytes)
    requires BeginsWhole(bytes) && Taken(bytes) == 3
    ensures bytes[..3] == EncodeChar(CharOf(bytes))
  {
    var x := CharOf(bytes) as int;
    assert x / 0x40 == (bytes[0] as int - 0xE0) * 0x40 + (bytes[1] as int - 0x80) && x % 0x40 == bytes[2] as int - 0x80;
    assert x / 0x1000 == bytes[0] as int - 0xE0 && x / 0x40 % 0x40 == bytes[1] as int - 0x80;
    assert x >= 0x800;
  }

  lemma WholeFour(bytes: Bytes)
    requires BeginsWhole(bytes) && Taken(bytes) == 4
    ensures bytes[..4] == EncodeChar(CharOf(bytes))
  {
    var x := CharOf(bytes) as int;
    var y := ((bytes[0] as int - 0xF0) * 0x40 + (bytes[1] as int - 0x80)) * 0x40 + (bytes[2] as int - 0x80);
    assert x / 0x40 == y && x % 0x40 == bytes[3] as int - 0x80;
    assert x / 0x1000 == (bytes[0] as int - 0xF0) * 0x40 + (bytes[1] as int - 0x80) && y % 0x40 == bytes[2] as int - 0x80;
    assert x / 0x40000 == bytes[0] as int - 0xF0 && x / 0x1000 % 0x40 == bytes[1] as int - 0x80;
    assert x >= 0x10000;
  }

  /** A whole character is the encoding of the character it is decoded to: nothing else is accepted. */
  lemma WholeIsEncoded(bytes: Bytes)
    requires BeginsWhole(bytes)
    ensures bytes[..Taken(bytes)] == EncodeChar(CharOf(bytes))
  {
    match Taken(bytes)
    case 2 => WholeTwo(bytes);
    case 3 => WholeThree(bytes);
    case 4 => WholeFour(bytes);
    case _ => assert bytes[..1] == [bytes[0]];
  }

  /** A second byte for every first byte that needs one. */
  function Follower(lead: byte): byte {
    if lead == 0xE0 then 0xA0 else if lead == 0xF0 then 0x90 else 0x80
  }

  /** What could complete a broken sequence. */
  function Completion(bytes: Bytes): Bytes
    requires bytes != [] && Length(bytes[0]) > 0
  {
    var missing := Length(bytes[0]) - Span(bytes);
    if missing == 0 then []
    else if Span(bytes) == 1 then [Follower(bytes[0])] + seq(missing - 1, _ => 0x80 as byte)
    else seq(missing, _ => 0x80 as byte)
  }

  lemma CompletedIsWhole(bytes: Bytes)
    requires bytes != [] && Length(bytes[0]) > 0
    ensures BeginsWhole(bytes[..Span(bytes)] + Completion(bytes))
  {
    var all := bytes[..Span(bytes)] + Completion(bytes);
    assert all[0] == bytes[0] && |all| == Length(bytes[0]);
    assert |all| > 1 ==> MayFollow(all[0], all[1]);
    assert forall k | 2 <= k < |all| :: IsContinuation(all[k]);
  }

  lemma CannotGoOn(bytes: Bytes, tail: Bytes)
    requires bytes != [] && !BeginsWhole(bytes) && Taken(bytes) < |bytes|
    ensures !BeginsWhole(bytes[..Taken(bytes) + 1] + tail)
  {
    var all := bytes[..Taken(bytes) + 1] + tail;
    assert forall k | 0 <= k <= Taken(bytes) :: all[k] == bytes[k];
  }

  /**
   One replacement character stands for a maximal broken part: a byte that begins no character, or a
   beginning that could have been completed, but not with the byte that follows.
   */
  lemma BrokenIsMaximal(bytes: Bytes, tail: Bytes)
    requires bytes != [] && !BeginsWhole(bytes)
    ensures First(bytes) == '\U{FFFD}'
    ensures if Length(bytes[0]) == 0 then Taken(bytes) == 1 && !BeginsWhole([bytes[0]] + tail)
            else BeginsWhole(bytes[..Taken(bytes)] + Completion(bytes))
    ensures Taken(bytes) < |bytes| ==> !BeginsWhole(bytes[..Taken(bytes) + 1] + tail)
  {
    if Length(bytes[0]) > 0 { CompletedIsWhole(bytes); }
    if Taken(bytes) < |bytes| { CannotGoOn(bytes, tail); }
  }
}
