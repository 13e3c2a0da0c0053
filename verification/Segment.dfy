/**
 The segments of a compact token: base64url without padding, with one spelling for
 every byte string. Two decoders read it, the service's and the Python client's.

 Characters are bytes of the text. The library decoders they call are written out from
 section 5 of RFC 4648.
 */
module Segment {
  import opened Prelude

  /** Six bits. */
  type Sextet = v: int | 0 <= v < 64

  // The alphabet

  predicate Letter(c: char) {
    'A' <= c <= 'Z' || 'a' <= c <= 'z' || '0' <= c <= '9' || c == '-' || c == '_'
  }

  predicate AllLetters(s: string) {
    forall c <- s :: Letter(c)
  }

  function CharOf(v: Sextet): (c: char)
    ensures Letter(c)
  {
    if v < 26 then 'A' + v as char
    else if v < 52 then 'a' + (v - 26) as char
    else if v < 62 then '0' + (v - 52) as char
    else if v == 62 then '-' else '_'
  }

  /** The place of a character in the alphabet, looked for from a place on. */
  function Find(c: char, from: Sextet): Sextet
    decreases 64 - from
  {
    if from == 63 || CharOf(from) == c then from else Find(c, from + 1)
  }

  function ValueOf(c: char): Sextet {
    Find(c, 0)
  }

  lemma CharsDiffer(u: Sextet, v: Sextet)
    ensures CharOf(u) == CharOf(v) <==> u == v
  {
  }

  lemma {:induction false} FindFinds(v: Sextet, from: Sextet)
    requires from <= v
    ensures Find(CharOf(v), from) == v
    decreases 64 - from
  {
    CharsDiffer(from, v);
    if from < v {
      FindFinds(v, from + 1);
    }
  }

  /** The alphabet names every sextet once, and every letter is in it. */
  lemma ValueOfChar(v: Sextet)
    ensures ValueOf(CharOf(v)) == v
  {
    FindFinds(v, 0);
  }

  lemma CharOfValue(c: char)
    requires Letter(c)
    ensures CharOf(ValueOf(c)) == c
  {
    var v: Sextet :=
      if 'A' <= c <= 'Z' then (c - 'A') as int
      else if 'a' <= c <= 'z' then (c - 'a') as int + 26
      else if '0' <= c <= '9' then (c - '0') as int + 52
      else if c == '-' then 62 else 63;
    assert CharOf(v) == c;
    ValueOfChar(v);
  }

  function Text(values: seq<Sextet>): (s: string)
    ensures |s| == |values| && forall i :: 0 <= i < |s| ==> s[i] == CharOf(values[i])
    ensures AllLetters(s)
  {
    seq(|values|, i requires 0 <= i < |values| => CharOf(values[i]))
  }

  function Values(s: string): (values: seq<Sextet>)
    requires AllLetters(s)
    ensures |values| == |s| && forall i :: 0 <= i < |s| ==> values[i] == ValueOf(s[i])
  {
    seq(|s|, i requires 0 <= i < |s| => ValueOf(s[i]))
  }

  lemma TextOfValues(s: string)
    requires AllLetters(s)
    ensures Text(Values(s)) == s
  {
    forall i | 0 <= i < |s|
      ensures Text(Values(s))[i] == s[i]
    {
      CharOfValue(s[i]);
    }
  }

  lemma ValuesOfText(values: seq<Sextet>)
    ensures Values(Text(values)) == values
  {
    forall i | 0 <= i < |values|
      ensures Values(Text(values))[i] == values[i]
    {
      ValueOfChar(values[i]);
    }
  }

  // Three bytes and four sextets

  function First(a: Sextet, b: Sextet): Byte {
    a * 4 + b / 16
  }

  function Second(b: Sextet, c: Sextet): Byte {
    b % 16 * 16 + c / 4
  }

  function Third(c: Sextet, d: Sextet): Byte {
    c % 4 * 64 + d
  }

  function Pack3(a: Byte, b: Byte, c: Byte): (v: seq<Sextet>)
    ensures |v| == 4
  {
    [a / 4, a % 4 * 16 + b / 16, b % 16 * 4 + c / 64, c % 64]
  }

  function Unpack4(a: Sextet, b: Sextet, c: Sextet, d: Sextet): (bytes: seq<Byte>)
    ensures |bytes| == 3
  {
    [First(a, b), Second(b, c), Third(c, d)]
  }

  lemma UnpackPacked(a: Byte, b: Byte, c: Byte)
    ensures var v := Pack3(a, b, c); Unpack4(v[0], v[1], v[2], v[3]) == [a, b, c]
  {
    Cut16(a % 4, b / 16);
    Cut4(b % 16, c / 64);
  }

  lemma Cut4(h: int, l: int)
    requires 0 <= l < 4
    ensures (h * 4 + l) / 4 == h && (h * 4 + l) % 4 == l
  {
  }

  lemma Cut16(h: int, l: int)
    requires 0 <= l < 16
    ensures (h * 16 + l) / 16 == h && (h * 16 + l) % 16 == l
  {
  }

  lemma Cut64(h: int, l: int)
    requires 0 <= l < 64
    ensures (h * 64 + l) / 64 == h && (h * 64 + l) % 64 == l
  {
  }

  lemma FirstSextet(a: Sextet, b: Sextet)
    ensures First(a, b) / 4 == a && First(a, b) % 4 == b / 16
  {
    Cut4(a, b / 16);
  }

  lemma SecondSextet(b: Sextet, c: Sextet)
    ensures b / 16 * 16 + Second(b, c) / 16 == b && Second(b, c) % 16 == c / 4
  {
    Cut16(b % 16, c / 4);
  }

  lemma ThirdSextet(c: Sextet, d: Sextet)
    ensures c / 4 * 4 + Third(c, d) / 64 == c && Third(c, d) % 64 == d
  {
    Cut64(c % 4, d);
  }

  /** The sextets of a byte string; the last group is as short as it can be. */
  function Pack(b: seq<Byte>): (v: seq<Sextet>) {
    if |b| == 0 then []
    else if |b| == 1 then Pack3(b[0], 0, 0)[..2]
    else if |b| == 2 then Pack3(b[0], b[1], 0)[..3]
    else Pack3(b[0], b[1], b[2]) + Pack(b[3..])
  }

  /** The strict reading: the bits a short last group does not use have to be zero. */
  function Unpack(v: seq<Sextet>): Option<seq<Byte>> {
    if |v| == 0 then Some([])
    else if |v| == 1 then None
    else if |v| == 2 then
      var u := Unpack4(v[0], v[1], 0, 0);
      if u[1] != 0 || u[2] != 0 then None else Some(u[..1])
    else if |v| == 3 then
      var u := Unpack4(v[0], v[1], v[2], 0);
      if u[2] != 0 then None else Some(u[..2])
    else
      match Unpack(v[4..])
      case None => None
      case Some(rest) => Some(Unpack4(v[0], v[1], v[2], v[3]) + rest)
  }

  lemma {:induction false} UnpackOfPack(b: seq<Byte>)
    ensures Unpack(Pack(b)) == Some(b)
  {
    var v := Pack(b);
    if |b| == 1 {
      UnpackPacked(b[0], 0, 0);
      assert Unpack4(v[0], v[1], 0, 0) == [b[0], 0, 0];
      assert [b[0], 0, 0][..1] == b;
    } else if |b| == 2 {
      UnpackPacked(b[0], b[1], 0);
      assert Unpack4(v[0], v[1], v[2], 0) == [b[0], b[1], 0];
      assert [b[0], b[1], 0][..2] == b;
    } else if |b| >= 3 {
      UnpackPacked(b[0], b[1], b[2]);
      UnpackOfPack(b[3..]);
      assert v[4..] == Pack(b[3..]) && v[..4] == Pack3(b[0], b[1], b[2]);
      assert [b[0], b[1], b[2]] + b[3..] == b;
    }
  }

  lemma {:induction false} PackOfUnpack(v: seq<Sextet>)
    requires Unpack(v).Some?
    ensures Pack(Unpack(v).value) == v
  {
    if |v| == 2 {
      FirstSextet(v[0], v[1]);
    } else if |v| == 3 {
      SecondSextet(v[1], v[2]);
      FirstSextet(v[0], v[1]);
    } else if |v| >= 4 {
      PackOfUnpack(v[4..]);
      FirstSextet(v[0], v[1]);
      SecondSextet(v[1], v[2]);
      ThirdSextet(v[2], v[3]);
      assert Unpack(v).value[3..] == Unpack(v[4..]).value;
    }
  }

  // The service's codec

  function Encode(b: seq<Byte>): (s: string)
    ensures AllLetters(s)
  {
    Text(Pack(b))
  }

  function WithoutNewlines(s: string): string {
    if |s| == 0 then []
    else if s[0] == '\n' || s[0] == '\r' then WithoutNewlines(s[1..])
    else [s[0]] + WithoutNewlines(s[1..])
  }

  /** The library's strict decoder, which passes over newlines wherever they stand. */
  function LibraryDecode(s: string): Option<seq<Byte>> {
    DecodeLetters(WithoutNewlines(s))
  }

  function DecodeLetters(s: string): Option<seq<Byte>> {
    if AllLetters(s) then Unpack(Values(s)) else None
  }

  function Decode(s: string): Option<seq<Byte>> {
    if |s| == 0 || !AllLetters(s) then None else LibraryDecode(s)
  }

  /** The loop over the alphabet. */
  method OnlyLetters(s: string) returns (ok: bool)
    ensures ok <==> AllLetters(s)
  {
    for i := 0 to |s|
      invariant forall j :: 0 <= j < i ==> Letter(s[j])
    {
      if !Letter(s[i]) {
        return false;
      }
    }
    ok := true;
  }

  method DecodeSegment(s: string) returns (b: Option<seq<Byte>>)
    ensures b == Decode(s)
  {
    if |s| == 0 {
      return None;
    }
    var ok := OnlyLetters(s);
    if !ok {
      return None;
    }
    b := LibraryDecode(s);
  }

  lemma {:induction false} LettersHaveNoNewlines(s: string)
    requires AllLetters(s)
    ensures WithoutNewlines(s) == s
  {
    if |s| > 0 {
      assert s[0] in s;
      LettersHaveNoNewlines(s[1..]);
    }
  }

  /** Encoding and decoding are inverse bijections between non-empty byte strings and accepted segments. */
  lemma SegmentsAreBytes(b: seq<Byte>, s: string)
    ensures |b| > 0 ==> Decode(Encode(b)) == Some(b)
    ensures Decode(s).Some? ==> |Decode(s).value| > 0 && Encode(Decode(s).value) == s
  {
    UnpackOfPack(b);
    ValuesOfText(Pack(b));
    LettersHaveNoNewlines(Encode(b));
    if Decode(s).Some? {
      LettersHaveNoNewlines(s);
      PackOfUnpack(Values(s));
      TextOfValues(s);
    }
  }

  /** The library reads the same text with a newline put anywhere: alone it would give one byte string many spellings. */
  lemma {:induction false} NewlinesAreInvisible(a: string, newline: char, b: string)
    requires newline == '\n' || newline == '\r'
    ensures WithoutNewlines(a + [newline] + b) == WithoutNewlines(a + b)
  {
    if |a| == 0 {
      assert a + b == b && (a + [newline] + b)[1..] == b;
    } else {
      NewlinesAreInvisible(a[1..], newline, b);
      assert (a + [newline] + b)[1..] == a[1..] + [newline] + b && (a + b)[1..] == a[1..] + b;
    }
  }

  // A token is three segments

  function Token(header: seq<Byte>, claims: seq<Byte>, signature: seq<Byte>): string {
    Encode(header) + "." + Encode(claims) + "." + Encode(signature)
  }

  /** The text between dots. */
  function Split(s: string): (parts: seq<string>)
    ensures |parts| >= 1
  {
    if |s| == 0 then [""]
    else
      var rest := Split(s[1..]);
      if s[0] == '.' then [""] + rest else [[s[0]] + rest[0]] + rest[1..]
  }

  function Joined(parts: seq<string>): string
    requires |parts| >= 1
  {
    if |parts| == 1 then parts[0] else parts[0] + "." + Joined(parts[1..])
  }

  lemma {:induction false} JoinedSplit(s: string)
    ensures Joined(Split(s)) == s
  {
    if |s| > 0 {
      JoinedSplit(s[1..]);
      var rest := Split(s[1..]);
      if s[0] == '.' {
        assert ([""] + rest)[1..] == rest;
      } else {
        assert ([[s[0]] + rest[0]] + rest[1..])[1..] == rest[1..];
      }
    }
  }

  lemma {:induction false} SplitAtDot(a: string, b: string)
    requires '.' !in a
    ensures Split(a + "." + b) == [a] + Split(b)
  {
    if |a| == 0 {
      assert (a + "." + b)[1..] == b;
    } else {
      assert (a + "." + b)[1..] == a[1..] + "." + b && a[0] in a;
      SplitAtDot(a[1..], b);
      assert ([a[1..]] + Split(b))[1..] == Split(b) && [a[0]] + a[1..] == a;
    }
  }

  lemma {:induction false} SplitWithoutDot(a: string)
    requires '.' !in a
    ensures Split(a) == [a]
  {
    if |a| > 0 {
      assert a[0] in a && [a[0]] + a[1..] == a;
      SplitWithoutDot(a[1..]);
    }
  }

  function DecodeToken(s: string): Option<(seq<Byte>, seq<Byte>, seq<Byte>)> {
    var parts := Split(s);
    if |parts| != 3 then None
    else
      match (Decode(parts[0]), Decode(parts[1]), Decode(parts[2]))
      case (Some(h), Some(c), Some(g)) => Some((h, c, g))
      case _ => None
  }

  /** The three decoded parts fix the text of the token: no other text decodes to them. */
  lemma DecodedPartsFixToken(s: string, header: seq<Byte>, claims: seq<Byte>, signature: seq<Byte>)
    requires |header| > 0 && |claims| > 0 && |signature| > 0
    ensures DecodeToken(s) == Some((header, claims, signature)) <==> s == Token(header, claims, signature)
  {
    var a, b, c := Encode(header), Encode(claims), Encode(signature);
    TokenSplits(header, claims, signature);
    SegmentsAreBytes(header, a);
    SegmentsAreBytes(claims, b);
    SegmentsAreBytes(signature, c);
    if DecodeToken(s) == Some((header, claims, signature)) {
      var parts := Split(s);
      SegmentsAreBytes(header, parts[0]);
      SegmentsAreBytes(claims, parts[1]);
      SegmentsAreBytes(signature, parts[2]);
      JoinedSplit(s);
      assert parts == [a, b, c];
      JoinedThree(a, b, c);
    }
  }

  lemma JoinedThree(a: string, b: string, c: string)
    ensures Joined([a, b, c]) == a + "." + b + "." + c
  {
    assert [a, b, c][1..] == [b, c] && [b, c][1..] == [c];
    assert Joined([c]) == c && Joined([b, c]) == b + "." + c;
    assert a + "." + (b + "." + c) == a + "." + b + "." + c;
  }

  lemma TokenSplits(header: seq<Byte>, claims: seq<Byte>, signature: seq<Byte>)
    ensures Split(Token(header, claims, signature)) == [Encode(header), Encode(claims), Encode(signature)]
  {
    var a, b, c := Encode(header), Encode(claims), Encode(signature);
    assert !Letter('.');
    assert a + "." + b + "." + c == a + "." + (b + "." + c);
    SplitAtDot(a, b + "." + c);
    SplitAtDot(b, c);
    SplitWithoutDot(c);
  }

  // The Python client's codec

  const PAD := '='

  /** The padded encoding: every group has four characters. */
  function PaddedText(b: seq<Byte>): string {
    Text(Pack(b)) + Padding(|Pack(b)|)
  }

  /** As many pad characters as take n to a multiple of four. */
  function Padding(n: nat): (p: string)
    ensures (n + |p|) % 4 == 0 && |p| < 4 && forall i :: 0 <= i < |p| ==> p[i] == PAD
  {
    if n % 4 == 0 then [] else seq(4 - n % 4, _ => PAD)
  }

  function StripPadding(s: string): string {
    if |s| > 0 && s[|s| - 1] == PAD then StripPadding(s[..|s| - 1]) else s
  }

  function PyEncode(b: seq<Byte>): string {
    StripPadding(PaddedText(b))
  }

  datatype Symbol = Bits(value: Sextet) | Pad | Other

  function SymbolOf(c: char): Symbol {
    if Letter(c) then Bits(ValueOf(c)) else if c == PAD then Pad else Other
  }

  function Symbols(s: string): (r: seq<Symbol>)
    ensures |r| == |s| && forall i :: 0 <= i < |s| ==> r[i] == SymbolOf(s[i])
  {
    seq(|s|, i requires 0 <= i < |s| => SymbolOf(s[i]))
  }

  /**
   The lenient decoder: it emits a byte as soon as it has the bits, ends at the padding
   that completes a group, passes over other characters, and looks at no unused bit.
   */
  function Lenient(s: seq<Symbol>, pos: nat, last: Sextet, pads: nat): Option<seq<Byte>> {
    if |s| == 0 then if pos == 0 then Some([]) else None
    else
      match s[0]
      case Other => Lenient(s[1..], pos, last, pads)
      case Pad =>
        if pos >= 2 && pos + pads + 1 >= 4 then Some([])
        else Lenient(s[1..], pos, last, if pos >= 2 then pads + 1 else pads)
      case Bits(v) =>
        if pos == 0 then Lenient(s[1..], 1, v, 0)
        else if pos == 1 then Emit(First(last, v), Lenient(s[1..], 2, v, 0))
        else if pos == 2 then Emit(Second(last, v), Lenient(s[1..], 3, v, 0))
        else Emit(Third(last, v), Lenient(s[1..], 0, 0, 0))
  }

  function Emit(b: Byte, rest: Option<seq<Byte>>): Option<seq<Byte>> {
    if rest.None? then None else Some([b] + rest.value)
  }

  function PyDecode(s: string): Option<seq<Byte>> {
    if |s| == 0 || !AllLetters(s) then None
    else
      match Lenient(Symbols(s + Padding(|s|)), 0, 0, 0)
      case None => None
      case Some(raw) => if PyEncode(raw) != s then None else Some(raw)
  }

  lemma {:induction false} StripAppendedPadding(s: string, p: string)
    requires AllLetters(s) && forall i :: 0 <= i < |p| ==> p[i] == PAD
    ensures StripPadding(s + p) == s
  {
    if |p| == 0 {
      assert s + p == s;
      assert |s| > 0 ==> Letter(s[|s| - 1]);
    } else {
      assert (s + p)[..|s + p| - 1] == s + p[..|p| - 1] && p[|p| - 1] in p;
      StripAppendedPadding(s, p[..|p| - 1]);
    }
  }

  /** Both sides write the same segment. */
  lemma EncodersAgree(b: seq<Byte>)
    ensures PyEncode(b) == Encode(b)
  {
    StripAppendedPadding(Encode(b), Padding(|Pack(b)|));
  }

  lemma LenientBits(v: Sextet, t: seq<Symbol>, pos: nat, last: Sextet)
    requires pos < 4
    ensures Lenient([Bits(v)] + t, pos, last, 0) ==
            if pos == 0 then Lenient(t, 1, v, 0)
            else if pos == 1 then Emit(First(last, v), Lenient(t, 2, v, 0))
            else if pos == 2 then Emit(Second(last, v), Lenient(t, 3, v, 0))
            else Emit(Third(last, v), Lenient(t, 0, 0, 0))
  {
    assert ([Bits(v)] + t)[1..] == t;
  }

  /** Four sextets of the lenient decoder are one group of the strict one. */
  lemma LenientGroup(a: Sextet, b: Sextet, c: Sextet, d: Sextet, t: seq<Symbol>)
    ensures Lenient([Bits(a)] + ([Bits(b)] + ([Bits(c)] + ([Bits(d)] + t))), 0, 0, 0) ==
            Emit(First(a, b), Emit(Second(b, c), Emit(Third(c, d), Lenient(t, 0, 0, 0))))
  {
    LenientBits(d, t, 3, c);
    LenientBits(c, [Bits(d)] + t, 2, b);
    LenientBits(b, [Bits(c)] + ([Bits(d)] + t), 1, a);
    LenientBits(a, [Bits(b)] + ([Bits(c)] + ([Bits(d)] + t)), 0, 0);
  }

  lemma LenientLastOne(a: Sextet, b: Sextet)
    ensures Lenient([Bits(a)] + ([Bits(b)] + [Pad, Pad]), 0, 0, 0) == Some([First(a, b)])
  {
    LenientBits(b, [Pad, Pad], 1, a);
    LenientBits(a, [Bits(b)] + [Pad, Pad], 0, 0);
    assert [Pad, Pad][1..] == [Pad];
    assert Lenient([Pad], 2, b, 1) == Some([]);
    assert Lenient([Pad, Pad], 2, b, 0) == Some([]);
    assert [First(a, b)] + [] == [First(a, b)];
  }

  lemma LenientLastTwo(a: Sextet, b: Sextet, c: Sextet)
    ensures Lenient([Bits(a)] + ([Bits(b)] + ([Bits(c)] + [Pad])), 0, 0, 0) == Some([First(a, b), Second(b, c)])
  {
    LenientBits(c, [Pad], 2, b);
    LenientBits(b, [Bits(c)] + [Pad], 1, a);
    LenientBits(a, [Bits(b)] + ([Bits(c)] + [Pad]), 0, 0);
    assert Lenient([Pad], 3, c, 0) == Some([]);
    assert [First(a, b)] + ([Second(b, c)] + []) == [First(a, b), Second(b, c)];
  }

  function PaddedSymbols(v: seq<Sextet>): seq<Symbol> {
    seq(|v|, i requires 0 <= i < |v| => Bits(v[i])) + seq(|Padding(|v|)|, _ => Pad)
  }

  lemma SymbolsOfPadded(b: seq<Byte>)
    ensures Symbols(PaddedText(b)) == PaddedSymbols(Pack(b))
  {
    var v := Pack(b);
    forall i | 0 <= i < |PaddedText(b)|
      ensures Symbols(PaddedText(b))[i] == PaddedSymbols(v)[i]
    {
      if i < |v| {
        assert PaddedText(b)[i] == CharOf(v[i]);
        ValueOfChar(v[i]);
      } else {
        assert PaddedText(b)[i] == Padding(|v|)[i - |v|];
      }
    }
  }

  lemma PaddedGroup(a: Sextet, b: Sextet, c: Sextet, d: Sextet, rest: seq<Sextet>)
    ensures PaddedSymbols([a, b, c, d] + rest) ==
            [Bits(a)] + ([Bits(b)] + ([Bits(c)] + ([Bits(d)] + PaddedSymbols(rest))))
  {
    assert |Padding(|rest| + 4)| == |Padding(|rest|)|;
  }

  lemma {:induction false} LenientReadsPacked(b: seq<Byte>)
    ensures Lenient(PaddedSymbols(Pack(b)), 0, 0, 0) == Some(b)
  {
    var v := Pack(b);
    UnpackOfPack(b);
    if |b| == 0 {
      assert PaddedSymbols(v) == [];
    } else if |b| == 1 {
      assert PaddedSymbols(v) == [Bits(v[0])] + ([Bits(v[1])] + [Pad, Pad]);
      LenientLastOne(v[0], v[1]);
      assert Unpack4(v[0], v[1], 0, 0)[..1] == [First(v[0], v[1])];
    } else if |b| == 2 {
      assert PaddedSymbols(v) == [Bits(v[0])] + ([Bits(v[1])] + ([Bits(v[2])] + [Pad]));
      LenientLastTwo(v[0], v[1], v[2]);
      assert Unpack4(v[0], v[1], v[2], 0)[..2] == [First(v[0], v[1]), Second(v[1], v[2])];
    } else if |b| >= 3 {
      LenientReadsPacked(b[3..]);
      UnpackPacked(b[0], b[1], b[2]);
      var g := Pack3(b[0], b[1], b[2]);
      PaddedGroup(g[0], g[1], g[2], g[3], Pack(b[3..]));
      LenientGroup(g[0], g[1], g[2], g[3], PaddedSymbols(Pack(b[3..])));
      assert v == [g[0], g[1], g[2], g[3]] + Pack(b[3..]);
      assert Unpack4(g[0], g[1], g[2], g[3]) == [First(g[0], g[1]), Second(g[1], g[2]), Third(g[2], g[3])];
      assert Lenient(PaddedSymbols(v), 0, 0, 0) == Emit(b[0], Emit(b[1], Emit(b[2], Some(b[3..]))));
      assert [b[0]] + ([b[1]] + ([b[2]] + b[3..])) == b;
    }
  }

  /** The client accepts exactly the segments the service does, with the same bytes. */
  lemma DecodersAgree(s: string)
    ensures PyDecode(s) == Decode(s)
  {
    if Decode(s).Some? {
      var b := Decode(s).value;
      SegmentsAreBytes(b, s);
      LenientReadsPacked(b);
      SymbolsOfPadded(b);
      EncodersAgree(b);
      assert s + Padding(|s|) == PaddedText(b);
    } else if PyDecode(s).Some? {
      var raw := PyDecode(s).value;
      EncodersAgree(raw);
      SegmentsAreBytes(raw, s);
    }
  }
}
