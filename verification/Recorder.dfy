/**
 The scrubbing of a serialised audit detail, against a reader of JSON text.
 */
module Recorder {
  import opened Prelude

  const BACKSLASH: Byte := 92
  const QUOTE: Byte := 34
  const REPLACEMENT_ESCAPE: Bytes := [92, 117, 102, 102, 102, 100]
  const REPLACEMENT_CODE := 0xFFFD

  // Reading JSON text, section 7 of RFC 8259

  /**
   What a reader makes of JSON text: the bytes outside its strings as they stand, and
   inside a string one UTF-16 code unit for an escape or an ASCII character, one byte
   for a part of a longer UTF-8 sequence.
   */
  datatype Token = Structure(byte: Byte) | Open | Close | Unit(code: nat) | Utf8(byte: Byte)

  function HexValue(b: Byte): Option<nat> {
    if 48 <= b <= 57 then Some(b - 48)
    else if 65 <= b <= 70 then Some(b - 55)
    else if 97 <= b <= 102 then Some(b - 87)
    else None
  }

  /** The code unit spelled by the first four bytes, if they are hexadecimal digits. */
  function FourHex(bs: seq<Byte>): Option<nat> {
    if |bs| < 4 then None
    else
      match (HexValue(bs[0]), HexValue(bs[1]), HexValue(bs[2]), HexValue(bs[3]))
      case (Some(a), Some(b), Some(c), Some(d)) => Some(4096 * a + 256 * b + 16 * c + d)
      case _ => None
  }

  /** The character a two-byte escape stands for. */
  function ShortEscape(b: Byte): Option<nat> {
    if b == 34 || b == 92 || b == 47 then Some(b)
    else if b == 98 then Some(8)
    else if b == 102 then Some(12)
    else if b == 110 then Some(10)
    else if b == 114 then Some(13)
    else if b == 116 then Some(9)
    else None
  }

  function Prepend(t: Token, rest: Option<seq<Token>>): Option<seq<Token>> {
    if rest.None? then None else Some([t] + rest.value)
  }

  /** None when the text is malformed: an open string, a stray backslash, a bad escape, a bare control character. */
  function Read(raw: seq<Byte>, inString: bool): Option<seq<Token>>
    decreases |raw|
  {
    if |raw| == 0 then if inString then None else Some([])
    else if !inString then
      if raw[0] == BACKSLASH then None
      else if raw[0] == QUOTE then Prepend(Open, Read(raw[1..], true))
      else Prepend(Structure(raw[0]), Read(raw[1..], false))
    else if raw[0] == QUOTE then Prepend(Close, Read(raw[1..], false))
    else if raw[0] != BACKSLASH then
      if raw[0] < 32 then None
      else Prepend(if raw[0] < 128 then Unit(raw[0]) else Utf8(raw[0]), Read(raw[1..], true))
    else if |raw| == 1 then None
    else if raw[1] == 117 then
      var code := FourHex(raw[2..]);
      if code.None? then None else Prepend(Unit(code.value), Read(raw[6..], true))
    else
      var code := ShortEscape(raw[1]);
      if code.None? then None else Prepend(Unit(code.value), Read(raw[2..], true))
  }

  // The reader against the grammar

  /** The byte is the digit of a value, in either case. */
  predicate Digit(b: Byte, v: int) {
    (0 <= v <= 9 && b == '0' as int + v) || (10 <= v <= 15 && (b == 'a' as int + (v - 10) || b == 'A' as int + (v - 10)))
  }

  lemma HexValueIsDigit(b: Byte, v: int)
    ensures HexValue(b) == Some(v) <==> Digit(b, v)
  {
  }

  /** The two-character escapes of section 7. */
  predicate Short(b: Byte, code: nat) {
    (b, code) in {(34, 34), (92, 92), (47, 47), (98, 0x8), (102, 0xC), (110, 0xA), (114, 0xD), (116, 0x9)}
  }

  predicate Digits(s: seq<Byte>, a: int, b: int, c: int, d: int)
    requires |s| >= 4
  {
    Digit(s[0], a) && Digit(s[1], b) && Digit(s[2], c) && Digit(s[3], d)
  }

  /** The four digits of a code unit. */
  ghost predicate Four(s: seq<Byte>, code: nat) {
    |s| == 4 && exists a, b, c, d :: Digits(s, a, b, c, d) && code == 4096 * a + 256 * b + 16 * c + d
  }

  lemma DigitsAreValues(s: seq<Byte>, a: int, b: int, c: int, d: int)
    requires |s| >= 4
    ensures Digits(s, a, b, c, d) <==>
            HexValue(s[0]) == Some(a) && HexValue(s[1]) == Some(b) && HexValue(s[2]) == Some(c) && HexValue(s[3]) == Some(d)
  {
    HexValueIsDigit(s[0], a);
    HexValueIsDigit(s[1], b);
    HexValueIsDigit(s[2], c);
    HexValueIsDigit(s[3], d);
  }

  lemma FourHexIsFour(s: seq<Byte>, code: nat)
    requires |s| >= 4
    ensures FourHex(s) == Some(code) <==> Four(s[..4], code)
  {
    if FourHex(s).Some? {
      DigitsAreValues(s[..4], HexValue(s[0]).value, HexValue(s[1]).value, HexValue(s[2]).value, HexValue(s[3]).value);
    }
    if Four(s[..4], code) {
      var a, b, c, d :| Digits(s[..4], a, b, c, d) && code == 4096 * a + 256 * b + 16 * c + d;
      DigitsAreValues(s[..4], a, b, c, d);
    }
  }

  /** How a token may be spelled. */
  ghost predicate Spells(t: Token, s: seq<Byte>, inString: bool) {
    match t
    case Structure(b) => !inString && s == [b] && b != QUOTE && b != BACKSLASH
    case Open => !inString && s == [QUOTE]
    case Close => inString && s == [QUOTE]
    case Utf8(b) => inString && s == [b] && b >= 128
    case Unit(code) =>
      inString && |s| > 0 &&
      ((s[0] != BACKSLASH && s[0] != QUOTE && |s| == 1 && s[0] == code && 32 <= code < 128) ||
       (s[0] == BACKSLASH && |s| == 2 && Short(s[1], code)) ||
       (s[0] == BACKSLASH && |s| == 6 && s[1] == 117 && Four(s[2..], code)))
  }

  predicate Inside(t: Token, inString: bool) {
    t.Open? || (inString && !t.Close?)
  }

  /** The first token of a text and the bytes it takes. */
  function First(raw: seq<Byte>, inString: bool): Option<(Token, nat)>
    requires |raw| > 0
  {
    if !inString then
      if raw[0] == BACKSLASH then None else Some((if raw[0] == QUOTE then Open else Structure(raw[0]), 1))
    else if raw[0] == QUOTE then Some((Close, 1))
    else if raw[0] != BACKSLASH then
      if raw[0] < 32 then None else Some((if raw[0] < 128 then Unit(raw[0]) else Utf8(raw[0]), 1))
    else if |raw| == 1 then None
    else if raw[1] == 117 then
      if FourHex(raw[2..]).None? then None else Some((Unit(FourHex(raw[2..]).value), 6))
    else if ShortEscape(raw[1]).None? then None
    else Some((Unit(ShortEscape(raw[1]).value), 2))
  }

  lemma ReadsFirst(raw: seq<Byte>, inString: bool)
    requires |raw| > 0
    ensures var first := First(raw, inString);
            if first.None? then Read(raw, inString) == None
            else 0 < first.value.1 <= |raw| &&
                 Read(raw, inString) == Prepend(first.value.0, Read(raw[first.value.1..], Inside(first.value.0, inString)))
  {
  }

  lemma FirstIsSpelled(raw: seq<Byte>, inString: bool, t: Token, k: nat)
    requires |raw| > 0
    ensures First(raw, inString) == Some((t, k)) <==> 0 < k <= |raw| && Spells(t, raw[..k], inString)
  {
    if |raw| >= 6 {
      assert raw[..6][2..] == raw[2..][..4];
      forall code: nat
        ensures FourHex(raw[2..]) == Some(code) <==> Four(raw[2..][..4], code)
      {
        FourHexIsFour(raw[2..], code);
      }
    }
  }

  /** A text is the spellings of its tokens, one after another, and ends outside a string. */
  ghost predicate IsText(raw: seq<Byte>, inString: bool, tokens: seq<Token>)
    decreases |tokens|
  {
    if |tokens| == 0 then raw == [] && !inString
    else exists k: nat :: 0 < k <= |raw| && Spells(tokens[0], raw[..k], inString) &&
                          IsText(raw[k..], Inside(tokens[0], inString), tokens[1..])
  }

  /** The reader finds tokens in a text exactly when the text spells them. */
  lemma {:induction false} ReadsWhatIsSpelled(raw: seq<Byte>, inString: bool, tokens: seq<Token>)
    ensures Read(raw, inString) == Some(tokens) <==> IsText(raw, inString, tokens)
    decreases |tokens|
  {
    if |raw| > 0 {
      ReadsFirst(raw, inString);
      if |tokens| > 0 {
        forall k: nat
          ensures First(raw, inString) == Some((tokens[0], k)) <==> 0 < k <= |raw| && Spells(tokens[0], raw[..k], inString)
        {
          FirstIsSpelled(raw, inString, tokens[0], k);
        }
        if First(raw, inString).Some? && First(raw, inString).value.0 == tokens[0] {
          var k := First(raw, inString).value.1;
          ReadsWhatIsSpelled(raw[k..], Inside(tokens[0], inString), tokens[1..]);
          assert tokens == [tokens[0]] + tokens[1..];
        }
      }
    }
  }

  /** U+0000 becomes U+FFFD and everything else stays. */
  function WithoutNul(t: Token): Token {
    if t == Unit(0) then Unit(REPLACEMENT_CODE) else t
  }

  function EachWithoutNul(tokens: seq<Token>): (r: seq<Token>)
    ensures |r| == |tokens|
    ensures forall i :: 0 <= i < |tokens| ==> r[i] == WithoutNul(tokens[i])
  {
    seq(|tokens|, i requires 0 <= i < |tokens| => WithoutNul(tokens[i]))
  }

  function AllWithoutNul(tokens: Option<seq<Token>>): Option<seq<Token>> {
    if tokens.None? then None else Some(EachWithoutNul(tokens.value))
  }

  lemma PrependWithoutNul(t: Token, rest: Option<seq<Token>>)
    ensures AllWithoutNul(Prepend(t, rest)) == Prepend(WithoutNul(t), AllWithoutNul(rest))
  {
    if rest.Some? {
      assert EachWithoutNul([t] + rest.value) == [WithoutNul(t)] + EachWithoutNul(rest.value);
    }
  }

  // Scrubbing

  /** Whether the escape of U+0000 stands at the front. */
  predicate NulEscape(raw: seq<Byte>) {
    |raw| >= 6 && raw[0] == BACKSLASH && raw[1] == 117 && raw[2] == 48 && raw[3] == 48 && raw[4] == 48 && raw[5] == 48
  }

  /** How many bytes one turn of the loop reads, and what it writes for them. */
  function Consumed(raw: seq<Byte>): (k: nat)
    requires |raw| > 0
    ensures 0 < k <= |raw|
  {
    if raw[0] != BACKSLASH || |raw| == 1 then 1 else if NulEscape(raw) then 6 else 2
  }

  function Written(raw: seq<Byte>): (out: seq<Byte>)
    requires |raw| > 0
    ensures |out| == Consumed(raw)
  {
    if NulEscape(raw) then REPLACEMENT_ESCAPE else if Consumed(raw) == 1 then [raw[0]] else [raw[0], raw[1]]
  }

  /** What the loop of scrubNUL makes of the bytes it has still to read. */
  function Scrub(raw: seq<Byte>): (out: seq<Byte>)
    ensures |out| == |raw|
    decreases |raw|
  {
    if |raw| == 0 then [] else Written(raw) + Scrub(raw[Consumed(raw)..])
  }

  predicate ContainsNul(raw: seq<Byte>) {
    exists i :: 0 <= i <= |raw| && NulEscape(raw[i..])
  }

  method ScrubNul(raw: seq<Byte>) returns (out: seq<Byte>)
    ensures out == Scrub(raw)
  {
    if !ContainsNul(raw) {
      NothingToScrub(raw);
      return raw;
    }
    out := [];
    var i := 0;
    while i < |raw|
      invariant |out| == i <= |raw|
      invariant out + Scrub(raw[i..]) == Scrub(raw)
    {
      Advance(out, raw[i..], Scrub(raw));
      assert raw[i..][Consumed(raw[i..])..] == raw[i + Consumed(raw[i..])..];
      if raw[i] != BACKSLASH || i + 1 >= |raw| {
        out := out + [raw[i]];
        i := i + 1;
      } else if NulEscape(raw[i..]) {
        out := out + REPLACEMENT_ESCAPE;
        i := i + 6;
      } else {
        out := out + [raw[i], raw[i + 1]];
        i := i + 2;
      }
    }
  }

  lemma Advance(out: seq<Byte>, rest: seq<Byte>, whole: seq<Byte>)
    requires |rest| > 0 && out + Scrub(rest) == whole
    ensures (out + Written(rest)) + Scrub(rest[Consumed(rest)..]) == whole
  {
    Regroup(out, Written(rest), Scrub(rest[Consumed(rest)..]));
  }

  lemma ContainsTail(raw: seq<Byte>, k: nat)
    requires k <= |raw| && ContainsNul(raw[k..])
    ensures ContainsNul(raw)
  {
    var i :| 0 <= i <= |raw[k..]| && NulEscape(raw[k..][i..]);
    assert raw[k..][i..] == raw[k + i..];
  }

  /** The early return: with no escape to be found, the loop would have copied the bytes. */
  lemma {:induction false} NothingToScrub(raw: seq<Byte>)
    requires !ContainsNul(raw)
    ensures Scrub(raw) == raw
    decreases |raw|
  {
    if |raw| > 0 {
      var k := Consumed(raw);
      assert raw[0..] == raw;
      if ContainsNul(raw[k..]) {
        ContainsTail(raw, k);
      }
      NothingToScrub(raw[k..]);
    }
  }

  /** Up to its first backslash, scrubbing changes nothing, and that backslash stays where it is. */
  lemma {:induction false} LeadingBytes(raw: seq<Byte>, k: nat)
    requires k <= |raw| && BACKSLASH !in raw[..k]
    ensures Scrub(raw)[k..] == Scrub(raw[k..])
    ensures forall i :: 0 <= i < k ==> Scrub(raw)[i] == raw[i]
    ensures k < |raw| && raw[k] == BACKSLASH ==> Scrub(raw)[k] == BACKSLASH
    decreases k
  {
    if k > 0 {
      var tail := raw[1..];
      assert raw[0] == raw[..k][0];
      assert tail[..k - 1] == raw[..k][1..];
      LeadingBytes(tail, k - 1);
      assert Scrub(raw)[1..] == Scrub(tail);
      assert tail[k - 1..] == raw[k..];
      assert Scrub(raw)[k..] == Scrub(tail)[k - 1..];
      forall i | 0 <= i < k
        ensures Scrub(raw)[i] == raw[i]
      {
        if i > 0 {
          assert Scrub(raw)[1..][i - 1] == Scrub(tail)[i - 1] == tail[i - 1];
        }
      }
    }
  }

  /** Whether four hexadecimal digits stand at the front, and which, survives scrubbing. */
  lemma FourHexScrub(raw: seq<Byte>)
    ensures FourHex(Scrub(raw)) == FourHex(raw)
    ensures FourHex(raw).Some? ==> Scrub(raw)[4..] == Scrub(raw[4..])
  {
    if |raw| >= 4 {
      if raw[0] == BACKSLASH {
        LeadingBytes(raw, 0);
      } else if raw[1] == BACKSLASH {
        LeadingBytes(raw, 1);
      } else if raw[2] == BACKSLASH {
        LeadingBytes(raw, 2);
      } else if raw[3] == BACKSLASH {
        LeadingBytes(raw, 3);
      } else {
        LeadingBytes(raw, 4);
      }
    }
  }

  lemma ZeroIsNul(raw: seq<Byte>)
    requires |raw| >= 2 && raw[0] == BACKSLASH && raw[1] == 117
    ensures FourHex(raw[2..]) == Some(0) <==> NulEscape(raw)
  {
  }

  /**
   Reading scrubbed text gives what reading the text gives, with each U+0000 inside a
   string replaced and nothing else changed; text that is malformed stays malformed.
   */
  lemma {:induction false} ScrubbedReading(raw: seq<Byte>, inString: bool)
    ensures Read(Scrub(raw), inString) == AllWithoutNul(Read(raw, inString))
    decreases |raw|
  {
    if |raw| == 0 || (raw[0] == BACKSLASH && (!inString || |raw| == 1)) {
    } else if raw[0] != BACKSLASH {
      assert Scrub(raw)[1..] == Scrub(raw[1..]);
      var next := (raw[0] == QUOTE) != inString;
      ScrubbedReading(raw[1..], next);
      PrependWithoutNul(Open, Read(raw[1..], next));
      PrependWithoutNul(Close, Read(raw[1..], next));
      PrependWithoutNul(Structure(raw[0]), Read(raw[1..], next));
      PrependWithoutNul(Unit(raw[0]), Read(raw[1..], next));
      PrependWithoutNul(Utf8(raw[0]), Read(raw[1..], next));
    } else if raw[1] == 117 {
      ScrubbedEscape(raw);
      if FourHex(raw[2..]).Some? {
        ScrubbedReading(raw[6..], true);
        PrependWithoutNul(Unit(FourHex(raw[2..]).value), Read(raw[6..], true));
      }
    } else {
      assert Scrub(raw)[2..] == Scrub(raw[2..]);
      ScrubbedReading(raw[2..], true);
      if ShortEscape(raw[1]).Some? {
        PrependWithoutNul(Unit(ShortEscape(raw[1]).value), Read(raw[2..], true));
      }
    }
  }

  lemma ScrubbedNul(raw: seq<Byte>)
    requires NulEscape(raw)
    ensures var out := Scrub(raw);
            out[0] == BACKSLASH && out[1] == 117 && FourHex(out[2..]) == Some(REPLACEMENT_CODE) &&
            out[6..] == Scrub(raw[6..])
  {
    assert Scrub(raw) == REPLACEMENT_ESCAPE + Scrub(raw[6..]);
  }

  lemma ScrubbedPair(raw: seq<Byte>)
    requires |raw| >= 2 && raw[0] == BACKSLASH && !NulEscape(raw)
    ensures Scrub(raw) == [raw[0], raw[1]] + Scrub(raw[2..]) && Scrub(raw)[2..] == Scrub(raw[2..])
  {
  }

  /** How the reader sees a scrubbed \u escape and what follows it. */
  lemma ScrubbedEscape(raw: seq<Byte>)
    requires |raw| >= 2 && raw[0] == BACKSLASH && raw[1] == 117
    ensures var out := Scrub(raw);
            out[0] == BACKSLASH && out[1] == 117 &&
            FourHex(out[2..]) == (if FourHex(raw[2..]) == Some(0) then Some(REPLACEMENT_CODE) else FourHex(raw[2..])) &&
            (FourHex(raw[2..]).Some? ==> out[6..] == Scrub(raw[6..]))
  {
    ZeroIsNul(raw);
    if NulEscape(raw) {
      ScrubbedNul(raw);
    } else {
      var out := Scrub(raw);
      ScrubbedPair(raw);
      FourHexScrub(raw[2..]);
      if FourHex(raw[2..]).Some? {
        assert raw[2..][4..] == raw[6..] && out[2..][4..] == out[6..];
      }
    }
  }

  /** No string of a scrubbed document holds U+0000. */
  lemma NoNulSurvives(raw: seq<Byte>)
    ensures Read(Scrub(raw), false).Some? ==> Unit(0) !in Read(Scrub(raw), false).value
    ensures Read(Scrub(raw), false).Some? <==> Read(raw, false).Some?
  {
    ScrubbedReading(raw, false);
  }

  /** What scrubbing leaves for an escaped NUL is read as an ordinary escape. */
  lemma ReplacementIsStable(tail: seq<Byte>)
    requires Scrub(tail) == tail
    ensures Scrub(REPLACEMENT_ESCAPE + tail) == REPLACEMENT_ESCAPE + tail
  {
    var out := REPLACEMENT_ESCAPE + tail;
    ScrubbedPair(out);
    assert out[2..][4..] == tail;
    LeadingBytes(out[2..], 4);
    assert Scrub(out)[2..] == out[2..];
  }

  lemma PairIsStable(first: Byte, second: Byte, tail: seq<Byte>)
    requires first == BACKSLASH && !NulEscape([first, second] + tail) && Scrub(tail) == tail
    ensures Scrub([first, second] + tail) == [first, second] + tail
  {
    assert ([first, second] + tail)[2..] == tail;
    ScrubbedPair([first, second] + tail);
  }

  /** Scrubbing twice is scrubbing once. */
  lemma {:induction false} ScrubIdempotent(raw: seq<Byte>)
    ensures Scrub(Scrub(raw)) == Scrub(raw)
    decreases |raw|
  {
    if |raw| > 0 {
      if raw[0] != BACKSLASH || |raw| == 1 {
        assert Scrub(raw)[1..] == Scrub(raw[1..]);
        ScrubIdempotent(raw[1..]);
      } else if NulEscape(raw) {
        ScrubIdempotent(raw[6..]);
        ReplacementIsStable(Scrub(raw[6..]));
      } else {
        ScrubIdempotent(raw[2..]);
        ScrubbedPair(raw);
        FourHexScrub(raw[2..]);
        PairIsStable(raw[0], raw[1], Scrub(raw[2..]));
      }
    }
  }
}
