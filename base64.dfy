/**
 * The base 64 encoding of section 4 of RFC 4648, with `=` padding, as `btoa` applies it to a
 * binary string, together with the decoding that inverts it.
 */
module Base64 {
  import opened Wrappers

  type Byte = x: int | 0 <= x < 256
  type Sextet = x: int | 0 <= x < 64

  /** Table 1 of RFC 4648: `A`-`Z`, `a`-`z`, `0`-`9`, `+`, `/`. */
  function Letter(d: Sextet): char {
    if d < 26 then ('A' as int + d) as char
    else if d < 52 then ('a' as int + d - 26) as char
    else if d < 62 then ('0' as int + d - 52) as char
    else if d == 62 then '+'
    else '/'
  }

  function LetterValue(c: char): Option<Sextet> {
    if 'A' <= c <= 'Z' then Some(c as int - 'A' as int)
    else if 'a' <= c <= 'z' then Some(c as int - 'a' as int + 26)
    else if '0' <= c <= '9' then Some(c as int - '0' as int + 52)
    else if c == '+' then Some(62)
    else if c == '/' then Some(63)
    else None
  }

  /** The alphabet is one-to-one: every letter decodes to the value it encodes. */
  lemma LetterRoundTrip(d: Sextet)
    ensures LetterValue(Letter(d)) == Some(d)
  {
  }

  /** Only letters of the alphabet decode, and each one back to itself. */
  lemma LetterValueRoundTrip(c: char)
    ensures LetterValue(c).Some? ==> Letter(LetterValue(c).value) == c
  {
  }

  /** The letters of a list of sextets. */
  function Letters(xs: seq<Sextet>): (r: string)
    ensures |r| == |xs|
  {
    seq(|xs|, i requires 0 <= i < |xs| => Letter(xs[i]))
  }

  /** The sextets a text of letters stands for, or `None` when a character is not a letter. */
  function Values(q: string): (r: Option<seq<Sextet>>)
    ensures r.Some? ==> |r.value| == |q|
  {
    if forall i :: 0 <= i < |q| ==> LetterValue(q[i]).Some? then
      Some(seq(|q|, i requires 0 <= i < |q| => LetterValue(q[i]).value))
    else None
  }

  lemma ValuesOfLetters(xs: seq<Sextet>)
    ensures Values(Letters(xs)) == Some(xs)
  {
    forall i | 0 <= i < |xs| ensures LetterValue(Letters(xs)[i]) == Some(xs[i]) {
      LetterRoundTrip(xs[i]);
    }
    assert Values(Letters(xs)).Some?;
    assert Values(Letters(xs)).value == xs;
  }

  lemma LettersOfValues(q: string)
    requires Values(q).Some?
    ensures Letters(Values(q).value) == q
  {
    forall i | 0 <= i < |q| ensures Letters(Values(q).value)[i] == q[i] {
      LetterValueRoundTrip(q[i]);
    }
  }

  /** The 24 bits of three bytes, six at a time, most significant first; with fewer bytes, the
    * missing ones count as zero and only the sextets that hold input bits are kept. */
  function Sextets(bytes: seq<Byte>): (r: seq<Sextet>)
    requires 1 <= |bytes| <= 3
    ensures |r| == |bytes| + 1
  {
    var a: int := bytes[0];
    var b: int := if |bytes| > 1 then bytes[1] else 0;
    var c: int := if |bytes| > 2 then bytes[2] else 0;
    var all := [a / 4, (a % 4) * 16 + b / 16, (b % 16) * 4 + c / 64, c % 64];
    all[..|bytes| + 1]
  }

  /** The bytes of two to four sextets, the inverse of `Sextets`. */
  function Octets(xs: seq<Sextet>): (r: seq<Byte>)
    requires 2 <= |xs| <= 4
    ensures |r| == |xs| - 1
  {
    var x0: int, x1: int := xs[0], xs[1];
    var x2: int := if |xs| > 2 then xs[2] else 0;
    var x3: int := if |xs| > 3 then xs[3] else 0;
    var all := [x0 * 4 + x1 / 16, (x1 % 16) * 16 + x2 / 4, (x2 % 4) * 64 + x3];
    all[..|xs| - 1]
  }

  /** The padding bits of a final quantum are zero. */
  predicate ZeroPadded(xs: seq<Sextet>)
    requires 2 <= |xs| <= 4
  {
    (|xs| == 2 ==> xs[1] % 16 == 0) && (|xs| == 3 ==> xs[2] % 4 == 0)
  }

  lemma Div4(x: int, q: int, r: int)
    requires 0 <= r < 4 && x == 4 * q + r
    ensures x / 4 == q && x % 4 == r
  {
  }

  lemma Div16(x: int, q: int, r: int)
    requires 0 <= r < 16 && x == 16 * q + r
    ensures x / 16 == q && x % 16 == r
  {
  }

  lemma OctetsOfSextets(bytes: seq<Byte>)
    requires 1 <= |bytes| <= 3
    ensures Octets(Sextets(bytes)) == bytes && ZeroPadded(Sextets(bytes))
  {
    var a: int := bytes[0];
    var b: int := if |bytes| > 1 then bytes[1] else 0;
    var c: int := if |bytes| > 2 then bytes[2] else 0;
    Div16((a % 4) * 16 + b / 16, a % 4, b / 16);
    Div4((b % 16) * 4 + c / 64, b % 16, c / 64);
  }

  lemma SextetsOfOctets(xs: seq<Sextet>)
    requires 2 <= |xs| <= 4 && ZeroPadded(xs)
    ensures Sextets(Octets(xs)) == xs
  {
    var x0: int, x1: int := xs[0], xs[1];
    var x2: int := if |xs| > 2 then xs[2] else 0;
    var x3: int := if |xs| > 3 then xs[3] else 0;
    Div4(x0 * 4 + x1 / 16, x0, x1 / 16);
    Div16((x1 % 16) * 16 + x2 / 4, x1 % 16, x2 / 4);
    assert (x2 % 4) * 64 + x3 < 256;
    assert ((x2 % 4) * 64 + x3) / 64 == x2 % 4;
    assert ((x2 % 4) * 64 + x3) % 64 == x3;
  }

  /** The quantum of up to three bytes: the letters of their sextets, padded with `=` to four
    * characters. */
  function Quantum(bytes: seq<Byte>): (r: string)
    requires 1 <= |bytes| <= 3
    ensures |r| == 4
  {
    Letters(Sextets(bytes)) + seq(3 - |bytes|, _ => '=')
  }

  /** The base 64 text of `bytes`: a quantum per group of three, the last group possibly
    * shorter. */
  function Encode(bytes: seq<Byte>): string
    decreases |bytes|
  {
    if |bytes| == 0 then ""
    else if |bytes| <= 3 then Quantum(bytes)
    else Quantum(bytes[..3]) + Encode(bytes[3..])
  }

  /** The bytes of one quantum: four letters, or two or three letters padded with `=`. The bits
    * the padding drops must be zero. */
  function DecodeQuantum(q: string, final: bool): Option<seq<Byte>>
    requires |q| == 4
  {
    var n := if final && q[2] == '=' && q[3] == '=' then 2 else if final && q[3] == '=' then 3 else 4;
    match Values(q[..n])
    case None => None
    case Some(xs) => if ZeroPadded(xs) then Some(Octets(xs)) else None
  }

  /** The bytes a base 64 text stands for, or `None` when it is not the encoding of any. */
  function Decode(s: string): Option<seq<Byte>>
    decreases |s|
  {
    if |s| == 0 then Some([])
    else if |s| < 4 then None
    else if |s| == 4 then DecodeQuantum(s, true)
    else
      match DecodeQuantum(s[..4], false)
      case None => None
      case Some(head) =>
        match Decode(s[4..])
        case None => None
        case Some(tail) => Some(head + tail)
  }

  lemma QuantumRoundTrip(bytes: seq<Byte>, final: bool)
    requires 1 <= |bytes| <= 3 && (|bytes| < 3 ==> final)
    ensures DecodeQuantum(Quantum(bytes), final) == Some(bytes)
  {
    var q := Quantum(bytes);
    assert q[..|bytes| + 1] == Letters(Sextets(bytes));
    ValuesOfLetters(Sextets(bytes));
    OctetsOfSextets(bytes);
  }

  lemma QuantumOfDecoded(q: string, final: bool)
    requires |q| == 4 && DecodeQuantum(q, final).Some?
    ensures var bytes := DecodeQuantum(q, final).value;
            1 <= |bytes| <= 3 && (|bytes| < 3 ==> final) && Quantum(bytes) == q
  {
    var n := if final && q[2] == '=' && q[3] == '=' then 2 else if final && q[3] == '=' then 3 else 4;
    var xs := Values(q[..n]).value;
    LettersOfValues(q[..n]);
    SextetsOfOctets(xs);
    assert q == q[..n] + q[n..];
  }

  /** Decoding recovers the bytes: the encoding loses nothing. */
  lemma {:induction false} DecodeEncode(bytes: seq<Byte>)
    ensures Decode(Encode(bytes)) == Some(bytes)
    decreases |bytes|
  {
    if 1 <= |bytes| <= 3 {
      QuantumRoundTrip(bytes, true);
    } else if |bytes| > 3 {
      var q, rest := Quantum(bytes[..3]), Encode(bytes[3..]);
      QuantumRoundTrip(bytes[..3], false);
      DecodeEncode(bytes[3..]);
      assert (q + rest)[..4] == q && (q + rest)[4..] == rest;
      assert bytes == bytes[..3] + bytes[3..];
    }
  }

  /** Every text that decodes is the encoding of what it decodes to: the encoding is canonical,
    * so `Encode` and `Decode` are inverse bijections. */
  lemma {:induction false} EncodeDecode(s: string)
    requires Decode(s).Some?
    ensures Encode(Decode(s).value) == s
    decreases |s|
  {
    if |s| == 4 {
      QuantumOfDecoded(s, true);
    } else if |s| > 4 {
      var head := DecodeQuantum(s[..4], false).value;
      var tail := Decode(s[4..]).value;
      QuantumOfDecoded(s[..4], false);
      EncodeDecode(s[4..]);
      var bytes := head + tail;
      assert bytes[..3] == head && bytes[3..] == tail;
      assert s == s[..4] + s[4..];
    }
  }

  /** Four characters for every started group of three bytes. */
  lemma {:induction false} EncodeLength(bytes: seq<Byte>)
    ensures |Encode(bytes)| == 4 * ((|bytes| + 2) / 3)
    decreases |bytes|
  {
    if |bytes| > 3 {
      EncodeLength(bytes[3..]);
    }
  }
}
