/**
 * `encodeURIComponent` as the ECMAScript standard defines it (section 19.2.6.5 of ECMA-262):
 * every character outside the unreserved set becomes the percent-escaped bytes of its UTF-8
 * encoding, with upper-case hexadecimal digits.  `Decode` is its inverse.
 */
module Uri {
  import opened Wrappers

  type Byte = b: int | 0 <= b < 256

  /** The characters `encodeURIComponent` leaves as they are. */
  predicate Unreserved(c: char)
  {
    ('A' <= c <= 'Z') || ('a' <= c <= 'z') || ('0' <= c <= '9') ||
    c == '-' || c == '_' || c == '.' || c == '!' || c == '~' || c == '*' || c == '\'' || c == '(' || c == ')'
  }

  /** An upper-case hexadecimal digit, as `encodeURIComponent` writes them. */
  predicate UpperHex(c: char)
  {
    ('0' <= c <= '9') || ('A' <= c <= 'F')
  }

  /** The upper-case hexadecimal digit for `d`. */
  function HexDigit(d: nat): (c: char)
    requires d < 16
    ensures UpperHex(c)
  {
    if d < 10 then ('0' as int + d) as char else ('A' as int + d - 10) as char
  }

  /** The value of a hexadecimal digit, either case. */
  function HexValue(c: char): (v: Option<nat>)
    ensures v.Some? ==> v.value < 16
    ensures forall d :: 0 <= d < 16 && c == HexDigit(d) ==> v == Some(d)
  {
    if '0' <= c <= '9' then Some(c as int - '0' as int)
    else if 'A' <= c <= 'F' then Some(c as int - 'A' as int + 10)
    else if 'a' <= c <= 'f' then Some(c as int - 'a' as int + 10)
    else None
  }

  /** `%` and the two upper-case hexadecimal digits of `b`. */
  function PercentByte(b: Byte): (s: string)
    ensures |s| == 3 && s[0] == '%' && UpperHex(s[1]) && UpperHex(s[2])
  {
    ['%', HexDigit(b / 16), HexDigit(b % 16)]
  }

  /** The byte a percent escape at position `i` of `r` stands for, if one starts there. */
  function PercentAt(r: string, i: nat): (b: Option<Byte>)
    ensures b.Some? ==> i + 3 <= |r|
  {
    if i + 3 <= |r| && r[i] == '%' && HexValue(r[i + 1]).Some? && HexValue(r[i + 2]).Some?
    then Some(HexValue(r[i + 1]).value * 16 + HexValue(r[i + 2]).value)
    else None
  }

  /** Position `i` of `r` holds the escape `PercentByte(b)`. */
  predicate EscapeAt(r: string, i: nat, b: Byte)
  {
    i + 3 <= |r| && r[i] == '%' && r[i + 1] == HexDigit(b / 16) && r[i + 2] == HexDigit(b % 16)
  }

  /** A percent escape reads back as the byte it was written for. */
  lemma ReadEscape(r: string, i: nat, b: Byte)
    requires EscapeAt(r, i, b)
    ensures PercentAt(r, i) == Some(b)
  {
  }

  /** The UTF-8 encoding of one Unicode scalar value. */
  function Utf8(c: char): (bytes: seq<Byte>)
    ensures 1 <= |bytes| <= 4
    ensures |bytes| == 1 <==> c as int < 0x80
  {
    var n := c as int;
    if n < 0x80 then [n]
    else if n < 0x800 then [0xC0 + n / 64, 0x80 + n % 64]
    else if n < 0x10000 then [0xE0 + n / 4096, 0x80 + n / 64 % 64, 0x80 + n % 64]
    else [0xF0 + n / 262144, 0x80 + n / 4096 % 64, 0x80 + n / 64 % 64, 0x80 + n % 64]
  }

  /** The percent escapes of a byte sequence, in order. */
  function PercentEncode(bytes: seq<Byte>): (s: string)
    ensures |s| == 3 * |bytes|
  {
    if bytes == [] then [] else PercentByte(bytes[0]) + PercentEncode(bytes[1..])
  }

  /** Percent escapes consist of `%` and upper-case hexadecimal digits only. */
  lemma {:induction false} PercentEncodeAlphabet(bytes: seq<Byte>)
    ensures forall i :: 0 <= i < |PercentEncode(bytes)| ==> PercentEncode(bytes)[i] == '%' || UpperHex(PercentEncode(bytes)[i])
    decreases |bytes|
  {
    if bytes != [] {
      PercentEncodeAlphabet(bytes[1..]);
    }
  }

  /** One character as `encodeURIComponent` writes it. */
  function EncodeChar(c: char): (s: string)
    ensures Unreserved(c) ==> s == [c]
    ensures !Unreserved(c) ==> 3 <= |s| <= 12 && s[0] == '%'
    ensures forall i :: 0 <= i < |s| ==> Unreserved(s[i]) || s[i] == '%' || UpperHex(s[i])
  {
    if Unreserved(c) then [c]
    else
      PercentEncodeAlphabet(Utf8(c));
      PercentEncode(Utf8(c))
  }

  /**
   * `encodeURIComponent(s)`: the result consists of unreserved characters, `%` and hexadecimal
   * digits only, and it is never shorter than `s`.
   */
  function EncodeUriComponent(s: string): (r: string)
    ensures |r| >= |s|
    ensures forall i :: 0 <= i < |r| ==> Unreserved(r[i]) || r[i] == '%' || UpperHex(r[i])
    decreases |s|
  {
    if s == [] then []
    else
      var head := EncodeChar(s[0]);
      var tail := EncodeUriComponent(s[1..]);
      head + tail
  }

  /** A UTF-8 continuation byte, `10xxxxxx`. */
  predicate Continuation(b: Byte)
  {
    0x80 <= b < 0xC0
  }

  /** The character a code point stands for, when it is a Unicode scalar value. */
  function ScalarChar(n: int): Option<char>
  {
    if 0 <= n < 0xD800 || 0xE000 <= n < 0x110000 then Some(n as char) else None
  }

  /**
   * Read `count` escaped continuation bytes from position `i` of `r` on, appending the six
   * payload bits of each to `acc`.
   */
  function Continue(r: string, i: nat, count: nat, acc: int): Option<int>
    decreases count
  {
    if count == 0 then Some(acc)
    else match PercentAt(r, i)
      case Some(b) =>
        if Continuation(b) then Continue(r, i + 3, count - 1, acc * 64 + (b as int - 0x80)) else None
      case None => None
  }

  /**
   * The length of the UTF-8 sequence a lead byte of two or more bytes opens, with the payload
   * bits the lead byte carries and the least code point that sequence length may encode.
   */
  function LeadByte(b: Byte): Option<(nat, int, int)>
  {
    if 0xC0 <= b < 0xE0 then Some((2, b - 0xC0, 0x80))
    else if 0xE0 <= b < 0xF0 then Some((3, b - 0xE0, 0x800))
    else if 0xF0 <= b < 0xF8 then Some((4, b - 0xF0, 0x10000))
    else None
  }

  /**
   * The first character of an encoded component and the number of characters it takes up:
   * an unescaped character stands for itself; an escape starts a shortest-form UTF-8 sequence.
   */
  function DecodeChar(r: string): (d: Option<(char, nat)>)
    requires r != []
    ensures d.Some? ==> 1 <= d.value.1
  {
    if r[0] != '%' then Some((r[0], 1))
    else match PercentAt(r, 0)
      case None => None
      case Some(b) =>
        if b < 0x80 then Some((b as char, 3))
        else match LeadByte(b)
          case None => None
          case Some((len, bits, least)) =>
            match Continue(r, 3, len - 1, bits)
            case None => None
            case Some(n) =>
              if n >= least && ScalarChar(n).Some? then Some((ScalarChar(n).value, 3 * len)) else None
  }

  /** Decode an encoded component, character by character; `None` for a malformed one. */
  function Decode(r: string): Option<string>
    decreases |r|
  {
    if r == [] then Some([])
    else match DecodeChar(r)
      case None => None
      case Some((c, k)) =>
        match Decode(r[k..])
        case None => None
        case Some(rest) => Some([c] + rest)
  }

  /** The arithmetic behind two-byte sequences: the two parts recombine to the code point. */
  lemma SplitTwo(n: int)
    requires 0x80 <= n < 0x800
    ensures 2 <= n / 64 < 32 && 0 <= n % 64 < 64 && n / 64 * 64 + n % 64 == n
  {
  }

  /** The arithmetic behind three-byte sequences. */
  lemma SplitThree(n: int)
    requires 0x800 <= n < 0x10000
    ensures 0 <= n / 4096 < 16 && 0 <= n / 64 % 64 < 64 && 0 <= n % 64 < 64
    ensures (n / 4096 * 64 + n / 64 % 64) * 64 + n % 64 == n
  {
    assert n / 64 == n / 4096 * 64 + n / 64 % 64;
  }

  /** The arithmetic behind four-byte sequences. */
  lemma SplitFour(n: int)
    requires 0x10000 <= n < 0x110000
    ensures 0 <= n / 262144 < 8 && 0 <= n / 4096 % 64 < 64 && 0 <= n / 64 % 64 < 64 && 0 <= n % 64 < 64
    ensures ((n / 262144 * 64 + n / 4096 % 64) * 64 + n / 64 % 64) * 64 + n % 64 == n
  {
    assert n / 4096 == n / 262144 * 64 + n / 4096 % 64;
    assert n / 64 == n / 4096 * 64 + n / 64 % 64;
  }

  /** The escapes of `bytes` sit one after another from position `i` of `r` on. */
  predicate EscapesAt(r: string, i: nat, bytes: seq<Byte>)
    decreases |bytes|
  {
    bytes == [] || (EscapeAt(r, i, bytes[0]) && EscapesAt(r, i + 3, bytes[1..]))
  }

  /** Escapes stay in place, shifted, when text is put in front of them. */
  lemma {:induction false} EscapesShift(front: string, r: string, i: nat, bytes: seq<Byte>)
    requires EscapesAt(r, i, bytes)
    ensures EscapesAt(front + r, |front| + i, bytes)
    decreases |bytes|
  {
    if bytes != [] {
      var s := front + r;
      assert s[|front| + i] == r[i] && s[|front| + i + 1] == r[i + 1] && s[|front| + i + 2] == r[i + 2];
      EscapesShift(front, r, i + 3, bytes[1..]);
    }
  }

  /** `PercentEncode` writes the escape of each byte in turn. */
  lemma {:induction false} PercentEncodeEscapes(bytes: seq<Byte>, rest: string)
    ensures EscapesAt(PercentEncode(bytes) + rest, 0, bytes)
    decreases |bytes|
  {
    if bytes != [] {
      var head := PercentByte(bytes[0]);
      var tail := PercentEncode(bytes[1..]) + rest;
      assert PercentEncode(bytes) + rest == head + tail;
      PercentEncodeEscapes(bytes[1..], rest);
      EscapesShift(head, tail, 0, bytes[1..]);
    }
  }

  /** The code point a lead byte's bits and a run of continuation bytes spell. */
  function Spelled(continuations: seq<Byte>, acc: int): int
  {
    if continuations == [] then acc else Spelled(continuations[1..], acc * 64 + (continuations[0] as int - 0x80))
  }

  /** `Continue` reads one escaped continuation byte and goes on after it. */
  lemma ContinueStep(r: string, i: nat, count: nat, acc: int, b: Byte)
    requires count > 0 && EscapeAt(r, i, b) && Continuation(b)
    ensures Continue(r, i, count, acc) == Continue(r, i + 3, count - 1, acc * 64 + (b as int - 0x80))
  {
    ReadEscape(r, i, b);
  }

  /** Escaped continuation bytes read back as the code point they spell. */
  lemma {:induction false} ContinueEncoded(r: string, i: nat, continuations: seq<Byte>, acc: int)
    requires EscapesAt(r, i, continuations)
    requires forall k :: 0 <= k < |continuations| ==> Continuation(continuations[k])
    ensures Continue(r, i, |continuations|, acc) == Some(Spelled(continuations, acc))
    decreases |continuations|
  {
    if continuations != [] {
      var b, tail := continuations[0], continuations[1..];
      assert EscapeAt(r, i, b) && EscapesAt(r, i + 3, tail) && Continuation(b);
      ContinueStep(r, i, |continuations|, acc, b);
      ContinueEncoded(r, i + 3, tail, acc * 64 + (b as int - 0x80));
    }
  }

  /**
   * A character of two or more UTF-8 bytes: its lead byte announces the sequence length and the
   * remaining bytes are continuations that spell the character's code point in shortest form.
   */
  lemma Utf8Spells(c: char)
    requires c as int >= 0x80
    ensures var bytes := Utf8(c);
      && LeadByte(bytes[0]).Some?
      && LeadByte(bytes[0]).value.0 == |bytes|
      && (forall i :: 1 <= i < |bytes| ==> Continuation(bytes[i]))
      && Spelled(bytes[1..], LeadByte(bytes[0]).value.1) == c as int
      && c as int >= LeadByte(bytes[0]).value.2
  {
    var n := c as int;
    var bytes := Utf8(c);
    if n < 0x800 {
      SplitTwo(n);
      assert bytes[1..][1..] == [];
    } else if n < 0x10000 {
      SplitThree(n);
      var cs := bytes[1..];
      assert cs[1..][1..] == [];
      assert Spelled(cs, n / 4096) == Spelled(cs[1..], n / 4096 * 64 + n / 64 % 64);
      assert Spelled(cs[1..], n / 4096 * 64 + n / 64 % 64) == (n / 4096 * 64 + n / 64 % 64) * 64 + n % 64;
    } else {
      SplitFour(n);
      var cs := bytes[1..];
      var high := n / 262144 * 64 + n / 4096 % 64;
      assert cs[1..][1..][1..] == [];
      assert Spelled(cs, n / 262144) == Spelled(cs[1..], high);
      assert Spelled(cs[1..], high) == Spelled(cs[1..][1..], high * 64 + n / 64 % 64);
      assert Spelled(cs[1..][1..], high * 64 + n / 64 % 64) == (high * 64 + n / 64 % 64) * 64 + n % 64;
    }
  }

  /**
   * Escapes of a lead byte and the continuation bytes it announces decode as the code point they
   * spell, when that is a shortest-form scalar value.
   */
  lemma DecodeEscapedSequence(r: string, bytes: seq<Byte>)
    requires 2 <= |bytes| && EscapesAt(r, 0, bytes)
    requires LeadByte(bytes[0]).Some? && LeadByte(bytes[0]).value.0 == |bytes|
    requires forall i :: 1 <= i < |bytes| ==> Continuation(bytes[i])
    ensures var n := Spelled(bytes[1..], LeadByte(bytes[0]).value.1);
      DecodeChar(r) ==
        if n >= LeadByte(bytes[0]).value.2 && ScalarChar(n).Some? then Some((ScalarChar(n).value, 3 * |bytes|)) else None
  {
    var lead := bytes[0];
    var (len, bits, least) := LeadByte(lead).value;
    assert EscapeAt(r, 0, lead);
    ReadEscape(r, 0, lead);
    assert r[0] == '%' && PercentAt(r, 0) == Some(lead) && lead >= 0x80;
    ContinueEncoded(r, 3, bytes[1..], bits);
    assert Continue(r, 3, len - 1, bits) == Some(Spelled(bytes[1..], bits));
  }

  /** Decoding the encoding of a character gives the character back and consumes all of it. */
  lemma DecodeEncodedChar(c: char, rest: string)
    ensures DecodeChar(EncodeChar(c) + rest) == Some((c, |EncodeChar(c)|))
  {
    if !Unreserved(c) {
      var bytes := Utf8(c);
      var r := EncodeChar(c) + rest;
      PercentEncodeEscapes(bytes, rest);
      if c as int < 0x80 {
        ReadEscape(r, 0, bytes[0]);
      } else {
        Utf8Spells(c);
        DecodeEscapedSequence(r, bytes);
      }
    }
  }

  /** `Decode` inverts `EncodeUriComponent`: percent-encoding loses nothing. */
  lemma {:induction false} DecodeEncoded(s: string)
    ensures Decode(EncodeUriComponent(s)) == Some(s)
    decreases |s|
  {
    if s != [] {
      var head := EncodeChar(s[0]);
      var tail := EncodeUriComponent(s[1..]);
      var r := head + tail;
      assert EncodeUriComponent(s) == r;
      DecodeEncodedChar(s[0], tail);
      assert r[|head|..] == tail;
      DecodeEncoded(s[1..]);
      assert Decode(r) == Some([s[0]] + s[1..]);
      assert [s[0]] + s[1..] == s;
    }
  }
}
