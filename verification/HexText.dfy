/**
 parseHex of src/lcec_conf_util.c: a counting pass without a buffer, a filling pass with one, over a
 NUL-terminated or length-bounded text.
 */
module HexText {

  type Byte = x: int | 0 <= x < 256

  import opened Options

  predicate IsBlank(c: char) {
    c == ' ' || c == '\t' || c == '\r' || c == '\n'
  }

  function Nibble(c: char): Option<int> {
    if '0' <= c <= '9' then Some(c as int - '0' as int)
    else if 'a' <= c <= 'f' then Some(c as int - 'a' as int + 10)
    else if 'A' <= c <= 'F' then Some(c as int - 'A' as int + 10)
    else None
  }

  /** The characters the loop looks at: up to the first NUL, and at most slen of them unless slen is -1. */
  function Text(s: string, slen: int): string {
    if slen == 0 || slen < -1 || s == [] || s[0] == '\0' then []
    else [s[0]] + Text(s[1..], if slen > 0 then slen - 1 else slen)
  }

  function Prepend(bytes: seq<Byte>, rest: Option<seq<Byte>>): Option<seq<Byte>> {
    if rest == None then None else Some(bytes + rest.value)
  }

  /** The bytes of a text: blanks between bytes are skipped, everything else must be pairs of digits. */
  function Decode(t: string): Option<seq<Byte>> {
    if t == [] then Some([])
    else if IsBlank(t[0]) then Decode(t[1..])
    else if |t| >= 2 && Nibble(t[0]).Some? && Nibble(t[1]).Some? then
      Prepend([16 * Nibble(t[0]).value + Nibble(t[1]).value], Decode(t[2..]))
    else None
  }

  // --- printing, and both directions of the round trip ---

  /** How one byte is set: the blanks before it and the case of its two digits. */
  datatype Style = Style(blanks: string, upperHigh: bool, upperLow: bool)

  function Digit(n: int, upper: bool): char
    requires 0 <= n < 16
  {
    if n < 10 then '0' + n as char else if upper then 'A' + (n - 10) as char else 'a' + (n - 10) as char
  }

  predicate AllBlank(s: string) {
    forall c :: c in s ==> c in " \t\r\n"
  }

  function Print(bytes: seq<Byte>, styles: seq<Style>, tail: string): string
    requires |styles| == |bytes|
  {
    if bytes == [] then tail
    else
      styles[0].blanks
      + [Digit(bytes[0] / 16, styles[0].upperHigh), Digit(bytes[0] % 16, styles[0].upperLow)]
      + Print(bytes[1..], styles[1..], tail)
  }

  ghost predicate IsPrinting(t: string, bytes: seq<Byte>, styles: seq<Style>, tail: string) {
    && |styles| == |bytes| && AllBlank(tail)
    && (forall i :: 0 <= i < |styles| ==> AllBlank(styles[i].blanks))
    && t == Print(bytes, styles, tail)
  }

  lemma {:induction false} SkipBlanks(blanks: string, t: string)
    requires AllBlank(blanks)
    ensures Decode(blanks + t) == Decode(t)
  {
    if blanks == [] {
      assert blanks + t == t;
    } else {
      assert blanks[0] in blanks;
      assert (blanks + t)[1..] == blanks[1..] + t;
      SkipBlanks(blanks[1..], t);
    }
  }

  /** Whatever the blanks and the case, printing and parsing gives the bytes back. */
  lemma {:induction false} DecodePrinted(bytes: seq<Byte>, styles: seq<Style>, tail: string)
    requires |styles| == |bytes| && IsPrinting(Print(bytes, styles, tail), bytes, styles, tail)
    ensures Decode(Print(bytes, styles, tail)) == Some(bytes)
  {
    if bytes == [] {
      SkipBlanks(tail, []);
      assert tail + [] == tail;
    } else {
      var rest := Print(bytes[1..], styles[1..], tail);
      var pair := [Digit(bytes[0] / 16, styles[0].upperHigh), Digit(bytes[0] % 16, styles[0].upperLow)];
      DecodePrinted(bytes[1..], styles[1..], tail);
      assert Print(bytes, styles, tail) == styles[0].blanks + (pair + rest);
      DecodePair(bytes[0], bytes[1..], styles[0], rest);
      assert [bytes[0]] + bytes[1..] == bytes;
    }
  }

  lemma DecodePair(b: Byte, more: seq<Byte>, style: Style, rest: string)
    requires Decode(rest) == Some(more) && AllBlank(style.blanks)
    ensures
      var pair := [Digit(b / 16, style.upperHigh), Digit(b % 16, style.upperLow)];
      Decode(style.blanks + (pair + rest)) == Some([b] + more)
  {
    var pair := [Digit(b / 16, style.upperHigh), Digit(b % 16, style.upperLow)];
    SkipBlanks(style.blanks, pair + rest);
    assert (pair + rest)[2..] == rest;
  }

  /** Conversely every accepted text is a printing of the bytes it yields. */
  lemma {:induction false} AcceptedIsPrinted(t: string) returns (styles: seq<Style>, tail: string)
    requires Decode(t).Some?
    ensures IsPrinting(t, Decode(t).value, styles, tail)
  {
    if t == [] {
      styles, tail := [], [];
    } else if IsBlank(t[0]) {
      styles, tail := AcceptedIsPrinted(t[1..]);
      styles, tail := PrintBlank(t, Decode(t).value, styles, tail);
    } else {
      styles, tail := AcceptedIsPrinted(t[2..]);
      styles := PrintPair(t, Decode(t[2..]).value, styles, tail);
    }
  }

  lemma PrintBlank(t: string, bytes: seq<Byte>, styles: seq<Style>, tail: string)
    returns (styles': seq<Style>, tail': string)
    requires t != [] && IsBlank(t[0]) && IsPrinting(t[1..], bytes, styles, tail)
    ensures IsPrinting(t, bytes, styles', tail')
  {
    assert t == [t[0]] + t[1..];
    if bytes == [] {
      styles', tail' := styles, [t[0]] + tail;
    } else {
      var first := styles[0];
      styles', tail' := [first.(blanks := [t[0]] + first.blanks)] + styles[1..], tail;
      assert styles'[1..] == styles[1..];
    }
  }

  lemma PrintPair(t: string, rest: seq<Byte>, styles: seq<Style>, tail: string) returns (styles': seq<Style>)
    requires |t| >= 2 && Nibble(t[0]).Some? && Nibble(t[1]).Some?
    requires IsPrinting(t[2..], rest, styles, tail)
    ensures IsPrinting(t, [16 * Nibble(t[0]).value + Nibble(t[1]).value] + rest, styles', tail)
  {
    DigitOfNibble(t[0]);
    DigitOfNibble(t[1]);
    var b := 16 * Nibble(t[0]).value + Nibble(t[1]).value;
    styles' := [Style([], 'A' <= t[0] <= 'F', 'A' <= t[1] <= 'F')] + styles;
    assert styles'[1..] == styles && ([b] + rest)[1..] == rest;
    assert t == [] + [t[0], t[1]] + t[2..];
    assert Digit(b / 16, 'A' <= t[0] <= 'F') == t[0] && Digit(b % 16, 'A' <= t[1] <= 'F') == t[1];
  }

  lemma DigitOfNibble(c: char)
    requires Nibble(c).Some?
    ensures 0 <= Nibble(c).value < 16 && Digit(Nibble(c).value, 'A' <= c <= 'F') == c
  {
  }

  // --- the two ways of ending a text ---

  ghost predicate NoNul(t: string) {
    forall i :: 0 <= i < |t| ==> t[i] != '\0'
  }

  lemma {:induction false} TextOfTerminated(t: string, rest: string)
    requires NoNul(t)
    ensures Text(t + ['\0'] + rest, -1) == t
  {
    var s := t + ['\0'] + rest;
    if t != [] {
      assert s[1..] == t[1..] + ['\0'] + rest;
      TextOfTerminated(t[1..], rest);
    }
  }

  lemma {:induction false} TextOfBounded(t: string, rest: string)
    requires NoNul(t)
    ensures Text(t + rest, |t|) == t
  {
    if t != [] {
      assert (t + rest)[1..] == t[1..] + rest;
      TextOfBounded(t[1..], rest);
    }
  }

  // --- the loop ---

  /** What is still to come when the loop stands before t, with or without a pending first digit. */
  function Resume(t: string, nib: bool, tmp: Byte): Option<seq<Byte>> {
    if !nib then Decode(t)
    else if t != [] && Nibble(t[0]).Some? then Prepend([tmp / 16 * 16 + Nibble(t[0]).value], Decode(t[1..]))
    else None
  }

  /** The memory from s on holds the text: it ends in a NUL or covers slen characters. */
  ghost predicate Readable(s: string, slen: int) {
    slen == 0 || slen < -1 || '\0' in s || (slen > 0 && slen <= |s|)
  }

  /** parseHex; buf is null in the counting pass, and in the filling pass as long as that pass reported. */
  method ParseHex(s: string, slen: int, buf: array?<Byte>) returns (r: int)
    requires Readable(s, slen)
    requires buf != null ==> Decode(Text(s, slen)).Some? && |Decode(Text(s, slen)).value| <= buf.Length
    modifies buf
    ensures r == -1 <==> Decode(Text(s, slen)) == None
    ensures r != -1 ==> r == |Decode(Text(s, slen)).value|
    ensures buf != null ==> r <= buf.Length && buf[..r] == Decode(Text(s, slen)).value && buf[r..] == old(buf[r..])
  {
    hide Decode, Resume, Text, Nibble;
    var i, remaining := 0, slen;
    var len, nib, tmp: Byte := 0, false, 0;
    ghost var whole := Decode(Text(s, slen));
    ghost var done: seq<Byte> := [];
    StartOfText(s, slen);
    while (remaining == -1 || remaining > 0) && s[i] != '\0'
      invariant 0 <= i <= |s| && Readable(s[i..], remaining)
      invariant len == |done| && (nib ==> tmp % 16 == 0)
      invariant whole == Prepend(done, Resume(Text(s[i..], remaining), nib, tmp))
      invariant buf != null ==> len <= buf.Length
      invariant buf != null ==> forall j :: 0 <= j < buf.Length ==> buf[j] == if j < len then done[j] else old(buf[j])
      decreases |s| - i
    {
      ghost var t := Text(s[i..], remaining);
      var c := s[i];
      NextChar(s, i, remaining);
      if remaining > 0 {
        remaining := remaining - 1;
      }
      i := i + 1;
      ghost var rest := Text(s[i..], remaining);
      if !nib && IsBlank(c) {
        Blank(t, rest, tmp);
        continue;
      }
      var n := Nibble(c);
      if n == None {
        NotADigit(t, rest, nib, tmp);
        return -1;
      }
      if nib {
        SecondDigit(t, rest, tmp, done);
        tmp := tmp + n.value;
        done := done + [tmp];
        if buf != null {
          buf[len] := tmp;
        }
        len := len + 1;
      } else {
        FirstDigit(t, rest, tmp);
        tmp := n.value * 16;
      }
      nib := !nib;
    }
    EndOfText(s, i, remaining, nib, tmp);
    if nib {
      return -1;
    }
    return len;
  }

  lemma StartOfText(s: string, slen: int)
    ensures s[0..] == s
    ensures Decode(Text(s, slen)) == Prepend([], Resume(Text(s[0..], slen), false, 0))
  {
    assert s[0..] == s;
    var d := Decode(Text(s, slen));
    if d.Some? {
      assert [] + d.value == d.value;
    }
  }

  lemma EndOfText(s: string, i: nat, remaining: int, nib: bool, tmp: Byte)
    requires i <= |s| && Readable(s[i..], remaining)
    requires !((remaining == -1 || remaining > 0) && s[i] != '\0')
    ensures Resume(Text(s[i..], remaining), nib, tmp) == if nib then None else Some([])
  {
  }

  lemma NextChar(s: string, i: nat, remaining: int)
    requires i < |s| && s[i] != '\0' && (remaining == -1 || remaining > 0) && Readable(s[i..], remaining)
    ensures var left := if remaining > 0 then remaining - 1 else remaining;
            && Text(s[i..], remaining) == [s[i]] + Text(s[i + 1..], left)
            && Readable(s[i + 1..], left)
  {
  }

  lemma Blank(t: string, rest: string, tmp: Byte)
    requires t != [] && t == [t[0]] + rest && IsBlank(t[0])
    ensures Resume(t, false, tmp) == Resume(rest, false, tmp)
  {
    assert t[1..] == rest;
  }

  lemma NotADigit(t: string, rest: string, nib: bool, tmp: Byte)
    requires t != [] && t == [t[0]] + rest && Nibble(t[0]) == None && (nib || !IsBlank(t[0]))
    ensures Resume(t, nib, tmp) == None
  {
  }

  /** Taking the first digit of a pair leaves the same bytes to come. */
  lemma FirstDigit(t: string, rest: string, tmp: Byte)
    requires t != [] && t == [t[0]] + rest && !IsBlank(t[0]) && Nibble(t[0]).Some?
    ensures 0 <= Nibble(t[0]).value < 16
    ensures Resume(t, false, tmp) == Resume(rest, true, Nibble(t[0]).value * 16)
  {
    assert t[1..] == rest;
    if |t| >= 2 {
      assert t[2..] == rest[1..];
    }
  }

  /** Taking the second digit completes a byte, which the filling pass has room for. */
  lemma SecondDigit(t: string, rest: string, tmp: Byte, done: seq<Byte>)
    requires t != [] && t == [t[0]] + rest && Nibble(t[0]).Some? && tmp % 16 == 0
    ensures 0 <= Nibble(t[0]).value < 16
    ensures var b := tmp + Nibble(t[0]).value; var w := Prepend(done, Resume(t, true, tmp));
            && b < 256
            && w == Prepend(done + [b], Resume(rest, false, b))
            && (w.Some? ==> |done| < |w.value|)
  {
    assert t[1..] == rest;
    var b := tmp + Nibble(t[0]).value;
    var r := Decode(rest);
    if r.Some? {
      assert done + ([b] + r.value) == (done + [b]) + r.value;
    }
  }
}
