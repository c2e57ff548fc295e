/** percent_unescape: in-place percent decoding, and the encodings it undoes. */
module PercentUnescape {
  import opened Integers
  import opened Sequences

  const PERCENT: Byte := '%' as int
  const PLUS: Byte := '+' as int
  const SPACE: Byte := ' ' as int

  /** `const unsigned int ch = *str`: a negative plain char is sign-extended before it wraps. */
  function ToUnsigned(b: Byte, charIsSigned: bool): int {
    if charIsSigned && 128 <= b then b - 256 + 0x1_0000_0000 else b
  }

  /** A difference of two unsigned numbers, wrapped once. */
  function Wrap(x: int): (r: int)
    requires -0x1_0000_0000 <= x < 0x1_0000_0000
    ensures 0 <= r < 0x1_0000_0000
  {
    if x < 0 then x + 0x1_0000_0000 else x
  }

  /** xtoi_1, in wrapping unsigned arithmetic. */
  function Xtoi1(b: Byte, charIsSigned: bool): (r: int)
    ensures 0 <= r < 16
  {
    var ch := ToUnsigned(b, charIsSigned);
    var result :=
      if ch <= '9' as int then Wrap(ch - '0' as int)
      else if ch <= 'F' as int then Wrap(ch - 'A' as int + 10)
      else Wrap(ch - 'a' as int + 10);
    if result < 16 then result else 0
  }

  /** xtoi_2, as the byte it is stored into. */
  function Xtoi2(high: Byte, low: Byte, charIsSigned: bool): Byte {
    Xtoi1(high, charIsSigned) * 16 + Xtoi1(low, charIsSigned)
  }

  predicate IsHexDigit(b: Byte) {
    '0' as int <= b <= '9' as int || 'A' as int <= b <= 'F' as int || 'a' as int <= b <= 'f' as int
  }

  /** The value of a hexadecimal digit of either case, and 0 for any other byte. */
  function HexValue(b: Byte): int {
    if '0' as int <= b <= '9' as int then b - '0' as int
    else if 'A' as int <= b <= 'F' as int then b - 'A' as int + 10
    else if 'a' as int <= b <= 'f' as int then b - 'a' as int + 10
    else 0
  }

  /** The hexadecimal digits in both cases, with their values. */
  lemma HexDigitsAre(n: nat, b: Byte)
    requires n < 16
    ensures IsHexDigit("0123456789ABCDEF"[n] as int) && HexValue("0123456789ABCDEF"[n] as int) == n
    ensures IsHexDigit("0123456789abcdef"[n] as int) && HexValue("0123456789abcdef"[n] as int) == n
    ensures IsHexDigit(b) && HexValue(b) == n ==>
              b == "0123456789ABCDEF"[n] as int || b == "0123456789abcdef"[n] as int
  {
  }

  /** Neither the signedness of char nor anything but the two gaps around the letters matters:
      xtoi_1 is the digit value, or 0, for exactly the bytes outside ':'..'@' and 'X'..'`'. */
  lemma Xtoi1IsHexValueIff(b: Byte, charIsSigned: bool)
    ensures Xtoi1(b, charIsSigned) == Xtoi1(b, !charIsSigned)
    ensures Xtoi1(b, charIsSigned) == HexValue(b)
       <==> !(':' as int <= b <= '@' as int) && !('X' as int <= b <= '`' as int)
    ensures ':' as int <= b <= '@' as int ==> Xtoi1(b, charIsSigned) == b - ':' as int + 3
    ensures 'X' as int <= b <= '`' as int ==> Xtoi1(b, charIsSigned) == b - 'X' as int + 1
  {
  }

  /** How many bytes the next step of decoding reads: an escape is read whenever two more bytes follow
      the '%'. */
  function Read(s: seq<Byte>): nat
    requires s != []
  {
    if s[0] == PERCENT && 2 < |s| then 3 else 1
  }

  /** The byte that step yields. */
  function Yield(s: seq<Byte>, plus2space: bool, charIsSigned: bool): Byte
    requires s != []
  {
    if s[0] == PERCENT && 2 < |s| then Xtoi2(s[1], s[2], charIsSigned)
    else if s[0] == PLUS && plus2space then SPACE
    else s[0]
  }

  /** The pure decoder. */
  function Decode(s: seq<Byte>, plus2space: bool, charIsSigned: bool): (r: seq<Byte>)
    ensures |r| <= |s|
  {
    if s == [] then []
    else [Yield(s, plus2space, charIsSigned)] + Decode(s[Read(s)..], plus2space, charIsSigned)
  }

  /** The decoded front of a buffer, followed by the decoding of its unread rest. */
  function Outlook(buffer: seq<Byte>, src: nat, dest: nat, plus2space: bool, charIsSigned: bool): seq<Byte>
    requires dest <= src <= |buffer|
  {
    buffer[..dest] + Decode(buffer[src..], plus2space, charIsSigned)
  }

  lemma OutlookStep(before: seq<Byte>, after: seq<Byte>, src: nat, dest: nat, plus2space: bool, charIsSigned: bool)
    requires dest <= src < |before|
    requires after == before[dest := Yield(before[src..], plus2space, charIsSigned)]
    ensures var next := src + Read(before[src..]);
            && next <= |after|
            && Outlook(after, next, dest + 1, plus2space, charIsSigned)
            == Outlook(before, src, dest, plus2space, charIsSigned)
  {
    var unread := before[src..];
    var next := src + Read(unread);
    var y := Yield(unread, plus2space, charIsSigned);
    assert after[next..] == unread[Read(unread)..];
    assert after[..dest + 1] == before[..dest] + [y];
    Associate(before[..dest], [y], Decode(unread[Read(unread)..], plus2space, charIsSigned));
  }

  /** The body of the loop: one byte is stored at `dest`, which is not ahead of what is still unread. */
  method UnescapeOne(a: array<Byte>, src: nat, dest: nat, plus2space: bool, charIsSigned: bool)
    returns (next: nat)
    requires dest <= src < a.Length
    modifies a
    ensures src < next <= a.Length
    ensures forall i :: 0 <= i < a.Length && i != dest ==> a[i] == old(a[i])
    ensures Outlook(a[..], next, dest + 1, plus2space, charIsSigned)
         == Outlook(old(a[..]), src, dest, plus2space, charIsSigned)
  {
    ghost var before := a[..];
    ghost var unread := before[src..];
    if a[src] == PERCENT && a.Length - src > 2 {
      a[dest] := Xtoi2(a[src + 1], a[src + 2], charIsSigned);
      next := src + 3;
    } else if a[src] == PLUS && plus2space {
      a[dest] := SPACE;
      next := src + 1;
    } else {
      a[dest] := a[src];
      next := src + 1;
    }
    assert next - src == Read(unread) && a[dest] == Yield(unread, plus2space, charIsSigned);
    assert a[..] == before[dest := a[dest]];
    OutlookStep(before, a[..], src, dest, plus2space, charIsSigned);
  }

  /** Two cursors over one buffer: `dest` never passes `src`, nothing unread is overwritten, and the
      first `length` bytes are the decoding of the original contents. */
  method Unescape(a: array<Byte>, plus2space: bool, charIsSigned: bool) returns (length: nat)
    modifies a
    ensures length <= a.Length
    ensures a[..length] == Decode(old(a[..]), plus2space, charIsSigned)
  {
    var src, dest := 0, 0;
    assert a[..][0..] == a[..];
    while src != a.Length
      invariant dest <= src <= a.Length
      invariant forall i :: src <= i < a.Length ==> a[i] == old(a[i])
      invariant Outlook(a[..], src, dest, plus2space, charIsSigned)
             == Decode(old(a[..]), plus2space, charIsSigned)
      decreases a.Length - src
    {
      var next := UnescapeOne(a, src, dest, plus2space, charIsSigned);
      src, dest := next, dest + 1;
    }
    assert a[..][src..] == [];
    length := dest;
  }

  // ----- encodings -----

  /** One encoded byte: as itself, as an escape with two hexadecimal digits, or as a plus sign. */
  datatype Piece = Literal(b: Byte) | Escape(high: Byte, low: Byte) | Plus

  function Text(p: Piece): seq<Byte> {
    match p
    case Literal(b) => [b]
    case Escape(high, low) => [PERCENT, high, low]
    case Plus => [PLUS]
  }

  predicate WellFormed(p: Piece, plus2space: bool) {
    match p
    case Literal(b) => b != PERCENT && (plus2space ==> b != PLUS)
    case Escape(high, low) => IsHexDigit(high) && IsHexDigit(low)
    case Plus => plus2space
  }

  function Meaning(p: Piece): Byte {
    match p
    case Literal(b) => b
    case Escape(high, low) => (HexValue(high) * 16 + HexValue(low)) % 256
    case Plus => SPACE
  }

  function Join(pieces: seq<Piece>): seq<Byte> {
    if pieces == [] then [] else Text(pieces[0]) + Join(pieces[1..])
  }

  function Meanings(pieces: seq<Piece>): (r: seq<Byte>)
    ensures |r| == |pieces|
  {
    seq(|pieces|, i requires 0 <= i < |pieces| => Meaning(pieces[i]))
  }

  /** The next step of decoding takes exactly this piece and yields what it means. */
  lemma StepOfPiece(p: Piece, rest: seq<Byte>, plus2space: bool, charIsSigned: bool)
    requires WellFormed(p, plus2space)
    ensures Read(Text(p) + rest) == |Text(p)|
    ensures Yield(Text(p) + rest, plus2space, charIsSigned) == Meaning(p)
  {
    var s := Text(p) + rest;
    assert forall i :: 0 <= i < |Text(p)| ==> s[i] == Text(p)[i];
    if p.Escape? {
      EscapeMeaning(p.high, p.low, charIsSigned);
    }
  }

  lemma EscapeMeaning(high: Byte, low: Byte, charIsSigned: bool)
    requires IsHexDigit(high) && IsHexDigit(low)
    ensures Xtoi2(high, low, charIsSigned) == Meaning(Escape(high, low))
  {
    Xtoi1IsHexValueIff(high, charIsSigned);
    Xtoi1IsHexValueIff(low, charIsSigned);
  }

  lemma DecodePiece(p: Piece, rest: seq<Byte>, plus2space: bool, charIsSigned: bool)
    requires WellFormed(p, plus2space)
    ensures Decode(Text(p) + rest, plus2space, charIsSigned)
         == [Meaning(p)] + Decode(rest, plus2space, charIsSigned)
  {
    StepOfPiece(p, rest, plus2space, charIsSigned);
    assert (Text(p) + rest)[|Text(p)|..] == rest;
  }

  /** Decoding undoes every percent-encoding of every byte string, whichever bytes are escaped and in
      whichever case the digits are written. */
  lemma {:induction false} DecodeUndoesEncoding(pieces: seq<Piece>, plus2space: bool, charIsSigned: bool)
    requires forall i :: 0 <= i < |pieces| ==> WellFormed(pieces[i], plus2space)
    ensures Decode(Join(pieces), plus2space, charIsSigned) == Meanings(pieces)
  {
    if pieces != [] {
      var p, rest := pieces[0], pieces[1..];
      DecodeUndoesEncoding(rest, plus2space, charIsSigned);
      DecodePiece(p, Join(rest), plus2space, charIsSigned);
      assert Meanings(pieces) == [Meaning(p)] + Meanings(rest);
    }
  }

  /** The unreserved characters of RFC 3986, section 2.3. */
  predicate Unreserved(b: Byte) {
    || 'A' as int <= b <= 'Z' as int
    || 'a' as int <= b <= 'z' as int
    || '0' as int <= b <= '9' as int
    || b == '-' as int || b == '.' as int || b == '_' as int || b == '~' as int
  }

  function HexDigit(n: int): Byte
    requires 0 <= n < 16
  {
    if n < 10 then '0' as int + n else 'A' as int + n - 10
  }

  function EncodeByte(b: Byte, plus2space: bool): Piece {
    if Unreserved(b) then Literal(b)
    else if b == SPACE && plus2space then Plus
    else Escape(HexDigit(b / 16), HexDigit(b % 16))
  }

  /** Percent-encoding after RFC 3986, section 2.1, with '+' for a space if asked for. */
  function Encode(s: seq<Byte>, plus2space: bool): seq<Byte> {
    Join(seq(|s|, i requires 0 <= i < |s| => EncodeByte(s[i], plus2space)))
  }

  lemma EncodeByteRoundTrip(b: Byte, plus2space: bool)
    ensures WellFormed(EncodeByte(b, plus2space), plus2space)
    ensures Meaning(EncodeByte(b, plus2space)) == b
  {
  }

  lemma DecodeEncode(s: seq<Byte>, plus2space: bool, charIsSigned: bool)
    ensures Decode(Encode(s, plus2space), plus2space, charIsSigned) == s
  {
    var pieces := seq(|s|, i requires 0 <= i < |s| => EncodeByte(s[i], plus2space));
    forall i | 0 <= i < |s|
      ensures WellFormed(pieces[i], plus2space) && Meaning(pieces[i]) == s[i]
    {
      EncodeByteRoundTrip(s[i], plus2space);
    }
    DecodeUndoesEncoding(pieces, plus2space, charIsSigned);
  }

  /** What decoding leaves alone: strings with no plus sign to turn into a space and no '%' that two
      more bytes follow. It shortens every other string or changes a byte of it. */
  lemma {:induction false} DecodeFixpoints(s: seq<Byte>, plus2space: bool, charIsSigned: bool)
    ensures Decode(s, plus2space, charIsSigned) == s <==>
              && (plus2space ==> PLUS !in s)
              && (forall i :: 0 <= i < |s| - 2 ==> s[i] != PERCENT)
  {
    if s != [] {
      if s[0] == PERCENT && 2 < |s| {
        assert |Decode(s, plus2space, charIsSigned)| < |s|;
      } else {
        DecodeFixpoints(s[1..], plus2space, charIsSigned);
        assert s == [s[0]] + s[1..];
        if s[0] == PLUS && plus2space {
          assert Decode(s, plus2space, charIsSigned)[0] != s[0];
        } else {
          assert forall i :: 0 <= i < |s| - 3 ==> s[1..][i] == s[i + 1];
          assert forall i :: 1 <= i < |s| - 2 ==> s[i] == s[1..][i - 1];
        }
      }
    }
  }

  /** "A+%2f" stands for "A /" or, without spaces for plus signs, for "A+/". */
  lemma DecodeExample(charIsSigned: bool)
    ensures Decode([65, 43, 37, 50, 102], true, charIsSigned) == [65, 32, 47]
    ensures Decode([65, 43, 37, 50, 102], false, charIsSigned) == [65, 43, 47]
  {
    var spaced, plain := [Literal(65), Plus, Escape(50, 102)], [Literal(65), Literal(43), Escape(50, 102)];
    DecodeThree(spaced, true, charIsSigned);
    DecodeThree(plain, false, charIsSigned);
    assert [65] + [43] + [37, 50, 102] == [65, 43, 37, 50, 102];
  }

  lemma DecodeThree(pieces: seq<Piece>, plus2space: bool, charIsSigned: bool)
    requires |pieces| == 3 && forall i :: 0 <= i < 3 ==> WellFormed(pieces[i], plus2space)
    ensures Decode(Text(pieces[0]) + Text(pieces[1]) + Text(pieces[2]), plus2space, charIsSigned)
         == [Meaning(pieces[0]), Meaning(pieces[1]), Meaning(pieces[2])]
  {
    JoinThree(pieces);
    DecodeUndoesEncoding(pieces, plus2space, charIsSigned);
  }

  lemma JoinThree(pieces: seq<Piece>)
    requires |pieces| == 3
    ensures Join(pieces) == Text(pieces[0]) + Text(pieces[1]) + Text(pieces[2])
  {
    assert pieces[1..][1..][1..] == [];
    assert Join(pieces[1..][1..]) == Text(pieces[2]);
  }
}
