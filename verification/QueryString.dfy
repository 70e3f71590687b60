// Percent encoding (sections 2.1 and 2.3 of RFC 3986) and query strings, over
// bytes.
module QueryStrings {

  type Byte = b: int | 0 <= b < 256

  const PERCENT: Byte := 0x25
  const PLUS: Byte := 0x2B
  const MINUS: Byte := 0x2D
  const SPACE: Byte := 0x20
  const AMPERSAND: Byte := 0x26
  const EQUALS: Byte := 0x3D

  predicate IsDigit(c: Byte) { 0x30 <= c <= 0x39 }

  predicate Unreserved(c: Byte) {
    IsDigit(c) || 0x41 <= c <= 0x5A || 0x61 <= c <= 0x7A || c == MINUS || c == 0x2E || c == 0x5F || c == 0x7E
  }

  function HexChar(d: int): (c: Byte)
    requires 0 <= d < 16
    ensures HexValue(c) == d && Unreserved(c)
  {
    if d < 10 then 0x30 + d else 0x41 + d - 10
  }

  function HexValue(c: Byte): (d: int)
    ensures -1 <= d < 16
  {
    if IsDigit(c) then c - 0x30
    else if 0x41 <= c <= 0x46 then c - 0x41 + 10
    else if 0x61 <= c <= 0x66 then c - 0x61 + 10
    else -1
  }

  // ---- strtol with base 16 on two characters, cast to a byte ---------------------

  predicate IsSpace(c: Byte) { c == SPACE || 0x09 <= c <= 0x0D }

  // At most one digit left to read.
  function OneDigit(c: Byte): int { if HexValue(c) >= 0 then HexValue(c) else 0 }

  function Strtol(a: Byte, b: Byte): int {
    if IsSpace(a) || a == PLUS then OneDigit(b)
    else if a == MINUS then -OneDigit(b)
    else if HexValue(a) < 0 then 0
    else if HexValue(b) < 0 then HexValue(a)
    else HexValue(a) * 16 + HexValue(b)
  }

  function ToByte(v: int): Byte { v % 256 }

  lemma Regroup<T>(a: seq<T>, b: seq<T>, c: seq<T>)
    ensures (a + b) + c == a + (b + c)
  {
  }

  lemma PrefixNext<T>(s: seq<T>, k: nat)
    requires k < |s|
    ensures s[..k + 1] == s[..k] + [s[k]]
  {
  }

  // ---- What the two loops compute --------------------------------------------------

  function EncodedByte(c: Byte): seq<Byte> {
    if Unreserved(c) then [c] else [PERCENT, HexChar(c / 16), HexChar(c % 16)]
  }

  function Encoded(value: seq<Byte>): seq<Byte> {
    if value == [] then [] else EncodedByte(value[0]) + Encoded(value[1..])
  }

  function Decoded(value: seq<Byte>): seq<Byte> {
    if value == [] then []
    else if value[0] == PERCENT && |value| > 2 then [ToByte(Strtol(value[1], value[2]))] + Decoded(value[3..])
    else if value[0] == PLUS then [SPACE] + Decoded(value[1..])
    else [value[0]] + Decoded(value[1..])
  }

  lemma {:induction false} EncodedAppend(a: seq<Byte>, b: seq<Byte>)
    ensures Encoded(a + b) == Encoded(a) + Encoded(b)
    decreases |a|
  {
    if a == [] {
      assert a + b == b;
    } else {
      EncodedAppend(a[1..], b);
      EncodedFirst(a[0], a[1..] + b);
      assert a + b == [a[0]] + (a[1..] + b);
      Regroup(EncodedByte(a[0]), Encoded(a[1..]), Encoded(b));
    }
  }

  method Encode(value: seq<Byte>) returns (result: seq<Byte>)
    ensures result == Encoded(value)
  {
    result := [];
    for k := 0 to |value|
      invariant result == Encoded(value[..k])
    {
      var c := value[k];
      assert value[..k + 1] == value[..k] + [c];
      EncodedAppend(value[..k], [c]);
      assert Encoded([c]) == EncodedByte(c);
      if !(IsDigit(c) || 0x41 <= c <= 0x5A || 0x61 <= c <= 0x7A || c == MINUS || c == 0x2E || c == 0x5F || c == 0x7E) {
        result := result + [PERCENT, HexChar(c / 16), HexChar(c % 16)];
      } else {
        result := result + [c];
      }
    }
    assert value[..|value|] == value;
  }

  // One round of the decoding loop: the bytes read and the byte they give.
  function Width(rest: seq<Byte>): nat {
    if rest != [] && rest[0] == PERCENT && |rest| > 2 then 3 else 1
  }

  function Head(rest: seq<Byte>): Byte
    requires rest != []
  {
    if Width(rest) == 3 then ToByte(Strtol(rest[1], rest[2])) else if rest[0] == PLUS then SPACE else rest[0]
  }

  lemma DecodedRound(rest: seq<Byte>)
    requires rest != []
    ensures Width(rest) <= |rest| && Decoded(rest) == [Head(rest)] + Decoded(rest[Width(rest)..])
  {
  }

  method Decode(value: seq<Byte>) returns (result: seq<Byte>)
    ensures result == Decoded(value)
  {
    result := [];
    var i := 0;
    while i < |value|
      invariant i <= |value| && result + Decoded(value[i..]) == Decoded(value)
    {
      ghost var rest, before := value[i..], result;
      DecodedRound(rest);
      Regroup(before, [Head(rest)], Decoded(rest[Width(rest)..]));
      assert rest[Width(rest)..] == value[i + Width(rest)..];
      var c := value[i];
      if c == PERCENT && i + 2 < |value| {
        result := result + [ToByte(Strtol(value[i + 1], value[i + 2]))];
        i := i + 2;
      } else if c == PLUS {
        result := result + [SPACE];
      } else {
        result := result + [c];
      }
      assert result == before + [Head(rest)];
      i := i + 1;
    }
  }

  // ---- Each byte and each triplet ------------------------------------------------------

  // A byte encodes to itself if it is a letter, a digit, '-', '.', '_' or '~', and
  // otherwise to '%' and two upper-case hexadecimal digits.
  lemma EncodesEach(c: Byte)
    ensures Encoded([c]) ==
            if 0x30 <= c <= 0x39 || 0x41 <= c <= 0x5A || 0x61 <= c <= 0x7A || c in {0x2D, 0x2E, 0x5F, 0x7E} then [c]
            else [0x25, "0123456789ABCDEF"[c / 16] as int, "0123456789ABCDEF"[c % 16] as int]
  {
    UpperDigit(c / 16);
    UpperDigit(c % 16);
    EncodedFirst(c, []);
    assert [c] + [] == [c] && EncodedByte(c) + [] == EncodedByte(c);
  }

  lemma UpperDigit(d: nat)
    requires d < 16
    ensures HexChar(d) == "0123456789ABCDEF"[d] as int
  {
  }

  // x is the digit d, in either case.
  predicate IsHexDigit(x: Byte, d: nat)
    requires d < 16
  {
    x == "0123456789ABCDEF"[d] as int || x == "0123456789abcdef"[d] as int
  }

  lemma DigitValue(x: Byte, d: nat)
    requires d < 16 && IsHexDigit(x, d)
    ensures HexValue(x) == d && !IsSpace(x) && x != PLUS && x != MINUS
  {
  }

  // What form text may hold for a byte: the byte, unless it is '%' or '+'; a plus
  // sign for a space; or a triplet with digits in either case.
  ghost predicate StandsFor(piece: seq<Byte>, c: Byte) {
    || (piece == [c] && c != 0x25 && c != 0x2B)
    || (piece == [0x2B] && c == 0x20)
    || (|piece| == 3 && piece[0] == 0x25 && IsHexDigit(piece[1], c / 16) && IsHexDigit(piece[2], c % 16))
  }

  function Concat(pieces: seq<seq<Byte>>): seq<Byte> {
    if pieces == [] then [] else pieces[0] + Concat(pieces[1..])
  }

  lemma PieceDecodes(piece: seq<Byte>, c: Byte, rest: seq<Byte>)
    requires StandsFor(piece, c)
    ensures Decoded(piece + rest) == [c] + Decoded(rest)
  {
    var text := piece + rest;
    if |piece| == 3 {
      DigitValue(piece[1], c / 16);
      DigitValue(piece[2], c % 16);
      assert text[0] == 0x25 && text[1] == piece[1] && text[2] == piece[2] && text[3..] == rest;
    } else {
      assert text[1..] == rest;
    }
  }

  // Form text decodes to the bytes its pieces stand for.
  lemma {:induction false} DecodesForm(pieces: seq<seq<Byte>>, value: seq<Byte>)
    requires |pieces| == |value| && forall k: nat | k < |pieces| :: StandsFor(pieces[k], value[k])
    ensures Decoded(Concat(pieces)) == value
    decreases |pieces|
  {
    if pieces != [] {
      PieceDecodes(pieces[0], value[0], Concat(pieces[1..]));
      DecodesForm(pieces[1..], value[1..]);
    }
  }

  // Two characters after '%' that are not two digits are read as strtol reads them:
  // blanks and a sign are passed over, and what is no digit ends the number.
  lemma DecodesMalformed(a: Byte, b: Byte, d: nat, rest: seq<Byte>)
    requires d < 16
    ensures IsHexDigit(a, d) && (forall e: nat | e < 16 :: !IsHexDigit(b, e)) ==>
              Decoded([0x25, a, b] + rest) == [d] + Decoded(rest)
    ensures (a in {0x20, 0x2B} || 0x09 <= a <= 0x0D) && IsHexDigit(b, d) ==>
              Decoded([0x25, a, b] + rest) == [d] + Decoded(rest)
    ensures a == 0x2D && IsHexDigit(b, d) ==>
              Decoded([0x25, a, b] + rest) == [if d == 0 then 0 else 256 - d] + Decoded(rest)
    ensures (forall e: nat | e < 16 :: !IsHexDigit(a, e)) && (a in {0x20, 0x2B, 0x2D} || 0x09 <= a <= 0x0D ==>
              forall e: nat | e < 16 :: !IsHexDigit(b, e)) ==>
              Decoded([0x25, a, b] + rest) == [0] + Decoded(rest)
  {
    var text := [0x25, a, b] + rest;
    assert text[0] == 0x25 && text[1] == a && text[2] == b && text[3..] == rest;
    NoDigit(a);
    NoDigit(b);
    if IsHexDigit(a, d) { DigitValue(a, d); }
    if IsHexDigit(b, d) { DigitValue(b, d); }
  }

  lemma NoDigit(x: Byte)
    ensures HexValue(x) < 0 <==> forall e: nat | e < 16 :: !IsHexDigit(x, e)
  {
    if HexValue(x) >= 0 { assert IsHexDigit(x, HexValue(x)); }
    forall e: nat | e < 16 && IsHexDigit(x, e) ensures HexValue(x) >= 0 { DigitValue(x, e); }
  }

  // A '%' without two characters after it stays.
  lemma DecodesTruncated(a: Byte)
    ensures Decoded([0x25]) == [0x25] && Decoded([0x25, a]) == [0x25, if a == 0x2B then 0x20 else a]
  {
    assert [0x25, a][1..] == [a] && [a][1..] == [] && [0x25][1..] == [];
  }

  // ---- Round trips -------------------------------------------------------------------

  lemma DecodedByte(c: Byte, rest: seq<Byte>)
    ensures Decoded(EncodedByte(c) + rest) == [c] + Decoded(rest)
  {
    var text := EncodedByte(c) + rest;
    if Unreserved(c) {
      assert text[1..] == rest;
    } else {
      assert text[1] == HexChar(c / 16) && text[2] == HexChar(c % 16) && text[3..] == rest;
      assert ToByte(Strtol(text[1], text[2])) == c;
    }
  }

  // Decoding undoes encoding on every byte string.
  lemma {:induction false} DecodeUndoesEncode(value: seq<Byte>)
    ensures Decoded(Encoded(value)) == value
    decreases |value|
  {
    if value != [] {
      DecodedByte(value[0], Encoded(value[1..]));
      DecodeUndoesEncode(value[1..]);
    }
  }

  // Texts in normal form: unreserved characters, and triplets with upper-case
  // digits for everything else.
  predicate Canonical(text: seq<Byte>) {
    if text == [] then true
    else if Unreserved(text[0]) then Canonical(text[1..])
    else
      && text[0] == PERCENT && |text| > 2 && UpperHex(text[1]) && UpperHex(text[2])
      && !Unreserved(HexValue(text[1]) * 16 + HexValue(text[2]))
      && Canonical(text[3..])
  }

  predicate UpperHex(c: Byte) { IsDigit(c) || 0x41 <= c <= 0x46 }

  lemma {:induction false} EncodedIsCanonical(value: seq<Byte>)
    ensures Canonical(Encoded(value))
    decreases |value|
  {
    if value != [] {
      EncodedIsCanonical(value[1..]);
      var text := Encoded(value);
      if Unreserved(value[0]) {
        assert text[1..] == Encoded(value[1..]);
      } else {
        assert text[3..] == Encoded(value[1..]);
        assert text[1] == HexChar(value[0] / 16) && text[2] == HexChar(value[0] % 16);
      }
    }
  }

  lemma {:induction false} EncodeUndoesDecode(text: seq<Byte>)
    requires Canonical(text)
    ensures Encoded(Decoded(text)) == text
    decreases |text|
  {
    if text != [] {
      if Unreserved(text[0]) {
        EncodeUndoesDecode(text[1..]);
        ByteBack(text);
      } else {
        EncodeUndoesDecode(text[3..]);
        TripletBack(text);
      }
    }
  }

  lemma ByteBack(text: seq<Byte>)
    requires text != [] && Unreserved(text[0]) && Encoded(Decoded(text[1..])) == text[1..]
    ensures Encoded(Decoded(text)) == text
  {
    assert Decoded(text) == [text[0]] + Decoded(text[1..]);
    EncodedFirst(text[0], Decoded(text[1..]));
    assert text == [text[0]] + text[1..];
  }

  lemma TripletBack(text: seq<Byte>)
    requires |text| > 2 && text[0] == PERCENT && UpperHex(text[1]) && UpperHex(text[2])
    requires !Unreserved(HexValue(text[1]) * 16 + HexValue(text[2])) && Encoded(Decoded(text[3..])) == text[3..]
    ensures Encoded(Decoded(text)) == text
  {
    var c := TripletCode(text);
    TripletEncoded(text, c, Decoded(text[3..]));
  }

  lemma TripletCode(text: seq<Byte>) returns (c: Byte)
    requires |text| > 2 && text[0] == PERCENT && UpperHex(text[1]) && UpperHex(text[2])
    requires !Unreserved(HexValue(text[1]) * 16 + HexValue(text[2]))
    ensures Decoded(text) == [c] + Decoded(text[3..]) && EncodedByte(c) == [text[0], text[1], text[2]]
  {
    c := HexValue(text[1]) * 16 + HexValue(text[2]);
    TripletDecoded(text, c);
    TripletOf(text[1], text[2]);
  }

  lemma TripletEncoded(text: seq<Byte>, c: Byte, rest: seq<Byte>)
    requires |text| > 2 && EncodedByte(c) == [text[0], text[1], text[2]] && Encoded(rest) == text[3..]
    ensures Encoded([c] + rest) == text
  {
    EncodedFirst(c, rest);
    assert text == [text[0], text[1], text[2]] + text[3..];
  }

  lemma TripletDecoded(text: seq<Byte>, c: Byte)
    requires |text| > 2 && text[0] == PERCENT && UpperHex(text[1]) && UpperHex(text[2])
    requires c == HexValue(text[1]) * 16 + HexValue(text[2])
    ensures Decoded(text) == [c] + Decoded(text[3..])
  {
  }

  lemma EncodedFirst(c: Byte, rest: seq<Byte>)
    ensures Encoded([c] + rest) == EncodedByte(c) + Encoded(rest)
  {
    assert ([c] + rest)[1..] == rest;
  }

  lemma TripletOf(a: Byte, b: Byte)
    requires UpperHex(a) && UpperHex(b) && !Unreserved(HexValue(a) * 16 + HexValue(b))
    ensures EncodedByte(HexValue(a) * 16 + HexValue(b)) == [PERCENT, a, b]
  {
  }

  // Encoding undoes decoding exactly on the texts in normal form.
  lemma EncodeUndoesDecodeExactly(text: seq<Byte>)
    ensures Encoded(Decoded(text)) == text <==> Canonical(text)
  {
    EncodedIsCanonical(Decoded(text));
    if Canonical(text) { EncodeUndoesDecode(text); }
  }

  lemma {:induction false} CanonicalAvoids(text: seq<Byte>, c: Byte)
    requires Canonical(text) && !Unreserved(c) && c != PERCENT
    ensures c !in text
    decreases |text|
  {
    if text != [] {
      if Unreserved(text[0]) {
        CanonicalAvoids(text[1..], c);
        assert text == [text[0]] + text[1..];
      } else {
        CanonicalAvoids(text[3..], c);
        assert text == [text[0], text[1], text[2]] + text[3..];
      }
    }
  }

  // ---- Query strings ---------------------------------------------------------------------

  // The multimap, in the order it is iterated or filled.
  datatype Field = Field(name: seq<Byte>, value: seq<Byte>)

  function FieldText(f: Field): seq<Byte> {
    f.name + [EQUALS] + Encoded(f.value)
  }

  function Text(fields: seq<Field>, k: nat): seq<Byte>
    requires k <= |fields|
  {
    if k == 0 then []
    else Text(fields, k - 1) + (if k > 1 then [AMPERSAND] else []) + FieldText(fields[k - 1])
  }

  method Create(fields: seq<Field>) returns (result: seq<Byte>)
    ensures result == Text(fields, |fields|)
  {
    result := [];
    var first := true;
    for k := 0 to |fields|
      invariant result == Text(fields, k) && first == (k == 0)
    {
      var value := Encode(fields[k].value);
      result := result + (if !first then [AMPERSAND] else []) + (fields[k].name + [EQUALS] + value);
      first := false;
    }
  }

  ghost predicate Lacks(s: seq<Byte>, from: nat, to: nat, c: Byte)
    requires to <= |s|
  {
    forall i: nat | from <= i < to :: s[i] != c
  }

  // Where c first occurs, or the length.
  function IndexOf(s: seq<Byte>, c: Byte): (k: nat)
    ensures k <= |s| && Lacks(s, 0, k, c) && (k < |s| ==> s[k] == c)
  {
    if s == [] || s[0] == c then 0 else IndexOf(s[1..], c) + 1
  }

  lemma IndexIs(s: seq<Byte>, c: Byte, k: nat)
    requires k <= |s| && Lacks(s, 0, k, c) && (k < |s| ==> s[k] == c)
    ensures IndexOf(s, c) == k
  {
  }

  function OneField(segment: seq<Byte>): seq<Field> {
    var e := IndexOf(segment, EQUALS);
    if e == 0 then []
    else [Field(segment[..e], Decoded(if e < |segment| then segment[e + 1..] else []))]
  }

  // The fields of a text: one per segment between ampersands, unless nameless.
  function Fields(text: seq<Byte>): seq<Field>
    decreases |text|
  {
    if text == [] then []
    else
      var k := IndexOf(text, AMPERSAND);
      OneField(text[..k]) + if k < |text| then Fields(text[k + 1..]) else []
  }

  method Parse(text: seq<Byte>) returns (result: seq<Field>)
    ensures result == Fields(text)
  {
    result := [];
    if text == [] {
      return;
    }
    var namePos := 0;
    var nameEnd, valuePos := -1, -1;
    var c := 0;
    while c < |text|
      invariant 0 <= namePos <= c <= |text|
      invariant Scanned(text, namePos, c, nameEnd) && (nameEnd >= 0 ==> valuePos == nameEnd + 1)
      invariant result + Fields(text[namePos..]) == Fields(text)
    {
      var next := c + 1;
      ScannedNext(text, namePos, c, next, nameEnd);
      if text[c] == AMPERSAND {
        var field := TakeField(text, namePos, c, nameEnd, valuePos);
        FieldTaken(text, namePos, c, next, result, field);
        result := result + field;
        namePos, nameEnd, valuePos := next, -1, -1;
      } else if text[c] == EQUALS && nameEnd == -1 {
        nameEnd, valuePos := c, next;
      }
      c := next;
    }
    LastSegment(text, namePos);
    var field := TakeField(text, namePos, |text|, nameEnd, valuePos);
    result := result + field;
  }

  lemma FieldTaken(text: seq<Byte>, start: nat, c: nat, next: nat, result: seq<Field>, field: seq<Field>)
    requires start <= c < |text| && next == c + 1 && Lacks(text, start, c, AMPERSAND) && text[c] == AMPERSAND
    requires field == OneField(text[start..c])
    ensures result + Fields(text[start..]) == (result + field) + Fields(text[next..])
  {
    SegmentEnds(text, start, c);
    Regroup(result, field, Fields(text[next..]));
  }

  // The field of the segment from namePos to c, unless its name is empty.
  method TakeField(text: seq<Byte>, namePos: nat, c: nat, nameEnd: int, valuePos: int) returns (field: seq<Field>)
    requires namePos <= c <= |text| && Scanned(text, namePos, c, nameEnd) && (nameEnd >= 0 ==> valuePos == nameEnd + 1)
    ensures field == OneField(text[namePos..c])
  {
    SegmentField(text, namePos, c, nameEnd);
    field := [];
    var end := if nameEnd == -1 then c else nameEnd;
    if end > namePos {
      var value := Decode(if nameEnd == -1 then [] else text[valuePos..c]);
      field := [Field(text[namePos..end], value)];
    }
  }

  // No ampersand in the segment so far, and nameEnd is its first equals sign, -1
  // if there is none.
  ghost predicate Scanned(text: seq<Byte>, start: nat, c: nat, nameEnd: int)
    requires start <= c <= |text|
  {
    && Lacks(text, start, c, AMPERSAND)
    && if nameEnd < 0 then nameEnd == -1 && Lacks(text, start, c, EQUALS)
       else start <= nameEnd < c && text[nameEnd] == EQUALS && Lacks(text, start, nameEnd, EQUALS)
  }

  lemma ScannedNext(text: seq<Byte>, start: nat, c: nat, next: nat, nameEnd: int)
    requires start <= c < |text| && next == c + 1 && Scanned(text, start, c, nameEnd)
    ensures text[c] == AMPERSAND ==> Scanned(text, next, next, -1)
    ensures text[c] != AMPERSAND ==>
        Scanned(text, start, next, if text[c] == EQUALS && nameEnd == -1 then c else nameEnd)
  {
  }

  lemma SegmentEnds(text: seq<Byte>, start: nat, c: nat)
    requires start <= c < |text| && Lacks(text, start, c, AMPERSAND) && text[c] == AMPERSAND
    ensures Fields(text[start..]) == OneField(text[start..c]) + Fields(text[c + 1..])
  {
    Resliced(text, start, c);
    FieldsOf(text[start..], c - start, text[start..c], text[c + 1..]);
  }

  lemma FieldsOf(text: seq<Byte>, k: nat, segment: seq<Byte>, rest: seq<Byte>)
    requires k < |text| && Lacks(text, 0, k, AMPERSAND) && text[k] == AMPERSAND
    requires text[..k] == segment && text[k + 1..] == rest
    ensures Fields(text) == OneField(segment) + Fields(rest)
  {
    FieldsUnfold(text, k);
  }

  // The segment and what follows it, seen from where it starts.
  lemma Resliced(text: seq<Byte>, start: nat, c: nat)
    requires start <= c < |text| && Lacks(text, start, c, AMPERSAND)
    ensures text[start..][..c - start] == text[start..c] && text[start..][c - start + 1..] == text[c + 1..]
    ensures Lacks(text[start..], 0, c - start, AMPERSAND) && text[start..][c - start] == text[c]
  {
  }

  // A text that goes on after its first ampersand, and one without any.
  lemma FieldsUnfold(text: seq<Byte>, k: nat)
    requires k < |text| && Lacks(text, 0, k, AMPERSAND) && text[k] == AMPERSAND
    ensures Fields(text) == OneField(text[..k]) + Fields(text[k + 1..])
  {
    IndexIs(text, AMPERSAND, k);
  }

  lemma FieldsWhole(text: seq<Byte>)
    requires Lacks(text, 0, |text|, AMPERSAND)
    ensures Fields(text) == OneField(text)
  {
    assert text[..|text|] == text;
    if text != [] { IndexIs(text, AMPERSAND, |text|); }
  }

  lemma LastSegment(text: seq<Byte>, start: nat)
    requires start <= |text| && Lacks(text, start, |text|, AMPERSAND)
    ensures Fields(text[start..]) == OneField(text[start..|text|])
  {
    assert text[start..] == text[start..|text|];
    FieldsWhole(text[start..]);
  }

  lemma SegmentField(text: seq<Byte>, start: nat, c: nat, nameEnd: int)
    requires start <= c <= |text| && Scanned(text, start, c, nameEnd)
    ensures var end := if nameEnd == -1 then c else nameEnd;
            OneField(text[start..c]) ==
            if end == start then []
                else [Field(text[start..end], Decoded(if nameEnd == -1 then [] else text[nameEnd + 1..c]))]
  {
    var segment := text[start..c];
    if nameEnd == -1 {
      assert segment[..|segment|] == segment;
      IndexIs(segment, EQUALS, |segment|);
    } else {
      var e := nameEnd - start;
      assert segment[..e] == text[start..nameEnd] && segment[e + 1..] == text[nameEnd + 1..c];
      IndexIs(segment, EQUALS, e);
    }
  }

  // ---- Round trip of query strings ---------------------------------------------------------

  predicate GoodName(name: seq<Byte>) {
    name != [] && AMPERSAND !in name && EQUALS !in name
  }

  function Joined(a: seq<Byte>, b: seq<Byte>): seq<Byte> {
    a + [AMPERSAND] + b
  }

  lemma {:induction false} FieldsAppend(a: seq<Byte>, b: seq<Byte>)
    ensures Fields(Joined(a, b)) == Fields(a) + Fields(b)
    decreases |a|
  {
    var k := IndexOf(a, AMPERSAND);
    JoinedAt(a, b, k);
    if k < |a| {
      FieldsAppend(a[k + 1..], b);
      SplitFirst(a, k, Joined(a, b), Fields(b));
    } else {
      FieldsUnfold(Joined(a, b), k);
      FieldsWhole(a);
    }
  }

  lemma JoinedAt(a: seq<Byte>, b: seq<Byte>, k: nat)
    requires k <= |a| && Lacks(a, 0, k, AMPERSAND) && (k < |a| ==> a[k] == AMPERSAND)
    ensures k < |Joined(a, b)| && Joined(a, b)[..k] == a[..k] && Joined(a, b)[k] == AMPERSAND
    ensures Lacks(Joined(a, b), 0, k, AMPERSAND)
    ensures k < |a| ==> Joined(a, b)[k + 1..] == Joined(a[k + 1..], b)
    ensures k == |a| ==> a[..k] == a && Joined(a, b)[k + 1..] == b
  {
  }

  lemma SplitFirst(a: seq<Byte>, k: nat, text: seq<Byte>, more: seq<Field>)
    requires k < |a| && Lacks(a, 0, k, AMPERSAND) && a[k] == AMPERSAND
    requires k < |text| && Lacks(text, 0, k, AMPERSAND) && text[k] == AMPERSAND && text[..k] == a[..k]
    requires Fields(text[k + 1..]) == Fields(a[k + 1..]) + more
    ensures Fields(text) == Fields(a) + more
  {
    FieldsUnfold(text, k);
    FieldsUnfold(a, k);
    Regroup(OneField(a[..k]), Fields(a[k + 1..]), more);
  }

  lemma FieldTextParses(f: Field)
    requires GoodName(f.name)
    ensures Fields(FieldText(f)) == [f]
  {
    var text := FieldText(f);
    EncodedIsCanonical(f.value);
    CanonicalAvoids(Encoded(f.value), AMPERSAND);
    FieldsWhole(text);
    assert text[..|f.name|] == f.name && text[|f.name| + 1..] == Encoded(f.value);
    IndexIs(text, EQUALS, |f.name|);
    DecodeUndoesEncode(f.value);
  }

  lemma TextUnfold(fields: seq<Field>, k: nat)
    requires 0 < k <= |fields|
    ensures Fields(Text(fields, k)) == Fields(Text(fields, k - 1)) + Fields(FieldText(fields[k - 1]))
  {
    if k > 1 {
      FieldsAppend(Text(fields, k - 1), FieldText(fields[k - 1]));
      assert Text(fields, k) == Joined(Text(fields, k - 1), FieldText(fields[k - 1]));
    } else {
      assert Text(fields, 1) == FieldText(fields[0]);
    }
  }

  lemma {:induction false} TextParses(fields: seq<Field>, k: nat)
    requires k <= |fields| && forall f <- fields :: GoodName(f.name)
    ensures Fields(Text(fields, k)) == fields[..k]
    decreases k
  {
    if k > 0 {
      TextParses(fields, k - 1);
      TextUnfold(fields, k);
      assert fields[k - 1] in fields;
      FieldTextParses(fields[k - 1]);
      PrefixNext(fields, k - 1);
    }
  }

  lemma {:induction false} ParsedNamesAreGood(text: seq<Byte>)
    ensures forall f <- Fields(text) :: GoodName(f.name)
    decreases |text|
  {
    var k := IndexOf(text, AMPERSAND);
    if k < |text| {
      ParsedNamesAreGood(text[k + 1..]);
      FieldsUnfold(text, k);
    } else {
      FieldsWhole(text);
      assert text[..k] == text;
    }
    SegmentNameIsGood(text[..k]);
  }

  lemma SegmentNameIsGood(segment: seq<Byte>)
    requires Lacks(segment, 0, |segment|, AMPERSAND)
    ensures forall f <- OneField(segment) :: GoodName(f.name)
  {
  }

  // How a text is taken apart: at every '&', each segment at its first '=', a
  // segment without one has an empty value, one without a name is dropped.
  lemma FieldsExactly(a: seq<Byte>, b: seq<Byte>, name: seq<Byte>, value: seq<Byte>)
    ensures Fields(a + [0x26] + b) == Fields(a) + Fields(b) && Fields([]) == []
    ensures name != [] && 0x26 !in name && 0x3D !in name && 0x26 !in value ==>
              Fields(name + [0x3D] + value) == [Field(name, Decoded(value))]
    ensures name != [] && 0x26 !in name && 0x3D !in name ==> Fields(name) == [Field(name, [])]
    ensures 0x26 !in value ==> Fields([0x3D] + value) == []
  {
    FieldsAppend(a, b);
    assert Joined(a, b) == a + [0x26] + b;
    if name != [] && 0x26 !in name && 0x3D !in name {
      NamedField(name);
      if 0x26 !in value { ValuedField(name, value); }
    }
    if 0x26 !in value {
      FieldsWhole([0x3D] + value);
      IndexIs([0x3D] + value, EQUALS, 0);
    }
  }

  lemma NamedField(name: seq<Byte>)
    requires GoodName(name)
    ensures Fields(name) == [Field(name, [])]
  {
    FieldsWhole(name);
    IndexIs(name, EQUALS, |name|);
    assert name[..|name|] == name;
  }

  lemma ValuedField(name: seq<Byte>, value: seq<Byte>)
    requires GoodName(name) && AMPERSAND !in value
    ensures Fields(name + [EQUALS] + value) == [Field(name, Decoded(value))]
  {
    var text := name + [EQUALS] + value;
    FieldsWhole(text);
    assert text[..|name|] == name && text[|name| + 1..] == value;
    IndexIs(text, EQUALS, |name|);
  }

  // How a text is put together: '=' between name and value, '&' between fields.
  lemma TextExactly(fields: seq<Field>, k: nat)
    requires 0 < k <= |fields|
    ensures var f := fields[k - 1];
            Text(fields, k) ==
            (if k == 1 then [] else Text(fields, k - 1) + [0x26]) + f.name + [0x3D] + Encoded(f.value)
  {
    Regroup(Text(fields, k - 1) + [0x26], fields[k - 1].name, [0x3D]);
  }

  // Parsing a created query string gives the fields back exactly when every name
  // is non-empty and has neither '&' nor '='; otherwise some field is lost.
  lemma QueryStringRoundTrip(fields: seq<Field>)
    ensures Fields(Text(fields, |fields|)) == fields <==> forall f <- fields :: GoodName(f.name)
    ensures (forall f <- Fields(Text(fields, |fields|)) :: GoodName(f.name))
  {
    ParsedNamesAreGood(Text(fields, |fields|));
    if forall f <- fields :: GoodName(f.name) {
      TextParses(fields, |fields|);
      assert fields[..|fields|] == fields;
    }
  }
}
