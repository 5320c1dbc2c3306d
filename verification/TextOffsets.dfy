/**
  UTF-8, UTF-16 and line/column offsets (src/typescript_service.rs:1014-1116, src/editor_util.rs:13-40).
  Text is a sequence of Unicode scalars; its UTF-8 bytes are computed, so that a byte offset may fall
  inside a scalar as it may in the program.
*/
module TextOffsets {
  import opened Numbers
  import opened Wrappers

  const U32: nat := 0x1_0000_0000

  // ---------------------------------------------------------------- UTF-8 and UTF-16

  /** The bytes of a scalar that follow its first: six bits each. */
  function Utf8Tail(n: nat, count: nat): (b: seq<Byte>)
    ensures |b| == count && forall i :: 0 <= i < count ==> Continues(b[i])
  {
    if count == 0 then [] else Utf8Tail(n / 0x40, count - 1) + [0x80 + n % 0x40]
  }

  function Utf8Lead(n: nat): (b: Byte)
    requires n < 0x110000
    ensures !Continues(b) && (b == NEWLINE <==> n == NEWLINE)
  {
    if n < 0x80 then n
    else if n < 0x800 then 0xC0 + n / 0x40
    else if n < 0x10000 then 0xE0 + n / 0x1000
    else 0xF0 + n / 0x40000
  }

  function Utf8(c: char): (b: seq<Byte>)
    ensures 1 <= |b| <= 4 && !Continues(b[0])
    ensures forall i :: 1 <= i < |b| ==> Continues(b[i])
    ensures c == '\n' ==> b == [NEWLINE]
    ensures c != '\n' ==> NEWLINE !in b
  {
    var n := c as int;
    [Utf8Lead(n)] + Utf8Tail(n, if n < 0x80 then 0 else if n < 0x800 then 1 else if n < 0x10000 then 2 else 3)
  }

  /** A byte that continues a scalar. */
  predicate Continues(b: Byte) {
    0x80 <= b < 0xC0
  }

  /** The UTF-8 bytes of the first `k` scalars of a text. */
  function Encoded(text: string, k: nat): seq<Byte>
    requires k <= |text|
  {
    if k == 0 then [] else Encoded(text, k - 1) + Utf8(text[k - 1])
  }

  function Bytes(text: string): seq<Byte> {
    Encoded(text, |text|)
  }

  function Utf16Length(c: char): nat {
    if c as int < 0x10000 then 1 else 2
  }

  predicate Tail(b: Byte) {
    0x80 <= b <= 0xBF
  }

  /** One more byte behind a number: its six bits. */
  function WithTail(n: nat, b: Byte): nat
    requires Tail(b)
  {
    n * 64 + (b as nat - 0x80)
  }

  /** The number that a sequence of bytes encodes, by the table of section 3 of RFC 3629, if they are one. */
  function Decoded(b: seq<Byte>): Option<nat> {
    if |b| == 1 && b[0] <= 0x7F then Some(b[0])
    else if |b| == 2 && 0xC0 <= b[0] <= 0xDF && Tail(b[1]) then Some(WithTail(b[0] as nat - 0xC0, b[1]))
    else if |b| == 3 && 0xE0 <= b[0] <= 0xEF && Tail(b[1]) && Tail(b[2]) then
      Some(WithTail(WithTail(b[0] as nat - 0xE0, b[1]), b[2]))
    else if |b| == 4 && 0xF0 <= b[0] <= 0xF7 && Tail(b[1]) && Tail(b[2]) && Tail(b[3]) then
      Some(WithTail(WithTail(WithTail(b[0] as nat - 0xF0, b[1]), b[2]), b[3]))
    else None
  }

  /** The bytes of a scalar decode to it and are as few as can be; UTF-16 needs a pair exactly above FFFF. */
  lemma {:induction false} Utf8IsStandard(c: char)
    ensures Decoded(Utf8(c)) == Some(c as nat)
    ensures |Utf8(c)| == if c as int <= 0x7F then 1 else if c as int <= 0x7FF then 2 else if c as int <= 0xFFFF then 3 else 4
    ensures Utf16Length(c) == if c as int <= 0xFFFF then 1 else 2
    ensures forall b: Byte :: Continues(b) <==> Tail(b)
  {
    var n := c as int;
    if n >= 0x80 {
      if n < 0x800 { TwoBytes(n); } else if n < 0x1_0000 { ThreeBytes(n); } else { FourBytes(n); }
    }
  }

  lemma {:induction false} TailSnoc(n: nat, count: nat)
    requires count > 0
    ensures Utf8Tail(n, count) == Utf8Tail(n / 0x40, count - 1) + [0x80 + n % 0x40]
    ensures Tail(0x80 + n % 0x40) && WithTail(n / 0x40, 0x80 + n % 0x40) == n
  {
  }

  lemma {:induction false} TwoBytes(n: nat)
    requires 0x80 <= n < 0x800
    ensures Decoded([Utf8Lead(n)] + Utf8Tail(n, 1)) == Some(n)
  {
    TailSnoc(n, 1);
    assert [Utf8Lead(n)] + Utf8Tail(n, 1) == [0xC0 + n / 0x40, 0x80 + n % 0x40];
  }

  lemma {:induction false} ThreeBytes(n: nat)
    requires 0x800 <= n < 0x1_0000
    ensures Decoded([Utf8Lead(n)] + Utf8Tail(n, 2)) == Some(n)
  {
    var m := n / 0x40;
    assert n / 0x1000 == m / 0x40;
    TailSnoc(n, 2);
    TailSnoc(m, 1);
    assert [Utf8Lead(n)] + Utf8Tail(n, 2) == [0xE0 + m / 0x40, 0x80 + m % 0x40, 0x80 + n % 0x40];
  }

  lemma {:induction false} FourBytes(n: nat)
    requires 0x1_0000 <= n < 0x11_0000
    ensures Decoded([Utf8Lead(n)] + Utf8Tail(n, 3)) == Some(n)
  {
    var m := n / 0x40;
    var k := m / 0x40;
    assert n / 0x40000 == k / 0x40;
    TailSnoc(n, 3);
    TailSnoc(m, 2);
    TailSnoc(k, 1);
    assert [Utf8Lead(n)] + Utf8Tail(n, 3)
        == [0xF0 + k / 0x40, 0x80 + k % 0x40, 0x80 + m % 0x40, 0x80 + n % 0x40];
  }

  /** The UTF-16 length of the first `k` scalars of a text. */
  function Units(text: string, k: nat): nat
    requires k <= |text|
  {
    if k == 0 then 0 else Units(text, k - 1) + Utf16Length(text[k - 1])
  }

  predicate IsCharBoundary(bytes: seq<Byte>, offset: nat) {
    offset == 0 || offset == |bytes| || (offset < |bytes| && !Continues(bytes[offset]))
  }

  // ---------------------------------------------------------------- scalars among bytes

  lemma {:induction false} EncodedPrefix(text: string, j: nat, k: nat)
    requires j <= k <= |text|
    ensures Encoded(text, j) <= Encoded(text, k)
    decreases k
  {
    if j < k {
      EncodedPrefix(text, j, k - 1);
    }
  }

  lemma {:induction false} Growing(text: string, j: nat, k: nat)
    requires j < k <= |text|
    ensures |Encoded(text, j)| < |Encoded(text, k)| && Units(text, j) < Units(text, k)
    decreases k
  {
    assert |Encoded(text, k)| == |Encoded(text, k - 1)| + |Utf8(text[k - 1])|;
    if j < k - 1 {
      Growing(text, j, k - 1);
    }
  }

  /** The scalar that begins at, or holds, a byte position, and the byte there. */
  lemma {:induction false} ScalarAround(text: string, n: nat, offset: nat) returns (k: nat)
    requires n <= |text| && offset < |Encoded(text, n)|
    ensures k < n && |Encoded(text, k)| <= offset < |Encoded(text, k + 1)|
    ensures Encoded(text, k + 1) == Encoded(text, k) + Utf8(text[k])
    ensures Encoded(text, n)[offset] == Utf8(text[k])[offset - |Encoded(text, k)|]
    decreases n
  {
    if offset >= |Encoded(text, n - 1)| {
      k := n - 1;
    } else {
      k := ScalarAround(text, n - 1, offset);
    }
  }

  /** The byte boundaries are exactly the positions between scalars. */
  lemma {:induction false} BoundaryScalar(text: string, offset: nat) returns (k: nat)
    requires IsCharBoundary(Bytes(text), offset)
    ensures k <= |text| && offset == |Encoded(text, k)|
  {
    if offset < |Bytes(text)| {
      k := ScalarAround(text, |text|, offset);
    } else {
      k := |text|;
    }
  }

  lemma {:induction false} ScalarBoundary(text: string, k: nat)
    requires k <= |text|
    ensures |Encoded(text, k)| <= |Bytes(text)| && IsCharBoundary(Bytes(text), |Encoded(text, k)|)
  {
    EncodedPrefix(text, k, |text|);
    if k < |text| {
      Growing(text, k, |text|);
      var j := ScalarAround(text, |text|, |Encoded(text, k)|);
      if j < k {
        if j + 1 < k { Growing(text, j + 1, k); }
      } else if k < j {
        Growing(text, k, j);
      }
    }
  }

  lemma {:induction false} OneScalar(text: string, j: nat, k: nat)
    requires j <= |text| && k <= |text|
    requires |Encoded(text, j)| == |Encoded(text, k)| || Units(text, j) == Units(text, k)
    ensures j == k
  {
    if j < k { Growing(text, j, k); }
    if k < j { Growing(text, k, j); }
  }

  // ---------------------------------------------------------------- bytes to UTF-16 and back

  datatype Error = InvalidByteOffset(offset: nat, length: nat) | InvalidUtf16Offset(offset: nat)

  /** The number of scalars in bytes: those that continue none. */
  function Scalars(bytes: seq<Byte>): nat {
    if bytes == [] then 0 else Scalars(bytes[..|bytes| - 1]) + if Continues(bytes[|bytes| - 1]) then 0 else 1
  }

  lemma {:induction false} ScalarsAll(a: seq<Byte>, b: seq<Byte>)
    ensures Scalars(a + b) == Scalars(a) + Scalars(b)
    decreases |b|
  {
    if b == [] {
      assert a + b == a;
    } else {
      assert (a + b)[..|a + b| - 1] == a + b[..|b| - 1];
      ScalarsAll(a, b[..|b| - 1]);
    }
  }

  lemma {:induction false} ScalarsOfOne(b: seq<Byte>)
    requires b != [] && !Continues(b[0]) && forall i :: 1 <= i < |b| ==> Continues(b[i])
    ensures Scalars(b) == 1
    decreases |b|
  {
    if |b| > 1 {
      ScalarsOfOne(b[..|b| - 1]);
    } else {
      assert b[..0] == [];
    }
  }

  lemma {:induction false} ScalarsCount(text: string, k: nat)
    requires k <= |text|
    ensures Scalars(Encoded(text, k)) == k
  {
    if k > 0 {
      ScalarsCount(text, k - 1);
      ScalarsOfOne(Utf8(text[k - 1]));
      ScalarsAll(Encoded(text, k - 1), Utf8(text[k - 1]));
    }
  }

  /** The scalars of the text before a byte boundary. */
  function ScalarsBefore(text: string, offset: nat): (k: nat)
    requires IsCharBoundary(Bytes(text), offset)
    ensures k <= |text| && offset == |Encoded(text, k)|
  {
    var k := Scalars(Bytes(text)[..offset]);
    assert k <= |text| && offset == |Encoded(text, k)| by {
      var j := BoundaryScalar(text, offset);
      EncodedPrefix(text, j, |text|);
      assert Bytes(text)[..offset] == Encoded(text, j);
      ScalarsCount(text, j);
    }
    k
  }

  function ByteOffsetToUtf16(text: string, offset: nat): Result<nat, Error> {
    if offset > |Bytes(text)| || !IsCharBoundary(Bytes(text), offset)
    then Err(InvalidByteOffset(offset, |Bytes(text)|))
    else Ok(Units(text, ScalarsBefore(text, offset)))
  }

  /** The scalar position with a given UTF-16 offset, searched from `k` on. */
  function ScalarAtUnits(text: string, offset: nat, k: nat): (r: Option<nat>)
    requires k <= |text|
    ensures r.Some? ==> k <= r.value <= |text| && Units(text, r.value) == offset
    decreases |text| - k
  {
    if Units(text, k) == offset then Some(k)
    else if k == |text| || Units(text, k + 1) > offset then None
    else ScalarAtUnits(text, offset, k + 1)
  }

  function Utf16OffsetToByte(text: string, offset: nat): Option<nat> {
    match ScalarAtUnits(text, offset, 0)
    case None => None
    case Some(k) => Some(|Encoded(text, k)|)
  }

  method FindUtf16Offset(text: string, offset: nat) returns (r: Option<nat>)
    ensures r == Utf16OffsetToByte(text, offset)
  {
    var utf16Offset, byteOffset, k := 0, 0, 0;
    while k < |text|
      invariant k <= |text| && utf16Offset == Units(text, k) && byteOffset == |Encoded(text, k)|
      invariant ScalarAtUnits(text, offset, 0) == ScalarAtUnits(text, offset, k)
    {
      if utf16Offset == offset {
        return Some(byteOffset);
      }
      utf16Offset := utf16Offset + Utf16Length(text[k]);
      if utf16Offset > offset {
        return None;
      }
      byteOffset := byteOffset + |Utf8(text[k])|;
      k := k + 1;
    }
    return if utf16Offset == offset then Some(byteOffset) else None;
  }

  lemma {:induction false} FoundAtUnits(text: string, from: nat, k: nat)
    requires from <= k <= |text|
    ensures ScalarAtUnits(text, Units(text, k), from) == Some(k)
    decreases k - from
  {
    if from < k {
      Growing(text, from, k);
      if from + 1 < k { Growing(text, from + 1, k); }
      FoundAtUnits(text, from + 1, k);
    }
  }

  /** Byte and UTF-16 offsets of the same scalar position convert into each other. */
  lemma {:induction false} OffsetsAreInverse(text: string, k: nat)
    requires k <= |text|
    ensures ByteOffsetToUtf16(text, |Encoded(text, k)|) == Ok(Units(text, k))
    ensures Utf16OffsetToByte(text, Units(text, k)) == Some(|Encoded(text, k)|)
  {
    ScalarBoundary(text, k);
    OneScalar(text, ScalarsBefore(text, |Encoded(text, k)|), k);
    FoundAtUnits(text, 0, k);
  }

  /** A UTF-16 offset splits a surrogate pair. */
  ghost predicate SplitsPair(text: string, offset: nat) {
    exists k :: 0 <= k < |text| && Utf16Length(text[k]) == 2 && offset == Units(text, k) + 1
  }

  /** A byte offset lies strictly inside the bytes of one scalar. */
  ghost predicate SplitsScalar(text: string, offset: nat) {
    exists k :: 0 <= k < |text| && |Encoded(text, k)| < offset < |Encoded(text, k)| + |Utf8(text[k])|
  }

  lemma {:induction false} UnitsAround(text: string, n: nat, offset: nat) returns (k: nat)
    requires n <= |text| && offset < Units(text, n)
    ensures k < n && Units(text, k) <= offset < Units(text, k) + Utf16Length(text[k])
  {
    if offset >= Units(text, n - 1) {
      k := n - 1;
    } else {
      k := UnitsAround(text, n - 1, offset);
    }
  }

  lemma {:induction false} NotInside(text: string, j: nat, k: nat)
    requires j <= |text| && k < |text|
    ensures !(Units(text, k) < Units(text, j) < Units(text, k + 1))
    ensures !(|Encoded(text, k)| < |Encoded(text, j)| < |Encoded(text, k + 1)|)
  {
    if j < k { Growing(text, j, k); }
    if k + 1 < j { Growing(text, k + 1, j); }
  }

  lemma {:induction false} UnitsWithin(text: string, k: nat)
    requires k <= |text|
    ensures Units(text, k) <= Units(text, |text|)
  {
    if k < |text| { Growing(text, k, |text|); }
  }

  /** UTF-16 conversion fails exactly past the end and inside a surrogate pair, and is otherwise undone. */
  lemma {:induction false} Utf16FailsExactly(text: string, offset: nat)
    ensures Utf16OffsetToByte(text, offset).None? <==> offset > Units(text, |text|) || SplitsPair(text, offset)
    ensures Utf16OffsetToByte(text, offset).Some?
        ==> ByteOffsetToUtf16(text, Utf16OffsetToByte(text, offset).value) == Ok(offset)
  {
    var found := ScalarAtUnits(text, offset, 0);
    if found.Some? {
      OffsetsAreInverse(text, found.value);
      UnitsWithin(text, found.value);
      forall k | 0 <= k < |text| && Utf16Length(text[k]) == 2 ensures offset != Units(text, k) + 1 {
        NotInside(text, found.value, k);
      }
    } else {
      NoneMeansSplit(text, offset);
    }
  }

  lemma {:induction false} NoneMeansSplit(text: string, offset: nat)
    requires ScalarAtUnits(text, offset, 0).None?
    ensures offset > Units(text, |text|) || SplitsPair(text, offset)
  {
    if offset < Units(text, |text|) {
      var k := UnitsAround(text, |text|, offset);
      FoundAtUnits(text, 0, k);
      assert Utf16Length(text[k]) == 2 && offset == Units(text, k) + 1;
    } else {
      FoundAtUnits(text, 0, |text|);
    }
  }

  /** Byte conversion fails exactly past the end and inside a scalar. */
  lemma {:induction false} ByteFailsExactly(text: string, offset: nat)
    ensures ByteOffsetToUtf16(text, offset).Err? <==> offset > |Bytes(text)| || SplitsScalar(text, offset)
  {
    if offset <= |Bytes(text)| {
      if IsCharBoundary(Bytes(text), offset) {
        var b := BoundaryScalar(text, offset);
        forall k | 0 <= k < |text| ensures !(|Encoded(text, k)| < offset < |Encoded(text, k)| + |Utf8(text[k])|) {
          NotInside(text, b, k);
        }
      } else {
        var k := ScalarAround(text, |text|, offset);
        assert |Encoded(text, k)| < offset < |Encoded(text, k)| + |Utf8(text[k])|;
      }
    }
  }

  /** And is otherwise undone. */
  lemma {:induction false} ByteConversionIsUndone(text: string, offset: nat)
    requires ByteOffsetToUtf16(text, offset).Ok?
    ensures Utf16OffsetToByte(text, ByteOffsetToUtf16(text, offset).value) == Some(offset)
  {
    var k := BoundaryScalar(text, offset);
    OffsetsAreInverse(text, k);
  }

  // ---------------------------------------------------------------- line and column

  datatype Position = Position(line: nat, character: nat)

  /** The reference: line breaks before a scalar position, and scalars since the last one. */
  function Line(text: string, k: nat): nat
    requires k <= |text|
  {
    if k == 0 then 0 else Line(text, k - 1) + if text[k - 1] == '\n' then 1 else 0
  }

  function Column(text: string, k: nat): nat
    requires k <= |text|
  {
    if k == 0 || text[k - 1] == '\n' then 0 else Column(text, k - 1) + 1
  }

  function Newlines(bytes: seq<Byte>): nat {
    if bytes == [] then 0 else Newlines(bytes[..|bytes| - 1]) + if bytes[|bytes| - 1] == NEWLINE then 1 else 0
  }

  /** The position behind the last line break, or 0. */
  function AfterNewline(bytes: seq<Byte>): (n: nat)
    ensures n <= |bytes|
  {
    if bytes == [] then 0
    else if bytes[|bytes| - 1] == NEWLINE then |bytes|
    else AfterNewline(bytes[..|bytes| - 1])
  }

  /** The text behind the last line break. */
  function LastLine(text: string): string {
    if text == "" || text[|text| - 1] == '\n' then ""
    else LastLine(text[..|text| - 1]) + [text[|text| - 1]]
  }

  function Clipped(bytes: seq<Byte>, offset: nat): (r: nat)
    requires offset <= |bytes|
    ensures r <= offset && IsCharBoundary(bytes, r)
    ensures forall b: nat :: r < b <= offset ==> !IsCharBoundary(bytes, b)
  {
    if IsCharBoundary(bytes, offset) then offset else Clipped(bytes, offset - 1)
  }

  method ClippedCharBoundary(text: string, requested: nat) returns (offset: nat)
    ensures offset == Clipped(Bytes(text), Min(requested, |Bytes(text)|))
  {
    var bytes := Bytes(text);
    offset := Min(requested, |bytes|);
    while !IsCharBoundary(bytes, offset)
      invariant offset <= |bytes| && Clipped(bytes, offset) == Clipped(bytes, Min(requested, |bytes|))
      decreases offset
    {
      offset := offset - 1;
    }
  }

  /** The casts to 32 bits wrap around. */
  function SourcePosition(text: string, requested: nat): Position {
    var offset := Clipped(Bytes(text), Min(requested, |Bytes(text)|));
    var prefix := text[..ScalarsBefore(text, offset)];
    Position(Newlines(Bytes(text)[..offset]) % U32, |LastLine(prefix)| % U32)
  }

  /** Here the conversions to 32 bits are checked. */
  function Utf16OffsetToPosition(text: string, offset: nat): Result<Position, Error> {
    match Utf16OffsetToByte(text, offset)
    case None => Err(InvalidUtf16Offset(offset))
    case Some(b) =>
      var bytes := Bytes(text);
      if b > |bytes| then Err(InvalidUtf16Offset(offset))
      else
        var line, start := Newlines(bytes[..b]), AfterNewline(bytes[..b]);
        var character := Scalars(bytes[start..b]);
        if line < U32 && character < U32 then Ok(Position(line, character)) else Err(InvalidUtf16Offset(offset))
  }

  lemma {:induction false} NewlinesAll(a: seq<Byte>, b: seq<Byte>)
    ensures Newlines(a + b) == Newlines(a) + Newlines(b)
    ensures NEWLINE !in b ==> Newlines(b) == 0 && AfterNewline(a + b) == AfterNewline(a)
    decreases |b|
  {
    if b == [] {
      assert a + b == a;
    } else {
      assert (a + b)[..|a + b| - 1] == a + b[..|b| - 1];
      NewlinesAll(a, b[..|b| - 1]);
    }
  }

  lemma {:induction false} ScalarStep(a: seq<Byte>, b: seq<Byte>)
    requires b != [] && !Continues(b[0]) && forall i :: 1 <= i < |b| ==> Continues(b[i])
    requires NEWLINE !in b
    ensures Newlines(a + b) == Newlines(a) && AfterNewline(a + b) == AfterNewline(a)
    ensures Scalars((a + b)[AfterNewline(a)..]) == Scalars(a[AfterNewline(a)..]) + 1
  {
    var s := AfterNewline(a);
    NewlinesAll(a, b);
    ScalarsOfOne(b);
    ScalarsAll(a[s..], b);
    assert (a + b)[s..] == a[s..] + b;
  }

  /** The byte counts of a prefix are its line and column. */
  lemma {:induction false} PositionOfBytes(text: string, k: nat)
    requires k <= |text|
    ensures Newlines(Encoded(text, k)) == Line(text, k)
    ensures Scalars(Encoded(text, k)[AfterNewline(Encoded(text, k))..]) == Column(text, k)
  {
    if k > 0 {
      PositionOfBytes(text, k - 1);
      PositionStep(text, k, Encoded(text, k - 1), Utf8(text[k - 1]));
    }
  }

  lemma {:induction false} PositionStep(text: string, k: nat, a: seq<Byte>, b: seq<Byte>)
    requires 0 < k <= |text| && Newlines(a) == Line(text, k - 1)
    requires Scalars(a[AfterNewline(a)..]) == Column(text, k - 1)
    requires b != [] && !Continues(b[0]) && forall i :: 1 <= i < |b| ==> Continues(b[i])
    requires if text[k - 1] == '\n' then b == [NEWLINE] else NEWLINE !in b
    ensures Newlines(a + b) == Line(text, k) && Scalars((a + b)[AfterNewline(a + b)..]) == Column(text, k)
  {
    if text[k - 1] != '\n' {
      ScalarStep(a, b);
    }
  }

  lemma {:induction false} ColumnOfText(text: string, k: nat)
    requires k <= |text|
    ensures |LastLine(text[..k])| == Column(text, k)
  {
    if k > 0 {
      ColumnOfText(text, k - 1);
      assert text[..k][..k - 1] == text[..k - 1];
    }
  }

  lemma {:induction false} PrefixBytes(text: string, k: nat)
    requires k <= |text|
    ensures |Encoded(text, k)| <= |Bytes(text)| && Bytes(text)[..|Encoded(text, k)|] == Encoded(text, k)
  {
    EncodedPrefix(text, k, |text|);
  }

  /** At any byte offset the position is that of the last scalar boundary at or before it. */
  lemma {:induction false} SourcePositionRoundsDown(text: string, requested: nat, k: nat)
    requires k <= |text| && |Encoded(text, k)| <= requested
    requires k == |text| || requested < |Encoded(text, k + 1)|
    ensures SourcePosition(text, requested) == Position(Line(text, k) % U32, Column(text, k) % U32)
  {
    var bytes := Bytes(text);
    PrefixBytes(text, k);
    ScalarBoundary(text, k);
    var offset := Clipped(bytes, Min(requested, |bytes|));
    var j := BoundaryScalar(text, offset);
    if k < |text| {
      NotInside(text, j, k);
    }
    assert offset == |Encoded(text, k)|;
    OneScalar(text, ScalarsBefore(text, offset), k);
    PositionOfBytes(text, k);
    ColumnOfText(text, k);
  }

  /** What the checked conversion of a boundary gives. */
  function CheckedPosition(text: string, k: nat): Result<Position, Error>
    requires k <= |text|
  {
    if Line(text, k) < U32 && Column(text, k) < U32 then Ok(Position(Line(text, k), Column(text, k)))
    else Err(InvalidUtf16Offset(Units(text, k)))
  }

  lemma {:induction false} Utf16PositionIs(text: string, k: nat)
    requires k <= |text|
    ensures Utf16OffsetToPosition(text, Units(text, k)) == CheckedPosition(text, k)
  {
    OffsetsAreInverse(text, k);
    PrefixBytes(text, k);
    PositionOfBytes(text, k);
    var b := |Encoded(text, k)|;
    var start := AfterNewline(Encoded(text, k));
    assert Bytes(text)[start..b] == Encoded(text, k)[start..];
  }

  lemma {:induction false} Within32Bits(
    checked: Result<Position, Error>, wrapped: Position, line: nat, column: nat, offset: nat)
    requires wrapped == Position(line % U32, column % U32)
    requires checked == if line < U32 && column < U32 then Ok(Position(line, column)) else Err(InvalidUtf16Offset(offset))
    ensures checked == if line < U32 && column < U32 then Ok(wrapped) else Err(InvalidUtf16Offset(offset))
  {
  }

  /**
    The conversion of a UTF-16 offset agrees with the simple conversion of the byte offset of the same place,
    unless a coordinate needs more than 32 bits: then it fails where the simple one wraps around.
  */
  lemma {:induction false} PositionsAgree(text: string, k: nat)
    requires k <= |text|
    ensures Utf16OffsetToPosition(text, Units(text, k))
         == if Line(text, k) < U32 && Column(text, k) < U32 then Ok(SourcePosition(text, |Encoded(text, k)|))
            else Err(InvalidUtf16Offset(Units(text, k)))
  {
    var offset := |Encoded(text, k)|;
    Utf16PositionIs(text, k);
    if k < |text| { Growing(text, k, k + 1); }
    SourcePositionRoundsDown(text, offset, k);
    Within32Bits(CheckedPosition(text, k), SourcePosition(text, offset), Line(text, k), Column(text, k), Units(text, k));
  }

  // ---------------------------------------------------------------- spans of the wrapped snippet

  datatype PositionRange = PositionRange(start: Position, end: Position)

  function Utf16SpanToRange(text: string, start: nat, length: nat): Result<PositionRange, Error> {
    if start + length > USIZE_MAX then Err(InvalidUtf16Offset(start))
    else
      match Utf16OffsetToPosition(text, start)
      case Err(e) => Err(e)
      case Ok(first) =>
        match Utf16OffsetToPosition(text, start + length)
        case Err(e) => Err(e)
        case Ok(last) => Ok(PositionRange(first, last))
  }

  /** A span of the wrapped text that is not wholly visible is dropped. */
  function ProjectedSpan(source: string, editorStart: nat, start: nat, length: nat): Result<Option<PositionRange>, Error> {
    if start + length > USIZE_MAX then Err(InvalidUtf16Offset(start))
    else if editorStart + Units(source, |source|) > USIZE_MAX then Err(InvalidUtf16Offset(editorStart))
    else if start < editorStart || start + length > editorStart + Units(source, |source|) then Ok(None)
    else
      match Utf16SpanToRange(source, start - editorStart, length)
      case Err(e) => Err(e)
      case Ok(range) => Ok(Some(range))
  }

  function SaturatingSub(a: nat, b: nat): nat {
    if a < b then 0 else a - b
  }

  /** A span of a diagnostic is cut to the visible text. */
  function ClampedSpan(source: string, editorStart: nat, start: nat, length: nat): Result<PositionRange, Error> {
    if start + length > USIZE_MAX then Err(InvalidUtf16Offset(start))
    else
      var size := Units(source, |source|);
      var first := Min(SaturatingSub(start, editorStart), size);
      var last := Max(Min(SaturatingSub(start + length, editorStart), size), first);
      SpanBetween(source, first, last)
  }

  function SpanBetween(source: string, first: nat, last: nat): Result<PositionRange, Error>
    requires first <= last
  {
    Utf16SpanToRange(source, first, last - first)
  }

  lemma {:induction false} UnitsOfPrefix(a: string, b: string, k: nat)
    requires k <= |a|
    ensures Units(a + b, k) == Units(a, k)
  {
    if k > 0 {
      UnitsOfPrefix(a, b, k - 1);
    }
  }

  lemma {:induction false} UnitsOfSuffix(a: string, b: string, k: nat)
    requires k <= |b|
    ensures Units(a + b, |a| + k) == Units(a, |a|) + Units(b, k)
  {
    if k == 0 {
      UnitsOfPrefix(a, b, |a|);
    } else {
      UnitsOfSuffix(a, b, k - 1);
      assert (a + b)[|a| + k - 1] == b[k - 1];
    }
  }

  /** The visible part of the wrapped text starts at `editorStart` and keeps its own offsets. */
  lemma {:induction false} UnitsOfWrapped(before: string, source: string, after: string, k: nat)
    requires k <= |source|
    ensures Units(before + source + after, |before| + k) == Units(before, |before|) + Units(source, k)
  {
    UnitsOfPrefix(before + source, after, |before| + k);
    UnitsOfSuffix(before, source, k);
  }

  lemma {:induction false} UnitsOrdered(text: string, j: nat, k: nat)
    requires j <= |text| && k <= |text|
    ensures j <= k <==> Units(text, j) <= Units(text, k)
  {
    if j < k { Growing(text, j, k); }
    if k < j { Growing(text, k, j); }
  }

  /** Any UTF-16 offset: some units behind a scalar position, inside the next scalar or past the end of the text. */
  datatype Place = Place(scalar: nat, extra: nat)

  predicate IsPlace(text: string, p: Place) {
    && p.scalar <= |text|
    && (p.scalar < |text| ==> p.extra < Utf16Length(text[p.scalar]))
  }

  function UnitsAt(text: string, p: Place): nat
    requires p.scalar <= |text|
  {
    Units(text, p.scalar) + p.extra
  }

  lemma {:induction false} EveryOffsetIsAPlace(text: string, offset: nat) returns (p: Place)
    ensures IsPlace(text, p) && UnitsAt(text, p) == offset
  {
    if offset < Units(text, |text|) {
      var k := UnitsAround(text, |text|, offset);
      p := Place(k, offset - Units(text, k));
    } else {
      p := Place(|text|, offset - Units(text, |text|));
    }
  }

  predicate Before(p: Place, q: Place) {
    p.scalar < q.scalar || (p.scalar == q.scalar && p.extra <= q.extra)
  }

  lemma {:induction false} PlacesAhead(text: string, p: Place, q: Place)
    requires IsPlace(text, p) && q.scalar <= |text| && p.scalar < q.scalar
    ensures UnitsAt(text, p) < UnitsAt(text, q)
  {
    assert Units(text, p.scalar + 1) == Units(text, p.scalar) + Utf16Length(text[p.scalar]);
    UnitsOrdered(text, p.scalar + 1, q.scalar);
  }

  lemma {:induction false} PlacesOrdered(text: string, p: Place, q: Place)
    requires IsPlace(text, p) && IsPlace(text, q)
    ensures Before(p, q) <==> UnitsAt(text, p) <= UnitsAt(text, q)
  {
    if p.scalar < q.scalar { PlacesAhead(text, p, q); }
    if q.scalar < p.scalar { PlacesAhead(text, q, p); }
  }

  /** Inside a surrogate pair and past the end there is no position; each coordinate must fit in 32 bits. */
  function PlacePosition(text: string, p: Place): Result<Position, Error>
    requires p.scalar <= |text|
  {
    if p.extra > 0 then Err(InvalidUtf16Offset(UnitsAt(text, p))) else CheckedPosition(text, p.scalar)
  }

  lemma {:induction false} PlacePositionIs(text: string, p: Place, offset: nat)
    requires IsPlace(text, p) && offset == UnitsAt(text, p)
    ensures Utf16OffsetToPosition(text, offset) == PlacePosition(text, p)
  {
    if p.extra == 0 {
      Utf16PositionIs(text, p.scalar);
    } else {
      Utf16FailsExactly(text, offset);
      assert p.scalar < |text| ==> Utf16Length(text[p.scalar]) == 2 && offset == Units(text, p.scalar) + 1;
    }
  }

  function PlaceRange(text: string, p: Place, q: Place): Result<PositionRange, Error>
    requires p.scalar <= |text| && q.scalar <= |text|
  {
    if PlacePosition(text, p).Err? then Err(PlacePosition(text, p).error)
    else if PlacePosition(text, q).Err? then Err(PlacePosition(text, q).error)
    else Ok(PositionRange(PlacePosition(text, p).value, PlacePosition(text, q).value))
  }

  lemma {:induction false} SpanIs(text: string, p: Place, q: Place, first: nat, length: nat, last: nat)
    requires IsPlace(text, p) && IsPlace(text, q) && first == UnitsAt(text, p) && last == UnitsAt(text, q)
    requires first + length == last <= USIZE_MAX
    ensures Utf16SpanToRange(text, first, length) == PlaceRange(text, p, q)
  {
    PlacePositionIs(text, p, first);
    PlacePositionIs(text, q, last);
  }

  // ---------------------------------------------------------------- places of the wrapped text, seen from the source

  /** The place is in the visible source, at its end at most. */
  predicate Seen(before: string, source: string, p: Place) {
    |before| <= p.scalar && Before(p, Place(|before| + |source|, 0))
  }

  /** The place in the source, or the end of the source that is nearest. */
  function Clamp(before: string, source: string, p: Place): Place {
    if p.scalar < |before| then Place(0, 0)
    else if Seen(before, source, p) then Place(p.scalar - |before|, p.extra)
    else Place(|source|, 0)
  }

  lemma {:induction false} SeenPlace(before: string, source: string, after: string, whole: string, p: Place)
    requires whole == before + source + after && IsPlace(whole, p) && Seen(before, source, p)
    ensures IsPlace(source, Clamp(before, source, p))
    ensures UnitsAt(whole, p) == Units(before, |before|) + UnitsAt(source, Clamp(before, source, p))
  {
    var k := p.scalar - |before|;
    UnitsOfWrapped(before, source, after, k);
    assert k < |source| ==> whole[p.scalar] == source[k];
  }

  /** Where the visible source begins and ends in the wrapped text. */
  lemma {:induction false} WrappedEnds(before: string, source: string, after: string, whole: string)
    requires whole == before + source + after
    ensures Units(whole, |before|) == Units(before, |before|)
    ensures Units(whole, |before| + |source|) == Units(before, |before|) + Units(source, |source|)
    ensures Units(before, |before|) + Units(source, |source|) <= Units(whole, |whole|)
  {
    UnitsOfWrapped(before, source, after, 0);
    UnitsOfWrapped(before, source, after, |source|);
    UnitsOrdered(whole, |before| + |source|, |whole|);
  }

  /** Offsets of the wrapped text seen from the visible source. */
  lemma {:induction false} WrappedPlace(
    before: string, source: string, after: string, whole: string, p: Place, offset: nat, start: nat, size: nat)
    requires whole == before + source + after && IsPlace(whole, p) && offset == UnitsAt(whole, p)
    requires start == Units(before, |before|) && size == Units(source, |source|)
    ensures IsPlace(source, Clamp(before, source, p))
    ensures Seen(before, source, p) <==> start <= offset <= start + size
    ensures Min(SaturatingSub(offset, start), size) == UnitsAt(source, Clamp(before, source, p))
  {
    WrappedEnds(before, source, after, whole);
    if Seen(before, source, p) {
      SeenPlace(before, source, after, whole, p);
      PlacesOrdered(source, Clamp(before, source, p), Place(|source|, 0));
    } else if p.scalar < |before| {
      PlacesAhead(whole, p, Place(|before|, 0));
    } else if p.scalar > |before| + |source| {
      PlacesAhead(whole, Place(|before| + |source|, 0), p);
    }
  }

  function Visible(range: Result<PositionRange, Error>): Result<Option<PositionRange>, Error> {
    match range case Err(e) => Err(e) case Ok(r) => Ok(Some(r))
  }

  lemma {:induction false} InnerSpanProjects(
    source: string, start: nat, size: nat, p: Place, q: Place, first: nat, length: nat, inner: nat)
    requires IsPlace(source, p) && IsPlace(source, q) && size == Units(source, |source|) && start + size <= USIZE_MAX
    requires inner == first - start == UnitsAt(source, p) && inner + length == UnitsAt(source, q) <= size
    ensures ProjectedSpan(source, start, first, length) == Visible(PlaceRange(source, p, q))
  {
    SpanIs(source, p, q, inner, length, inner + length);
  }

  /**
    Any span of the wrapped text that lies in the visible source projects to the same span there, or fails where
    an end is inside a surrogate pair; every other one is dropped.
  */
  lemma {:induction false} SpansProject(
    before: string, source: string, after: string, whole: string, start: nat, p: Place, q: Place,
    first: nat, length: nat, last: nat)
    requires whole == before + source + after && start == Units(before, |before|) && Units(whole, |whole|) <= USIZE_MAX
    requires IsPlace(whole, p) && IsPlace(whole, q) && first == UnitsAt(whole, p) && last == UnitsAt(whole, q)
    requires first + length == last <= USIZE_MAX
    ensures Clamp(before, source, p).scalar <= |source| && Clamp(before, source, q).scalar <= |source|
    ensures ProjectedSpan(source, start, first, length)
         == if Seen(before, source, p) && Seen(before, source, q)
            then Visible(PlaceRange(source, Clamp(before, source, p), Clamp(before, source, q))) else Ok(None)
  {
    var size := Units(source, |source|);
    WrappedEnds(before, source, after, whole);
    WrappedPlace(before, source, after, whole, p, first, start, size);
    WrappedPlace(before, source, after, whole, q, last, start, size);
    if Seen(before, source, p) && Seen(before, source, q) {
      InnerSpanProjects(source, start, size, Clamp(before, source, p), Clamp(before, source, q), first, length, first - start);
    }
  }

  /** And a clamped span is the part of the span that is visible, or fails inside a surrogate pair of it. */
  lemma {:induction false} SpansClamp(
    before: string, source: string, after: string, whole: string, start: nat, p: Place, q: Place,
    first: nat, length: nat, last: nat)
    requires whole == before + source + after && start == Units(before, |before|) && Units(whole, |whole|) <= USIZE_MAX
    requires IsPlace(whole, p) && IsPlace(whole, q) && first == UnitsAt(whole, p) && last == UnitsAt(whole, q)
    requires first + length == last <= USIZE_MAX
    ensures Clamp(before, source, p).scalar <= |source| && Clamp(before, source, q).scalar <= |source|
    ensures ClampedSpan(source, start, first, length)
         == PlaceRange(source, Clamp(before, source, p), Clamp(before, source, q))
  {
    var size := Units(source, |source|);
    WrappedEnds(before, source, after, whole);
    WrappedPlace(before, source, after, whole, p, first, start, size);
    WrappedPlace(before, source, after, whole, q, last, start, size);
    ClampedParts(source, start, first, length, last, size, Clamp(before, source, p), Clamp(before, source, q));
  }

  lemma {:induction false} ClampedParts(
    source: string, start: nat, first: nat, length: nat, last: nat, size: nat, p: Place, q: Place)
    requires first + length == last <= USIZE_MAX && size == Units(source, |source|) <= USIZE_MAX
    requires IsPlace(source, p) && Min(SaturatingSub(first, start), size) == UnitsAt(source, p)
    requires IsPlace(source, q) && Min(SaturatingSub(last, start), size) == UnitsAt(source, q)
    ensures ClampedSpan(source, start, first, length) == PlaceRange(source, p, q)
  {
    SpanBetweenIs(source, p, q, UnitsAt(source, p), UnitsAt(source, q));
  }

  lemma {:induction false} SpanBetweenIs(text: string, p: Place, q: Place, first: nat, last: nat)
    requires IsPlace(text, p) && IsPlace(text, q) && first == UnitsAt(text, p) && last == UnitsAt(text, q)
    requires first <= last <= USIZE_MAX
    ensures SpanBetween(text, first, last) == PlaceRange(text, p, q)
  {
    SpanIs(text, p, q, first, last - first, last);
  }
}
