/**
  String literals of the script editor: the scanner that decodes a literal, and the printer that escapes
  a name for insertion between quotes. Text is a sequence of Unicode scalars and offsets count scalars.
*/
module ScriptLiteral {
  import opened Numbers
  import opened Sequences
  import opened Wrappers

  datatype StringLiteral = StringLiteral(value: Option<string>, quote: char, contentStart: nat,
                                         start: nat, end: nat, terminated: bool)

  // ---------------------------------------------------------------- escapes

  predicate AllHex(text: string) {
    forall c :: c in text ==> IsHexDigit(c)
  }

  /** `u32::from_str_radix(text, 16)`; six digits always fit. */
  function HexValue(text: string): nat
    requires AllHex(text)
  {
    if text == [] then 0 else 16 * HexValue(text[..|text| - 1]) + HexDigit(text[|text| - 1])
  }

  /** The decoded number and the offset after it. */
  function ParseHex(source: string, start: nat, digits: nat): Option<(nat, nat)> {
    if start + digits > |source| || !AllHex(source[start..start + digits]) then None
    else Some((HexValue(source[start..start + digits]), start + digits))
  }

  /** The first occurrence of `pattern` at or after `from`. */
  function Find(source: string, from: nat, pattern: string): (r: Option<nat>)
    ensures r.Some? ==> from <= r.value && r.value + |pattern| <= |source|
    decreases |source| - from
  {
    if from + |pattern| > |source| then None
    else if source[from..from + |pattern|] == pattern then Some(from)
    else if from == |source| then None
    else Find(source, from + 1, pattern)
  }

  /** `start` is the offset of the opening brace. */
  function ParseBraced(source: string, start: nat): Option<(nat, nat)> {
    match Find(source, start + 1, "}")
    case None => None
    case Some(end) =>
      var text := source[start + 1..end];
      if text == [] || |text| > 6 || !AllHex(text) then None else Some((HexValue(text), end + 1))
  }

  /** `char::from_u32`. */
  function FromCode(code: nat): Option<char> {
    if code < 0xD800 || 0xE000 <= code < 0x11_0000 then Some(code as char) else None
  }

  // ---------------------------------------------------------------- one step of the scanner

  datatype Piece =
    | Closed(end: nat)                            // the closing quote
    | Broken(end: nat)                            // a raw line break, or a backslash at the end of the text
    | Text(text: string, ok: bool, end: nat)      // decoded text; not ok for an invalid escape

  function CodePiece(parsed: Option<(nat, nat)>, otherwise: nat): Piece {
    match parsed
    case None => Text([], false, otherwise)
    case Some((code, end)) => if FromCode(code).Some? then Text([FromCode(code).value], true, end) else Text([], false, end)
  }

  /** `offset` is after the backslash. */
  function EscapePiece(source: string, offset: nat): Piece
    requires offset < |source|
  {
    var c, end := source[offset], offset + 1;
    if c == 'n' then Text(['\n'], true, end)
    else if c == 'r' then Text(['\r'], true, end)
    else if c == 't' then Text(['\t'], true, end)
    else if c == 'b' then Text(['\U{8}'], true, end)
    else if c == 'f' then Text(['\U{c}'], true, end)
    else if c == 'v' then Text(['\U{b}'], true, end)
    else if c == '0' then Text(['\0'], true, end)
    else if c == '\n' then Text([], true, end)
    else if c == '\r' then Text([], true, if end < |source| && source[end] == '\n' then end + 1 else end)
    else if c == 'x' then CodePiece(ParseHex(source, end, 2), end)
    else if c == 'u' then
      CodePiece(if end < |source| && source[end] == '{' then ParseBraced(source, end) else ParseHex(source, end, 4), end)
    else Text([c], true, end)
  }

  function NextPiece(source: string, quote: char, offset: nat): (p: Piece)
    requires offset < |source|
    ensures !p.Broken? ==> offset < p.end <= |source|
    ensures p.Broken? ==> offset <= p.end <= |source|
  {
    var c := source[offset];
    if c == quote then Closed(offset + 1)
    else if c == '\n' || c == '\r' then Broken(offset)
    else if c != '\\' then Text([c], true, offset + 1)
    else if offset + 1 >= |source| then Broken(offset + 1)
    else EscapePiece(source, offset + 1)
  }

  // ---------------------------------------------------------------- the scanner

  /** `clean`: every escape so far was valid; `broken`: the literal stopped at a line break or a lone backslash. */
  datatype Scan = Scan(decoded: string, clean: bool, broken: bool, terminated: bool, end: nat)

  function ScanFrom(source: string, quote: char, offset: nat, decoded: string, clean: bool): (r: Scan)
    requires offset <= |source|
    ensures offset <= r.end <= |source|
    decreases |source| - offset
  {
    if offset == |source| then Scan(decoded, clean, false, false, offset)
    else
      match NextPiece(source, quote, offset)
      case Closed(end) => Scan(decoded, clean, false, true, end)
      case Broken(end) => Scan(decoded, clean, true, false, end)
      case Text(text, ok, end) => ScanFrom(source, quote, end, decoded + text, clean && ok)
  }

  function LiteralOf(scan: Scan, quote: char, start: nat): StringLiteral {
    StringLiteral(if scan.clean && !scan.broken then Some(scan.decoded) else None,
                  quote, start + 1, start, scan.end, scan.terminated)
  }

  function LiteralAt(source: string, start: nat, quote: char): StringLiteral
    requires start < |source|
  {
    LiteralOf(ScanFrom(source, quote, start + 1, [], true), quote, start)
  }

  method ParseStringLiteral(source: string, start: nat, quote: char) returns (r: StringLiteral)
    requires start < |source|
    ensures r == LiteralAt(source, start, quote)
  {
    var offset := start + 1;
    var decoded: string := [];
    var valid, terminated := true, false;
    ghost var whole := ScanFrom(source, quote, offset, [], true);
    while offset < |source|
      invariant start < offset <= |source|
      invariant !terminated && ScanFrom(source, quote, offset, decoded, valid) == whole
      decreases |source| - offset
    {
      match NextPiece(source, quote, offset) {
        case Closed(end) =>
          offset, terminated := end, true;
          break;
        case Broken(end) =>
          offset, valid := end, false;
          break;
        case Text(text, ok, end) =>
          offset, decoded, valid := end, decoded + text, valid && ok;
      }
    }
    r := StringLiteral(if valid then Some(decoded) else None, quote, start + 1, start, offset, terminated);
  }

  // ---------------------------------------------------------------- the printer

  function EscapeChar(c: char, quote: char): string {
    if c == '\\' then "\\\\"
    else if c == '\n' then "\\n"
    else if c == '\r' then "\\r"
    else if c == '\t' then "\\t"
    else if c == quote then ['\\', c]
    else [c]
  }

  function Escaped(name: string, quote: char): string {
    if name == [] then [] else EscapeChar(name[0], quote) + Escaped(name[1..], quote)
  }

  method EscapeForQuote(name: string, quote: char) returns (escaped: string)
    ensures escaped == Escaped(name, quote)
  {
    escaped := [];
    for i := 0 to |name|
      invariant escaped + Escaped(name[i..], quote) == Escaped(name, quote)
    {
      assert name[i..][0] == name[i] && name[i..][1..] == name[i + 1..];
      escaped := escaped + EscapeChar(name[i], quote);
    }
  }

  // ---------------------------------------------------------------- printing then parsing

  lemma {:induction false} EscapedCharIsOnePiece(source: string, offset: nat, c: char, quote: char)
    requires quote == '\'' || quote == '"'
    requires HoldsAt(source, offset, EscapeChar(c, quote))
    ensures offset < |source| && NextPiece(source, quote, offset) == Text([c], true, offset + |EscapeChar(c, quote)|)
  {
    var escape := EscapeChar(c, quote);
    assert source[offset + 0] == escape[0];
    if |escape| == 2 {
      assert source[offset + 1] == escape[1];
    }
  }

  lemma {:induction false} ScanOneEscaped(
    source: string, offset: nat, next: nat, c: char, rest: string, quote: char, decoded: string, more: string)
    requires (quote == '\'' || quote == '"') && more == decoded + [c] && next == offset + |EscapeChar(c, quote)|
    requires HoldsAt(source, offset, EscapeChar(c, quote) + rest)
    ensures HoldsAt(source, next, rest)
    ensures ScanFrom(source, quote, offset, decoded, true) == ScanFrom(source, quote, next, more, true)
  {
    HoldsSplit(source, offset, EscapeChar(c, quote), rest);
    EscapedCharIsOnePiece(source, offset, c, quote);
  }

  lemma {:induction false} ScanClosing(source: string, offset: nat, quote: char, decoded: string)
    requires HoldsAt(source, offset, [quote])
    ensures ScanFrom(source, quote, offset, decoded, true) == Scan(decoded, true, false, true, offset + 1)
  {
    assert source[offset + 0] == [quote][0];
  }

  lemma {:induction false} EscapedSplits(name: string, quote: char, decoded: string, whole: string)
    requires name != [] && whole == decoded + name
    ensures Escaped(name, quote) == EscapeChar(name[0], quote) + Escaped(name[1..], quote)
    ensures whole == (decoded + [name[0]]) + name[1..]
  {
  }

  lemma {:induction false} ScanEscaped(
    source: string, offset: nat, end: nat, code: string, name: string, quote: char, decoded: string, whole: string)
    requires (quote == '\'' || quote == '"') && whole == decoded + name
    requires code == Escaped(name, quote) && end == offset + |code|
    requires HoldsAt(source, offset, code) && HoldsAt(source, end, [quote])
    ensures ScanFrom(source, quote, offset, decoded, true) == Scan(whole, true, false, true, end + 1)
    decreases |name|
  {
    if name == [] {
      ScanClosing(source, offset, quote, decoded);
      assert whole == decoded;
    } else {
      EscapedSplits(name, quote, decoded, whole);
      var next, more, rest := offset + |EscapeChar(name[0], quote)|, decoded + [name[0]], Escaped(name[1..], quote);
      ScanOneEscaped(source, offset, next, name[0], rest, quote, decoded, more);
      ScanEscaped(source, next, end, rest, name[1..], quote, more, whole);
    }
  }

  /** A quoted, escaped name reads back as that name, ends just after its closing quote, whatever is around it. */
  lemma {:induction false} EscapeRoundTrip(before: string, name: string, quote: char, after: string)
    requires quote == '\'' || quote == '"'
    ensures LiteralAt(before + [quote] + Escaped(name, quote) + [quote] + after, |before|, quote)
         == StringLiteral(Some(name), quote, |before| + 1, |before|, |before| + |Escaped(name, quote)| + 2, true)
  {
    var source, escaped := before + [quote] + Escaped(name, quote) + [quote] + after, Escaped(name, quote);
    assert source == (before + [quote]) + escaped + ([quote] + after);
    HoldsJoined(before + [quote], escaped, [quote] + after);
    HoldsJoined(before + [quote] + escaped, [quote], after);
    ScanEscaped(source, |before| + 1, |before| + 1 + |escaped|, escaped, name, quote, [], name);
  }

  // ---------------------------------------------------------------- scanning a text that was cut short

  lemma {:induction false} FindCut(source: string, from: nat, pattern: string, cut: nat)
    requires cut <= |source|
    ensures Find(source, from, pattern).Some? && Find(source, from, pattern).value + |pattern| <= cut
            ==> Find(source[..cut], from, pattern) == Find(source, from, pattern)
    ensures Find(source[..cut], from, pattern).Some? ==> Find(source[..cut], from, pattern) == Find(source, from, pattern)
    decreases |source| - from
  {
    if from + |pattern| <= cut {
      assert source[..cut][from..from + |pattern|] == source[from..from + |pattern|];
      if from < |source| {
        FindCut(source, from + 1, pattern, cut);
      }
    }
  }

  lemma {:induction false} ParseHexCut(source: string, start: nat, digits: nat, cut: nat)
    requires cut <= |source|
    requires ParseHex(source, start, digits).Some? ==> ParseHex(source, start, digits).value.1 <= cut
    ensures ParseHex(source[..cut], start, digits) == ParseHex(source, start, digits)
  {
    if start + digits <= cut {
      assert source[..cut][start..start + digits] == source[start..start + digits];
    }
  }

  lemma {:induction false} ParseBracedCut(source: string, start: nat, cut: nat)
    requires cut <= |source|
    requires ParseBraced(source, start).Some? ==> ParseBraced(source, start).value.1 <= cut
    ensures ParseBraced(source[..cut], start) == ParseBraced(source, start)
  {
    FindCut(source, start + 1, "}", cut);
    var found := Find(source[..cut], start + 1, "}");
    if found.Some? {
      assert source[..cut][start + 1..found.value] == source[start + 1..found.value];
    }
  }

  lemma {:induction false} PieceCut(source: string, quote: char, offset: nat, cut: nat)
    requires offset < cut <= |source|
    requires !NextPiece(source, quote, offset).Broken? && NextPiece(source, quote, offset).end <= cut
    ensures NextPiece(source[..cut], quote, offset) == NextPiece(source, quote, offset)
  {
    if source[offset] == '\\' && offset + 1 < |source| && source[offset] != quote {
      var c, end := source[offset + 1], offset + 2;
      if c == 'x' {
        ParseHexCut(source, end, 2, cut);
      } else if c == 'u' {
        if end < |source| && source[end] == '{' {
          if cut == end {
            assert ParseBraced(source, end).None?;
          } else {
            ParseBracedCut(source, end, cut);
          }
        } else {
          ParseHexCut(source, end, 4, cut);
        }
      }
    }
  }

  /**
    A literal scans the same in a text cut anywhere from its end on, except that a line break that
    stopped it is gone when the cut is right there.
  */
  lemma {:induction false} ScanCut(source: string, quote: char, offset: nat, decoded: string, clean: bool, cut: nat)
    requires offset <= cut < |source|
    requires var full := ScanFrom(source, quote, offset, decoded, clean);
             full.end <= cut && (full.terminated || full.end == cut)
    ensures ScanFrom(source[..cut], quote, offset, decoded, clean)
         == ScanFrom(source, quote, offset, decoded, clean).(broken := false)
    decreases |source| - offset
  {
    var p := NextPiece(source, quote, offset);
    if offset == cut {
      assert p.Broken?;
    } else {
      if p.Text? {
        TextBeforeEnd(source, quote, offset, decoded, clean);
        PieceCut(source, quote, offset, cut);
        ScanCut(source, quote, p.end, decoded + p.text, clean && p.ok, cut);
      } else if p.Closed? {
        PieceCut(source, quote, offset, cut);
      }
    }
  }

  lemma {:induction false} TextBeforeEnd(source: string, quote: char, offset: nat, decoded: string, clean: bool)
    requires offset < |source| && NextPiece(source, quote, offset).Text?
    ensures NextPiece(source, quote, offset).end <= ScanFrom(source, quote, offset, decoded, clean).end
  {
  }
}
