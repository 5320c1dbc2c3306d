/**
  How the text of a string literal may be spelled (src/script_intelligence.rs:2572-2680), as a grammar that is
  independent of the scanner: every list of spellings between quotes reads as what it means, and every literal
  that is closed is such a list.
*/
module ScriptSpelling {
  import opened Numbers
  import opened ScriptLiteral
  import opened Sequences
  import opened Wrappers

  /** A number is written with one digit for each entry of `upper`, which says whether a letter is a capital. */
  datatype Spelling =
    | Plain(c: char)
    | Escape(c: char)                              // a backslash before one character
    | Continued(newline: string)                     // a backslash before a line break
    | Hex(number: nat, upper: seq<bool>)           // \xhh
    | Unicode(number: nat, upper: seq<bool>)       // \uhhhh
    | Braced(number: nat, upper: seq<bool>)        // \u{h...}
    | Invalid(letter: char)                        // \x or \u without its number

  function Pow16(n: nat): nat {
    if n == 0 then 1 else 16 * Pow16(n - 1)
  }

  function Printed(sp: Spelling): string {
    match sp
    case Plain(c) => [c]
    case Escape(c) => ['\\', c]
    case Continued(newline) => "\\" + newline
    case Hex(number, upper) => "\\x" + HexText(number, upper)
    case Unicode(number, upper) => "\\u" + HexText(number, upper)
    case Braced(number, upper) => "\\u" + ("{" + (HexText(number, upper) + "}"))
    case Invalid(letter) => ['\\', letter]
  }

  /** `n` hexadecimal digits stand at `at`. */
  predicate HexAhead(source: string, at: nat, n: nat) {
    at + n <= |source| && forall i :: at <= i < at + n ==> source[i] in "0123456789abcdefABCDEF"
  }

  /** Between braces stand one to six hexadecimal digits. */
  ghost predicate BracedAhead(source: string, at: nat) {
    exists n {:trigger HexAhead(source, at + 1, n)} :: 1 <= n <= 6 && HexAhead(source, at + 1, n) && at + 1 + n < |source| && source[at + 1 + n] == '}'
  }

  /** The spelling may stand in a literal with this quote, where `end` is the offset behind it. */
  ghost predicate Valid(sp: Spelling, quote: char, source: string, end: nat) {
    match sp
    case Plain(c) => c != quote && c != '\\' && c != '\n' && c != '\r'
    case Escape(c) => c != 'x' && c != 'u' && c != '\n' && c != '\r'
    case Continued(newline) =>
      newline == "\n" || newline == "\r\n" || (newline == "\r" && !(end < |source| && source[end] == '\n'))
    case Hex(number, upper) => |upper| == 2 && number < 0x100
    case Unicode(number, upper) => |upper| == 4 && number < 0x1_0000
    case Braced(number, upper) => 1 <= |upper| <= 6 && number < Pow16(|upper|)
    case Invalid(letter) =>
      if letter == 'x' then !HexAhead(source, end, 2)
      else
        letter == 'u'
        && if end < |source| && source[end] == '{' then !BracedAhead(source, end) else !HexAhead(source, end, 4)
  }

  /** The character with this number, if it is one: surrogates and numbers above 10FFFF are none. */
  function Numbered(number: nat): Option<string> {
    if number <= 0xD7FF || 0xE000 <= number <= 0x10_FFFF then Some([number as char]) else None
  }

  function Meaning(sp: Spelling): Option<string> {
    match sp
    case Plain(c) => Some([c])
    case Escape(c) =>
      Some(if c == 'n' then "\n" else if c == 'r' then "\r" else if c == 't' then "\t"
           else if c == 'b' then "\U{0008}" else if c == 'f' then "\U{000C}" else if c == 'v' then "\U{000B}"
           else if c == '0' then "\0" else [c])
    case Continued(_) => Some("")
    case Hex(number, _) => Numbered(number)
    case Unicode(number, _) => Numbered(number)
    case Braced(number, _) => Numbered(number)
    case Invalid(_) => None
  }

  // ---------------------------------------------------------------- numbers

  lemma {:induction false} HexReads(number: nat, upper: seq<bool>)
    requires number < Pow16(|upper|)
    ensures |HexText(number, upper)| == |upper| && AllHex(HexText(number, upper))
    ensures HexValue(HexText(number, upper)) == number
    decreases |upper|
  {
    if upper != [] {
      var front := HexText(number / 16, upper[..|upper| - 1]);
      HexReads(number / 16, upper[..|upper| - 1]);
      DigitReads(number % 16, upper[|upper| - 1]);
      assert HexText(number, upper)[..|upper| - 1] == front;
    }
  }

  lemma {:induction false} HexTextSnoc(number: nat, digit: nat, whole: nat, upper: seq<bool>, up: bool)
    requires digit < 16 && number < Pow16(|upper|) && whole == 16 * number + digit
    ensures HexText(whole, upper + [up]) == HexText(number, upper) + [DigitChar(digit, up)]
    ensures whole < Pow16(|upper + [up]|)
  {
    assert whole / 16 == number && whole % 16 == digit && (upper + [up])[..|upper|] == upper;
  }

  lemma {:induction false} HexSnoc(text: string, front: string, last: char)
    requires AllHex(text) && text == front + [last]
    ensures AllHex(front) && IsHexDigit(last) && HexDigit(last) < 16
    ensures HexValue(text) == 16 * HexValue(front) + HexDigit(last)
  {
    assert last in text && forall c :: c in front ==> c in text;
    assert text[..|text| - 1] == front;
  }

  lemma {:induction false} HexSpelled(text: string) returns (number: nat, upper: seq<bool>)
    requires AllHex(text)
    ensures number == HexValue(text) && |upper| == |text| && number < Pow16(|upper|) && HexText(number, upper) == text
    decreases |text|
  {
    if text == "" {
      number, upper := 0, [];
    } else {
      var front, last := text[..|text| - 1], text[|text| - 1];
      HexSnoc(text, front, last);
      var n, init := HexSpelled(front);
      var up := DigitSpelled(last);
      number, upper := HexValue(text), init + [up];
      HexTextSnoc(n, HexDigit(last), number, init, up);
    }
  }

  lemma {:induction false} HexDigitIs(c: char)
    ensures IsHexDigit(c) <==> c in "0123456789abcdefABCDEF"
  {
  }

  /** The parser of a fixed number of digits finds them exactly where they stand. */
  lemma {:induction false} ParseHexIs(source: string, at: nat, n: nat)
    ensures ParseHex(source, at, n).Some? <==> HexAhead(source, at, n)
  {
    if at + n <= |source| {
      HexStands(source, at, at + n);
    }
  }

  lemma {:induction false} FindBrace(source: string, from: nat, end: nat)
    requires from <= end < |source| && source[end] == '}' && forall i :: from <= i < end ==> source[i] != '}'
    ensures Find(source, from, "}") == Some(end)
    decreases end - from
  {
    if from < end {
      assert source[from..from + 1] == [source[from]];
      FindBrace(source, from + 1, end);
    } else {
      assert source[from..from + 1] == "}";
    }
  }

  lemma {:induction false} FoundBrace(source: string, from: nat)
    requires Find(source, from, "}").Some?
    ensures var end := Find(source, from, "}").value; source[end] == '}'
    decreases |source| - from
  {
    if source[from..from + 1] != "}" {
      FoundBrace(source, from + 1);
    } else {
      assert source[from..from + 1][0] == source[from];
    }
  }

  /** What the parser of a number in braces finds stands there. */
  lemma {:induction false} ParsedBraced(source: string, at: nat)
    requires ParseBraced(source, at).Some?
    ensures var end := ParseBraced(source, at).value.1 - 1;
      at + 1 < end < |source| && end - at - 1 <= 6 && source[end] == '}' && AllHex(source[at + 1..end])
      && ParseBraced(source, at).value.0 == HexValue(source[at + 1..end])
  {
    FoundBrace(source, at + 1);
  }

  lemma {:induction false} HexStands(source: string, at: nat, end: nat)
    requires at <= end <= |source|
    ensures AllHex(source[at..end]) <==> HexAhead(source, at, end - at)
  {
    forall i | at <= i < end ensures source[i] in source[at..end] && (IsHexDigit(source[i]) <==> source[i] in "0123456789abcdefABCDEF") {
      assert source[at..end][i - at] == source[i];
      HexDigitIs(source[i]);
    }
    assert AllHex(source[at..end]) <==> forall i :: 0 <= i < end - at ==> IsHexDigit(source[at..end][i]);
    assert forall i :: 0 <= i < end - at ==> source[at..end][i] == source[at + i];
  }

  /** And it finds one exactly where it stands. */
  lemma {:induction false} ParseBracedIs(source: string, at: nat)
    ensures ParseBraced(source, at).Some? <==> BracedAhead(source, at)
  {
    if ParseBraced(source, at).Some? {
      ParsedBraced(source, at);
      var end := ParseBraced(source, at).value.1 - 1;
      HexStands(source, at + 1, end);
      assert HexAhead(source, at + 1, end - at - 1) && source[at + 1 + (end - at - 1)] == '}';
    } else if BracedAhead(source, at) {
      BracedParses(source, at);
    }
  }

  lemma {:induction false} BracedParses(source: string, at: nat)
    requires BracedAhead(source, at)
    ensures ParseBraced(source, at).Some?
  {
    var n :| 1 <= n <= 6 && HexAhead(source, at + 1, n) && at + 1 + n < |source| && source[at + 1 + n] == '}';
    FindBrace(source, at + 1, at + 1 + n);
    HexStands(source, at + 1, at + 1 + n);
  }

  // ---------------------------------------------------------------- one spelling

  /** What the scanner makes of a spelling. */
  function PieceOf(sp: Spelling, end: nat): Piece {
    match Meaning(sp)
    case Some(text) => Text(text, true, end)
    case None => Text("", false, end)
  }

  lemma {:induction false} DigitsParse(source: string, at: nat, end: nat, digits: string)
    requires HoldsAt(source, at, digits) && AllHex(digits) && end == at + |digits|
    ensures ParseHex(source, at, |digits|) == Some((HexValue(digits), end))
  {
    assert source[at..end] == digits;
  }

  /** A number of two or four digits is read at its digits. */
  lemma {:induction false} DigitsRead(source: string, at: nat, end: nat, number: nat, upper: seq<bool>)
    requires number < Pow16(|upper|) && end == at + |upper| && HoldsAt(source, at, HexText(number, upper))
    ensures ParseHex(source, at, |upper|) == Some((number, end))
    ensures upper != [] ==> at < |source| && IsHexDigit(source[at])
  {
    HexReads(number, upper);
    var digits := HexText(number, upper);
    DigitsParse(source, at, end, digits);
    if upper != [] {
      assert source[at + 0] == digits[0] && digits[0] in digits;
    }
  }

  lemma {:induction false} NumberReads(
    source: string, quote: char, at: nat, end: nat, letter: char, number: nat, upper: seq<bool>)
    requires quote != '\\' && ((letter == 'x' && |upper| == 2) || (letter == 'u' && |upper| == 4))
    requires number < Pow16(|upper|) && end == at + 2 + |upper|
    requires HoldsAt(source, at, ['\\', letter] + HexText(number, upper))
    ensures at < |source| && NextPiece(source, quote, at) == CodePiece(Some((number, end)), at + 2)
  {
    var opener := ['\\', letter];
    HoldsSplit(source, at, opener, HexText(number, upper));
    DigitsRead(source, at + 2, end, number, upper);
    assert source[at + 0] == opener[0] && source[at + 1] == opener[1];
  }

  lemma {:induction false} BracesHold(source: string, at: nat, end: nat, digits: string)
    requires HoldsAt(source, at, "{" + (digits + "}")) && end == at + 2 + |digits|
    ensures end <= |source| && source[at] == '{' && source[at + 1..end - 1] == digits && source[end - 1] == '}'
  {
    HoldsSplit(source, at, "{", digits + "}");
    HoldsSplit(source, at + 1, digits, "}");
    assert source[at + 0] == "{"[0] && source[end - 1 + 0] == "}"[0];
  }

  lemma {:induction false} BracesParse(source: string, at: nat, end: nat, digits: string)
    requires 1 <= |digits| <= 6 && end == at + 2 + |digits| <= |source| && AllHex(digits)
    requires source[at + 1..end - 1] == digits && source[end - 1] == '}'
    ensures ParseBraced(source, at) == Some((HexValue(digits), end))
  {
    forall i | at + 1 <= i < end - 1 ensures source[i] != '}' {
      assert source[i] == digits[i - at - 1] && digits[i - at - 1] in digits;
    }
    FindBrace(source, at + 1, end - 1);
  }

  lemma {:induction false} BracesRead(source: string, at: nat, end: nat, number: nat, upper: seq<bool>)
    requires 1 <= |upper| <= 6 && number < Pow16(|upper|) && end == at + 2 + |upper|
    requires HoldsAt(source, at, "{" + (HexText(number, upper) + "}"))
    ensures source[at] == '{' && ParseBraced(source, at) == Some((number, end))
  {
    HexReads(number, upper);
    BracesHold(source, at, end, HexText(number, upper));
    BracesParse(source, at, end, HexText(number, upper));
  }

  lemma {:induction false} BracedReads(source: string, quote: char, at: nat, end: nat, number: nat, upper: seq<bool>)
    requires quote != '\\' && 1 <= |upper| <= 6 && number < Pow16(|upper|) && end == at + 4 + |upper|
    requires HoldsAt(source, at, "\\u" + ("{" + (HexText(number, upper) + "}")))
    ensures at < |source| && NextPiece(source, quote, at) == CodePiece(Some((number, end)), at + 2)
  {
    HoldsSplit(source, at, "\\u", "{" + (HexText(number, upper) + "}"));
    BracesRead(source, at + 2, end, number, upper);
    assert source[at + 0] == "\\u"[0] && source[at + 1] == "\\u"[1];
  }

  lemma {:induction false} NumberSpellingReads(
    source: string, quote: char, at: nat, sp: Spelling, letter: char, number: nat, upper: seq<bool>)
    requires quote != '\\' && (sp == Hex(number, upper) || sp == Unicode(number, upper))
    requires letter == if sp.Hex? then 'x' else 'u'
    requires HoldsAt(source, at, Printed(sp)) && Valid(sp, quote, source, at + |Printed(sp)|)
    ensures at < |source| && NextPiece(source, quote, at) == PieceOf(sp, at + |Printed(sp)|)
  {
    assert Pow16(2) == 0x100 && Pow16(4) == 0x1_0000;
    HexReads(number, upper);
    assert Printed(sp) == ['\\', letter] + HexText(number, upper);
    NumberReads(source, quote, at, at + 2 + |upper|, letter, number, upper);
  }

  lemma {:induction false} BracedSpellingReads(
    source: string, quote: char, at: nat, sp: Spelling, number: nat, upper: seq<bool>)
    requires quote != '\\' && sp == Braced(number, upper)
    requires HoldsAt(source, at, Printed(sp)) && Valid(sp, quote, source, at + |Printed(sp)|)
    ensures at < |source| && NextPiece(source, quote, at) == PieceOf(sp, at + |Printed(sp)|)
  {
    HexReads(number, upper);
    BracedReads(source, quote, at, at + 4 + |upper|, number, upper);
  }

  lemma {:induction false} InvalidX(source: string, at: nat)
    requires at < |source| && source[at] == 'x' && !HexAhead(source, at + 1, 2)
    ensures EscapePiece(source, at) == Text("", false, at + 1)
  {
    ParseHexIs(source, at + 1, 2);
  }

  lemma {:induction false} InvalidU(source: string, at: nat)
    requires at < |source| && source[at] == 'u'
    requires if at + 1 < |source| && source[at + 1] == '{' then !BracedAhead(source, at + 1) else !HexAhead(source, at + 1, 4)
    ensures EscapePiece(source, at) == Text("", false, at + 1)
  {
    ParseHexIs(source, at + 1, 4);
    ParseBracedIs(source, at + 1);
  }

  lemma {:induction false} InvalidReads(source: string, quote: char, at: nat, letter: char)
    requires quote != '\\' && HoldsAt(source, at, ['\\', letter]) && Valid(Invalid(letter), quote, source, at + 2)
    ensures at < |source| && NextPiece(source, quote, at) == Text("", false, at + 2)
  {
    var opener := ['\\', letter];
    assert source[at + 0] == opener[0] && source[at + 1] == opener[1];
    if letter == 'x' {
      InvalidX(source, at + 1);
    } else {
      InvalidU(source, at + 1);
    }
  }

  lemma {:induction false} OtherReads(source: string, quote: char, at: nat, sp: Spelling)
    requires (quote == '\'' || quote == '"') && (sp.Plain? || sp.Escape? || sp.Continued?)
    requires HoldsAt(source, at, Printed(sp)) && Valid(sp, quote, source, at + |Printed(sp)|)
    ensures at < |source| && NextPiece(source, quote, at) == PieceOf(sp, at + |Printed(sp)|)
  {
    var printed := Printed(sp);
    assert source[at + 0] == printed[0];
    if |printed| >= 2 { assert source[at + 1] == printed[1]; }
    if |printed| >= 3 { assert source[at + 2] == printed[2]; }
  }

  /** A spelling is read as one piece, whatever stands around it, and means what it says. */
  lemma {:induction false} SpellingReads(source: string, quote: char, at: nat, sp: Spelling)
    requires quote == '\'' || quote == '"'
    requires HoldsAt(source, at, Printed(sp)) && Valid(sp, quote, source, at + |Printed(sp)|)
    ensures at < |source| && NextPiece(source, quote, at) == PieceOf(sp, at + |Printed(sp)|)
  {
    match sp
    case Hex(number, upper) => NumberSpellingReads(source, quote, at, sp, 'x', number, upper);
    case Unicode(number, upper) => NumberSpellingReads(source, quote, at, sp, 'u', number, upper);
    case Braced(number, upper) => BracedSpellingReads(source, quote, at, sp, number, upper);
    case Invalid(letter) => InvalidReads(source, quote, at, letter);
    case _ => OtherReads(source, quote, at, sp);
  }

  // ---------------------------------------------------------------- whole literals

  function PrintedAll(sps: seq<Spelling>): string {
    if sps == [] then "" else Printed(sps[0]) + PrintedAll(sps[1..])
  }

  /** What they mean together; nothing if one of them means nothing. */
  function MeaningOfAll(sps: seq<Spelling>): Option<string> {
    if sps == [] then Some("")
    else if Meaning(sps[0]).None? || MeaningOfAll(sps[1..]).None? then None
    else Some(Meaning(sps[0]).value + MeaningOfAll(sps[1..]).value)
  }

  ghost predicate AllValid(sps: seq<Spelling>, quote: char, source: string, at: nat) {
    sps == []
    || (Valid(sps[0], quote, source, at + |Printed(sps[0])|) && AllValid(sps[1..], quote, source, at + |Printed(sps[0])|))
  }

  lemma {:induction false} ScanOneSpelled(
    source: string, quote: char, at: nat, next: nat, sp: Spelling, rest: string, decoded: string, clean: bool,
    more: string, ok: bool)
    requires (quote == '\'' || quote == '"') && next == at + |Printed(sp)|
    requires more == decoded + PieceOf(sp, next).text && ok == (clean && Meaning(sp).Some?)
    requires HoldsAt(source, at, Printed(sp) + rest) && Valid(sp, quote, source, next)
    ensures HoldsAt(source, next, rest)
    ensures ScanFrom(source, quote, at, decoded, clean)
         == ScanFrom(source, quote, next, more, ok)
  {
    HoldsSplit(source, at, Printed(sp), rest);
    SpellingReads(source, quote, at, sp);
    ScanText(source, quote, at, PieceOf(sp, next), decoded, clean);
  }

  lemma {:induction false} ScanText(source: string, quote: char, at: nat, p: Piece, decoded: string, clean: bool)
    requires at < |source| && NextPiece(source, quote, at) == p && p.Text?
    ensures ScanFrom(source, quote, at, decoded, clean) == ScanFrom(source, quote, p.end, decoded + p.text, clean && p.ok)
  {
  }

  /** The scan that ends just behind the closing quote, with what the spellings mean. */
  ghost predicate ReadAll(scan: Scan, sps: seq<Spelling>, decoded: string, clean: bool, end: nat) {
    && scan.end == end + 1 && scan.terminated && !scan.broken
    && (scan.clean <==> clean && MeaningOfAll(sps).Some?)
    && (MeaningOfAll(sps).Some? ==> scan.decoded == decoded + MeaningOfAll(sps).value)
  }

  lemma {:induction false} ReadOneMore(scan: Scan, sps: seq<Spelling>, decoded: string, clean: bool, next: nat, end: nat)
    requires sps != []
    requires ReadAll(scan, sps[1..], decoded + PieceOf(sps[0], next).text, clean && Meaning(sps[0]).Some?, end)
    ensures ReadAll(scan, sps, decoded, clean, end)
  {
    if MeaningOfAll(sps).Some? {
      Reassociate(decoded, Meaning(sps[0]).value, MeaningOfAll(sps[1..]).value);
    }
  }

  lemma {:induction false} ScanSpelled(
    source: string, quote: char, at: nat, end: nat, printed: string, sps: seq<Spelling>, decoded: string, clean: bool)
    requires (quote == '\'' || quote == '"') && printed == PrintedAll(sps) && end == at + |printed|
    requires HoldsAt(source, at, printed) && HoldsAt(source, end, [quote]) && AllValid(sps, quote, source, at)
    ensures ReadAll(ScanFrom(source, quote, at, decoded, clean), sps, decoded, clean, end)
    decreases |sps|
  {
    if sps == [] {
      assert source[at + 0] == [quote][0] && decoded + "" == decoded;
    } else {
      var next, rest := at + |Printed(sps[0])|, PrintedAll(sps[1..]);
      var more, ok := decoded + PieceOf(sps[0], next).text, clean && Meaning(sps[0]).Some?;
      ScanOneSpelled(source, quote, at, next, sps[0], rest, decoded, clean, more, ok);
      ScanSpelled(source, quote, next, end, rest, sps[1..], more, ok);
      ReadOneMore(ScanFrom(source, quote, next, more, ok), sps, decoded, clean, next, end);
    }
  }

  /**
    Any list of spellings between two quotes reads as what it means, and has no value if one of them means
    nothing; it ends just behind the closing quote, whatever text is around it.
  */
  lemma {:induction false} SpelledLiteralReads(before: string, quote: char, sps: seq<Spelling>, after: string)
    requires quote == '\'' || quote == '"'
    requires AllValid(sps, quote, before + [quote] + PrintedAll(sps) + [quote] + after, |before| + 1)
    ensures LiteralAt(before + [quote] + PrintedAll(sps) + [quote] + after, |before|, quote)
         == StringLiteral(MeaningOfAll(sps), quote, |before| + 1, |before|, |before| + |PrintedAll(sps)| + 2, true)
  {
    var printed, open := PrintedAll(sps), before + [quote];
    var source := open + printed + [quote] + after;
    assert source == open + printed + ([quote] + after);
    HoldsJoined(open, printed, [quote] + after);
    HoldsJoined(open + printed, [quote], after);
    ScanSpelled(source, quote, |open|, |open| + |printed|, printed, sps, "", true);
    assert MeaningOfAll(sps).Some? ==> "" + MeaningOfAll(sps).value == MeaningOfAll(sps).value;
  }

  // ---------------------------------------------------------------- every closed literal is spelled

  lemma {:induction false} HexAt(source: string, at: nat, n: nat) returns (number: nat, upper: seq<bool>)
    requires ParseHex(source, at, n).Some?
    ensures at + n <= |source| && |upper| == n && number < Pow16(n) && source[at..at + n] == HexText(number, upper)
  {
    number, upper := HexSpelled(source[at..at + n]);
  }

  lemma {:induction false} HoldsSlice(source: string, at: nat, end: nat, part: string)
    requires at <= end <= |source| && source[at..end] == part
    ensures HoldsAt(source, at, part) && end == at + |part|
  {
    forall k | 0 <= k < |part| ensures source[at + k] == part[k] {
      assert source[at..end][k] == source[at + k];
    }
  }

  lemma {:induction false} BracesStand(source: string, at: nat, end: nat, digits: string)
    requires at + 3 <= end < |source| && source[at] == '\\' && source[at + 1] == 'u' && source[at + 2] == '{'
    requires source[end] == '}' && digits == source[at + 3..end]
    ensures HoldsAt(source, at, "\\u" + ("{" + (digits + "}")))
  {
    assert source[at..end + 1] == "\\u" + ("{" + (digits + "}"));
    HoldsSlice(source, at, end + 1, "\\u" + ("{" + (digits + "}")));
  }

  lemma {:induction false} BracesSpelled(source: string, quote: char, at: nat) returns (sp: Spelling)
    requires at + 2 < |source| && source[at] == '\\' && source[at + 1] == 'u' && source[at + 2] == '{'
    requires ParseBraced(source, at + 2).Some?
    ensures HoldsAt(source, at, Printed(sp)) && Valid(sp, quote, source, at + |Printed(sp)|)
  {
    ParsedBraced(source, at + 2);
    var end := ParseBraced(source, at + 2).value.1 - 1;
    var digits := source[at + 3..end];
    var number, upper := HexSpelled(digits);
    sp := Braced(number, upper);
    BracesStand(source, at, end, digits);
  }

  lemma {:induction false} DigitsSpelled(source: string, quote: char, at: nat, n: nat) returns (sp: Spelling)
    requires at + 1 < |source| && source[at] == '\\' && ParseHex(source, at + 2, n).Some?
    requires (source[at + 1] == 'x' && n == 2) || (source[at + 1] == 'u' && n == 4)
    ensures HoldsAt(source, at, Printed(sp)) && Valid(sp, quote, source, at + |Printed(sp)|)
  {
    assert Pow16(2) == 0x100 && Pow16(4) == 0x1_0000;
    var number, upper := HexAt(source, at + 2, n);
    sp := if n == 2 then Hex(number, upper) else Unicode(number, upper);
    assert source[at..at + 2 + n] == ['\\', source[at + 1]] + source[at + 2..at + 2 + n];
    HoldsSlice(source, at, at + 2 + n, Printed(sp));
  }

  /** The spelling that stands at a backslash before `x` or `u`. */
  lemma {:induction false} NumberSpelled(source: string, quote: char, at: nat) returns (sp: Spelling)
    requires quote != '\\' && at + 1 < |source| && source[at] == '\\' && (source[at + 1] == 'x' || source[at + 1] == 'u')
    ensures HoldsAt(source, at, Printed(sp)) && Valid(sp, quote, source, at + |Printed(sp)|)
  {
    var braced := source[at + 1] == 'u' && at + 2 < |source| && source[at + 2] == '{';
    var n := if source[at + 1] == 'x' then 2 else 4;
    if braced && ParseBraced(source, at + 2).Some? {
      sp := BracesSpelled(source, quote, at);
    } else if !braced && ParseHex(source, at + 2, n).Some? {
      sp := DigitsSpelled(source, quote, at, n);
    } else {
      ParseHexIs(source, at + 2, n);
      ParseBracedIs(source, at + 2);
      sp := Invalid(source[at + 1]);
    }
  }

  lemma {:induction false} OtherSpelled(source: string, quote: char, at: nat) returns (sp: Spelling)
    requires quote == '\'' || quote == '"'
    requires at < |source| && NextPiece(source, quote, at).Text?
    requires source[at] == '\\' ==> source[at + 1] != 'x' && source[at + 1] != 'u'
    ensures HoldsAt(source, at, Printed(sp)) && Valid(sp, quote, source, at + |Printed(sp)|)
  {
    if source[at] != '\\' {
      sp := Plain(source[at]);
    } else if source[at + 1] == '\n' {
      sp := Continued("\n");
    } else if source[at + 1] == '\r' {
      sp := Continued(if at + 2 < |source| && source[at + 2] == '\n' then "\r\n" else "\r");
    } else {
      sp := Escape(source[at + 1]);
    }
  }

  /** Wherever the scanner reads a piece of text stands a spelling of it. */
  lemma {:induction false} PieceIsSpelled(source: string, quote: char, at: nat) returns (sp: Spelling)
    requires (quote == '\'' || quote == '"') && at < |source| && NextPiece(source, quote, at).Text?
    ensures HoldsAt(source, at, Printed(sp)) && Valid(sp, quote, source, at + |Printed(sp)|)
    ensures NextPiece(source, quote, at) == PieceOf(sp, at + |Printed(sp)|)
  {
    if source[at] == '\\' && (source[at + 1] == 'x' || source[at + 1] == 'u') {
      sp := NumberSpelled(source, quote, at);
    } else {
      sp := OtherSpelled(source, quote, at);
    }
    SpellingReads(source, quote, at, sp);
  }

  lemma {:induction false} ClosedGoesOn(source: string, quote: char, at: nat, decoded: string, clean: bool, scan: Scan)
    returns (p: Piece)
    requires at <= |source| && scan == ScanFrom(source, quote, at, decoded, clean) && scan.terminated
    ensures at < |source| && p == NextPiece(source, quote, at) && (p.Closed? || p.Text?)
    ensures p.Closed? ==> HoldsAt(source, at, [quote]) && scan.end == at + 1
    ensures p.Text? ==>
      at < p.end <= |source| && scan == ScanFrom(source, quote, p.end, decoded + p.text, clean && p.ok)
  {
    p := NextPiece(source, quote, at);
  }

  /** The first spelling of the rest of a literal that is closed, or its closing quote. */
  lemma {:induction false} FirstSpelled(source: string, quote: char, at: nat, decoded: string, clean: bool, scan: Scan)
    returns (first: Option<Spelling>, next: nat, more: string, ok: bool)
    requires (quote == '\'' || quote == '"') && at <= |source|
    requires scan == ScanFrom(source, quote, at, decoded, clean) && scan.terminated
    ensures first.None? ==> HoldsAt(source, at, [quote]) && scan.end == at + 1
    ensures first.Some? ==>
      && HoldsAt(source, at, Printed(first.value)) && at < next == at + |Printed(first.value)| <= |source|
      && Valid(first.value, quote, source, next) && scan == ScanFrom(source, quote, next, more, ok)
  {
    var p := ClosedGoesOn(source, quote, at, decoded, clean, scan);
    first, next, more, ok := None, at, decoded, clean;
    if p.Text? {
      var sp := PieceIsSpelled(source, quote, at);
      first, next, more, ok := Some(sp), p.end, decoded + p.text, clean && p.ok;
    }
  }

  /** So every literal that is closed is a list of spellings between quotes. */
  lemma {:induction false} ClosedIsSpelled(source: string, quote: char, at: nat, decoded: string, clean: bool, scan: Scan)
    returns (sps: seq<Spelling>)
    requires (quote == '\'' || quote == '"') && at <= |source|
    requires scan == ScanFrom(source, quote, at, decoded, clean) && scan.terminated
    ensures AllValid(sps, quote, source, at) && HoldsAt(source, at, PrintedAll(sps) + [quote])
    ensures scan.end == at + |PrintedAll(sps)| + 1
    decreases |source| - at
  {
    var first, next, more, ok := FirstSpelled(source, quote, at, decoded, clean, scan);
    if first.None? {
      sps := [];
      assert "" + [quote] == [quote];
    } else {
      var rest := ClosedIsSpelled(source, quote, next, more, ok, scan);
      sps := [first.value] + rest;
      OneMoreSpelled(source, quote, at, next, first.value, rest, sps);
    }
  }

  lemma {:induction false} OneMoreSpelled(
    source: string, quote: char, at: nat, next: nat, sp: Spelling, rest: seq<Spelling>, sps: seq<Spelling>)
    requires sps == [sp] + rest && next == at + |Printed(sp)|
    requires HoldsAt(source, at, Printed(sp)) && Valid(sp, quote, source, next)
    requires HoldsAt(source, next, PrintedAll(rest) + [quote]) && AllValid(rest, quote, source, next)
    ensures AllValid(sps, quote, source, at) && HoldsAt(source, at, PrintedAll(sps) + [quote])
    ensures at + |PrintedAll(sps)| == next + |PrintedAll(rest)|
  {
    assert sps[0] == sp && sps[1..] == rest;
    HoldsBoth(source, at, Printed(sp), PrintedAll(rest) + [quote]);
    Reassociate(Printed(sp), PrintedAll(rest), [quote]);
  }

  lemma {:induction false} HoldsBoth(source: string, at: nat, a: string, b: string)
    requires HoldsAt(source, at, a) && HoldsAt(source, at + |a|, b)
    ensures HoldsAt(source, at, a + b)
  {
    forall k | 0 <= k < |a + b| ensures source[at + k] == (a + b)[k] {
      if k >= |a| {
        assert source[at + |a| + (k - |a|)] == b[k - |a|];
      }
    }
  }
}
