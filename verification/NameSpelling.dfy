/**
  How a JSON string may be spelled (section 7 of RFC 8259), as a grammar that is independent of the reader: every
  list of spellings reads as what it means, and whatever reads is such a list. And what a name is written as,
  and where the next alternative begins.
*/
module NameSpelling {
  import opened NameTokens
  import opened Numbers
  import opened Wrappers
  import Sequences

  datatype Spelling =
    | Plain(c: char)
    | Short(letter: char)                                            // a backslash and one letter
    | Code(number: nat, upper: seq<bool>)                            // \uhhhh
    | Pair(number: nat, upper: seq<bool>, upper': seq<bool>)         // two of them, for a number above FFFF

  predicate Surrogate(number: nat) {
    0xD800 <= number <= 0xDFFF
  }

  predicate Valid(sp: Spelling) {
    match sp
    case Plain(c) => c >= ' ' && c != '"' && c != '\\'
    case Short(letter) => letter in "\"\\/bfnrt"
    case Code(number, upper) => |upper| == 4 && number < 0x1_0000 && !Surrogate(number)
    case Pair(number, upper, upper') => |upper| == |upper'| == 4 && 0x1_0000 <= number < 0x11_0000
  }

  /** The two halves of a number above FFFF. */
  function High(number: nat): nat
    requires 0x1_0000 <= number < 0x11_0000
  {
    0xD800 + (number - 0x1_0000) / 0x400
  }

  function Low(number: nat): nat
    requires 0x1_0000 <= number < 0x11_0000
  {
    0xDC00 + (number - 0x1_0000) % 0x400
  }

  function Printed(sp: Spelling): string
    requires Valid(sp)
  {
    match sp
    case Plain(c) => [c]
    case Short(letter) => ['\\', letter]
    case Code(number, upper) => "\\u" + HexText(number, upper)
    case Pair(number, upper, upper') => "\\u" + HexText(High(number), upper) + "\\u" + HexText(Low(number), upper')
  }

  function Meaning(sp: Spelling): char
    requires Valid(sp)
  {
    match sp
    case Plain(c) => c
    case Short(letter) =>
      (match letter
       case 'b' => '\U{0008}' case 'f' => '\U{000C}' case 'n' => '\n' case 'r' => '\r' case 't' => '\t'
       case _ => letter)
    case Code(number, _) => number as char
    case Pair(number, _, _) => number as char
  }

  // ---------------------------------------------------------------- four digits

  lemma {:induction false} FourDigits(number: nat, upper: seq<bool>)
    requires |upper| == 4 && number < 0x1_0000
    ensures HexText(number, upper)
         == [DigitChar(number / 0x1000, upper[0]), DigitChar(number / 0x100 % 16, upper[1]),
             DigitChar(number / 0x10 % 16, upper[2]), DigitChar(number % 16, upper[3])]
  {
    var n1, n2, n3 := number / 16, number / 0x100, number / 0x1000;
    assert n1 / 16 == n2 && n2 / 16 == n3 && n3 % 16 == n3;
    assert HexText(n3 / 16, upper[..0]) == "";
    assert HexText(n3, upper[..1]) == "" + [DigitChar(n3, upper[0])];
    assert upper[..2][..1] == upper[..1];
    assert HexText(n2, upper[..2]) == HexText(n3, upper[..1]) + [DigitChar(n2 % 16, upper[1])];
    assert upper[..3][..2] == upper[..2];
    assert HexText(n1, upper[..3]) == HexText(n2, upper[..2]) + [DigitChar(n1 % 16, upper[2])];
  }

  lemma {:induction false} FourValues(s: string, a: nat, b: nat, c: nat, d: nat)
    requires |s| >= 4 && HexValue(s[0]) == Some(a) && HexValue(s[1]) == Some(b)
    requires HexValue(s[2]) == Some(c) && HexValue(s[3]) == Some(d)
    ensures HexFour(s) == Some(((a * 16 + b) * 16 + c) * 16 + d)
  {
  }

  lemma {:induction false} FourRead(number: nat, upper: seq<bool>, rest: string)
    requires |upper| == 4 && number < 0x1_0000
    ensures |HexText(number, upper)| == 4 && HexFour(HexText(number, upper) + rest) == Some(number)
  {
    var a, b, c, d := number / 0x1000, number / 0x100 % 16, number / 0x10 % 16, number % 16;
    FourDigits(number, upper);
    DigitReads(a, upper[0]);
    DigitReads(b, upper[1]);
    DigitReads(c, upper[2]);
    DigitReads(d, upper[3]);
    FourValues(HexText(number, upper) + rest, a, b, c, d);
    FourTogether(number);
  }

  lemma {:induction false} OneTogether(number: nat)
    ensures number / 16 * 16 + number % 16 == number
  {
  }

  lemma {:induction false} FourTogether(number: nat)
    ensures ((number / 0x1000 * 16 + number / 0x100 % 16) * 16 + number / 0x10 % 16) * 16 + number % 16 == number
  {
    var n1, n2, n3 := number / 16, number / 0x100, number / 0x1000;
    assert n1 / 16 == n2 && n2 / 16 == n3;
    OneTogether(number);
    OneTogether(n1);
    OneTogether(n2);
  }

  lemma {:induction false} FourApart(number: nat, a: nat, b: nat, c: nat, d: nat)
    requires a < 16 && b < 16 && c < 16 && d < 16 && number == ((a * 16 + b) * 16 + c) * 16 + d
    ensures number / 0x1000 == a && number / 0x100 % 16 == b && number / 0x10 % 16 == c && number % 16 == d
  {
    assert number / 0x10 == (a * 16 + b) * 16 + c && number / 0x100 == a * 16 + b;
  }

  lemma {:induction false} FourSpelled(s: string) returns (number: nat, upper: seq<bool>)
    requires HexFour(s).Some?
    ensures number == HexFour(s).value && |upper| == 4 && s[..4] == HexText(number, upper)
  {
    number := HexFour(s).value;
    var u0 := DigitSpelled(s[0]);
    var u1 := DigitSpelled(s[1]);
    var u2 := DigitSpelled(s[2]);
    var u3 := DigitSpelled(s[3]);
    upper := [u0, u1, u2, u3];
    FourApart(number, HexDigit(s[0]), HexDigit(s[1]), HexDigit(s[2]), HexDigit(s[3]));
    FourDigits(number, upper);
    assert s[..4] == [s[0], s[1], s[2], s[3]];
  }

  // ---------------------------------------------------------------- one spelling

  lemma {:induction false} CodeReads(number: nat, upper: seq<bool>, rest: string)
    requires |upper| == 4 && number < 0x1_0000 && !Surrogate(number)
    ensures |"\\u" + HexText(number, upper)| == 6
    ensures UnescapeOne("\\u" + HexText(number, upper) + rest) == Some((number as char, 6))
  {
    var s := "\\u" + HexText(number, upper) + rest;
    FourRead(number, upper, rest);
    assert s[2..] == HexText(number, upper) + rest;
  }

  lemma {:induction false} Halves(number: nat)
    requires 0x1_0000 <= number < 0x11_0000
    ensures 0xD800 <= High(number) < 0xDC00 <= Low(number) < 0xE000
    ensures 0x10000 + (High(number) - 0xD800) * 0x400 + (Low(number) - 0xDC00) == number
  {
  }

  lemma {:induction false} TwoHalves(s: string, high: nat, low: nat)
    requires |s| >= 8 && s[0] == s[6] == '\\' && s[1] == s[7] == 'u'
    requires HexFour(s[2..]) == Some(high) && HexFour(s[8..]) == Some(low) && 0xD800 <= high < 0xDC00 <= low < 0xE000
    ensures UnescapeOne(s) == Some(((0x10000 + (high - 0xD800) * 0x400 + (low - 0xDC00)) as char, 12))
  {
  }

  lemma {:induction false} TwoCodes(high: string, low: string, rest: string)
    requires |high| == |low| == 4
    ensures var s := "\\u" + high + "\\u" + low + rest;
      && |s| >= 12 && s[0] == s[6] == '\\' && s[1] == s[7] == 'u'
      && s[2..] == high + ("\\u" + low + rest) && s[8..] == low + rest
  {
  }

  lemma {:induction false} PairReads(number: nat, upper: seq<bool>, upper': seq<bool>, rest: string)
    requires |upper| == |upper'| == 4 && 0x1_0000 <= number < 0x11_0000
    ensures |Printed(Pair(number, upper, upper'))| == 12
    ensures UnescapeOne(Printed(Pair(number, upper, upper')) + rest) == Some((number as char, 12))
  {
    Halves(number);
    var high, low := HexText(High(number), upper), HexText(Low(number), upper');
    FourRead(High(number), upper, "\\u" + low + rest);
    FourRead(Low(number), upper', rest);
    TwoCodes(high, low, rest);
    TwoHalves("\\u" + high + "\\u" + low + rest, High(number), Low(number));
  }

  /** A spelling reads as the character that it means, whatever follows. */
  lemma {:induction false} SpellingReads(sp: Spelling, rest: string)
    requires Valid(sp)
    ensures Printed(sp) != "" && UnescapeOne(Printed(sp) + rest) == Some((Meaning(sp), |Printed(sp)|))
  {
    match sp
    case Code(number, upper) => CodeReads(number, upper, rest);
    case Pair(number, upper, upper') => PairReads(number, upper, upper', rest);
    case _ => ShortReads(sp, rest);
  }

  lemma {:induction false} ShortReads(sp: Spelling, rest: string)
    requires Valid(sp) && (sp.Plain? || sp.Short?)
    ensures UnescapeOne(Printed(sp) + rest) == Some((Meaning(sp), |Printed(sp)|))
  {
    assert (Printed(sp) + rest)[0] == Printed(sp)[0];
    if sp.Short? { assert (Printed(sp) + rest)[1] == sp.letter; }
  }

  /** Whatever reads as one character is a spelling of it. */
  lemma {:induction false} ReadIsSpelled(s: string) returns (sp: Spelling)
    requires s != "" && UnescapeOne(s).Some?
    ensures Valid(sp) && |Printed(sp)| <= |s| && s == Printed(sp) + s[|Printed(sp)|..]
    ensures UnescapeOne(s) == Some((Meaning(sp), |Printed(sp)|))
  {
    if s[0] != '\\' {
      sp := Plain(s[0]);
    } else if s[1] != 'u' {
      sp := Short(s[1]);
    } else {
      sp := CodeSpelled(s);
    }
    assert s == s[..|Printed(sp)|] + s[|Printed(sp)|..];
    SpellingReads(sp, s[|Printed(sp)|..]);
  }

  lemma {:induction false} CodeSpelled(s: string) returns (sp: Spelling)
    requires |s| >= 2 && s[0] == '\\' && s[1] == 'u' && UnescapeOne(s).Some?
    ensures Valid(sp) && |Printed(sp)| <= |s| && s[..|Printed(sp)|] == Printed(sp)
  {
    var high, upper := FourSpelled(s[2..]);
    assert s[2..][..4] == s[2..6] && s[..6] == "\\u" + s[2..6];
    if !Surrogate(high) {
      sp := Code(high, upper);
      FourRead(high, upper, "");
    } else {
      sp := PairSpelled(s, high, upper);
    }
  }

  lemma {:induction false} PairSpelled(s: string, high: nat, upper: seq<bool>) returns (sp: Spelling)
    requires |s| >= 2 && s[0] == '\\' && s[1] == 'u' && UnescapeOne(s).Some? && HexFour(s[2..]) == Some(high)
    requires |upper| == 4 && Surrogate(high) && s[..6] == "\\u" + HexText(high, upper)
    ensures Valid(sp) && |Printed(sp)| <= |s| && s[..|Printed(sp)|] == Printed(sp)
  {
    var low, upper' := FourSpelled(s[8..]);
    var number := HalvesJoined(high, low);
    sp := Pair(number, upper, upper');
    FourRead(high, upper, "");
    FourRead(low, upper', "");
    CodesJoined(s, HexText(high, upper), HexText(low, upper'));
  }

  lemma {:induction false} HalvesJoined(high: nat, low: nat) returns (number: nat)
    requires 0xD800 <= high < 0xDC00 <= low < 0xE000
    ensures 0x1_0000 <= number < 0x11_0000 && High(number) == high && Low(number) == low
  {
    number := 0x1_0000 + (high - 0xD800) * 0x400 + (low - 0xDC00);
  }

  lemma {:induction false} CodesJoined(s: string, high: string, low: string)
    requires |s| >= 12 && |high| == |low| == 4 && s[..6] == "\\u" + high
    requires s[6] == '\\' && s[7] == 'u' && s[8..][..4] == low
    ensures |"\\u" + high + "\\u" + low| == 12 && s[..12] == "\\u" + high + "\\u" + low
  {
    assert s[8..][..4] == s[8..12] && s[6..8] == "\\u" && s[..12] == s[..6] + s[6..8] + s[8..12];
  }

  // ---------------------------------------------------------------- whole strings

  ghost predicate AllValid(sps: seq<Spelling>) {
    forall i :: 0 <= i < |sps| ==> Valid(sps[i])
  }

  function PrintedAll(sps: seq<Spelling>): string
    requires AllValid(sps)
  {
    if sps == [] then "" else Printed(sps[0]) + PrintedAll(sps[1..])
  }

  function MeaningOfAll(sps: seq<Spelling>): string
    requires AllValid(sps)
  {
    if sps == [] then "" else [Meaning(sps[0])] + MeaningOfAll(sps[1..])
  }

  /** Any list of spellings reads as the characters that they mean. */
  lemma {:induction false} SpelledReads(sps: seq<Spelling>)
    requires AllValid(sps)
    ensures Unescape(PrintedAll(sps)) == Some(MeaningOfAll(sps))
  {
    if sps != [] {
      var first, rest := Printed(sps[0]), PrintedAll(sps[1..]);
      SpellingReads(sps[0], rest);
      SpelledReads(sps[1..]);
      assert (first + rest)[|first|..] == rest;
    }
  }

  /** And whatever reads is a list of spellings. */
  lemma {:induction false} ReadIsAllSpelled(s: string) returns (sps: seq<Spelling>)
    requires Unescape(s).Some?
    ensures AllValid(sps) && PrintedAll(sps) == s
    decreases |s|
  {
    if s == "" {
      sps := [];
    } else {
      var sp := ReadIsSpelled(s);
      var rest := ReadIsAllSpelled(s[|Printed(sp)|..]);
      sps := [sp] + rest;
      assert sps[1..] == rest;
    }
  }

  // ---------------------------------------------------------------- what is written

  /** A name is quoted exactly where a bare word could not be read back, and a character escaped only where it must be. */
  lemma {:induction false} WrittenAsNeeded(white: char -> bool, name: string, c: char)
    ensures EncodeName(white, name) == name <==>
      name != "" && forall i :: 0 <= i < |name| ==> !white(name[i]) && name[i] != '"' && name[i] != '\\' && name[i] != '`'
    ensures EncodeName(white, name) != name ==> EncodeName(white, name) == "\"" + Escape(name) + "\""
    ensures EscapeChar(c) == [c] <==> c >= ' ' && c != '"' && c != '\\'
    ensures |EscapeChar(c)| == 2 <==> c in "\"\\\n\r\t\U{0008}\U{000C}"
    ensures |EscapeChar(c)| in {1, 2, 6}
  {
    assert |"\"" + Escape(name) + "\""| > 0;
    if NeedsQuotes(white, name) && "\"" + Escape(name) + "\"" == name {
      LongerEscaped(name);
    }
  }

  lemma {:induction false} LongerEscaped(name: string)
    ensures |Escape(name)| >= |name|
  {
    if name != "" {
      LongerEscaped(name[1..]);
    }
  }

  // ---------------------------------------------------------------- the next alternative

  /** White space, a bar on its own at `bar`, and white space up to `next`. */
  ghost predicate BarBetween(white: char -> bool, rest: string, bar: nat, next: nat) {
    && 0 < bar < next <= |rest| && rest[bar] == '|'
    && (forall i :: 0 <= i < next && i != bar ==> white(rest[i]))
    && (next < |rest| ==> !white(rest[next]) && bar + 1 < next)
  }

  lemma {:induction false} TrimIs(white: char -> bool, s: string)
    ensures var n := |s| - |Trim(white, s)|;
      && 0 <= n && Trim(white, s) == s[n..] && (forall i :: 0 <= i < n ==> white(s[i])) && (n < |s| ==> !white(s[n]))
  {
    if s != "" && white(s[0]) {
      TrimIs(white, s[1..]);
      var n := |s| - |Trim(white, s)|;
      forall i | 0 <= i < n ensures white(s[i]) {
        if i > 0 { assert s[1..][i - 1] == s[i]; }
      }
    }
  }

  /** The next alternative begins behind a bar that stands alone, and only there. */
  lemma {:induction false} NextIsBehindTheBar(white: char -> bool, rest: string, next: nat)
    requires !white('|')
    ensures NextAlternative(white, rest) == Some(next) <==> exists bar :: BarBetween(white, rest, bar, next)
  {
    TrimIs(white, rest);
    var bar := |rest| - |Trim(white, rest)|;
    if NextAlternative(white, rest) == Some(next) {
      BarFound(white, rest, bar, next);
    }
    if other :| BarBetween(white, rest, other, next) {
      assert other == bar;
      BarIsFound(white, rest, bar, next);
    }
  }

  lemma {:induction false} BarFound(white: char -> bool, rest: string, bar: nat, next: nat)
    requires NextAlternative(white, rest) == Some(next) && bar == |rest| - |Trim(white, rest)| && !white('|')
    ensures BarBetween(white, rest, bar, next)
  {
    TrimIs(white, rest);
    var behind := rest[bar..][1..];
    TrimIs(white, behind);
    assert behind == rest[bar + 1..];
    forall i | 0 <= i < next && i != bar ensures white(rest[i]) {
      if i > bar { assert behind[i - bar - 1] == rest[i]; }
    }
    if next < |rest| { assert behind[next - bar - 1] == rest[next]; }
    if bar + 1 < |rest| { assert rest[bar..][1] == rest[bar + 1]; }
  }

  lemma {:induction false} BarIsFound(white: char -> bool, rest: string, bar: nat, next: nat)
    requires BarBetween(white, rest, bar, next) && bar == |rest| - |Trim(white, rest)|
    ensures NextAlternative(white, rest) == Some(next)
  {
    TrimIs(white, rest);
    var behind := rest[bar..][1..];
    TrimIs(white, behind);
    assert behind == rest[bar + 1..];
    var n := |behind| - |Trim(white, behind)|;
    assert n < |behind| ==> behind[n] == rest[n + bar + 1];
    assert next < |rest| ==> behind[next - bar - 1] == rest[next];
    if bar + 1 < |rest| { assert rest[bar..][1] == rest[bar + 1]; }
  }
}
