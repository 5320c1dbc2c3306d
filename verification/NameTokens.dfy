/**
  Target names in annotations (src/documentation_intelligence.rs:141-195 and 249-262): one name is a bare
  word or a JSON string, alternatives are joined by a standalone bar. The white space class is a parameter.
*/
module NameTokens {
  import opened Numbers
  import opened Wrappers
  import Sequences

  // ---------------------------------------------------------------- JSON strings (RFC 8259, section 7)

  function HexValue(c: char): (v: Option<nat>)
    ensures v.Some? ==> v.value < 16
  {
    if IsHexDigit(c) then Some(HexDigit(c)) else None
  }

  /** The four hexadecimal digits at the start of a text. */
  function HexFour(s: string): (v: Option<nat>)
    ensures v.Some? ==> |s| >= 4 && v.value < 0x10000
  {
    if |s| < 4 then None
    else
      var a, b, c, d := HexValue(s[0]), HexValue(s[1]), HexValue(s[2]), HexValue(s[3]);
      if a.Some? && b.Some? && c.Some? && d.Some?
      then Some(((a.value * 16 + b.value) * 16 + c.value) * 16 + d.value) else None
  }

  /** How one character is written inside quotes. */
  function EscapeChar(c: char): string {
    if c == '"' then "\\\""
    else if c == '\\' then "\\\\"
    else if c == 8 as char then "\\b"
    else if c == 9 as char then "\\t"
    else if c == 10 as char then "\\n"
    else if c == 12 as char then "\\f"
    else if c == 13 as char then "\\r"
    else if c < ' ' then "\\u00" + [HexChar(c as nat / 16), HexChar(c as nat % 16)]
    else [c]
  }

  function Escape(name: string): string {
    if name == "" then "" else EscapeChar(name[0]) + Escape(name[1..])
  }

  /** The character a two-character escape stands for. */
  function ShortEscape(c: char): Option<char> {
    match c
    case '"' => Some('"')
    case '\\' => Some('\\')
    case '/' => Some('/')
    case 'b' => Some(8 as char)
    case 'f' => Some(12 as char)
    case 'n' => Some(10 as char)
    case 'r' => Some(13 as char)
    case 't' => Some(9 as char)
    case _ => None
  }

  /** One character of a string's content and how many characters it takes; None where it is malformed. */
  function UnescapeOne(s: string): (r: Option<(char, nat)>)
    requires s != ""
    ensures r.Some? ==> 1 <= r.value.1 <= |s|
  {
    if s[0] == '"' || s[0] < ' ' then None
    else if s[0] != '\\' then Some((s[0], 1))
    else if |s| < 2 then None
    else if s[1] != 'u' then
      match ShortEscape(s[1])
      case None => None
      case Some(c) => Some((c, 2))
    else
      match HexFour(s[2..])
      case None => None
      case Some(high) =>
        if high < 0xD800 || high >= 0xE000 then Some((high as char, 6))
        else if high >= 0xDC00 || |s| < 8 || s[6] != '\\' || s[7] != 'u' then None
        else
          match HexFour(s[8..])
          case None => None
          case Some(low) =>
            if 0xDC00 <= low < 0xE000 then
              Some(((0x10000 + (high - 0xD800) * 0x400 + (low - 0xDC00)) as char, 12))
            else None
  }

  function Unescape(s: string): Option<string>
    decreases |s|
  {
    if s == "" then Some("")
    else
      match UnescapeOne(s)
      case None => None
      case Some((c, n)) =>
        match Unescape(s[n..])
        case None => None
        case Some(rest) => Some([c] + rest)
  }

  // ---------------------------------------------------------------- one name

  /** The position of the first quote that no backslash escapes. */
  function QuoteAt(s: string, escaped: bool): (q: Option<nat>)
    ensures q.Some? ==> q.value < |s|
  {
    if s == "" then None
    else if s[0] == '"' && !escaped then Some(0)
    else
      match QuoteAt(s[1..], s[0] == '\\' && !escaped)
      case None => None
      case Some(n) => Some(n + 1)
  }

  /** The length of the first word. */
  function WordLength(white: char -> bool, s: string): (n: nat)
    ensures n <= |s|
  {
    if s == "" || white(s[0]) then 0 else 1 + WordLength(white, s[1..])
  }

  /** The name at the start of a text, and where its token ends. */
  function NameToken(white: char -> bool, text: string): (r: Option<(string, nat)>)
    ensures r.Some? ==> 0 < r.value.1 <= |text|
  {
    if text != "" && text[0] == '"' then
      match QuoteAt(text[1..], false)
      case None => None
      case Some(n) =>
        match Unescape(text[1..1 + n])
        case None => None
        case Some(name) => Some((name, n + 2))
    else
      var n := WordLength(white, text);
      if n > 0 then Some((text[..n], n)) else None
  }

  method ReadName(white: char -> bool, text: string) returns (r: Option<(string, nat)>)
    ensures r == NameToken(white, text)
  {
    if text != "" && text[0] == '"' {
      var escaped, offset := false, 1;
      while offset < |text|
        invariant 1 <= offset <= |text|
        invariant QuoteAt(text[1..], false)
               == match QuoteAt(text[offset..], escaped) case None => None case Some(n) => Some(n + offset - 1)
      {
        var c := text[offset];
        assert text[offset..][1..] == text[offset + 1..];
        if c == '"' && !escaped {
          var content := Unescape(text[1..offset]);
          return if content.Some? then Some((content.value, offset + 1)) else None;
        }
        escaped := c == '\\' && !escaped;
        offset := offset + 1;
      }
      return None;
    } else {
      var end := 0;
      while end < |text| && !white(text[end])
        invariant end <= |text| && WordLength(white, text) == end + WordLength(white, text[end..])
      {
        assert text[end..][1..] == text[end + 1..];
        end := end + 1;
      }
      return if end > 0 then Some((text[..end], end)) else None;
    }
  }

  predicate NeedsQuotes(white: char -> bool, name: string) {
    name == "" || exists i :: 0 <= i < |name| && (white(name[i]) || name[i] in "\"\\`")
  }

  function EncodeName(white: char -> bool, name: string): string {
    if NeedsQuotes(white, name) then "\"" + Escape(name) + "\"" else name
  }

  // ---------------------------------------------------------------- alternatives

  function Trim(white: char -> bool, s: string): (t: string)
    ensures |t| <= |s| && (s != "" && white(s[0]) ==> |t| < |s|)
    ensures t != "" ==> !white(t[0])
  {
    if s != "" && white(s[0]) then Trim(white, s[1..]) else s
  }

  /** Where, in the text after a name, the next alternative starts. */
  function NextAlternative(white: char -> bool, rest: string): (n: Option<nat>)
    ensures n.Some? ==> 0 < n.value <= |rest|
  {
    if rest == "" || !white(rest[0]) then None
    else
      var next := Trim(white, rest);
      if next == "" || next[0] != '|' then None
      else if |next| > 1 && !white(next[1]) then None
      else Some(|rest| - |Trim(white, next[1..])|)
  }

  function TokenEnd(white: char -> bool, text: string): (n: nat)
    ensures n <= |text|
  {
    match NameToken(white, text) case None => |text| case Some((_, n)) => n
  }

  /** How the loop moves over a text: from where a name starts to its end, and on to the next name. */
  datatype Reader = Reader(size: nat, ends: nat -> nat, next: nat -> Option<nat>) {
    ghost predicate Valid() {
      && (forall start: nat :: start <= size ==> start <= ends(start) <= size)
      && (forall end: nat :: end <= size && next(end).Some? ==> end < next(end).value <= size)
    }
  }

  function TargetReader(white: char -> bool, text: string, alternatives: bool): (reader: Reader)
    ensures reader.Valid() && reader.size == |text|
  {
    Reader(|text|,
           (start: nat) => if start <= |text| then start + TokenEnd(white, text[start..]) else start,
           (end: nat) => if end <= |text| then NextStart(white, text, alternatives, end) else None)
  }

  /** Where the alternative after a name that ends at `end` starts. */
  function NextStart(white: char -> bool, text: string, alternatives: bool, end: nat): (n: Option<nat>)
    requires end <= |text|
    ensures n.Some? ==> end < n.value <= |text|
  {
    var next := if alternatives then NextAlternative(white, text[end..]) else None;
    if next.None? then None else Some(end + next.value)
  }

  /** The ranges of the names from `start` on. */
  function Tokens(reader: Reader, start: nat): seq<Range>
    requires start <= reader.size && reader.Valid()
    decreases reader.size - start, 1
  {
    [Range(start, reader.ends(start))] + TokensAfter(reader, reader.ends(start))
  }

  function TokensAfter(reader: Reader, end: nat): seq<Range>
    requires end <= reader.size && reader.Valid()
    decreases reader.size - end, 0
  {
    match reader.next(end)
    case None => []
    case Some(start) => Tokens(reader, start)
  }

  method TargetTokens(white: char -> bool, text: string, alternatives: bool) returns (tokens: seq<Range>)
    ensures tokens == Tokens(TargetReader(white, text, alternatives), 0)
  {
    tokens := TokenLoop(TargetReader(white, text, alternatives));
  }

  /** The loop, for any reader. */
  method TokenLoop(reader: Reader) returns (tokens: seq<Range>)
    requires reader.Valid()
    ensures tokens == Tokens(reader, 0)
  {
    tokens := [];
    var start := 0;
    while true
      invariant start <= reader.size
      invariant tokens + Tokens(reader, start) == Tokens(reader, 0)
      decreases reader.size - start
    {
      var end := reader.ends(start);
      Sequences.Reassociate(tokens, [Range(start, end)], TokensAfter(reader, end));
      tokens := tokens + [Range(start, end)];
      var next := reader.next(end);
      if next.None? {
        assert tokens + [] == tokens;
        break;
      }
      start := next.value;
    }
  }

  // ---------------------------------------------------------------- JSON strings, both ways

  lemma {:induction false} HexRoundTrip(n: nat)
    requires n < 16
    ensures HexValue(HexChar(n)) == Some(n) && HexChar(n) != '"' && HexChar(n) != '\\'
  {
  }

  lemma {:induction false} OneRoundTrip(c: char, rest: string)
    ensures UnescapeOne(EscapeChar(c) + rest) == Some((c, |EscapeChar(c)|))
    ensures (EscapeChar(c) + rest)[|EscapeChar(c)|..] == rest
  {
    var s := EscapeChar(c) + rest;
    if c < ' ' && |EscapeChar(c)| == 6 {
      HexRoundTrip(c as nat / 16);
      HexRoundTrip(c as nat % 16);
      assert s[2..][0] == '0' && s[2..][1] == '0';
      assert s[2..][2] == HexChar(c as nat / 16) && s[2..][3] == HexChar(c as nat % 16);
      assert HexFour(s[2..]) == Some(c as nat);
    }
  }

  /** Quoting and reading back gives the name. */
  lemma {:induction false} EscapeRoundTrip(name: string)
    ensures Unescape(Escape(name)) == Some(name)
  {
    if name != "" {
      OneRoundTrip(name[0], Escape(name[1..]));
      EscapeRoundTrip(name[1..]);
      assert [name[0]] + name[1..] == name;
    }
  }

  /** The scan for the closing quote passes over every escaped character. */
  lemma {:induction false} QuoteAfterChar(c: char, rest: string)
    ensures QuoteAt(EscapeChar(c) + rest, false) == Shifted(|EscapeChar(c)|, QuoteAt(rest, false))
  {
    EscapeShape(c);
    var e := EscapeChar(c);
    if |e| == 1 {
      QuoteAfterPlain(e, rest, false);
    } else {
      QuoteAfterEscape(e, rest);
    }
  }

  /** An escape is the character itself, or a backslash, any character, and hexadecimal digits or nothing. */
  lemma {:induction false} EscapeShape(c: char)
    ensures var e := EscapeChar(c);
            if |e| == 1 then Plain(e) else |e| >= 2 && e[0] == '\\' && Plain(e[2..])
  {
    if |EscapeChar(c)| == 6 {
      HexRoundTrip(c as nat / 16);
      HexRoundTrip(c as nat % 16);
    }
  }

  predicate Plain(part: string) {
    forall i :: 0 <= i < |part| ==> part[i] != '"' && part[i] != '\\'
  }

  lemma {:induction false} QuoteAfterEscape(e: string, rest: string)
    requires |e| >= 2 && e[0] == '\\' && Plain(e[2..])
    ensures QuoteAt(e + rest, false) == Shifted(|e|, QuoteAt(rest, false))
  {
    var behind := e[2..] + rest;
    assert (e + rest)[1..] == e[1..2] + behind;
    QuoteAfterPlain(e[1..2], behind, true);
    QuoteAfterPlain(e[2..], rest, false);
  }

  /** Characters that are neither quote nor backslash, or the one after a backslash, do not end the scan. */
  lemma {:induction false} QuoteAfterPlain(part: string, rest: string, escaped: bool)
    requires escaped ==> |part| == 1
    requires !escaped ==> Plain(part)
    ensures QuoteAt(part + rest, escaped) == Shifted(|part|, QuoteAt(rest, false))
    decreases |part|
  {
    if part == "" {
      assert part + rest == rest;
    } else {
      assert (part + rest)[1..] == part[1..] + rest;
      QuoteAfterPlain(part[1..], rest, false);
    }
  }

  function Shifted(n: nat, q: Option<nat>): Option<nat> {
    if q.None? then None else Some(n + q.value)
  }

  lemma {:induction false} QuoteAfterName(name: string, rest: string)
    ensures QuoteAt(Escape(name) + rest, false) == Shifted(|Escape(name)|, QuoteAt(rest, false))
  {
    if name == "" {
      assert Escape(name) + rest == rest;
    } else {
      QuoteAfterName(name[1..], rest);
      QuoteAfterChar(name[0], Escape(name[1..]) + rest);
      QuoteAfterBoth(EscapeChar(name[0]), Escape(name[1..]), rest);
    }
  }

  lemma {:induction false} QuoteAfterBoth(a: string, b: string, rest: string)
    requires QuoteAt(a + (b + rest), false) == Shifted(|a|, QuoteAt(b + rest, false))
    requires QuoteAt(b + rest, false) == Shifted(|b|, QuoteAt(rest, false))
    ensures QuoteAt((a + b) + rest, false) == Shifted(|a + b|, QuoteAt(rest, false))
  {
    Sequences.Reassociate(a, b, rest);
  }

  // ---------------------------------------------------------------- one name, both ways

  /** What the proofs need of the white space class: a blank is white, a quote and a bar are not. */
  predicate Sane(white: char -> bool) {
    white(' ') && !white('"') && !white('|')
  }

  predicate EndsName(white: char -> bool, rest: string) {
    rest == "" || white(rest[0])
  }

  lemma {:induction false} WordIs(white: char -> bool, name: string, rest: string)
    requires forall i :: 0 <= i < |name| ==> !white(name[i])
    requires EndsName(white, rest)
    ensures WordLength(white, name + rest) == |name|
  {
    if name == "" {
      assert name + rest == rest;
    } else {
      assert (name + rest)[1..] == name[1..] + rest;
      WordIs(white, name[1..], rest);
    }
  }

  lemma {:induction false} QuotedReads(white: char -> bool, content: string, name: string, rest: string)
    requires QuoteAt(content + ("\"" + rest), false) == Some(|content|) && Unescape(content) == Some(name)
    ensures NameToken(white, ("\"" + content + "\"") + rest) == Some((name, |content| + 2))
  {
    var text := ("\"" + content + "\"") + rest;
    assert text[1..] == content + ("\"" + rest);
    assert text[1..1 + |content|] == content;
  }

  lemma {:induction false} BareReads(white: char -> bool, name: string, rest: string)
    requires name != "" && name[0] != '"' && WordLength(white, name + rest) == |name|
    ensures NameToken(white, name + rest) == Some((name, |name|))
  {
    assert (name + rest)[..|name|] == name;
  }

  lemma {:induction false} QuotedNameReads(white: char -> bool, name: string, rest: string)
    ensures NameToken(white, ("\"" + Escape(name) + "\"") + rest) == Some((name, |Escape(name)| + 2))
  {
    QuoteAfterName(name, "\"" + rest);
    EscapeRoundTrip(name);
    QuotedReads(white, Escape(name), name, rest);
  }

  lemma {:induction false} BareNameReads(white: char -> bool, name: string, rest: string)
    requires EndsName(white, rest) && !NeedsQuotes(white, name)
    ensures NameToken(white, name + rest) == Some((name, |name|)) && name != "" && !white(name[0])
  {
    assert name[0] !in "\"\\`" && !white(name[0]);
    WordIs(white, name, rest);
    BareReads(white, name, rest);
  }

  /** A printed name is read back, whatever follows it after white space. */
  lemma {:induction false} NameRoundTrip(white: char -> bool, name: string, rest: string)
    requires Sane(white) && EndsName(white, rest)
    ensures NameToken(white, EncodeName(white, name) + rest) == Some((name, |EncodeName(white, name)|))
    ensures EncodeName(white, name) != "" && !white(EncodeName(white, name)[0])
  {
    if NeedsQuotes(white, name) {
      QuotedNameReads(white, name, rest);
    } else {
      BareNameReads(white, name, rest);
    }
  }

  // ---------------------------------------------------------------- lists of names, both ways

  function Encoded(white: char -> bool, names: seq<string>): (codes: seq<string>)
    ensures |codes| == |names|
    ensures forall i :: 0 <= i < |names| ==> codes[i] == EncodeName(white, names[i])
  {
    if names == [] then [] else [EncodeName(white, names[0])] + Encoded(white, names[1..])
  }

  function Joined(codes: seq<string>): string
    requires codes != []
  {
    if |codes| == 1 then codes[0] else codes[0] + (" | " + Joined(codes[1..]))
  }

  /** Where the joined codes stand in a text that has them from `start` on. */
  function CodeRanges(codes: seq<string>, start: nat): (ranges: seq<Range>)
    requires codes != []
    ensures |ranges| == |codes|
  {
    var end := start + |codes[0]|;
    if |codes| == 1 then [Range(start, end)] else [Range(start, end)] + CodeRanges(codes[1..], end + 3)
  }

  /** The reader goes from each range to the next. */
  ghost predicate Follows(reader: Reader, ranges: seq<Range>) {
    forall i :: 0 <= i < |ranges| ==>
      && ranges[i].start <= reader.size && reader.ends(ranges[i].start) == ranges[i].end
      && (i + 1 < |ranges| ==> reader.next(ranges[i].end) == Some(ranges[i + 1].start))
  }

  lemma {:induction false} TokensAreRanges(reader: Reader, ranges: seq<Range>)
    requires reader.Valid() && ranges != [] && Follows(reader, ranges)
    ensures ranges[|ranges| - 1].end <= reader.size
    ensures Tokens(reader, ranges[0].start) == ranges + TokensAfter(reader, ranges[|ranges| - 1].end)
    decreases |ranges|
  {
    if |ranges| == 1 {
      assert ranges == [Range(ranges[0].start, ranges[0].end)];
    } else {
      TokensAreRanges(reader, ranges[1..]);
      assert ranges == [Range(ranges[0].start, ranges[0].end)] + ranges[1..];
      Sequences.Reassociate([ranges[0]], ranges[1..], TokensAfter(reader, ranges[|ranges| - 1].end));
    }
  }

  lemma {:induction false} SuffixOf(text: string, start: nat, a: string, b: string)
    requires start <= |text| && text[start..] == a + b
    ensures start + |a| <= |text| && text[start + |a|..] == b && text[start..start + |a|] == a
  {
    assert text[start..][|a|..] == text[start + |a|..];
    assert text[start..start + |a|] == text[start..][..|a|];
  }

  lemma {:induction false} BarLeadsOn(white: char -> bool, next: string)
    requires Sane(white) && next != "" && !white(next[0])
    ensures NextAlternative(white, " | " + next) == Some(3)
  {
    var rest := " | " + next;
    assert rest[1..] == "| " + next && rest[1..][1..] == " " + next && (" " + next)[1..] == next;
    assert Trim(white, rest) == rest[1..];
    assert Trim(white, " " + next) == next;
  }

  /** The text of several codes begins with the first, a bar, and the text of the others. */
  lemma {:induction false} JoinedSplits(codes: seq<string>, text: string, start: nat, rest: string)
    requires |codes| > 1 && start <= |text| && text[start..] == Joined(codes) + rest
    ensures var end := start + |codes[0]|;
            && end + 3 <= |text| && text[start..end] == codes[0]
            && text[start..] == codes[0] + (" | " + (Joined(codes[1..]) + rest))
            && text[end..] == " | " + (Joined(codes[1..]) + rest)
            && text[end + 3..] == Joined(codes[1..]) + rest
  {
    Sequences.Reassociate(codes[0], " | " + Joined(codes[1..]), rest);
    Sequences.Reassociate(" | ", Joined(codes[1..]), rest);
    SuffixOf(text, start, codes[0], " | " + (Joined(codes[1..]) + rest));
    SuffixOf(text, start + |codes[0]|, " | ", Joined(codes[1..]) + rest);
  }

  /** What stands behind the code `i` of a list. */
  function Behind(codes: seq<string>, i: nat, rest: string): string
    requires i < |codes|
  {
    if i + 1 == |codes| then rest else " | " + (Joined(codes[i + 1..]) + rest)
  }

  /** What stands at the range of one code. */
  lemma {:induction false} CodeAt(text: string, start: nat, codes: seq<string>, rest: string, i: nat)
    requires i < |codes| && start <= |text| && text[start..] == Joined(codes) + rest
    ensures var ranges := CodeRanges(codes, start);
            && ranges[i].start <= |text| && ranges[i].end == ranges[i].start + |codes[i]|
            && text[ranges[i].start..] == codes[i] + Behind(codes, i, rest)
            && (i + 1 < |codes| ==> ranges[i + 1].start == ranges[i].end + 3)
    decreases i
  {
    if |codes| > 1 {
      JoinedSplits(codes, text, start, rest);
      if i > 0 {
        CodeAt(text, start + |codes[0]| + 3, codes[1..], rest, i - 1);
        assert codes[1..][i..] == codes[i + 1..];
      }
    }
  }

  lemma {:induction false} RangesSpan(codes: seq<string>, start: nat)
    requires codes != []
    ensures var ranges := CodeRanges(codes, start);
            ranges[0].start == start && ranges[|ranges| - 1].end == start + |Joined(codes)|
  {
    if |codes| > 1 {
      RangesSpan(codes[1..], start + |codes[0]| + 3);
    }
  }

  lemma {:induction false} JoinedStarts(white: char -> bool, names: seq<string>, rest: string)
    requires Sane(white) && names != []
    ensures var text := Joined(Encoded(white, names)) + rest; text != "" && !white(text[0])
  {
    NameRoundTrip(white, names[0], "");
  }

  /** What the reader sees at a printed name. */
  lemma {:induction false} ReaderSeesName(white: char -> bool, text: string, start: nat, name: string, rest: string)
    requires Sane(white) && EndsName(white, rest)
    requires start <= |text| && text[start..] == EncodeName(white, name) + rest
    ensures TargetReader(white, text, true).ends(start) == start + |EncodeName(white, name)|
  {
    NameRoundTrip(white, name, rest);
  }

  /** What it sees behind one, before another. */
  lemma {:induction false} ReaderSeesBar(white: char -> bool, text: string, end: nat, names: seq<string>, rest: string)
    requires Sane(white) && names != []
    requires end <= |text| && text[end..] == " | " + (Joined(Encoded(white, names)) + rest)
    ensures TargetReader(white, text, true).next(end) == Some(end + 3)
  {
    JoinedStarts(white, names, rest);
    BarLeadsOn(white, Joined(Encoded(white, names)) + rest);
  }

  lemma {:induction false} EncodedFrom(white: char -> bool, names: seq<string>, i: nat)
    requires i <= |names|
    ensures Encoded(white, names)[i..] == Encoded(white, names[i..])
  {
  }

  /** At each printed name the reader sees the end of that name. */
  lemma {:induction false} ReaderEndsAt(
    white: char -> bool, text: string, names: seq<string>, codes: seq<string>, rest: string, i: nat, r: Range)
    requires Sane(white) && EndsName(white, rest) && i < |names| && codes == Encoded(white, names)
    requires r.start <= |text| && r.end == r.start + |codes[i]|
    requires text[r.start..] == codes[i] + Behind(codes, i, rest)
    ensures TargetReader(white, text, true).ends(r.start) == r.end
  {
    ReaderSeesName(white, text, r.start, names[i], Behind(codes, i, rest));
  }

  lemma {:induction false} BarBehindCode(
    white: char -> bool, text: string, names: seq<string>, codes: seq<string>, rest: string, i: nat,
    start: nat, end: nat, tail: seq<string>)
    requires i + 1 < |names| && codes == Encoded(white, names) && tail == names[i + 1..]
    requires start <= |text| && end == start + |codes[i]|
    requires text[start..] == codes[i] + Behind(codes, i, rest)
    ensures end <= |text| && text[end..] == " | " + (Joined(Encoded(white, tail)) + rest)
  {
    EncodedFrom(white, names, i + 1);
    SuffixOf(text, start, codes[i], Behind(codes, i, rest));
  }

  /** And behind it the start of the next. */
  lemma {:induction false} ReaderBehindCode(
    white: char -> bool, text: string, names: seq<string>, codes: seq<string>, rest: string, i: nat,
    start: nat, end: nat, tail: seq<string>)
    requires Sane(white) && i + 1 < |names| && codes == Encoded(white, names) && tail == names[i + 1..]
    requires start <= |text| && end == start + |codes[i]|
    requires text[start..] == codes[i] + Behind(codes, i, rest)
    ensures TargetReader(white, text, true).next(end) == Some(end + 3)
  {
    BarBehindCode(white, text, names, codes, rest, i, start, end, tail);
    ReaderSeesBar(white, text, end, tail, rest);
  }

  /** Where the codes stand in the text. */
  lemma {:induction false} CodeStands(text: string, codes: seq<string>, rest: string, i: nat, r: Range)
    requires i < |codes| && text == Joined(codes) + rest && r == CodeRanges(codes, 0)[i]
    ensures r.start <= |text| && r.end == r.start + |codes[i]| && text[r.start..] == codes[i] + Behind(codes, i, rest)
    ensures i + 1 < |codes| ==> CodeRanges(codes, 0)[i + 1].start == r.end + 3
  {
    assert text[0..] == text;
    CodeAt(text, 0, codes, rest, i);
  }

  lemma {:induction false} ReaderEndsThere(
    white: char -> bool, text: string, names: seq<string>, codes: seq<string>, rest: string, i: nat, r: Range)
    requires Sane(white) && EndsName(white, rest) && i < |names| && codes == Encoded(white, names)
    requires text == Joined(codes) + rest && r == CodeRanges(codes, 0)[i]
    ensures r.start <= |text| && TargetReader(white, text, true).ends(r.start) == r.end
  {
    CodeStands(text, codes, rest, i, r);
    ReaderEndsAt(white, text, names, codes, rest, i, r);
  }

  /** So the reader goes from one printed name to the next. */
  lemma {:induction false} ReaderGoesOn(
    white: char -> bool, text: string, names: seq<string>, codes: seq<string>, rest: string, i: nat,
    r: Range, next: nat)
    requires Sane(white) && i + 1 < |names| && codes == Encoded(white, names)
    requires text == Joined(codes) + rest && r == CodeRanges(codes, 0)[i] && next == CodeRanges(codes, 0)[i + 1].start
    ensures TargetReader(white, text, true).next(r.end) == Some(next)
  {
    CodeStands(text, codes, rest, i, r);
    ReaderBehindCode(white, text, names, codes, rest, i, r.start, r.end, names[i + 1..]);
  }

  lemma {:induction false} ReaderFollows(
    white: char -> bool, text: string, names: seq<string>, codes: seq<string>, rest: string, ranges: seq<Range>)
    requires Sane(white) && EndsName(white, rest) && names != [] && codes == Encoded(white, names)
    requires text == Joined(codes) + rest && ranges == CodeRanges(codes, 0)
    ensures Follows(TargetReader(white, text, true), ranges)
  {
    forall i | 0 <= i < |ranges|
      ensures ranges[i].start <= |text| && TargetReader(white, text, true).ends(ranges[i].start) == ranges[i].end
      ensures i + 1 < |ranges| ==>
                TargetReader(white, text, true).next(ranges[i].end) == Some(ranges[i + 1].start)
    {
      ReaderEndsThere(white, text, names, codes, rest, i, ranges[i]);
      if i + 1 < |ranges| {
        ReaderGoesOn(white, text, names, codes, rest, i, ranges[i], ranges[i + 1].start);
      }
    }
  }

  /** Where the printed names end, the reader sees whether the text behind goes on. */
  lemma {:induction false} ReaderAtEnd(white: char -> bool, text: string, printed: string, rest: string)
    requires text == printed + rest
    ensures TargetReader(white, text, true).next(|printed|).None? <==> NextAlternative(white, rest).None?
  {
    assert text[|printed|..] == rest;
  }

  /**
    Printing any list of names and tokenising it with text behind it gives exactly those names' ranges if
    and only if the text behind does not go on with a standalone bar.
  */
  lemma {:induction false} PrintedNamesTokenise(white: char -> bool, names: seq<string>, rest: string)
    requires Sane(white) && EndsName(white, rest) && names != []
    ensures Tokens(TargetReader(white, Joined(Encoded(white, names)) + rest, true), 0)
         == CodeRanges(Encoded(white, names), 0)
       <==> NextAlternative(white, rest) == None
  {
    var codes := Encoded(white, names);
    var text, ranges := Joined(codes) + rest, CodeRanges(codes, 0);
    ReaderFollows(white, text, names, codes, rest, ranges);
    ReaderAtEnd(white, text, Joined(codes), rest);
    RangesSpan(codes, 0);
    RangesAreAll(TargetReader(white, text, true), ranges);
  }

  /** The tokens are the ranges alone exactly when nothing follows the last one. */
  lemma {:induction false} RangesAreAll(reader: Reader, ranges: seq<Range>)
    requires reader.Valid() && ranges != [] && Follows(reader, ranges) && ranges[0].start == 0
    ensures ranges[|ranges| - 1].end <= reader.size
    ensures Tokens(reader, 0) == ranges <==> reader.next(ranges[|ranges| - 1].end).None?
  {
    TokensAreRanges(reader, ranges);
    var more := TokensAfter(reader, ranges[|ranges| - 1].end);
    assert |ranges + more| == |ranges| + |more|;
  }

  /** And the text of each range, read again, gives the name and nothing else. */
  lemma {:induction false} PrintedNamesReadBack(white: char -> bool, names: seq<string>, rest: string, i: nat)
    requires Sane(white) && EndsName(white, rest) && i < |names|
    ensures var codes := Encoded(white, names);
            var text, r := Joined(codes) + rest, CodeRanges(codes, 0)[i];
            r.start <= r.end <= |text| && NameToken(white, text[r.start..r.end]) == Some((names[i], r.end - r.start))
  {
    var codes := Encoded(white, names);
    CodeTextAt(Joined(codes) + rest, codes, rest, i, CodeRanges(codes, 0)[i]);
    NameReadsAlone(white, names[i], EncodeName(white, names[i]));
  }

  lemma {:induction false} CodeTextAt(text: string, codes: seq<string>, rest: string, i: nat, r: Range)
    requires i < |codes| && text == Joined(codes) + rest && r == CodeRanges(codes, 0)[i]
    ensures r.start <= r.end <= |text| && r.end == r.start + |codes[i]| && text[r.start..r.end] == codes[i]
  {
    CodeStands(text, codes, rest, i, r);
    CodeIsText(text, r.start, r.end, codes[i], Behind(codes, i, rest));
  }

  lemma {:induction false} CodeIsText(text: string, start: nat, end: nat, code: string, behind: string)
    requires start <= |text| && text[start..] == code + behind && end == start + |code|
    ensures end <= |text| && text[start..end] == code
  {
    SuffixOf(text, start, code, behind);
  }

  lemma {:induction false} NameReadsAlone(white: char -> bool, name: string, code: string)
    requires Sane(white) && code == EncodeName(white, name)
    ensures NameToken(white, code) == Some((name, |code|))
  {
    NameRoundTrip(white, name, "");
    assert code + "" == code;
  }
}
