/**
  Deciding whether the end of a prefix is a code position. `IsCodePosition` is the scanner of the snippet
  editor; the reference is a grammar of well-nested code, whose printed form says for every offset whether
  it lies in code or inside a literal or comment.
*/
module LexicalPosition {
  import opened Sequences

  // ---------------------------------------------------------------- the scanner

  datatype Mode = InCode | SingleQuoted | DoubleQuoted | InTemplate | LineComment | BlockComment

  /** `depths`: for each enclosing template expression, the braces open inside it. */
  datatype State = State(mode: Mode, escaped: bool, depths: seq<nat>)

  const START: State := State(InCode, false, [])

  predicate Peek(text: string, i: nat, c: char) {
    i + 1 < |text| && text[i + 1] == c
  }

  function TopPlusOne(depths: seq<nat>): seq<nat> {
    if depths == [] then [] else depths[..|depths| - 1] + [depths[|depths| - 1] + 1]
  }

  function CodeStep(text: string, i: nat, st: State): (State, nat)
    requires i < |text|
  {
    var c, top := text[i], |st.depths| - 1;
    if c == '\'' then (st.(mode := SingleQuoted, escaped := false), 1)
    else if c == '"' then (st.(mode := DoubleQuoted, escaped := false), 1)
    else if c == '`' then (st.(mode := InTemplate, escaped := false), 1)
    else if c == '/' && Peek(text, i, '/') then (st.(mode := LineComment), 2)
    else if c == '/' && Peek(text, i, '*') then (st.(mode := BlockComment), 2)
    else if c == '{' then (st.(depths := TopPlusOne(st.depths)), 1)
    else if c == '}' && top >= 0 && st.depths[top] == 0 then (st.(mode := InTemplate, depths := st.depths[..top]), 1)
    else if c == '}' && top >= 0 then (st.(depths := st.depths[..top] + [st.depths[top] - 1]), 1)
    else (st, 1)
  }

  function QuoteStep(c: char, quote: char, st: State): State {
    if st.escaped then st.(escaped := false)
    else if c == '\\' then st.(escaped := true)
    else if c == quote then st.(mode := InCode)
    else st
  }

  function TemplateStep(text: string, i: nat, st: State): (State, nat)
    requires i < |text|
  {
    var c := text[i];
    if st.escaped then (st.(escaped := false), 1)
    else if c == '\\' then (st.(escaped := true), 1)
    else if c == '`' then (st.(mode := InCode), 1)
    else if c == '$' && Peek(text, i, '{') then (st.(mode := InCode, depths := st.depths + [0]), 2)
    else (st, 1)
  }

  /** One turn of the loop: the new state and the number of characters taken. */
  function Step(text: string, i: nat, st: State): (r: (State, nat))
    requires i < |text|
    ensures 1 <= r.1 && i + r.1 <= |text|
  {
    match st.mode
    case InCode => CodeStep(text, i, st)
    case SingleQuoted => (QuoteStep(text[i], '\'', st), 1)
    case DoubleQuoted => (QuoteStep(text[i], '"', st), 1)
    case InTemplate => TemplateStep(text, i, st)
    case LineComment => (if text[i] == '\n' then st.(mode := InCode) else st, 1)
    case BlockComment => if text[i] == '*' && Peek(text, i, '/') then (st.(mode := InCode), 2) else (st, 1)
  }

  function Scan(text: string, i: nat, st: State): State
    requires i <= |text|
    decreases |text| - i
  {
    if i == |text| then st
    else
      var (st', taken) := Step(text, i, st);
      Scan(text, i + taken, st')
  }

  method IsCodePosition(prefix: string) returns (code: bool)
    ensures code <==> Scan(prefix, 0, START).mode == InCode
  {
    var state, i := START, 0;
    while i < |prefix|
      invariant i <= |prefix|
      invariant Scan(prefix, i, state) == Scan(prefix, 0, START)
      decreases |prefix| - i
    {
      var (next, taken) := Step(prefix, i, state);
      state, i := next, i + taken;
    }
    code := state.mode == InCode;
  }

  // ---------------------------------------------------------------- well-nested code

  datatype Code =
    | End
    | Plain(c: char, next: Code)
    | Quoted(quote: char, body: string, next: Code)
    | Line(body: string, next: Code)
    | Block(body: string, next: Code)
    | Braces(inner: Code, next: Code)
    | Loose(brace: char, next: Code)            // a brace without its partner, outside all templates
    | Template(parts: Parts, next: Code)

  /** The inside of a template literal, up to and including its closing backtick. */
  datatype Parts = Close | Raw(c: char, more: Parts) | Escape(c: char, more: Parts) | Hole(inner: Code, more: Parts)

  function Print(code: Code): string {
    match code
    case End => []
    case Plain(c, next) => [c] + Print(next)
    case Quoted(quote, body, next) => [quote] + (body + ([quote] + Print(next)))
    case Line(body, next) => "//" + (body + ("\n" + Print(next)))
    case Block(body, next) => "/*" + (body + ("*/" + Print(next)))
    case Braces(inner, next) => "{" + (Print(inner) + ("}" + Print(next)))
    case Loose(brace, next) => [brace] + Print(next)
    case Template(parts, next) => "`" + (PrintParts(parts) + Print(next))
  }

  function PrintParts(parts: Parts): (r: string)
    ensures r != []
  {
    match parts
    case Close => "`"
    case Raw(c, more) => [c] + PrintParts(more)
    case Escape(c, more) => ['\\', c] + PrintParts(more)
    case Hole(inner, more) => "${" + (Print(inner) + ("}" + PrintParts(more)))
  }

  /** Every quote in the body is escaped, and its last backslash escapes something. */
  predicate QuotedBody(body: string, quote: char) {
    if body == [] then true
    else if body[0] == '\\' then |body| >= 2 && QuotedBody(body[2..], quote)
    else body[0] != quote && QuotedBody(body[1..], quote)
  }

  predicate NoCommentEnd(body: string) {
    forall i :: 0 <= i < |body| - 1 ==> !(body[i] == '*' && body[i + 1] == '/')
  }

  /** A slash in code is a division: what is printed after it does not make it a comment. */
  predicate DividesBefore(printed: string, follow: string) {
    var rest := printed + follow;
    rest == [] || (rest[0] != '/' && rest[0] != '*')
  }

  /** `follow` is at most one character: what stands right after the printed code. */
  predicate WellFormed(code: Code, follow: string) {
    match code
    case End => true
    case Plain(c, next) =>
      && c !in {'\'', '"', '`', '{', '}'}
      && (c == '/' ==> DividesBefore(Print(next), follow))
      && WellFormed(next, follow)
    case Quoted(quote, body, next) => (quote == '\'' || quote == '"') && QuotedBody(body, quote) && WellFormed(next, follow)
    case Line(body, next) => '\n' !in body && WellFormed(next, follow)
    case Block(body, next) => NoCommentEnd(body) && WellFormed(next, follow)
    case Braces(inner, next) => WellFormed(inner, "}") && WellFormed(next, follow)
    case Loose(brace, next) => (brace == '{' || brace == '}') && WellFormed(next, follow)
    case Template(parts, next) => WellFormedParts(parts) && WellFormed(next, follow)
  }

  /** Every brace has its partner. */
  predicate Balanced(code: Code) {
    match code
    case End => true
    case Loose(_, _) => false
    case Braces(inner, next) => Balanced(inner) && Balanced(next)
    case _ => Balanced(code.next)
  }

  predicate WellFormedParts(parts: Parts) {
    match parts
    case Close => true
    case Raw(c, more) => c != '`' && c != '\\' && (c == '$' ==> PrintParts(more)[0] != '{') && WellFormedParts(more)
    case Escape(_, more) => WellFormedParts(more)
    case Hole(inner, more) => WellFormed(inner, "}") && Balanced(inner) && WellFormedParts(more)
  }

  /** Whether offset `n` of the printed code is in code; an opening delimiter counts once it is complete. */
  predicate CodeAt(code: Code, n: nat) {
    match code
    case End => true
    case Plain(_, next) => n == 0 || CodeAt(next, n - 1)
    case Quoted(_, body, next) => n == 0 || (n >= |body| + 2 && CodeAt(next, n - |body| - 2))
    case Line(body, next) => n <= 1 || (n >= |body| + 3 && CodeAt(next, n - |body| - 3))
    case Block(body, next) => n <= 1 || (n >= |body| + 4 && CodeAt(next, n - |body| - 4))
    case Braces(inner, next) =>
      var size := |Print(inner)|;
      n == 0 || if n - 1 <= size then CodeAt(inner, n - 1) else CodeAt(next, n - 2 - size)
    case Loose(_, next) => n == 0 || CodeAt(next, n - 1)
    case Template(parts, next) =>
      var size := |PrintParts(parts)|;
      n == 0 || if n - 1 < size then CodeAtParts(parts, n - 1) else CodeAt(next, n - 1 - size)
  }

  predicate CodeAtParts(parts: Parts, n: nat) {
    match parts
    case Close => false
    case Raw(_, more) => n >= 1 && CodeAtParts(more, n - 1)
    case Escape(_, more) => n >= 2 && CodeAtParts(more, n - 2)
    case Hole(inner, more) =>
      var size := |Print(inner)|;
      n >= 2 && if n - 2 <= size then CodeAt(inner, n - 2) else CodeAtParts(more, n - 3 - size)
  }

  // ---------------------------------------------------------------- whole literals and comments

  function QuoteMode(quote: char): Mode {
    if quote == '\'' then SingleQuoted else DoubleQuoted
  }

  /** A quoted body leaves the scanner where it was. */
  lemma {:induction false} ScanBody(text: string, i: nat, body: string, quote: char, depths: seq<nat>)
    requires (quote == '\'' || quote == '"') && QuotedBody(body, quote) && HoldsAt(text, i, body)
    ensures Scan(text, i, State(QuoteMode(quote), false, depths)) == Scan(text, i + |body|, State(QuoteMode(quote), false, depths))
    decreases |body|
  {
    if body != [] {
      assert text[i + 0] == body[0];
      var k := if body[0] == '\\' then 2 else 1;
      if k == 2 {
        assert text[i + 1] == body[1];
        assert Scan(text, i, State(QuoteMode(quote), false, depths)) == Scan(text, i + 1, State(QuoteMode(quote), true, depths));
        assert Scan(text, i + 1, State(QuoteMode(quote), true, depths)) == Scan(text, i + 2, State(QuoteMode(quote), false, depths));
      }
      ScanBody(text, i + k, body[k..], quote, depths);
    }
  }

  /** A line comment without a line break leaves the scanner where it was. */
  lemma {:induction false} ScanLine(text: string, i: nat, body: string, depths: seq<nat>)
    requires '\n' !in body && HoldsAt(text, i, body)
    ensures Scan(text, i, State(LineComment, false, depths)) == Scan(text, i + |body|, State(LineComment, false, depths))
    decreases |body|
  {
    if body != [] {
      assert text[i + 0] == body[0] && body[0] in body;
      ScanLine(text, i + 1, body[1..], depths);
    }
  }

  /** So does a block comment body, as long as no end marker starts in it. */
  lemma {:induction false} ScanBlock(text: string, i: nat, body: string, depths: seq<nat>)
    requires NoCommentEnd(body) && HoldsAt(text, i, body)
    requires body != [] && body[|body| - 1] == '*' ==> !Peek(text, i + |body| - 1, '/')
    ensures Scan(text, i, State(BlockComment, false, depths)) == Scan(text, i + |body|, State(BlockComment, false, depths))
    decreases |body|
  {
    if body != [] {
      assert text[i + 0] == body[0];
      if |body| > 1 { assert text[i + 1] == body[1]; }
      assert NoCommentEnd(body[1..]) by {
        forall k | 0 <= k < |body[1..]| - 1 ensures !(body[1..][k] == '*' && body[1..][k + 1] == '/') {
          assert !(body[k + 1] == '*' && body[k + 2] == '/');
        }
      }
      ScanBlock(text, i + 1, body[1..], depths);
    }
  }

  // ---------------------------------------------------------------- whole code

  /** The text ends at `i` or goes on with `follow`. */
  predicate Follows(text: string, i: nat, follow: string) {
    i == |text| || (i < |text| && follow != [] && text[i] == follow[0])
  }

  lemma {:induction false} PlainStep(text: string, i: nat, c: char, printed: string, follow: string, depths: seq<nat>)
    requires c !in {'\'', '"', '`', '{', '}'} && (c == '/' ==> DividesBefore(printed, follow))
    requires HoldsAt(text, i, [c] + printed) && Follows(text, i + 1 + |printed|, follow)
    ensures i < |text| && Step(text, i, State(InCode, false, depths)) == (State(InCode, false, depths), 1)
  {
    var all := [c] + printed;
    assert text[i + 0] == all[0] == c;
    if printed != [] {
      assert text[i + 1] == all[1] == printed[0] == (printed + follow)[0];
    } else {
      assert printed + follow == follow;
    }
  }

  /** Opening a brace and closing it again leaves the depths as they were. */
  lemma {:induction false} CloseBrace(text: string, i: nat, depths: seq<nat>)
    requires i < |text| && text[i] == '}'
    ensures Step(text, i, State(InCode, false, TopPlusOne(depths))) == (State(InCode, false, depths), 1)
  {
    if depths != [] {
      var top := |depths| - 1;
      assert TopPlusOne(depths)[..top] + [depths[top]] == depths;
    }
  }

  lemma {:induction false} CloseHole(text: string, i: nat, depths: seq<nat>)
    requires i < |text| && text[i] == '}'
    ensures Step(text, i, State(InCode, false, depths + [0])) == (State(InTemplate, false, depths), 1)
  {
    assert (depths + [0])[..|depths|] == depths;
  }

  lemma {:induction false} ScanQuoted(text: string, i: nat, quote: char, body: string, depths: seq<nat>)
    requires (quote == '\'' || quote == '"') && QuotedBody(body, quote)
    requires HoldsAt(text, i, [quote]) && HoldsAt(text, i + 1, body) && HoldsAt(text, i + 1 + |body|, [quote])
    ensures Scan(text, i, State(InCode, false, depths)) == Scan(text, i + |body| + 2, State(InCode, false, depths))
  {
    assert text[i + 0] == [quote][0] && text[i + 1 + |body| + 0] == [quote][0];
    ScanBody(text, i + 1, body, quote, depths);
  }

  lemma {:induction false} ScanLineComment(text: string, i: nat, body: string, depths: seq<nat>)
    requires '\n' !in body
    requires HoldsAt(text, i, "//") && HoldsAt(text, i + 2, body) && HoldsAt(text, i + 2 + |body|, "\n")
    ensures Scan(text, i, State(InCode, false, depths)) == Scan(text, i + |body| + 3, State(InCode, false, depths))
  {
    assert text[i + 0] == "//"[0] && text[i + 1] == "//"[1] && text[i + 2 + |body| + 0] == "\n"[0];
    ScanLine(text, i + 2, body, depths);
  }

  lemma {:induction false} ScanBlockComment(text: string, i: nat, body: string, depths: seq<nat>)
    requires NoCommentEnd(body)
    requires HoldsAt(text, i, "/*") && HoldsAt(text, i + 2, body) && HoldsAt(text, i + 2 + |body|, "*/")
    ensures Scan(text, i, State(InCode, false, depths)) == Scan(text, i + |body| + 4, State(InCode, false, depths))
  {
    var end := i + 2 + |body|;
    assert text[i + 0] == "/*"[0] && text[i + 1] == "/*"[1];
    assert text[end + 0] == "*/"[0] && text[end + 1] == "*/"[1];
    ScanBlock(text, i + 2, body, depths);
  }

  /** From an opening brace past its closing one, when the code between comes back to code. */
  lemma {:induction false} ScanBraces(text: string, i: nat, j: nat, depths: seq<nat>)
    requires i < j < |text| && text[i] == '{' && text[j] == '}'
    requires Scan(text, i + 1, State(InCode, false, TopPlusOne(depths))) == Scan(text, j, State(InCode, false, TopPlusOne(depths)))
    ensures Scan(text, i, State(InCode, false, depths)) == Scan(text, j + 1, State(InCode, false, depths))
  {
    CloseBrace(text, j, depths);
  }

  /** From the opening of a template expression past its closing brace. */
  lemma {:induction false} ScanHole(text: string, i: nat, j: nat, depths: seq<nat>)
    requires i + 1 < j < |text| && text[i] == '$' && text[i + 1] == '{' && text[j] == '}'
    requires Scan(text, i + 2, State(InCode, false, depths + [0])) == Scan(text, j, State(InCode, false, depths + [0]))
    ensures Scan(text, i, State(InTemplate, false, depths)) == Scan(text, j + 1, State(InTemplate, false, depths))
  {
    CloseHole(text, j, depths);
  }

  lemma {:induction false} ScanEscape(text: string, i: nat, depths: seq<nat>)
    requires i + 1 < |text| && text[i] == '\\'
    ensures Scan(text, i, State(InTemplate, false, depths)) == Scan(text, i + 2, State(InTemplate, false, depths))
  {
    assert Scan(text, i, State(InTemplate, false, depths)) == Scan(text, i + 1, State(InTemplate, true, depths));
  }

  /** Well-formed code, wherever it stands, brings the scanner back to code with the depths it found. */
  lemma {:induction false} ScanCode(text: string, i: nat, code: Code, follow: string, depths: seq<nat>)
    requires depths == [] || Balanced(code)
    requires WellFormed(code, follow) && HoldsAt(text, i, Print(code)) && Follows(text, i + |Print(code)|, follow)
    ensures Scan(text, i, State(InCode, false, depths)) == Scan(text, i + |Print(code)|, State(InCode, false, depths))
    decreases code, 1
  {
    match code
    case End =>
    case Plain(c, next) =>
      PlainStep(text, i, c, Print(next), follow, depths);
      HoldsSplit(text, i, [c], Print(next));
      ScanCode(text, i + 1, next, follow, depths);
    case Quoted(_, _, _) => ScanQuotedCode(text, i, code, follow, depths);
    case Line(_, _) => ScanLineCode(text, i, code, follow, depths);
    case Block(_, _) => ScanBlockCode(text, i, code, follow, depths);
    case Braces(_, _) => ScanBracesCode(text, i, code, follow, depths);
    case Loose(_, _) => ScanLooseCode(text, i, code, follow, depths);
    case Template(_, _) => ScanTemplateCode(text, i, code, follow, depths);
  }

  lemma {:induction false} ScanQuotedCode(text: string, i: nat, code: Code, follow: string, depths: seq<nat>)
    requires code.Quoted?
    requires depths == [] || Balanced(code)
    requires WellFormed(code, follow) && HoldsAt(text, i, Print(code)) && Follows(text, i + |Print(code)|, follow)
    ensures Scan(text, i, State(InCode, false, depths)) == Scan(text, i + |Print(code)|, State(InCode, false, depths))
    decreases code, 0
  {
    var Quoted(quote, body, next) := code;
    SplitThree(text, i, [quote], body, [quote], Print(next));
    ScanQuoted(text, i, quote, body, depths);
    ScanCode(text, i + |body| + 2, next, follow, depths);
  }

  lemma {:induction false} ScanLineCode(text: string, i: nat, code: Code, follow: string, depths: seq<nat>)
    requires code.Line?
    requires depths == [] || Balanced(code)
    requires WellFormed(code, follow) && HoldsAt(text, i, Print(code)) && Follows(text, i + |Print(code)|, follow)
    ensures Scan(text, i, State(InCode, false, depths)) == Scan(text, i + |Print(code)|, State(InCode, false, depths))
    decreases code, 0
  {
    SplitThree(text, i, "//", code.body, "\n", Print(code.next));
    ScanLineComment(text, i, code.body, depths);
    ScanCode(text, i + |code.body| + 3, code.next, follow, depths);
  }

  lemma {:induction false} ScanBlockCode(text: string, i: nat, code: Code, follow: string, depths: seq<nat>)
    requires code.Block?
    requires depths == [] || Balanced(code)
    requires WellFormed(code, follow) && HoldsAt(text, i, Print(code)) && Follows(text, i + |Print(code)|, follow)
    ensures Scan(text, i, State(InCode, false, depths)) == Scan(text, i + |Print(code)|, State(InCode, false, depths))
    decreases code, 0
  {
    SplitThree(text, i, "/*", code.body, "*/", Print(code.next));
    ScanBlockComment(text, i, code.body, depths);
    ScanCode(text, i + |code.body| + 4, code.next, follow, depths);
  }

  lemma {:induction false} ScanLooseCode(text: string, i: nat, code: Code, follow: string, depths: seq<nat>)
    requires code.Loose?
    requires depths == [] || Balanced(code)
    requires WellFormed(code, follow) && HoldsAt(text, i, Print(code)) && Follows(text, i + |Print(code)|, follow)
    ensures Scan(text, i, State(InCode, false, depths)) == Scan(text, i + |Print(code)|, State(InCode, false, depths))
    decreases code, 0
  {
    HoldsSplit(text, i, [code.brace], Print(code.next));
    assert text[i + 0] == [code.brace][0];
    ScanCode(text, i + 1, code.next, follow, depths);
  }

  lemma {:induction false} ScanBracesCode(text: string, i: nat, code: Code, follow: string, depths: seq<nat>)
    requires code.Braces?
    requires depths == [] || Balanced(code)
    requires WellFormed(code, follow) && HoldsAt(text, i, Print(code)) && Follows(text, i + |Print(code)|, follow)
    ensures Scan(text, i, State(InCode, false, depths)) == Scan(text, i + |Print(code)|, State(InCode, false, depths))
    decreases code, 0
  {
    var j := Bracketed(text, i, "{", Print(code.inner), Print(code.next));
    PastBraces(text, i, j, code.inner, depths);
    ScanCode(text, j + 1, code.next, follow, depths);
  }

  lemma {:induction false} PastBraces(text: string, i: nat, j: nat, inner: Code, depths: seq<nat>)
    requires (depths == [] || Balanced(inner)) && WellFormed(inner, "}") && j == i + 1 + |Print(inner)| < |text| && HoldsAt(text, i + 1, Print(inner))
    requires text[i] == '{' && text[j] == '}'
    ensures Scan(text, i, State(InCode, false, depths)) == Scan(text, j + 1, State(InCode, false, depths))
    decreases inner, 3
  {
    ScanCode(text, i + 1, inner, "}", TopPlusOne(depths));
    ScanBraces(text, i, j, depths);
  }

  /** Where the closing brace stands behind `open` and `inner`. */
  lemma {:induction false} Bracketed(text: string, i: nat, open: string, inner: string, next: string) returns (j: nat)
    requires HoldsAt(text, i, open + (inner + ("}" + next)))
    ensures j == i + |open| + |inner| < |text| && text[j] == '}'
    ensures open != [] ==> text[i] == open[0]
    ensures |open| > 1 ==> text[i + 1] == open[1]
    ensures HoldsAt(text, i + |open|, inner) && HoldsAt(text, j + 1, next)
  {
    SplitThree(text, i, open, inner, "}", next);
    j := i + |open| + |inner|;
    assert text[j + 0] == "}"[0] && (open != [] ==> text[i + 0] == open[0]);
  }

  lemma {:induction false} ScanTemplateCode(text: string, i: nat, code: Code, follow: string, depths: seq<nat>)
    requires code.Template?
    requires depths == [] || Balanced(code)
    requires WellFormed(code, follow) && HoldsAt(text, i, Print(code)) && Follows(text, i + |Print(code)|, follow)
    ensures Scan(text, i, State(InCode, false, depths)) == Scan(text, i + |Print(code)|, State(InCode, false, depths))
    decreases code, 0
  {
    var printed, next := PrintParts(code.parts), Print(code.next);
    HoldsSplit(text, i, "`", printed + next);
    HoldsSplit(text, i + 1, printed, next);
    var j := i + 1 + |printed|;
    PastTemplate(text, i, j, code.parts, depths);
    ScanCode(text, j, code.next, follow, depths);
  }

  lemma {:induction false} PastTemplate(text: string, i: nat, j: nat, parts: Parts, depths: seq<nat>)
    requires WellFormedParts(parts) && j == i + 1 + |PrintParts(parts)|
    requires HoldsAt(text, i, "`") && HoldsAt(text, i + 1, PrintParts(parts))
    ensures Scan(text, i, State(InCode, false, depths)) == Scan(text, j, State(InCode, false, depths))
    decreases parts, 2
  {
    assert text[i + 0] == "`"[0];
    ScanParts(text, i + 1, parts, depths);
  }

  lemma {:induction false} ScanParts(text: string, i: nat, parts: Parts, depths: seq<nat>)
    requires WellFormedParts(parts) && HoldsAt(text, i, PrintParts(parts))
    ensures Scan(text, i, State(InTemplate, false, depths)) == Scan(text, i + |PrintParts(parts)|, State(InCode, false, depths))
    decreases parts, 1
  {
    match parts
    case Close => assert text[i + 0] == "`"[0];
    case Raw(c, more) =>
      HoldsSplit(text, i, [c], PrintParts(more));
      assert text[i + 0] == [c][0] && text[i + 1 + 0] == PrintParts(more)[0];
      ScanParts(text, i + 1, more, depths);
    case Escape(c, more) =>
      var escape := ['\\', c];
      HoldsSplit(text, i, escape, PrintParts(more));
      assert text[i + 0] == escape[0];
      ScanEscape(text, i, depths);
      ScanParts(text, i + 2, more, depths);
    case Hole(_, _) => ScanHoleParts(text, i, parts, depths);
  }

  lemma {:induction false} ScanHoleParts(text: string, i: nat, parts: Parts, depths: seq<nat>)
    requires parts.Hole? && WellFormedParts(parts) && HoldsAt(text, i, PrintParts(parts))
    ensures Scan(text, i, State(InTemplate, false, depths)) == Scan(text, i + |PrintParts(parts)|, State(InCode, false, depths))
    decreases parts, 0
  {
    var j := Bracketed(text, i, "${", Print(parts.inner), PrintParts(parts.more));
    ScanCode(text, i + 2, parts.inner, "}", depths + [0]);
    ScanHole(text, i, j, depths);
    ScanParts(text, j + 1, parts.more, depths);
  }

  lemma {:induction false} SplitThree(text: string, i: nat, a: string, b: string, c: string, d: string)
    requires HoldsAt(text, i, a + (b + (c + d)))
    ensures HoldsAt(text, i, a) && HoldsAt(text, i + |a|, b) && HoldsAt(text, i + |a| + |b|, c)
    ensures HoldsAt(text, i + |a| + |b| + |c|, d)
  {
    HoldsSplit(text, i, a, b + (c + d));
    HoldsSplit(text, i + |a|, b, c + d);
    HoldsSplit(text, i + |a| + |b|, c, d);
  }

  // ---------------------------------------------------------------- code that is cut short

  /** A cut inside a quoted body, escaped or not, leaves the scanner inside it. */
  lemma {:induction false} CutBody(text: string, i: nat, body: string, quote: char, depths: seq<nat>)
    requires (quote == '\'' || quote == '"') && i <= |text| && |text| - i <= |body|
    requires QuotedBody(body, quote) && HoldsAt(text, i, body[..|text| - i])
    ensures Scan(text, i, State(QuoteMode(quote), false, depths)).mode == QuoteMode(quote)
    decreases |body|
  {
    if i < |text| {
      var part := body[..|text| - i];
      assert text[i + 0] == part[0];
      var k := if body[0] == '\\' then 2 else 1;
      if i + k <= |text| {
        if k == 2 {
          assert text[i + 1] == part[1];
          assert Scan(text, i, State(QuoteMode(quote), false, depths)) == Scan(text, i + 1, State(QuoteMode(quote), true, depths));
          assert Scan(text, i + 1, State(QuoteMode(quote), true, depths)) == Scan(text, i + 2, State(QuoteMode(quote), false, depths));
        }
        assert part[k..] == body[k..][..|text| - i - k];
        CutBody(text, i + k, body[k..], quote, depths);
      } else {
        assert Scan(text, i, State(QuoteMode(quote), false, depths)) == State(QuoteMode(quote), true, depths);
      }
    }
  }

  lemma {:induction false} HoldsPrefix(text: string, i: nat, a: string, b: string, n: nat)
    requires n <= |a + b| && HoldsAt(text, i, (a + b)[..n])
    ensures n <= |a| ==> HoldsAt(text, i, a[..n])
    ensures n >= |a| ==> HoldsAt(text, i, a) && HoldsAt(text, i + |a|, b[..n - |a|])
  {
    if n <= |a| {
      assert (a + b)[..n] == a[..n];
    } else {
      assert (a + b)[..n] == a + b[..n - |a|];
      HoldsSplit(text, i, a, b[..n - |a|]);
    }
  }

  lemma {:induction false} CutQuoted(text: string, i: nat, quote: char, body: string, rest: string, depths: seq<nat>)
    requires (quote == '\'' || quote == '"') && QuotedBody(body, quote)
    requires i < |text| && |text| - i < |body| + 2
    requires HoldsAt(text, i, ([quote] + (body + rest))[..|text| - i])
    ensures Scan(text, i, State(InCode, false, depths)).mode != InCode
  {
    HoldsPrefix(text, i, [quote], body + rest, |text| - i);
    assert text[i + 0] == [quote][0];
    HoldsPrefix(text, i + 1, body, rest, |text| - i - 1);
    CutBody(text, i + 1, body, quote, depths);
  }

  lemma {:induction false} CutLine(text: string, i: nat, body: string, rest: string, depths: seq<nat>)
    requires '\n' !in body && i + 1 < |text| && |text| - i < |body| + 3
    requires HoldsAt(text, i, ("//" + (body + rest))[..|text| - i])
    ensures Scan(text, i, State(InCode, false, depths)).mode != InCode
  {
    HoldsPrefix(text, i, "//", body + rest, |text| - i);
    assert text[i + 0] == "//"[0] && text[i + 1] == "//"[1];
    var n := |text| - i - 2;
    assert (body + rest)[..n] == body[..n];
    ScanLine(text, i + 2, body[..n], depths);
  }

  lemma {:induction false} CutBlock(text: string, i: nat, body: string, rest: string, depths: seq<nat>)
    requires NoCommentEnd(body) && rest != [] && rest[0] == '*' && i + 1 < |text| && |text| - i < |body| + 4
    requires HoldsAt(text, i, ("/*" + (body + rest))[..|text| - i])
    ensures Scan(text, i, State(InCode, false, depths)).mode != InCode
  {
    HoldsPrefix(text, i, "/*", body + rest, |text| - i);
    assert text[i + 0] == "/*"[0] && text[i + 1] == "/*"[1];
    var part := (body + rest)[..|text| - i - 2];
    forall k | 0 <= k < |part| - 1 ensures !(part[k] == '*' && part[k + 1] == '/') {
      if k + 1 < |body| { assert part[k] == body[k] && part[k + 1] == body[k + 1]; }
    }
    ScanBlock(text, i + 2, part, depths);
  }

  /** Scanning a prefix of well-formed code ends in code exactly where the grammar says it is code. */
  lemma {:induction false} CutCode(text: string, i: nat, code: Code, follow: string, depths: seq<nat>)
    requires depths == [] || Balanced(code)
    requires WellFormed(code, follow) && i <= |text| && |text| - i <= |Print(code)|
    requires HoldsAt(text, i, Print(code)[..|text| - i])
    ensures Scan(text, i, State(InCode, false, depths)).mode == InCode <==> CodeAt(code, |text| - i)
    decreases code, 2
  {
    match code
    case End =>
    case Plain(_, _) => CutPlainCode(text, i, code, follow, depths);
    case Quoted(_, _, _) => CutQuotedCode(text, i, code, follow, depths);
    case Line(_, _) => CutLineCode(text, i, code, follow, depths);
    case Block(_, _) => CutBlockCode(text, i, code, follow, depths);
    case Braces(_, _) => CutBracesCode(text, i, code, follow, depths);
    case Loose(_, _) => CutLooseCode(text, i, code, follow, depths);
    case Template(_, _) => CutTemplateCode(text, i, code, follow, depths);
  }

  lemma {:induction false} CutPlainCode(text: string, i: nat, code: Code, follow: string, depths: seq<nat>)
    requires code.Plain?
    requires depths == [] || Balanced(code)
    requires WellFormed(code, follow) && i <= |text| && |text| - i <= |Print(code)|
    requires HoldsAt(text, i, Print(code)[..|text| - i])
    ensures Scan(text, i, State(InCode, false, depths)).mode == InCode <==> CodeAt(code, |text| - i)
    decreases code, 0
  {
    if i < |text| {
      HoldsPrefix(text, i, [code.c], Print(code.next), |text| - i);
      CutPlainStep(text, i, code.c, Print(code.next), follow, depths);
      CutCode(text, i + 1, code.next, follow, depths);
    }
  }

  lemma {:induction false} CutLooseCode(text: string, i: nat, code: Code, follow: string, depths: seq<nat>)
    requires code.Loose?
    requires depths == [] || Balanced(code)
    requires WellFormed(code, follow) && i <= |text| && |text| - i <= |Print(code)|
    requires HoldsAt(text, i, Print(code)[..|text| - i])
    ensures Scan(text, i, State(InCode, false, depths)).mode == InCode <==> CodeAt(code, |text| - i)
    decreases code, 0
  {
    if i < |text| {
      HoldsPrefix(text, i, [code.brace], Print(code.next), |text| - i);
      assert text[i + 0] == [code.brace][0];
      CutCode(text, i + 1, code.next, follow, depths);
    }
  }

  lemma {:induction false} CutPlainStep(text: string, i: nat, c: char, printed: string, follow: string, depths: seq<nat>)
    requires c !in {'\'', '"', '`', '{', '}'} && (c == '/' ==> DividesBefore(printed, follow))
    requires i < |text| && |text| - i <= 1 + |printed| && HoldsAt(text, i, [c])
    requires HoldsAt(text, i + 1, printed[..|text| - i - 1])
    ensures Step(text, i, State(InCode, false, depths)) == (State(InCode, false, depths), 1)
  {
    assert text[i + 0] == [c][0];
    if i + 1 < |text| {
      var part := printed[..|text| - i - 1];
      assert text[i + 1 + 0] == part[0] == (printed + follow)[0];
    }
  }

  lemma {:induction false} CutQuotedCode(text: string, i: nat, code: Code, follow: string, depths: seq<nat>)
    requires code.Quoted?
    requires depths == [] || Balanced(code)
    requires WellFormed(code, follow) && i <= |text| && |text| - i <= |Print(code)|
    requires HoldsAt(text, i, Print(code)[..|text| - i])
    ensures Scan(text, i, State(InCode, false, depths)).mode == InCode <==> CodeAt(code, |text| - i)
    decreases code, 0
  {
    var Quoted(quote, body, next) := code;
    var n := |text| - i;
    if 0 < n < |body| + 2 {
      CutQuoted(text, i, quote, body, [quote] + Print(next), depths);
    } else if n > 0 {
      PrefixThree(text, i, [quote], body, [quote], Print(next), n);
      ScanQuoted(text, i, quote, body, depths);
      CutCode(text, i + |body| + 2, next, follow, depths);
    }
  }

  /** A slash at the end of a text opens nothing. */
  lemma {:induction false} CutSlash(text: string, i: nat, open: string, rest: string, depths: seq<nat>)
    requires open != [] && open[0] == '/' && i + 1 == |text| && HoldsAt(text, i, (open + rest)[..1])
    ensures Scan(text, i, State(InCode, false, depths)).mode == InCode
  {
    assert text[i + 0] == (open + rest)[..1][0];
  }

  lemma {:induction false} CutLineCode(text: string, i: nat, code: Code, follow: string, depths: seq<nat>)
    requires code.Line?
    requires depths == [] || Balanced(code)
    requires WellFormed(code, follow) && i <= |text| && |text| - i <= |Print(code)|
    requires HoldsAt(text, i, Print(code)[..|text| - i])
    ensures Scan(text, i, State(InCode, false, depths)).mode == InCode <==> CodeAt(code, |text| - i)
    decreases code, 1
  {
    var n := |text| - i;
    if n == 1 {
      CutSlash(text, i, "//", code.body + ("\n" + Print(code.next)), depths);
    } else if 1 < n < |code.body| + 3 {
      CutLine(text, i, code.body, "\n" + Print(code.next), depths);
    } else if n > 0 {
      CutBehindLine(text, i, code, follow, depths);
    }
  }

  lemma {:induction false} CutBehindLine(text: string, i: nat, code: Code, follow: string, depths: seq<nat>)
    requires code.Line? && |text| - i >= |code.body| + 3
    requires depths == [] || Balanced(code)
    requires WellFormed(code, follow) && i <= |text| && |text| - i <= |Print(code)|
    requires HoldsAt(text, i, Print(code)[..|text| - i])
    ensures Scan(text, i, State(InCode, false, depths)).mode == InCode <==> CodeAt(code, |text| - i)
    decreases code, 0
  {
    PrefixThree(text, i, "//", code.body, "\n", Print(code.next), |text| - i);
    ScanLineComment(text, i, code.body, depths);
    CutCode(text, i + |code.body| + 3, code.next, follow, depths);
  }

  lemma {:induction false} CutBlockCode(text: string, i: nat, code: Code, follow: string, depths: seq<nat>)
    requires code.Block?
    requires depths == [] || Balanced(code)
    requires WellFormed(code, follow) && i <= |text| && |text| - i <= |Print(code)|
    requires HoldsAt(text, i, Print(code)[..|text| - i])
    ensures Scan(text, i, State(InCode, false, depths)).mode == InCode <==> CodeAt(code, |text| - i)
    decreases code, 1
  {
    var n := |text| - i;
    if n == 1 {
      CutSlash(text, i, "/*", code.body + ("*/" + Print(code.next)), depths);
    } else if 1 < n < |code.body| + 4 {
      CutBlock(text, i, code.body, "*/" + Print(code.next), depths);
    } else if n > 0 {
      CutBehindBlock(text, i, code, follow, depths);
    }
  }

  lemma {:induction false} CutBehindBlock(text: string, i: nat, code: Code, follow: string, depths: seq<nat>)
    requires code.Block? && |text| - i >= |code.body| + 4
    requires depths == [] || Balanced(code)
    requires WellFormed(code, follow) && i <= |text| && |text| - i <= |Print(code)|
    requires HoldsAt(text, i, Print(code)[..|text| - i])
    ensures Scan(text, i, State(InCode, false, depths)).mode == InCode <==> CodeAt(code, |text| - i)
    decreases code, 0
  {
    PrefixThree(text, i, "/*", code.body, "*/", Print(code.next), |text| - i);
    ScanBlockComment(text, i, code.body, depths);
    CutCode(text, i + |code.body| + 4, code.next, follow, depths);
  }

  lemma {:induction false} PrefixThree(text: string, i: nat, a: string, b: string, c: string, d: string, n: nat)
    requires |a| + |b| + |c| <= n <= |a + (b + (c + d))| && HoldsAt(text, i, (a + (b + (c + d)))[..n])
    ensures HoldsAt(text, i, a) && HoldsAt(text, i + |a|, b) && HoldsAt(text, i + |a| + |b|, c)
    ensures HoldsAt(text, i + |a| + |b| + |c|, d[..n - |a| - |b| - |c|])
  {
    HoldsPrefix(text, i, a, b + (c + d), n);
    HoldsPrefix(text, i + |a|, b, c + d, n - |a|);
    HoldsPrefix(text, i + |a| + |b|, c, d, n - |a| - |b|);
  }

  lemma {:induction false} CutBracesCode(text: string, i: nat, code: Code, follow: string, depths: seq<nat>)
    requires code.Braces?
    requires depths == [] || Balanced(code)
    requires WellFormed(code, follow) && i <= |text| && |text| - i <= |Print(code)|
    requires HoldsAt(text, i, Print(code)[..|text| - i])
    ensures Scan(text, i, State(InCode, false, depths)).mode == InCode <==> CodeAt(code, |text| - i)
    decreases code, 1
  {
    var n := |text| - i;
    if n > 0 && n - 1 <= |Print(code.inner)| {
      CutInsideBraces(text, i, code, follow, depths);
    } else if n > 0 {
      CutBehindBraces(text, i, code, follow, depths);
    }
  }

  lemma {:induction false} CutInsideBraces(text: string, i: nat, code: Code, follow: string, depths: seq<nat>)
    requires code.Braces? && 0 < |text| - i <= |Print(code.inner)| + 1
    requires depths == [] || Balanced(code)
    requires WellFormed(code, follow) && i <= |text| && |text| - i <= |Print(code)|
    requires HoldsAt(text, i, Print(code)[..|text| - i])
    ensures Scan(text, i, State(InCode, false, depths)).mode == InCode <==> CodeAt(code, |text| - i)
    decreases code, 0
  {
    OpenPrefix(text, i, "{", Print(code.inner), "}" + Print(code.next));
    CutCode(text, i + 1, code.inner, "}", TopPlusOne(depths));
  }

  lemma {:induction false} CutBehindBraces(text: string, i: nat, code: Code, follow: string, depths: seq<nat>)
    requires code.Braces? && |text| - i > |Print(code.inner)| + 1
    requires depths == [] || Balanced(code)
    requires WellFormed(code, follow) && i <= |text| && |text| - i <= |Print(code)|
    requires HoldsAt(text, i, Print(code)[..|text| - i])
    ensures Scan(text, i, State(InCode, false, depths)).mode == InCode <==> CodeAt(code, |text| - i)
    decreases code, 0
  {
    var j := BracketedPrefix(text, i, "{", Print(code.inner), Print(code.next));
    PastBraces(text, i, j, code.inner, depths);
    CutCode(text, j + 1, code.next, follow, depths);
  }

  /** A text that ends inside `inner`. */
  lemma {:induction false} OpenPrefix(text: string, i: nat, open: string, inner: string, rest: string)
    requires |open| <= |text| - i <= |open| + |inner| && HoldsAt(text, i, (open + (inner + rest))[..|text| - i])
    ensures open != [] ==> text[i] == open[0]
    ensures |open| > 1 ==> text[i + 1] == open[1]
    ensures HoldsAt(text, i + |open|, inner[..|text| - i - |open|])
  {
    HoldsPrefix(text, i, open, inner + rest, |text| - i);
    HoldsPrefix(text, i + |open|, inner, rest, |text| - i - |open|);
    assert open != [] ==> text[i + 0] == open[0];
  }

  /** A text that ends behind the closing brace. */
  lemma {:induction false} BracketedPrefix(text: string, i: nat, open: string, inner: string, next: string) returns (j: nat)
    requires |open| + |inner| < |text| - i <= |open| + |inner| + 1 + |next|
    requires HoldsAt(text, i, (open + (inner + ("}" + next)))[..|text| - i])
    ensures j == i + |open| + |inner| && text[j] == '}'
    ensures open != [] ==> text[i] == open[0]
    ensures |open| > 1 ==> text[i + 1] == open[1]
    ensures HoldsAt(text, i + |open|, inner) && HoldsAt(text, j + 1, next[..|text| - j - 1])
  {
    PrefixThree(text, i, open, inner, "}", next, |text| - i);
    j := i + |open| + |inner|;
    assert text[j + 0] == "}"[0] && (open != [] ==> text[i + 0] == open[0]);
  }

  lemma {:induction false} CutTemplateCode(text: string, i: nat, code: Code, follow: string, depths: seq<nat>)
    requires code.Template?
    requires depths == [] || Balanced(code)
    requires WellFormed(code, follow) && i <= |text| && |text| - i <= |Print(code)|
    requires HoldsAt(text, i, Print(code)[..|text| - i])
    ensures Scan(text, i, State(InCode, false, depths)).mode == InCode <==> CodeAt(code, |text| - i)
    decreases code, 1
  {
    var n := |text| - i;
    if n > 0 && n - 1 < |PrintParts(code.parts)| {
      CutInsideTemplate(text, i, code, follow, depths);
    } else if n > 0 {
      CutBehindTemplate(text, i, code, follow, depths);
    }
  }

  lemma {:induction false} CutInsideTemplate(text: string, i: nat, code: Code, follow: string, depths: seq<nat>)
    requires code.Template? && 0 < |text| - i <= |PrintParts(code.parts)|
    requires depths == [] || Balanced(code)
    requires WellFormed(code, follow) && i <= |text| && |text| - i <= |Print(code)|
    requires HoldsAt(text, i, Print(code)[..|text| - i])
    ensures Scan(text, i, State(InCode, false, depths)).mode == InCode <==> CodeAt(code, |text| - i)
    decreases code, 0
  {
    OpenPrefix(text, i, "`", PrintParts(code.parts), Print(code.next));
    CutParts(text, i + 1, code.parts, depths);
  }

  lemma {:induction false} CutBehindTemplate(text: string, i: nat, code: Code, follow: string, depths: seq<nat>)
    requires code.Template? && |text| - i > |PrintParts(code.parts)|
    requires depths == [] || Balanced(code)
    requires WellFormed(code, follow) && i <= |text| && |text| - i <= |Print(code)|
    requires HoldsAt(text, i, Print(code)[..|text| - i])
    ensures Scan(text, i, State(InCode, false, depths)).mode == InCode <==> CodeAt(code, |text| - i)
    decreases code, 0
  {
    var printed, next := PrintParts(code.parts), Print(code.next);
    HoldsPrefix(text, i, "`", printed + next, |text| - i);
    HoldsPrefix(text, i + 1, printed, next, |text| - i - 1);
    var j := i + 1 + |printed|;
    PastTemplate(text, i, j, code.parts, depths);
    CutCode(text, j, code.next, follow, depths);
  }

  lemma {:induction false} CutParts(text: string, i: nat, parts: Parts, depths: seq<nat>)
    requires WellFormedParts(parts) && i <= |text| && |text| - i < |PrintParts(parts)|
    requires HoldsAt(text, i, PrintParts(parts)[..|text| - i])
    ensures Scan(text, i, State(InTemplate, false, depths)).mode == InCode <==> CodeAtParts(parts, |text| - i)
    decreases parts, 2
  {
    var n := |text| - i;
    if n > 0 {
      match parts
      case Raw(c, more) =>
        HoldsPrefix(text, i, [c], PrintParts(more), n);
        assert text[i + 0] == [c][0];
        if n > 1 {
          assert text[i + 1 + 0] == PrintParts(more)[..n - 1][0];
        }
        CutParts(text, i + 1, more, depths);
      case Escape(_, _) => CutEscapeParts(text, i, parts, depths);
      case Hole(_, _) => CutHoleParts(text, i, parts, depths);
      case Close =>
    }
  }

  lemma {:induction false} CutEscapeParts(text: string, i: nat, parts: Parts, depths: seq<nat>)
    requires parts.Escape? && WellFormedParts(parts) && i < |text| && |text| - i < |PrintParts(parts)|
    requires HoldsAt(text, i, PrintParts(parts)[..|text| - i])
    ensures Scan(text, i, State(InTemplate, false, depths)).mode == InCode <==> CodeAtParts(parts, |text| - i)
    decreases parts, 0
  {
    var n, escape := |text| - i, ['\\', parts.c];
    HoldsPrefix(text, i, escape, PrintParts(parts.more), n);
    if n >= 2 {
      assert text[i + 0] == escape[0];
      ScanEscape(text, i, depths);
      CutParts(text, i + 2, parts.more, depths);
    } else {
      assert text[i + 0] == escape[..1][0];
      assert Scan(text, i, State(InTemplate, false, depths)) == Scan(text, i + 1, State(InTemplate, true, depths));
    }
  }

  lemma {:induction false} CutHoleParts(text: string, i: nat, parts: Parts, depths: seq<nat>)
    requires parts.Hole? && WellFormedParts(parts) && i < |text| && |text| - i < |PrintParts(parts)|
    requires HoldsAt(text, i, PrintParts(parts)[..|text| - i])
    ensures Scan(text, i, State(InTemplate, false, depths)).mode == InCode <==> CodeAtParts(parts, |text| - i)
    decreases parts, 1
  {
    var n := |text| - i;
    if n == 1 {
      HoldsPrefix(text, i, "${", Print(parts.inner) + ("}" + PrintParts(parts.more)), n);
      assert text[i + 0] == "${"[..1][0];
    } else if n - 2 <= |Print(parts.inner)| {
      CutInsideHole(text, i, parts, depths);
    } else {
      CutBehindHole(text, i, parts, depths);
    }
  }

  lemma {:induction false} CutInsideHole(text: string, i: nat, parts: Parts, depths: seq<nat>)
    requires parts.Hole? && 2 <= |text| - i <= |Print(parts.inner)| + 2
    requires WellFormedParts(parts) && i < |text| && |text| - i < |PrintParts(parts)|
    requires HoldsAt(text, i, PrintParts(parts)[..|text| - i])
    ensures Scan(text, i, State(InTemplate, false, depths)).mode == InCode <==> CodeAtParts(parts, |text| - i)
    decreases parts, 0
  {
    OpenPrefix(text, i, "${", Print(parts.inner), "}" + PrintParts(parts.more));
    CutCode(text, i + 2, parts.inner, "}", depths + [0]);
  }

  lemma {:induction false} CutBehindHole(text: string, i: nat, parts: Parts, depths: seq<nat>)
    requires parts.Hole? && |text| - i > |Print(parts.inner)| + 2
    requires WellFormedParts(parts) && i < |text| && |text| - i < |PrintParts(parts)|
    requires HoldsAt(text, i, PrintParts(parts)[..|text| - i])
    ensures Scan(text, i, State(InTemplate, false, depths)).mode == InCode <==> CodeAtParts(parts, |text| - i)
    decreases parts, 0
  {
    var j := BracketedPrefix(text, i, "${", Print(parts.inner), PrintParts(parts.more));
    PastHole(text, i, j, parts.inner, depths);
    CutParts(text, j + 1, parts.more, depths);
  }

  lemma {:induction false} PastHole(text: string, i: nat, j: nat, inner: Code, depths: seq<nat>)
    requires Balanced(inner) && WellFormed(inner, "}") && j == i + 2 + |Print(inner)| < |text| && HoldsAt(text, i + 2, Print(inner))
    requires text[i] == '$' && text[i + 1] == '{' && text[j] == '}'
    ensures Scan(text, i, State(InTemplate, false, depths)) == Scan(text, j + 1, State(InTemplate, false, depths))
    decreases inner, 3
  {
    var inside := State(InCode, false, depths + [0]);
    assert Scan(text, i + 2, inside) == Scan(text, j, inside) by {
      ScanCode(text, i + 2, inner, "}", depths + [0]);
    }
    ScanHole(text, i, j, depths);
  }

  // ---------------------------------------------------------------- theorems

  /** Scanning any well-formed code returns to code with the depth stack it began with; loose braces need an empty one. */
  lemma {:induction false} CodeReturnsToCode(code: Code, depths: seq<nat>)
    requires WellFormed(code, []) && (depths == [] || Balanced(code))
    ensures Scan(Print(code), 0, State(InCode, false, depths)) == State(InCode, false, depths)
  {
    ScanCode(Print(code), 0, code, [], depths);
  }

  /** Every cut of well-formed code is reported as code exactly when it lies in code. */
  lemma {:induction false} CutsAreReportedExactly(code: Code, n: nat)
    requires WellFormed(code, []) && n <= |Print(code)|
    ensures Scan(Print(code)[..n], 0, START).mode == InCode <==> CodeAt(code, n)
  {
    CutCode(Print(code)[..n], 0, code, [], []);
  }
}
