/**
  What the tokens of a script are, in terms of its text (src/script_intelligence.rs:2394-2570): which characters
  make which token, what stands between tokens, and when a slash begins a regular expression.
*/
module ScriptTokens {
  import opened ScriptLexer
  import opened ScriptLiteral
  import opened Sequences
  import opened Wrappers

  // ---------------------------------------------------------------- what stands between tokens

  predicate StartsAs(text: string, opener: string) {
    opener <= text
  }

  /** No "*" and "/" next to each other from position `from` on. */
  predicate NoBlockEnd(text: string, from: nat) {
    forall i :: from <= i < |text| - 1 ==> !(text[i] == '*' && text[i + 1] == '/')
  }

  /** A whole line comment, with its line break. */
  predicate LineComment(text: string) {
    |text| >= 3 && StartsAs(text, "//") && text[|text| - 1] == '\n' && '\n' !in text[2..|text| - 1]
  }

  /** A whole block comment: it is closed at its end and not before. */
  predicate BlockComment(text: string) {
    && |text| >= 4 && StartsAs(text, "/*") && text[|text| - 2] == '*' && text[|text| - 1] == '/'
    && NoBlockEnd(text[..|text| - 1], 2)
  }

  /** A comment that nothing closes. */
  predicate OpenComment(text: string) {
    (StartsAs(text, "//") && '\n' !in text[2..]) || (StartsAs(text, "/*") && NoBlockEnd(text, 2))
  }

  /** From `from` to `end` stand only white space and whole comments; `line` tells whether a line comment is among them. */
  ghost predicate Gap(cls: Classes, source: string, from: nat, end: nat, line: bool)
    requires from <= end <= |source|
    decreases end - from
  {
    if from == end then !line
    else
      || (cls.whitespace(source[from]) && Gap(cls, source, from + 1, end, line))
      || (exists e {:trigger source[from..e]} :: from < e <= end && BlockComment(source[from..e]) && Gap(cls, source, e, end, line))
      || (line && exists e, more {:trigger Gap(cls, source, e, end, more)} ::
                    from < e <= end && LineComment(source[from..e]) && Gap(cls, source, e, end, more))
  }

  // ---------------------------------------------------------------- the text of a token

  /** Letters, the dollar sign and the underscore begin a name; digits may follow. */
  predicate BeginsName(cls: Classes, c: char) {
    cls.alphabetic(c) || c in "_$"
  }

  predicate ContinuesName(cls: Classes, c: char) {
    cls.alphabetic(c) || cls.numeric(c) || c in "_$"
  }

  /** White space, quotes, backticks, slashes and the punctuation that has a kind of its own are no letters or digits. */
  predicate Sane(cls: Classes) {
    forall c :: c in ".(),'\"`/" ==> !BeginsName(cls, c) && !cls.whitespace(c)
  }

  /** A name: it begins as one, goes on as one, and ends where it no longer does. */
  ghost predicate WholeName(cls: Classes, source: string, start: nat, end: nat) {
    && start < end <= |source| && BeginsName(cls, source[start])
    && (forall i :: start < i < end ==> ContinuesName(cls, source[i]))
    && (end < |source| ==> !ContinuesName(cls, source[end]))
  }

  /**
    A token by its first character: a name, a string literal, a template literal, a slash or the regular expression
    that it begins where one may stand, or one character, of which four have a kind of their own.
  */
  ghost predicate WellMade(cls: Classes, source: string, token: Token, regexAllowed: bool) {
    var Token(kind, start, end) := token;
    && start < end <= |source|
    && var text := source[start..end];
       && !cls.whitespace(text[0]) && !StartsAs(source[start..], "//") && !StartsAs(source[start..], "/*")
       && (kind == Dot <==> text == ".") && (kind == Comma <==> text == ",")
       && (kind == LeftParen <==> text == "(") && (kind == RightParen <==> text == ")")
       && (kind.Identifier? <==> BeginsName(cls, text[0]))
       && (kind.Identifier? ==> kind.name == text && WholeName(cls, source, start, end))
       && (kind.Literal? <==> text[0] == '\'' || text[0] == '"')
       && (kind.Literal? ==> kind.literal == LiteralAt(source, start, text[0]) && end == kind.literal.end)
       && (text[0] == '`' ==> end == SkipTemplate(source, start + 1, false).0)
       && (text[0] == '/' ==>
             if regexAllowed && start + 1 < |source| then end == SkipRegex(cls, source, start + 1, false, false).0
             else text == "/")
       && (!kind.Identifier? && text[0] !in "'\"`/" ==> |text| == 1)
  }

  /** After which tokens a slash begins a regular expression: some words, and operators and brackets that open. */
  predicate AllowsRegexAfter(cls: Classes, text: string) {
    if text == "" then false
    else if BeginsName(cls, text[0]) then
      text == "return" || text == "throw" || text == "case" || text == "delete" || text == "void" || text == "typeof"
      || text == "instanceof" || text == "in" || text == "of" || text == "new" || text == "yield" || text == "await"
    else |text| == 1 && text[0] in "([{,;:=!?+-*%&|^~<>"
  }

  /** Lexing stops at a string literal, a template literal or a regular expression that does not end. */
  predicate NeverEnds(cls: Classes, source: string, token: Token)
    requires token.start < token.end <= |source|
  {
    match source[token.start]
    case '`' => !SkipTemplate(source, token.start + 1, false).1
    case '/' => token.end > token.start + 1 && !SkipRegex(cls, source, token.start + 1, false, false).1
    case _ => token.kind.Literal? && !token.kind.literal.terminated
  }

  // ---------------------------------------------------------------- the whole

  /** `lexed` is what stands in the text from `offset` on, where `regexAllowed` tells what came before. */
  ghost predicate Lexing(cls: Classes, source: string, offset: nat, regexAllowed: bool, lexed: Lexed)
    requires offset <= |source|
    decreases |lexed.tokens|
  {
    if lexed.tokens == [] then
      && !lexed.endedInQuotedString
      && if lexed.endedInCommentOrTemplate then OpenCommentBehind(cls, source, offset)
         else GapToEnd(cls, source, offset)
    else
      var token, rest := lexed.tokens[0], lexed.(tokens := lexed.tokens[1..]);
      && token.start < token.end <= |source|
      && TokenBehind(cls, source, offset, regexAllowed, token)
      && if NeverEnds(cls, source, token) then
           rest == Lexed([], !token.kind.Literal?, token.kind.Literal?)
         else
           Lexing(cls, source, token.end, AllowsRegexAfter(cls, source[token.start..token.end]), rest)
  }

  ghost predicate OpenCommentBehind(cls: Classes, source: string, offset: nat)
    requires offset <= |source|
  {
    exists at, line {:trigger Gap(cls, source, offset, at, line)} ::
      offset <= at < |source| && Gap(cls, source, offset, at, line) && OpenComment(source[at..])
  }

  ghost predicate GapToEnd(cls: Classes, source: string, offset: nat)
    requires offset <= |source|
  {
    exists line :: Gap(cls, source, offset, |source|, line)
  }

  /** The token stands behind a gap; a line comment in the gap allows a regular expression again. */
  ghost predicate TokenBehind(cls: Classes, source: string, offset: nat, regexAllowed: bool, token: Token)
    requires offset <= |source|
  {
    exists line :: offset <= token.start <= |source| && Gap(cls, source, offset, token.start, line)
                   && WellMade(cls, source, token, regexAllowed || line)
  }

  // ---------------------------------------------------------------- the lexer does that

  lemma {:induction false} FoundFirst(source: string, from: nat, pattern: string)
    requires from <= |source| && pattern != ""
    ensures match Find(source, from, pattern)
      case Some(at) =>
        from <= at && HoldsAt(source, at, pattern) && forall i :: from <= i < at ==> !HoldsAt(source, i, pattern)
      case None => forall i :: from <= i ==> !HoldsAt(source, i, pattern)
    decreases |source| - from
  {
    if from + |pattern| <= |source| {
      SliceHolds(source, from, pattern);
      if source[from..from + |pattern|] != pattern {
        FoundFirst(source, from + 1, pattern);
      }
    }
  }

  lemma {:induction false} SliceHolds(source: string, at: nat, part: string)
    requires at + |part| <= |source|
    ensures source[at..at + |part|] == part <==> HoldsAt(source, at, part)
  {
    if HoldsAt(source, at, part) {
      assert forall k :: 0 <= k < |part| ==> source[at..at + |part|][k] == part[k];
    } else {
      var k :| 0 <= k < |part| && source[at + k] != part[k];
      assert source[at..at + |part|][k] != part[k];
    }
  }

  lemma {:induction false} HoldsTwo(source: string, at: nat, a: char, b: char)
    requires at + 1 < |source| && source[at] == a && source[at + 1] == b
    ensures HoldsAt(source, at, [a, b])
  {
  }

  lemma {:induction false} NameEnds(cls: Classes, source: string, offset: nat)
    requires offset <= |source|
    ensures var end := IdentifierEnd(cls, source, offset);
      && (forall i :: offset <= i < end ==> ContinuesName(cls, source[i]))
      && (end < |source| ==> !ContinuesName(cls, source[end]))
    decreases |source| - offset
  {
    if offset < |source| && ContinuesName(cls, source[offset]) {
      NameEnds(cls, source, offset + 1);
    }
  }

  lemma {:induction false} PlainIsWellMade(cls: Classes, source: string, offset: nat, regexAllowed: bool)
    requires Sane(cls) && offset < |source| && !cls.whitespace(source[offset])
    requires !StartsAs(source[offset..], "//") && !StartsAs(source[offset..], "/*")
    requires source[offset] !in "'\"`" && (source[offset] == '/' ==> !regexAllowed || offset + 1 == |source|)
    ensures WellMade(cls, source, PlainRound(cls, source, offset).token, regexAllowed)
    ensures PlainRound(cls, source, offset).regex
       <==> AllowsRegexAfter(cls, source[offset..PlainRound(cls, source, offset).token.end])
    ensures !NeverEnds(cls, source, PlainRound(cls, source, offset).token)
  {
    NameEnds(cls, source, offset + 1);
    assert IsIdentifierStart(cls, source[offset]) <==> BeginsName(cls, source[offset]);
    var end := PlainRound(cls, source, offset).token.end;
    var text := source[offset..end];
    assert text[0] == source[offset];
    assert end == offset + 1 ==> text == [source[offset]];
  }

  lemma {:induction false} TokenIsWellMade(cls: Classes, source: string, offset: nat, regex: bool)
    requires Sane(cls) && offset < |source| && !cls.whitespace(source[offset])
    requires !StartsAs(source[offset..], "//") && !StartsAs(source[offset..], "/*")
    ensures var round := TokenRound(cls, source, offset, regex);
      && (round.Emitted? || round.Final?) && round.token.start == offset < round.token.end <= |source|
      && WellMade(cls, source, round.token, regex)
      && (NeverEnds(cls, source, round.token) <==> round.Final?)
      && (round.Final? ==> (round.inString <==> round.token.kind.Literal?))
      && (round.Emitted? ==> (round.regex <==> AllowsRegexAfter(cls, source[offset..round.token.end])))
  {
    var c := source[offset];
    var round := TokenRound(cls, source, offset, regex);
    if c == '`' || c == '\'' || c == '"' || (c == '/' && regex && offset + 1 < |source|) {
      var text := source[offset..round.token.end];
      assert text[0] == c && (|text| == 1 ==> text == [c]);
      LiteralIsLong(source, offset, c);
    } else {
      PlainIsWellMade(cls, source, offset, regex);
    }
  }

  lemma {:induction false} LiteralIsLong(source: string, offset: nat, quote: char)
    requires offset < |source|
    ensures LiteralAt(source, offset, quote).end > offset
    ensures LiteralAt(source, offset, quote).start == offset && LiteralAt(source, offset, quote).quote == quote
  {
  }

  /** What is skipped can be put before a gap. */
  lemma {:induction false} GapLonger(cls: Classes, source: string, offset: nat, regex: bool, at: nat, line: bool)
    requires offset < |source| && LexRound(cls, source, offset, regex).Skipped?
    requires LexRound(cls, source, offset, regex).end <= at <= |source|
    requires Gap(cls, source, LexRound(cls, source, offset, regex).end, at, line)
    ensures var regex' := LexRound(cls, source, offset, regex).regex;
      exists line' :: Gap(cls, source, offset, at, line') && (regex' || line <==> regex || line')
  {
    var end := LexRound(cls, source, offset, regex).end;
    if cls.whitespace(source[offset]) {
      assert Gap(cls, source, offset, at, line);
    } else if StartsWith(source, offset, '/', '/') {
      FoundFirst(source, offset + 2, "\n");
      LineIsComment(source, offset, end);
      assert Gap(cls, source, offset, at, true);
    } else {
      FoundFirst(source, offset + 2, "*/");
      BlockIsComment(source, offset, end);
      assert Gap(cls, source, offset, at, line);
    }
  }

  lemma {:induction false} LineIsComment(source: string, offset: nat, end: nat)
    requires offset + 3 <= end <= |source| && StartsWith(source, offset, '/', '/') && HoldsAt(source, end - 1, "\n")
    requires forall i :: offset + 2 <= i < end - 1 ==> !HoldsAt(source, i, "\n")
    ensures LineComment(source[offset..end])
  {
    var text := source[offset..end];
    assert text[..2] == "//" && source[end - 1 + 0] == "\n"[0];
    forall i | 2 <= i < |text| - 1 ensures text[i] != '\n' {
      assert text[i] == source[offset + i] && !HoldsAt(source, offset + i, "\n");
    }
  }

  lemma {:induction false} BlockIsComment(source: string, offset: nat, end: nat)
    requires offset + 4 <= end <= |source| && StartsWith(source, offset, '/', '*') && HoldsAt(source, end - 2, "*/")
    requires forall i :: offset + 2 <= i < end - 2 ==> !HoldsAt(source, i, "*/")
    ensures BlockComment(source[offset..end])
  {
    var text := source[offset..end];
    assert text[..2] == "/*" && source[end - 2 + 0] == "*/"[0] && source[end - 2 + 1] == "*/"[1];
    forall i | 2 <= i < |text| - 2 ensures !(text[i] == '*' && text[i + 1] == '/') {
      if text[i] == '*' && text[i + 1] == '/' {
        HoldsTwo(source, offset + i, '*', '/');
        assert false;
      }
    }
  }

  lemma {:induction false} UnfinishedIsOpen(cls: Classes, source: string, offset: nat, regex: bool)
    requires offset < |source| && LexRound(cls, source, offset, regex).Unfinished?
    ensures OpenComment(source[offset..])
  {
    var text := source[offset..];
    if StartsWith(source, offset, '/', '/') {
      FoundFirst(source, offset + 2, "\n");
      assert text[..2] == "//";
      forall i | 0 <= i < |text[2..]| ensures text[2..][i] != '\n' {
        assert text[2..][i] == source[offset + 2 + i] && !HoldsAt(source, offset + 2 + i, "\n");
      }
    } else {
      FoundFirst(source, offset + 2, "*/");
      assert text[..2] == "/*";
      forall i | 2 <= i < |text| - 1 ensures !(text[i] == '*' && text[i + 1] == '/') {
        if text[i] == '*' && text[i + 1] == '/' {
          HoldsTwo(source, offset + i, '*', '/');
          assert false;
        }
      }
    }
  }

  /** What stands behind something skipped stands there too when the skipped part is put before it. */
  lemma {:induction false} LexingLonger(cls: Classes, source: string, offset: nat, regex: bool, lexed: Lexed)
    requires offset < |source| && LexRound(cls, source, offset, regex).Skipped?
    requires Lexing(cls, source, LexRound(cls, source, offset, regex).end, LexRound(cls, source, offset, regex).regex, lexed)
    ensures Lexing(cls, source, offset, regex, lexed)
  {
    var end, regex' := LexRound(cls, source, offset, regex).end, LexRound(cls, source, offset, regex).regex;
    if lexed.tokens != [] {
      var token := lexed.tokens[0];
      var line :| end <= token.start <= |source| && Gap(cls, source, end, token.start, line)
                  && WellMade(cls, source, token, regex' || line);
      GapLonger(cls, source, offset, regex, token.start, line);
    } else if lexed.endedInCommentOrTemplate {
      var at, line :| end <= at < |source| && Gap(cls, source, end, at, line) && OpenComment(source[at..]);
      GapLonger(cls, source, offset, regex, at, line);
    } else {
      var line :| Gap(cls, source, end, |source|, line);
      GapLonger(cls, source, offset, regex, |source|, line);
    }
  }

  /** A token with nothing before it. */
  lemma {:induction false} TokenFirst(cls: Classes, source: string, offset: nat, regex: bool)
    requires Sane(cls) && offset < |source|
    requires LexRound(cls, source, offset, regex).Emitted? || LexRound(cls, source, offset, regex).Final?
    ensures var round := LexRound(cls, source, offset, regex);
      && TokenBehind(cls, source, offset, regex, round.token)
      && (NeverEnds(cls, source, round.token) <==> round.Final?)
      && (round.Final? ==> (round.inString <==> round.token.kind.Literal?))
      && (round.Emitted? ==> (round.regex <==> AllowsRegexAfter(cls, source[offset..round.token.end])))
  {
    TokenIsWellMade(cls, source, offset, regex);
    assert Gap(cls, source, offset, offset, false);
  }

  /**
    From any point of the scan the lexer gives exactly what stands in the text: the tokens, each well made, with
    only white space and whole comments between them, and how the text ends.
  */
  lemma {:induction false} TokensAreTheText(cls: Classes, source: string, offset: nat, regex: bool)
    requires Sane(cls) && offset <= |source|
    ensures Lexing(cls, source, offset, regex, LexFrom(cls, source, offset, regex))
    decreases |source| - offset
  {
    if offset == |source| {
      assert Gap(cls, source, offset, |source|, false);
    } else {
      match LexRound(cls, source, offset, regex)
      case Skipped(end, regex') =>
        TokensAreTheText(cls, source, end, regex');
        LexingLonger(cls, source, offset, regex, LexFrom(cls, source, end, regex'));
      case Unfinished =>
        UnfinishedIsOpen(cls, source, offset, regex);
        assert Gap(cls, source, offset, offset, false);
      case Emitted(token, regex') =>
        TokenFirst(cls, source, offset, regex);
        var rest := LexFrom(cls, source, token.end, regex');
        TokensAreTheText(cls, source, token.end, regex');
        assert ([token] + rest.tokens)[1..] == rest.tokens;
      case Final(token, inString) =>
        TokenFirst(cls, source, offset, regex);
        assert [token][1..] == [];
    }
  }

  /** So every token of a script is well made, for some answer to whether a regular expression may stand there. */
  lemma {:induction false} EveryTokenIsWellMade(cls: Classes, source: string, offset: nat, regex: bool, lexed: Lexed, k: nat)
    requires offset <= |source| && Lexing(cls, source, offset, regex, lexed) && k < |lexed.tokens|
    ensures WellMade(cls, source, lexed.tokens[k], true) || WellMade(cls, source, lexed.tokens[k], false)
    decreases |lexed.tokens|
  {
    var token := lexed.tokens[0];
    if k > 0 {
      assert lexed.tokens[k] == lexed.tokens[1..][k - 1];
      EveryTokenIsWellMade(cls, source, token.end, AllowsRegexAfter(cls, source[token.start..token.end]),
                           lexed.(tokens := lexed.tokens[1..]), k - 1);
    }
  }
}
