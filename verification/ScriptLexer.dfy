/**
  The script lexer. It keeps no state between tokens but its offset and whether a slash would start a
  regular expression, and the theorem is that cutting the source at the end of a token loses nothing
  before the cut. The Unicode character classes are a parameter.
*/
module ScriptLexer {
  import opened ScriptLiteral
  import opened Sequences
  import opened Wrappers

  datatype Classes = Classes(whitespace: char -> bool, alphabetic: char -> bool, numeric: char -> bool)

  datatype Kind = Identifier(name: string) | Literal(literal: StringLiteral) | Dot | LeftParen | RightParen | Comma | Other

  datatype Token = Token(kind: Kind, start: nat, end: nat)

  datatype Lexed = Lexed(tokens: seq<Token>, endedInCommentOrTemplate: bool, endedInQuotedString: bool)

  // ---------------------------------------------------------------- skipping

  function SkipTemplate(source: string, offset: nat, escaped: bool): (r: (nat, bool))
    requires offset <= |source|
    ensures offset <= r.0 <= |source| && (r.1 ==> offset < r.0) && (!r.1 ==> r.0 == |source|)
    decreases |source| - offset
  {
    if offset == |source| then (offset, false)
    else if escaped then SkipTemplate(source, offset + 1, false)
    else if source[offset] == '\\' then SkipTemplate(source, offset + 1, true)
    else if source[offset] == '`' then (offset + 1, true)
    else SkipTemplate(source, offset + 1, false)
  }

  method SkipTemplateLoop(source: string, start: nat) returns (end: nat, terminated: bool)
    requires start < |source|
    ensures (end, terminated) == SkipTemplate(source, start + 1, false)
  {
    var offset, escaped := start + 1, false;
    while offset < |source|
      invariant start < offset <= |source|
      invariant SkipTemplate(source, offset, escaped) == SkipTemplate(source, start + 1, false)
    {
      var character := source[offset];
      offset := offset + 1;
      if escaped {
        escaped := false;
      } else if character == '\\' {
        escaped := true;
      } else if character == '`' {
        return offset, true;
      }
    }
    return offset, false;
  }

  function SkipFlags(cls: Classes, source: string, offset: nat): (end: nat)
    requires offset <= |source|
    ensures offset <= end <= |source|
    decreases |source| - offset
  {
    if offset < |source| && cls.alphabetic(source[offset]) then SkipFlags(cls, source, offset + 1) else offset
  }

  function SkipRegex(cls: Classes, source: string, offset: nat, escaped: bool, inClass: bool): (r: (nat, bool))
    requires offset <= |source|
    ensures offset <= r.0 <= |source| && (offset < |source| ==> offset < r.0)
    decreases |source| - offset
  {
    if offset == |source| then (offset, false)
    else
      var c := source[offset];
      if c == '\n' || c == '\r' then (offset + 1, false)
      else if escaped then SkipRegex(cls, source, offset + 1, false, inClass)
      else if c == '\\' then SkipRegex(cls, source, offset + 1, true, inClass)
      else if c == '[' then SkipRegex(cls, source, offset + 1, false, true)
      else if c == ']' then SkipRegex(cls, source, offset + 1, false, false)
      else if c == '/' && !inClass then (SkipFlags(cls, source, offset + 1), true)
      else SkipRegex(cls, source, offset + 1, false, inClass)
  }

  method SkipRegexLoop(cls: Classes, source: string, start: nat) returns (end: nat, terminated: bool)
    requires start < |source|
    ensures (end, terminated) == SkipRegex(cls, source, start + 1, false, false)
  {
    var offset, escaped, inClass := start + 1, false, false;
    while offset < |source|
      invariant start < offset <= |source|
      invariant SkipRegex(cls, source, offset, escaped, inClass) == SkipRegex(cls, source, start + 1, false, false)
    {
      var character := source[offset];
      offset := offset + 1;
      if character == '\n' || character == '\r' {
        return offset, false;
      }
      if escaped {
        escaped := false;
        continue;
      }
      if character == '\\' {
        escaped := true;
      } else if character == '[' {
        inClass := true;
      } else if character == ']' {
        inClass := false;
      } else if character == '/' && !inClass {
        ghost var flags := offset;
        while offset < |source| && cls.alphabetic(source[offset])
          invariant flags <= offset <= |source|
          invariant SkipFlags(cls, source, offset) == SkipFlags(cls, source, flags)
        {
          offset := offset + 1;
        }
        return offset, true;
      }
    }
    return offset, false;
  }

  predicate IsIdentifierStart(cls: Classes, c: char) {
    c == '_' || c == '$' || cls.alphabetic(c)
  }

  predicate IsIdentifierContinue(cls: Classes, c: char) {
    IsIdentifierStart(cls, c) || cls.numeric(c)
  }

  function IdentifierEnd(cls: Classes, source: string, offset: nat): (end: nat)
    requires offset <= |source|
    ensures offset <= end <= |source|
    decreases |source| - offset
  {
    if offset < |source| && IsIdentifierContinue(cls, source[offset]) then IdentifierEnd(cls, source, offset + 1) else offset
  }

  predicate KeywordAllowsRegexAfter(identifier: string) {
    identifier in {"return", "throw", "case", "delete", "void", "typeof", "instanceof", "in", "of", "new", "yield", "await"}
  }

  predicate RegexMayFollow(c: char) {
    c in {'(', '[', '{', ',', ';', ':', '=', '!', '?', '+', '-', '*', '%', '&', '|', '^', '~', '<', '>'}
  }

  // ---------------------------------------------------------------- one round of the loop

  datatype Round =
    | Skipped(end: nat, regex: bool)              // whitespace or a comment
    | Unfinished                                  // a comment that runs to the end
    | Emitted(token: Token, regex: bool)
    | Final(token: Token, inString: bool)         // a token that never ends: lexing stops

  predicate StartsWith(source: string, offset: nat, a: char, b: char) {
    offset + 1 < |source| && source[offset] == a && source[offset + 1] == b
  }

  function SlashRound(source: string, offset: nat, regex: bool): Option<Round>
    requires offset < |source|
  {
    if StartsWith(source, offset, '/', '/') then
      match Find(source, offset + 2, "\n")
      case Some(end) => Some(Skipped(end + 1, true))
      case None => Some(Unfinished)
    else if StartsWith(source, offset, '/', '*') then
      match Find(source, offset + 2, "*/")
      case Some(end) => Some(Skipped(end + 2, regex))
      case None => Some(Unfinished)
    else None
  }

  function KindOf(c: char): Kind {
    if c == '.' then Dot else if c == '(' then LeftParen else if c == ')' then RightParen else if c == ',' then Comma else Other
  }

  function PlainRound(cls: Classes, source: string, offset: nat): (r: Round)
    requires offset < |source|
    ensures r.Emitted? && offset == r.token.start < r.token.end <= |source|
  {
    if IsIdentifierStart(cls, source[offset]) then
      var end := IdentifierEnd(cls, source, offset + 1);
      var name := source[offset..end];
      Emitted(Token(Identifier(name), offset, end), KeywordAllowsRegexAfter(name))
    else Emitted(Token(KindOf(source[offset]), offset, offset + 1), RegexMayFollow(source[offset]))
  }

  function TokenRound(cls: Classes, source: string, offset: nat, regex: bool): Round
    requires offset < |source|
  {
    var c := source[offset];
    if c == '`' then
      var (end, terminated) := SkipTemplate(source, offset + 1, false);
      if terminated then Emitted(Token(Other, offset, end), false) else Final(Token(Other, offset, end), false)
    else if c == '\'' || c == '"' then
      var literal := LiteralAt(source, offset, c);
      var token := Token(Literal(literal), offset, literal.end);
      if literal.terminated then Emitted(token, false) else Final(token, true)
    else if c == '/' && regex && SkipRegex(cls, source, offset + 1, false, false).0 > offset + 1 then
      var (end, terminated) := SkipRegex(cls, source, offset + 1, false, false);
      if terminated then Emitted(Token(Other, offset, end), false) else Final(Token(Other, offset, end), false)
    else PlainRound(cls, source, offset)
  }

  function LexRound(cls: Classes, source: string, offset: nat, regex: bool): (r: Round)
    requires offset < |source|
    ensures r.Skipped? ==> offset < r.end <= |source|
    ensures r.Emitted? || r.Final? ==> offset == r.token.start < r.token.end <= |source|
  {
    if cls.whitespace(source[offset]) then Skipped(offset + 1, regex)
    else if SlashRound(source, offset, regex).Some? then SlashRound(source, offset, regex).value
    else TokenRound(cls, source, offset, regex)
  }

  function LexFrom(cls: Classes, source: string, offset: nat, regex: bool): Lexed
    requires offset <= |source|
    decreases |source| - offset
  {
    if offset == |source| then Lexed([], false, false)
    else
      match LexRound(cls, source, offset, regex)
      case Skipped(end, regex') => LexFrom(cls, source, end, regex')
      case Unfinished => Lexed([], true, false)
      case Emitted(token, regex') =>
        var rest := LexFrom(cls, source, token.end, regex');
        rest.(tokens := [token] + rest.tokens)
      case Final(token, inString) => Lexed([token], !inString, inString)
  }

  /** `tokens` are out and `rest` is still to come of `whole`. */
  ghost predicate Continues(whole: Lexed, tokens: seq<Token>, rest: Lexed) {
    whole == rest.(tokens := tokens + rest.tokens)
  }

  lemma {:induction false} OneMoreToken(cls: Classes, source: string, offset: nat, regex: bool, whole: Lexed, tokens: seq<Token>)
    requires offset < |source| && LexRound(cls, source, offset, regex).Emitted?
    requires Continues(whole, tokens, LexFrom(cls, source, offset, regex))
    ensures var round := LexRound(cls, source, offset, regex);
            Continues(whole, tokens + [round.token], LexFrom(cls, source, round.token.end, round.regex))
  {
    var round := LexRound(cls, source, offset, regex);
    Reassociate(tokens, [round.token], LexFrom(cls, source, round.token.end, round.regex).tokens);
  }

  method Lex(cls: Classes, source: string) returns (lexed: Lexed)
    ensures lexed == LexFrom(cls, source, 0, true)
  {
    var tokens: seq<Token> := [];
    var offset, canStartRegex := 0, true;
    ghost var whole := LexFrom(cls, source, 0, true);
    while offset < |source|
      invariant offset <= |source|
      invariant Continues(whole, tokens, LexFrom(cls, source, offset, canStartRegex))
      decreases |source| - offset
    {
      var round := LexRound(cls, source, offset, canStartRegex);
      match round {
        case Skipped(end, regex) =>
          offset, canStartRegex := end, regex;
        case Unfinished =>
          return Lexed(tokens, true, false);
        case Emitted(token, regex) =>
          OneMoreToken(cls, source, offset, canStartRegex, whole, tokens);
          tokens, offset, canStartRegex := tokens + [token], token.end, regex;
        case Final(token, inString) =>
          return Lexed(tokens + [token], !inString, inString);
      }
    }
    return Lexed(tokens, false, false);
  }

  // ---------------------------------------------------------------- spans

  /** Tokens are nonempty, in order and disjoint, inside the text from `offset` on. */
  ghost predicate Spans(tokens: seq<Token>, offset: nat, limit: nat) {
    && (forall i :: 0 <= i < |tokens| ==> offset <= tokens[i].start < tokens[i].end <= limit)
    && (forall i, j :: 0 <= i < j < |tokens| ==> tokens[i].end <= tokens[j].start)
  }

  lemma {:induction false} TokensAreSpans(cls: Classes, source: string, offset: nat, regex: bool)
    requires offset <= |source|
    ensures Spans(LexFrom(cls, source, offset, regex).tokens, offset, |source|)
    decreases |source| - offset
  {
    if offset < |source| {
      match LexRound(cls, source, offset, regex)
      case Skipped(end, regex') => TokensAreSpans(cls, source, end, regex');
      case Emitted(token, regex') => TokensAreSpans(cls, source, token.end, regex');
      case _ =>
    }
  }

  // ---------------------------------------------------------------- cutting the source

  lemma {:induction false} SkipTemplateCut(source: string, offset: nat, escaped: bool, cut: nat)
    requires offset <= cut <= |source|
    requires SkipTemplate(source, offset, escaped).1 && SkipTemplate(source, offset, escaped).0 <= cut
    ensures SkipTemplate(source[..cut], offset, escaped) == SkipTemplate(source, offset, escaped)
    decreases |source| - offset
  {
    if offset < cut {
      if escaped {
        SkipTemplateCut(source, offset + 1, false, cut);
      } else if source[offset] != '`' {
        SkipTemplateCut(source, offset + 1, source[offset] == '\\', cut);
      }
    }
  }

  lemma {:induction false} SkipFlagsCut(cls: Classes, source: string, offset: nat, cut: nat)
    requires offset <= |source| && SkipFlags(cls, source, offset) <= cut <= |source|
    ensures SkipFlags(cls, source[..cut], offset) == SkipFlags(cls, source, offset)
    decreases |source| - offset
  {
    if offset < cut && cls.alphabetic(source[offset]) {
      SkipFlagsCut(cls, source, offset + 1, cut);
    }
  }

  lemma {:induction false} SkipRegexCut(cls: Classes, source: string, offset: nat, escaped: bool, inClass: bool, cut: nat)
    requires offset <= |source| && SkipRegex(cls, source, offset, escaped, inClass).0 <= cut < |source|
    ensures SkipRegex(cls, source[..cut], offset, escaped, inClass) == SkipRegex(cls, source, offset, escaped, inClass)
    decreases |source| - offset
  {
    var c := source[offset];
    if c == '\n' || c == '\r' {
    } else if escaped {
      SkipRegexCut(cls, source, offset + 1, false, inClass, cut);
    } else if c == '/' && !inClass {
      SkipFlagsCut(cls, source, offset + 1, cut);
    } else {
      SkipRegexCut(cls, source, offset + 1, c == '\\', c == '[' || (c != ']' && inClass), cut);
    }
  }

  lemma {:induction false} IdentifierEndCut(cls: Classes, source: string, offset: nat, cut: nat)
    requires offset <= |source| && IdentifierEnd(cls, source, offset) <= cut <= |source|
    ensures IdentifierEnd(cls, source[..cut], offset) == IdentifierEnd(cls, source, offset)
    decreases |source| - offset
  {
    if offset < cut && IsIdentifierContinue(cls, source[offset]) {
      IdentifierEndCut(cls, source, offset + 1, cut);
    }
  }

  /** A string literal stopped by a line break, all its escapes valid so far: the one token a cut changes. */
  predicate LosesItsLineBreak(source: string, token: Token) {
    && token.kind.Literal? && !token.kind.literal.terminated && token.end < |source|
    && token.start < |source|
    && ScanFrom(source, token.kind.literal.quote, token.start + 1, [], true).clean
  }

  /** The same token as the cut source shows it. */
  function AfterCut(source: string, token: Token): Token {
    if LosesItsLineBreak(source, token) then
      var decoded := ScanFrom(source, token.kind.literal.quote, token.start + 1, [], true).decoded;
      token.(kind := Literal(token.kind.literal.(value := Some(decoded))))
    else token
  }

  lemma {:induction false} LiteralCut(source: string, start: nat, quote: char, cut: nat)
    requires start < cut < |source| && LiteralAt(source, start, quote).end <= cut
    requires LiteralAt(source, start, quote).terminated || LiteralAt(source, start, quote).end == cut
    ensures var token := Token(Literal(LiteralAt(source, start, quote)), start, LiteralAt(source, start, quote).end);
            Token(Literal(LiteralAt(source[..cut], start, quote)), start, LiteralAt(source[..cut], start, quote).end)
            == AfterCut(source, token)
  {
    ScanCut(source, quote, start + 1, [], true, cut);
    UnterminatedIsBroken(source, quote, start + 1, [], true);
  }

  lemma {:induction false} UnterminatedIsBroken(source: string, quote: char, offset: nat, decoded: string, clean: bool)
    requires offset <= |source|
    ensures var scan := ScanFrom(source, quote, offset, decoded, clean);
            && (scan.terminated ==> !scan.broken)
            && (!scan.terminated && scan.end < |source| ==> scan.broken)
    decreases |source| - offset
  {
    if offset < |source| && NextPiece(source, quote, offset).Text? {
      var p := NextPiece(source, quote, offset);
      UnterminatedIsBroken(source, quote, p.end, decoded + p.text, clean && p.ok);
    }
  }

  lemma {:induction false} SlashRoundCut(source: string, offset: nat, regex: bool, cut: nat)
    requires offset < cut < |source|
    requires SlashRound(source, offset, regex).Some? ==>
               SlashRound(source, offset, regex).value.Skipped? && SlashRound(source, offset, regex).value.end <= cut
    ensures SlashRound(source[..cut], offset, regex) == SlashRound(source, offset, regex)
  {
    if StartsWith(source, offset, '/', '/') {
      FindCut(source, offset + 2, "\n", cut);
    } else if StartsWith(source, offset, '/', '*') {
      FindCut(source, offset + 2, "*/", cut);
    }
  }

  lemma {:induction false} PlainRoundCut(cls: Classes, source: string, offset: nat, cut: nat)
    requires offset < cut < |source| && PlainRound(cls, source, offset).token.end <= cut
    ensures PlainRound(cls, source[..cut], offset) == PlainRound(cls, source, offset)
  {
    if IsIdentifierStart(cls, source[offset]) {
      IdentifierEndCut(cls, source, offset + 1, cut);
      var end := IdentifierEnd(cls, source, offset + 1);
      assert source[..cut][offset..end] == source[offset..end];
    }
  }

  /** A round whose token or gap ends by the cut comes out the same, but for a lost line break. */
  lemma {:induction false} TokenRoundCut(cls: Classes, source: string, offset: nat, regex: bool, cut: nat)
    requires offset < cut < |source|
    requires var round := TokenRound(cls, source, offset, regex);
             (round.Emitted? && round.token.end <= cut) || (round.Final? && round.token.end == cut)
    ensures TokenRound(cls, source[..cut], offset, regex)
         == (var round := TokenRound(cls, source, offset, regex); round.(token := AfterCut(source, round.token)))
  {
    var c := source[offset];
    if c == '`' {
      SkipTemplateCut(source, offset + 1, false, cut);
    } else if c == '\'' || c == '"' {
      LiteralCut(source, offset, c, cut);
    } else if c == '/' && regex && SkipRegex(cls, source, offset + 1, false, false).0 > offset + 1 {
      SkipRegexCut(cls, source, offset + 1, false, false, cut);
    } else {
      PlainRoundCut(cls, source, offset, cut);
    }
  }

  /** A round that stops by the cut is the same round in the cut source, but for a lost line break. */
  lemma {:induction false} RoundCut(cls: Classes, source: string, offset: nat, regex: bool, cut: nat)
    requires offset < cut < |source|
    requires var round := LexRound(cls, source, offset, regex);
             || (round.Skipped? && round.end <= cut) || (round.Emitted? && round.token.end <= cut)
             || (round.Final? && round.token.end == cut)
    ensures var round := LexRound(cls, source, offset, regex);
            LexRound(cls, source[..cut], offset, regex)
            == if round.Skipped? then round else round.(token := AfterCut(source, round.token))
  {
    if !cls.whitespace(source[offset]) {
      SlashRoundCut(source, offset, regex, cut);
      if SlashRound(source, offset, regex).None? {
        TokenRoundCut(cls, source, offset, regex, cut);
      }
    }
  }

  lemma {:induction false} LastToken(tokens: seq<Token>, offset: nat, limit: nat, k: nat)
    requires Spans(tokens, offset, limit) && k < |tokens| && tokens[k].end == limit
    ensures k == |tokens| - 1
  {
    assert tokens[|tokens| - 1].start < limit;
  }

  /** What the cut leaves of the token sequence. */
  ghost predicate CutAfter(cls: Classes, source: string, offset: nat, regex: bool, tokens: seq<Token>, k: nat)
    requires k < |tokens|
  {
    var cut := tokens[k].end;
    && offset <= cut <= |source|
    && LexFrom(cls, source[..cut], offset, regex).tokens == tokens[..k] + [AfterCut(source, tokens[k])]
  }

  lemma {:induction false} CutAfterEmitted(cls: Classes, source: string, offset: nat, regex: bool,
                                           token: Token, regex': bool, rest: seq<Token>, k: nat)
    requires offset < |source| && LexRound(cls, source, offset, regex) == Emitted(token, regex')
    requires Spans(rest, token.end, |source|) && k <= |rest|
    requires var cut := ([token] + rest)[k].end; cut < |source|
    requires k > 0 ==> CutAfter(cls, source, token.end, regex', rest, k - 1)
    ensures CutAfter(cls, source, offset, regex, [token] + rest, k)
  {
    var tokens := [token] + rest;
    var cut := tokens[k].end;
    RoundCut(cls, source, offset, regex, cut);
    var token' := AfterCut(source, token);
    if k > 0 {
      EmittedIsTerminated(cls, source, offset, regex);
      assert tokens[..k] + [AfterCut(source, tokens[k])] == [token] + (rest[..k - 1] + [AfterCut(source, rest[k - 1])]);
    } else {
      assert LexFrom(cls, source[..cut], cut, regex').tokens == [];
      assert tokens[..0] + [token'] == [token'] + [];
    }
  }

  lemma {:induction false} CutAfterSkipped(cls: Classes, source: string, offset: nat, regex: bool,
                                           end: nat, regex': bool, tokens: seq<Token>, k: nat)
    requires offset < |source| && LexRound(cls, source, offset, regex) == Skipped(end, regex')
    requires k < |tokens| && tokens[k].end < |source| && CutAfter(cls, source, end, regex', tokens, k)
    ensures CutAfter(cls, source, offset, regex, tokens, k)
  {
    RoundCut(cls, source, offset, regex, tokens[k].end);
  }

  lemma {:induction false} CutAfterFinal(cls: Classes, source: string, offset: nat, regex: bool,
                                         token: Token, inString: bool)
    requires offset < |source| && LexRound(cls, source, offset, regex) == Final(token, inString)
    requires offset < token.end < |source|
    ensures CutAfter(cls, source, offset, regex, [token], 0)
  {
    RoundCut(cls, source, offset, regex, token.end);
  }

  lemma {:induction false} EmittedIsTerminated(cls: Classes, source: string, offset: nat, regex: bool)
    requires offset < |source| && LexRound(cls, source, offset, regex).Emitted?
    ensures var token := LexRound(cls, source, offset, regex).token; AfterCut(source, token) == token
  {
  }

  lemma {:induction false} LexCut(cls: Classes, source: string, offset: nat, regex: bool, k: nat)
    requires offset <= |source| && k < |LexFrom(cls, source, offset, regex).tokens|
    ensures CutAfter(cls, source, offset, regex, LexFrom(cls, source, offset, regex).tokens, k)
    decreases |source| - offset
  {
    var tokens := LexFrom(cls, source, offset, regex).tokens;
    var cut := tokens[k].end;
    TokensAreSpans(cls, source, offset, regex);
    if cut == |source| {
      LastToken(tokens, offset, |source|, k);
      assert source[..cut] == source && tokens == tokens[..k] + [tokens[k]];
    } else {
      match LexRound(cls, source, offset, regex)
      case Skipped(end, regex') =>
        LexCut(cls, source, end, regex', k);
        CutAfterSkipped(cls, source, offset, regex, end, regex', tokens, k);
      case Emitted(token, regex') =>
        TokensAreSpans(cls, source, token.end, regex');
        if k > 0 {
          LexCut(cls, source, token.end, regex', k - 1);
        }
        CutAfterEmitted(cls, source, offset, regex, token, regex', LexFrom(cls, source, token.end, regex').tokens, k);
      case Final(token, inString) =>
        CutAfterFinal(cls, source, offset, regex, token, inString);
    }
  }

  lemma {:induction false} AfterCutDiffers(source: string, token: Token)
    requires token.kind.Literal? ==>
               && token.start < |source| && token.end == token.kind.literal.end
               && token.kind.literal == LiteralAt(source, token.start, token.kind.literal.quote)
    ensures AfterCut(source, token) == token <==> !LosesItsLineBreak(source, token)
  {
    if token.kind.Literal? && token.start < |source| {
      UnterminatedIsBroken(source, token.kind.literal.quote, token.start + 1, [], true);
    }
  }

  lemma {:induction false} SameLast<T>(s: seq<T>, k: nat, x: T)
    requires k < |s|
    ensures s[..k] + [x] == s[..k + 1] <==> x == s[k]
  {
    assert s[..k + 1] == s[..k] + [s[k]];
    if s[..k] + [x] == s[..k + 1] {
      assert (s[..k] + [x])[k] == s[..k + 1][k];
    }
  }

  /**
    Cutting the source at the end of a token gives exactly the tokens up to there, unless that token is a
    string literal stopped by a line break after valid escapes only: it then gains a value.
  */
  lemma {:induction false} LexingIsStableUnderTruncation(cls: Classes, source: string, k: nat)
    requires k < |LexFrom(cls, source, 0, true).tokens|
    ensures var tokens := LexFrom(cls, source, 0, true).tokens;
            && tokens[k].end <= |source|
            && (LexFrom(cls, source[..tokens[k].end], 0, true).tokens == tokens[..k + 1]
                <==> !LosesItsLineBreak(source, tokens[k]))
  {
    var tokens := LexFrom(cls, source, 0, true).tokens;
    LexCut(cls, source, 0, true, k);
    LiteralsAreScanned(cls, source, 0, true, k);
    AfterCutDiffers(source, tokens[k]);
    SameLast(tokens, k, AfterCut(source, tokens[k]));
  }

  /** A quote, a letter and a line break: cut behind the letter, the literal gains the value it did not have. */
  lemma {:induction false} LineBreakIsLost(cls: Classes)
    requires !cls.whitespace('\'')
    ensures var source := "'a\nb";
            var before, after := LexFrom(cls, source, 0, true).tokens, LexFrom(cls, source[..2], 0, true).tokens;
            && |before| >= 1 && before[0].end == 2 && LosesItsLineBreak(source, before[0])
            && before[0].kind == Literal(StringLiteral(None, '\'', 1, 0, 2, false))
            && after == [before[0].(kind := Literal(StringLiteral(Some("a"), '\'', 1, 0, 2, false)))]
  {
    var source := "'a\nb";
    assert ScanFrom(source, '\'', 1, [], true) == ScanFrom(source, '\'', 2, "a", true);
    assert ScanFrom(source[..2], '\'', 1, [], true) == ScanFrom(source[..2], '\'', 2, "a", true);
  }

  /** Every literal token carries what scanning its own text gives. */
  lemma {:induction false} LiteralsAreScanned(cls: Classes, source: string, offset: nat, regex: bool, k: nat)
    requires offset <= |source| && k < |LexFrom(cls, source, offset, regex).tokens|
    ensures var token := LexFrom(cls, source, offset, regex).tokens[k];
            token.kind.Literal? ==>
              && token.start < |source| && token.end == token.kind.literal.end
              && token.kind.literal == LiteralAt(source, token.start, token.kind.literal.quote)
    decreases |source| - offset
  {
    match LexRound(cls, source, offset, regex)
    case Skipped(end, regex') => LiteralsAreScanned(cls, source, end, regex', k);
    case Emitted(token, regex') => if k > 0 { LiteralsAreScanned(cls, source, token.end, regex', k - 1); }
    case _ =>
  }
}
