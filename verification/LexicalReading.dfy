/**
  Every text is a cut of well-formed code, so that the answer of the scanner of the snippet editor is decided by
  the grammar for every prefix (src/snippet_intelligence.rs:1177-1268).
*/
module LexicalReading {
  import opened LexicalPosition
  import opened Wrappers

  /** `text` is the printed form and what follows it, or a prefix of the printed form. */
  predicate Reads(text: string, printed: string, rest: string, whole: bool) {
    if whole then text == printed + rest else rest == "" && text <= printed
  }

  lemma {:induction false} ReadsBehind(head: string, text: string, printed: string, rest: string, whole: bool)
    requires Reads(text, printed, rest, whole)
    ensures Reads(head + text, head + printed, rest, whole)
  {
    if whole {
      assert head + text == (head + printed) + rest;
    } else {
      assert head + text == (head + printed)[..|head + text|];
    }
  }

  lemma {:induction false} FirstIsSame(text: string, printed: string, rest: string, whole: bool)
    requires Reads(text, printed, rest, whole) && text != "" && printed != ""
    ensures printed[0] == text[0]
  {
  }

  // ---------------------------------------------------------------- quoted bodies and comments

  /** A quoted body up to its closing quote, or one that begins with all of the text. */
  lemma {:induction false} ReadQuoted(text: string, quote: char) returns (body: string, rest: string, whole: bool)
    requires quote == '\'' || quote == '"'
    ensures QuotedBody(body, quote) && |rest| <= |text|
    ensures if whole then text == body + ([quote] + rest) else rest == "" && text <= body
    decreases |text|
  {
    if text == "" {
      body, rest, whole := "", "", false;
    } else if text[0] == quote {
      body, rest, whole := "", text[1..], true;
      assert text == "" + ([quote] + rest);
    } else if text == "\\" {
      body, rest, whole := "\\\\", "", false;
      assert body[2..] == "" && body[..1] == text;
    } else {
      var n := if text[0] == '\\' then 2 else 1;
      var more;
      more, rest, whole := ReadQuoted(text[n..], quote);
      body := text[..n] + more;
      assert body[n..] == more && text == text[..n] + text[n..];
      if whole {
        assert text == body + ([quote] + rest);
      } else {
        ReadsBehind(text[..n], text[n..], more, "", false);
      }
    }
  }

  /** A line comment up to its line break, or all of the text. */
  lemma {:induction false} ReadLine(text: string) returns (body: string, rest: string, whole: bool)
    ensures '\n' !in body && |rest| <= |text|
    ensures if whole then text == body + ("\n" + rest) else rest == "" && text == body
    decreases |text|
  {
    if text == "" {
      body, rest, whole := "", "", false;
    } else if text[0] == '\n' {
      body, rest, whole := "", text[1..], true;
      assert text == "" + ("\n" + rest);
    } else {
      var more;
      more, rest, whole := ReadLine(text[1..]);
      body := [text[0]] + more;
    }
  }

  /** A block comment up to its end, or all of the text. */
  lemma {:induction false} ReadBlock(text: string) returns (body: string, rest: string, whole: bool)
    ensures NoCommentEnd(body) && |rest| <= |text|
    ensures if whole then text == body + ("*/" + rest) else rest == "" && text == body
    decreases |text|
  {
    if text == "" {
      body, rest, whole := "", "", false;
    } else if |text| >= 2 && text[0] == '*' && text[1] == '/' {
      body, rest, whole := "", text[2..], true;
      assert text == "" + ("*/" + rest);
    } else {
      var more;
      more, rest, whole := ReadBlock(text[1..]);
      body := [text[0]] + more;
      forall i | 0 <= i < |body| - 1 ensures !(body[i] == '*' && body[i + 1] == '/') {
        if i > 0 {
          assert body[i] == more[i - 1] && body[i + 1] == more[i];
        } else {
          assert body[1] == text[1];
        }
      }
    }
  }

  // ---------------------------------------------------------------- code

  function Follow(nested: bool): string {
    if nested then "}" else ""
  }

  /** What a reading of code gives: in a template it goes up to the closing brace of its expression. */
  ghost predicate ReadAs(text: string, nested: bool, code: Code, rest: string, whole: bool) {
    && WellFormed(code, Follow(nested)) && (nested ==> Balanced(code)) && (text == "" ==> code == End)
    && Reads(text, Print(code), rest, whole) && |rest| <= |text|
    && (whole ==> if nested then rest != "" && rest[0] == '}' else rest == "")
  }

  /** Code that begins with `head`, and goes on as `next`. */
  lemma {:induction false} GoesOn(
    text: string, head: string, behind: string, nested: bool, code: Code, next: Code, rest: string, whole: bool)
    requires text == head + behind && head != "" && ReadAs(behind, nested, next, rest, whole)
    requires Print(code) == head + Print(next) && WellFormed(code, Follow(nested)) && (nested ==> Balanced(code))
    ensures ReadAs(text, nested, code, rest, whole)
  {
    ReadsBehind(head, behind, Print(next), rest, whole);
  }

  /** Code that the text does not complete. */
  lemma {:induction false} BreaksOff(text: string, nested: bool, code: Code)
    requires text != "" && text <= Print(code) && WellFormed(code, Follow(nested)) && (nested ==> Balanced(code))
    ensures ReadAs(text, nested, code, "", false)
  {
  }

  lemma {:induction false} ReadCode(text: string, nested: bool) returns (code: Code, rest: string, whole: bool)
    ensures ReadAs(text, nested, code, rest, whole)
    decreases |text|, 1
  {
    if text == "" {
      code, rest, whole := End, "", !nested;
    } else if nested && text[0] == '}' {
      code, rest, whole := End, text, true;
      assert text == "" + text;
    } else if text[0] == '\'' || text[0] == '"' {
      code, rest, whole := ReadQuotedCode(text, nested);
    } else if text[0] == '`' {
      code, rest, whole := ReadTemplateCode(text, nested);
    } else if |text| >= 2 && text[0] == '/' && text[1] == '/' {
      code, rest, whole := ReadLineCode(text, nested);
    } else if |text| >= 2 && text[0] == '/' && text[1] == '*' {
      code, rest, whole := ReadBlockCode(text, nested);
    } else if nested && text[0] == '{' {
      code, rest, whole := ReadBracesCode(text);
    } else {
      code, rest, whole := ReadPlainCode(text, nested);
    }
  }

  /** One character that stands for itself, or outside templates a loose brace. */
  lemma {:induction false} ReadPlainCode(text: string, nested: bool) returns (code: Code, rest: string, whole: bool)
    requires text != "" && text[0] !in {'\'', '"', '`'} && (nested ==> text[0] != '{' && text[0] != '}')
    requires |text| >= 2 && text[0] == '/' ==> text[1] != '/' && text[1] != '*'
    ensures ReadAs(text, nested, code, rest, whole)
    decreases |text|, 0
  {
    var behind := text[1..];
    var next;
    next, rest, whole := ReadCode(behind, nested);
    code := if text[0] == '{' || text[0] == '}' then Loose(text[0], next) else Plain(text[0], next);
    if text[0] == '/' {
      Divides(behind, nested, next, rest, whole);
    }
    GoesOn(text, [text[0]], behind, nested, code, next, rest, whole);
  }

  lemma {:induction false} Divides(behind: string, nested: bool, next: Code, rest: string, whole: bool)
    requires ReadAs(behind, nested, next, rest, whole)
    requires behind != "" ==> behind[0] != '/' && behind[0] != '*'
    ensures DividesBefore(Print(next), Follow(nested))
  {
    if behind != "" && Print(next) != "" {
      FirstIsSame(behind, Print(next), rest, whole);
      assert (Print(next) + Follow(nested))[0] == Print(next)[0];
    } else {
      assert Print(next) == "" && "" + Follow(nested) == Follow(nested);
    }
  }

  lemma {:induction false} ReadQuotedCode(text: string, nested: bool) returns (code: Code, rest: string, whole: bool)
    requires text != "" && (text[0] == '\'' || text[0] == '"')
    ensures ReadAs(text, nested, code, rest, whole)
    decreases |text|, 0
  {
    var quote := text[0];
    var body, behind, closed := ReadQuoted(text[1..], quote);
    assert text == [quote] + text[1..];
    if closed {
      var next;
      next, rest, whole := ReadCode(behind, nested);
      code := Quoted(quote, body, next);
      Enclosed(text, [quote], body, [quote], behind, Print(next));
      GoesOn(text, [quote] + (body + [quote]), behind, nested, code, next, rest, whole);
    } else {
      code, rest, whole := Quoted(quote, body, End), "", false;
      ReadsBehind([quote], text[1..], body + ([quote] + ""), "", false);
      BreaksOff(text, nested, code);
    }
  }

  /** An opener, a body and a closer, before what stands behind and before what is printed there. */
  lemma {:induction false} Enclosed(text: string, open: string, body: string, close: string, behind: string, printed: string)
    requires text == open + (body + (close + behind))
    ensures text == (open + (body + close)) + behind
    ensures open + (body + (close + printed)) == (open + (body + close)) + printed
  {
  }

  lemma {:induction false} ReadLineCode(text: string, nested: bool) returns (code: Code, rest: string, whole: bool)
    requires |text| >= 2 && text[0] == '/' && text[1] == '/'
    ensures ReadAs(text, nested, code, rest, whole)
    decreases |text|, 0
  {
    var body, behind, closed := ReadLine(text[2..]);
    assert text == "//" + text[2..];
    if closed {
      var next;
      next, rest, whole := ReadCode(behind, nested);
      code := Line(body, next);
      Enclosed(text, "//", body, "\n", behind, Print(next));
      GoesOn(text, "//" + (body + "\n"), behind, nested, code, next, rest, whole);
    } else {
      code, rest, whole := Line(body, End), "", false;
      ReadsBehind("//", text[2..], body + ("\n" + ""), "", false);
      BreaksOff(text, nested, code);
    }
  }

  lemma {:induction false} ReadBlockCode(text: string, nested: bool) returns (code: Code, rest: string, whole: bool)
    requires |text| >= 2 && text[0] == '/' && text[1] == '*'
    ensures ReadAs(text, nested, code, rest, whole)
    decreases |text|, 0
  {
    var body, behind, closed := ReadBlock(text[2..]);
    assert text == "/*" + text[2..];
    if closed {
      var next;
      next, rest, whole := ReadCode(behind, nested);
      code := Block(body, next);
      Enclosed(text, "/*", body, "*/", behind, Print(next));
      GoesOn(text, "/*" + (body + "*/"), behind, nested, code, next, rest, whole);
    } else {
      code, rest, whole := Block(body, End), "", false;
      ReadsBehind("/*", text[2..], body + ("*/" + ""), "", false);
      BreaksOff(text, nested, code);
    }
  }

  lemma {:induction false} ReadBracesCode(text: string) returns (code: Code, rest: string, whole: bool)
    requires text != "" && text[0] == '{'
    ensures ReadAs(text, true, code, rest, whole)
    decreases |text|, 0
  {
    var inner, behind, closed := ReadCode(text[1..], true);
    assert text == "{" + text[1..];
    if closed {
      var next;
      next, rest, whole := ReadCode(behind[1..], true);
      code := Braces(inner, next);
      assert behind == "}" + behind[1..];
      Enclosed(text, "{", Print(inner), "}", behind[1..], Print(next));
      GoesOn(text, "{" + (Print(inner) + "}"), behind[1..], true, code, next, rest, whole);
    } else {
      code, rest, whole := Braces(inner, End), "", false;
      ReadsBehind("{", text[1..], Print(inner) + ("}" + ""), "", false);
      BreaksOff(text, true, code);
    }
  }

  lemma {:induction false} ReadTemplateCode(text: string, nested: bool) returns (code: Code, rest: string, whole: bool)
    requires text != "" && text[0] == '`'
    ensures ReadAs(text, nested, code, rest, whole)
    decreases |text|, 0
  {
    var parts, behind, closed := ReadParts(text[1..]);
    assert text == "`" + text[1..];
    if closed {
      var next;
      next, rest, whole := ReadCode(behind, nested);
      code := Template(parts, next);
      var head := "`" + PrintParts(parts);
      assert Print(code) == head + Print(next) && text == head + behind;
      GoesOn(text, head, behind, nested, code, next, rest, whole);
    } else {
      code, rest, whole := Template(parts, End), "", false;
      ReadsBehind("`", text[1..], PrintParts(parts) + "", "", false);
      BreaksOff(text, nested, code);
    }
  }

  // ---------------------------------------------------------------- templates

  ghost predicate PartsReadAs(text: string, parts: Parts, rest: string, whole: bool) {
    WellFormedParts(parts) && Reads(text, PrintParts(parts), rest, whole) && |rest| <= |text|
    && (text == "" ==> parts == Close)
  }

  lemma {:induction false} PartsGoOn(
    text: string, head: string, behind: string, parts: Parts, more: Parts, rest: string, whole: bool)
    requires text == head + behind && head != "" && PartsReadAs(behind, more, rest, whole)
    requires PrintParts(parts) == head + PrintParts(more) && WellFormedParts(parts)
    ensures PartsReadAs(text, parts, rest, whole)
  {
    ReadsBehind(head, behind, PrintParts(more), rest, whole);
  }

  lemma {:induction false} ReadParts(text: string) returns (parts: Parts, rest: string, whole: bool)
    ensures PartsReadAs(text, parts, rest, whole)
    decreases |text|, 1
  {
    if text == "" {
      parts, rest, whole := Close, "", false;
    } else if text[0] == '`' {
      parts, rest, whole := Close, text[1..], true;
      assert text == "`" + rest;
    } else if text == "\\" {
      parts, rest, whole := Escape('\\', Close), "", false;
      assert PrintParts(parts) == "\\\\`" && PrintParts(parts)[..1] == text;
    } else if |text| >= 2 && text[0] == '$' && text[1] == '{' {
      parts, rest, whole := ReadHole(text);
    } else {
      var n := if text[0] == '\\' then 2 else 1;
      var more;
      more, rest, whole := ReadParts(text[n..]);
      parts := if n == 2 then Escape(text[1], more) else Raw(text[0], more);
      assert text == text[..n] + text[n..] && PrintParts(parts) == text[..n] + PrintParts(more);
      if n == 1 && text[1..] != "" {
        FirstIsSame(text[1..], PrintParts(more), rest, whole);
      }
      PartsGoOn(text, text[..n], text[n..], parts, more, rest, whole);
    }
  }

  lemma {:induction false} ReadHole(text: string) returns (parts: Parts, rest: string, whole: bool)
    requires |text| >= 2 && text[0] == '$' && text[1] == '{'
    ensures PartsReadAs(text, parts, rest, whole)
    decreases |text|, 0
  {
    var inner, behind, closed := ReadCode(text[2..], true);
    assert text == "${" + text[2..];
    if closed {
      var more;
      more, rest, whole := ReadParts(behind[1..]);
      parts := Hole(inner, more);
      assert behind == "}" + behind[1..];
      Enclosed(text, "${", Print(inner), "}", behind[1..], PrintParts(more));
      PartsGoOn(text, "${" + (Print(inner) + "}"), behind[1..], parts, more, rest, whole);
    } else {
      parts, rest, whole := Hole(inner, Close), "", false;
      ReadsBehind("${", text[2..], Print(inner) + ("}" + "`"), "", false);
    }
  }

  // ---------------------------------------------------------------- the theorem

  /** Every text is a cut of well-formed code, and is reported as code exactly when the grammar says so. */
  lemma {:induction false} EveryTextIsDecided(text: string) returns (code: Code)
    ensures WellFormed(code, "") && |text| <= |Print(code)| && text == Print(code)[..|text|]
    ensures Scan(text, 0, START).mode == InCode <==> CodeAt(code, |text|)
  {
    var rest, whole;
    code, rest, whole := ReadCode(text, false);
    CutsAreReportedExactly(code, |text|);
  }
}
