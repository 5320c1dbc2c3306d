/**
  JSON Pointer text (RFC 6901): printing reference tokens as discovery does, reading them back as
  section 4 says, and the syntax check of annotation paths.
*/
module JsonPointer {
  import opened Wrappers

  // ---------------------------------------------------------------- printing

  /** `str::replace` of one character. */
  function ReplaceChar(s: string, c: char, text: string): string {
    if s == [] then [] else (if s[0] == c then text else [s[0]]) + ReplaceChar(s[1..], c, text)
  }

  function EscapeToken(token: string): string {
    ReplaceChar(ReplaceChar(token, '~', "~0"), '/', "~1")
  }

  function Encode(tokens: seq<string>): string {
    if tokens == [] then "" else "/" + EscapeToken(tokens[0]) + Encode(tokens[1..])
  }

  function Digits(n: nat): string {
    if n < 10 then [(n + '0' as nat) as char] else Digits(n / 10) + [(n % 10 + '0' as nat) as char]
  }

  // ---------------------------------------------------------------- reading

  /** Replaces every occurrence of the two characters `a`, `b`, from left to right. */
  function ReplacePair(s: string, a: char, b: char, c: char): string
    decreases |s|
  {
    if |s| < 2 then s
    else if s[0] == a && s[1] == b then [c] + ReplacePair(s[2..], a, b, c)
    else [s[0]] + ReplacePair(s[1..], a, b, c)
  }

  /** Section 4 of RFC 6901: first `~1` to `/`, then `~0` to `~`. */
  function UnescapeToken(s: string): string {
    ReplacePair(ReplacePair(s, '~', '1', '/'), '~', '0', '~')
  }

  /** The length of the first reference token of a text that follows a slash. */
  function TokenLength(s: string): (n: nat)
    ensures n <= |s| && (n < |s| ==> s[n] == '/') && forall i :: 0 <= i < n ==> s[i] != '/'
  {
    if s == [] || s[0] == '/' then 0
    else
      var n := TokenLength(s[1..]);
      assert forall i :: 0 <= i < n ==> s[1..][i] == s[i + 1];
      n + 1
  }

  /** The reference tokens of a pointer, or None where it is not a pointer: not empty and no leading slash. */
  function Parse(pointer: string): Option<seq<string>>
    decreases |pointer|
  {
    if pointer == "" then Some([])
    else if pointer[0] != '/' then None
    else
      var n := TokenLength(pointer[1..]);
      match Parse(pointer[1 + n..])
      case None => None
      case Some(rest) => Some([UnescapeToken(pointer[1..1 + n])] + rest)
  }

  predicate AllDigits(s: string) {
    forall i :: 0 <= i < |s| ==> '0' <= s[i] <= '9'
  }

  function Number(s: string): nat
    requires AllDigits(s)
  {
    if s == [] then 0 else 10 * Number(s[..|s| - 1]) + (s[|s| - 1] as nat - '0' as nat)
  }

  /** The array-index rule of section 4: zero, or digits without a leading zero. */
  function ArrayIndex(s: string): Option<nat> {
    if s == [] || !AllDigits(s) || (s[0] == '0' && |s| > 1) then None else Some(Number(s))
  }

  // ---------------------------------------------------------------- the syntax check

  /** A tilde is followed by 0 or 1. */
  predicate TildesOk(s: string)
    decreases |s|
  {
    if s == [] then true
    else if s[0] == '~' then |s| >= 2 && (s[1] == '0' || s[1] == '1') && TildesOk(s[2..])
    else TildesOk(s[1..])
  }

  predicate ValidPath(path: string) {
    path == "" || (path[0] == '/' && TildesOk(path))
  }

  method ValidJsonPath(path: string) returns (valid: bool)
    ensures valid <==> ValidPath(path)
  {
    if path == "" {
      return true;
    }
    if path[0] != '/' {
      return false;
    }
    var i := 0;
    while i < |path|
      invariant i <= |path|
      invariant TildesOk(path[i..]) <==> TildesOk(path)
    {
      if path[i] == '~' {
        if !(i + 1 < |path| && (path[i + 1] == '0' || path[i + 1] == '1')) {
          return false;
        }
        assert path[i..][2..] == path[i + 2..];
        i := i + 2;
      } else {
        assert path[i..][1..] == path[i + 1..];
        i := i + 1;
      }
    }
    return true;
  }

  // ---------------------------------------------------------------- one token, both ways

  /** What one escaped character stands for, read in a single pass. */
  function Decode(s: string): string
    decreases |s|
  {
    if s == [] then []
    else if s[0] == '~' && |s| >= 2 then [if s[1] == '0' then '~' else '/'] + Decode(s[2..])
    else [s[0]] + Decode(s[1..])
  }

  lemma {:induction false} EscapeCons(c: char, rest: string)
    ensures EscapeToken([c] + rest) == (if c == '~' then "~0" else if c == '/' then "~1" else [c]) + EscapeToken(rest)
  {
    var head := if c == '~' then "~0" else [c];
    assert ([c] + rest)[1..] == rest;
    assert ReplaceChar([c] + rest, '~', "~0") == head + ReplaceChar(rest, '~', "~0");
    ReplaceHead(head, ReplaceChar(rest, '~', "~0"));
  }

  lemma {:induction false} ReplaceHead(head: string, rest: string)
    requires 1 <= |head| <= 2 && (|head| == 2 ==> head == "~0")
    ensures ReplaceChar(head + rest, '/', "~1") == (if head == "/" then "~1" else head) + ReplaceChar(rest, '/', "~1")
  {
    assert (head + rest)[0] == head[0];
    if |head| == 2 {
      assert (head + rest)[1..] == "0" + rest && ("0" + rest)[1..] == rest;
    } else {
      assert (head + rest)[1..] == rest;
    }
  }

  /** On well-escaped text the two passes of the standard read what a single pass reads. */
  lemma {:induction false} TwoPassesAreOne(s: string)
    requires TildesOk(s)
    ensures UnescapeToken(s) == Decode(s)
    decreases |s|
  {
    if s != [] {
      if s[0] == '~' {
        TwoPassesAreOne(s[2..]);
        var rest := ReplacePair(s[2..], '~', '1', '/');
        if s[1] == '0' {
          FirstPassKeeps(s);
          assert ([s[0]] + ([s[1]] + rest))[2..] == rest;
        }
      } else {
        TwoPassesAreOne(s[1..]);
      }
    }
  }

  lemma {:induction false} FirstPassKeeps(s: string)
    requires |s| >= 2 && s[0] == '~' && s[1] == '0'
    ensures ReplacePair(s, '~', '1', '/') == [s[0]] + ([s[1]] + ReplacePair(s[2..], '~', '1', '/'))
  {
    assert s[1..][1..] == s[2..];
  }

  lemma {:induction false} EscapedIsOk(token: string)
    ensures TildesOk(EscapeToken(token)) && '/' !in EscapeToken(token)
    ensures Decode(EscapeToken(token)) == token
  {
    if token != [] {
      EscapedIsOk(token[1..]);
      assert token == [token[0]] + token[1..];
      EscapeCons(token[0], token[1..]);
      var head := if token[0] == '~' then "~0" else if token[0] == '/' then "~1" else [token[0]];
      var all, rest := EscapeToken(token), EscapeToken(token[1..]);
      assert all == head + rest && all[|head|..] == rest && all[0] == head[0];
      if |head| == 2 { assert all[1] == head[1]; }
    }
  }

  /** Escaping a token and reading it back as section 4 says gives the token. */
  lemma {:induction false} TokenRoundTrip(token: string)
    ensures UnescapeToken(EscapeToken(token)) == token
  {
    EscapedIsOk(token);
    TwoPassesAreOne(EscapeToken(token));
  }

  /** The other way round, for text that can be a token. */
  lemma {:induction false} EscapeAfterDecode(s: string)
    requires TildesOk(s) && '/' !in s
    ensures EscapeToken(Decode(s)) == s
    decreases |s|
  {
    if s != [] {
      var k := if s[0] == '~' then 2 else 1;
      var head := if s[0] != '~' then s[0] else if s[1] == '0' then '~' else '/';
      assert s[0] in s && forall c :: c in s[k..] ==> c in s;
      EscapeAfterDecode(s[k..]);
      EscapeCons(head, Decode(s[k..]));
      assert s == s[..k] + s[k..];
    }
  }

  // ---------------------------------------------------------------- whole pointers, both ways

  lemma {:induction false} FirstToken(token: string, rest: string)
    requires forall i :: 0 <= i < |token| ==> token[i] != '/'
    requires rest == "" || rest[0] == '/'
    ensures TokenLength(token + rest) == |token|
  {
    if token == [] {
      assert token + rest == rest;
    } else {
      assert (token + rest)[1..] == token[1..] + rest;
      FirstToken(token[1..], rest);
    }
  }

  lemma {:induction false} ParseStep(token: string, rest: string)
    requires '/' !in token && (rest == "" || rest[0] == '/') && Parse(rest).Some?
    ensures Parse("/" + token + rest) == Some([UnescapeToken(token)] + Parse(rest).value)
  {
    var pointer := "/" + token + rest;
    assert pointer[1..] == token + rest;
    FirstToken(token, rest);
    assert pointer[1..1 + |token|] == token && pointer[1 + |token|..] == rest;
  }

  /** Printing tokens and parsing the pointer gives the tokens; so different token lists print differently. */
  lemma {:induction false} PointerRoundTrip(tokens: seq<string>)
    ensures Parse(Encode(tokens)) == Some(tokens)
  {
    if tokens != [] {
      PointerRoundTrip(tokens[1..]);
      EscapedIsOk(tokens[0]);
      TokenRoundTrip(tokens[0]);
      ParseStep(EscapeToken(tokens[0]), Encode(tokens[1..]));
      assert [tokens[0]] + tokens[1..] == tokens;
    }
  }

  lemma {:induction false} TildesSplit(a: string, b: string)
    requires b == "" || b[0] == '/'
    ensures TildesOk(a + b) <==> TildesOk(a) && TildesOk(b)
    decreases |a|
  {
    if a == [] {
      assert a + b == b;
    } else if a[0] == '~' {
      if |a| >= 2 {
        assert (a + b)[1] == a[1] && (a + b)[2..] == a[2..] + b;
        TildesSplit(a[2..], b);
      } else if b != [] {
        assert (a + b)[1] == '/';
      }
    } else {
      assert (a + b)[1..] == a[1..] + b;
      TildesSplit(a[1..], b);
    }
  }

  lemma {:induction false} ValidParses(pointer: string)
    requires ValidPath(pointer)
    ensures Parse(pointer).Some? && Encode(Parse(pointer).value) == pointer
    decreases |pointer|
  {
    if pointer != "" {
      var n := TokenLength(pointer[1..]);
      var token, rest := pointer[1..1 + n], pointer[1 + n..];
      assert pointer == ("/" + token) + rest;
      assert rest != "" ==> rest[0] == pointer[1..][n];
      TildesSplit("/" + token, rest);
      assert ("/" + token)[1..] == token;
      assert '/' !in token by {
        forall i | 0 <= i < |token| ensures token[i] != '/' { assert token[i] == pointer[1..][i]; }
      }
      ValidParses(rest);
      TwoPassesAreOne(token);
      EscapeAfterDecode(token);
    }
  }

  lemma {:induction false} EncodedIsValid(tokens: seq<string>)
    ensures ValidPath(Encode(tokens)) && TildesOk(Encode(tokens))
  {
    if tokens != [] {
      EncodedIsValid(tokens[1..]);
      EscapedIsOk(tokens[0]);
      var token := "/" + EscapeToken(tokens[0]);
      assert token[1..] == EscapeToken(tokens[0]);
      TildesSplit(token, Encode(tokens[1..]));
    }
  }

  /** The syntax check accepts exactly the texts that are the printed form of some token list. */
  lemma {:induction false} ValidPathsAreThePointers(path: string)
    ensures ValidPath(path) <==> exists tokens :: Encode(tokens) == path
  {
    if ValidPath(path) {
      ValidParses(path);
    } else if tokens :| Encode(tokens) == path {
      EncodedIsValid(tokens);
    }
  }

  // ---------------------------------------------------------------- array indices, both ways

  lemma {:induction false} DigitsAreAnIndex(n: nat)
    ensures Digits(n) != [] && AllDigits(Digits(n)) && Number(Digits(n)) == n
    ensures Digits(n)[0] == '0' ==> n == 0 && |Digits(n)| == 1
  {
    if n >= 10 {
      DigitsAreAnIndex(n / 10);
      assert Digits(n)[..|Digits(n)| - 1] == Digits(n / 10);
    } else {
      assert Digits(n)[..0] == [];
    }
  }

  /** One more digit, behind digits of a positive number. */
  lemma {:induction false} DigitsSnoc(front: string, number: nat, last: char)
    requires number > 0 && Digits(number) == front && '0' <= last <= '9'
    ensures Digits(number * 10 + (last as nat - '0' as nat)) == front + [last]
  {
    var n := number * 10 + (last as nat - '0' as nat);
    assert n / 10 == number && n % 10 == last as nat - '0' as nat;
  }

  lemma {:induction false} IndexIsItsDigits(s: string)
    requires ArrayIndex(s).Some?
    ensures s == Digits(Number(s)) && (s[0] != '0' ==> Number(s) > 0)
    decreases |s|
  {
    var front, last := s[..|s| - 1], s[|s| - 1];
    if front == [] {
      assert Number(front) == 0 && s == [last];
    } else {
      assert front[0] == s[0] && AllDigits(front);
      IndexIsItsDigits(front);
      DigitsSnoc(front, Number(front), last);
      assert s == front + [last];
    }
  }

  /** A token is the index `n` under the rule of section 4 exactly when it is `n` printed in decimal. */
  lemma {:induction false} ArrayIndexIsDigits(s: string, n: nat)
    ensures ArrayIndex(s) == Some(n) <==> s == Digits(n)
  {
    DigitsAreAnIndex(n);
    if ArrayIndex(s).Some? {
      IndexIsItsDigits(s);
    }
  }

  /** Digits need no escaping. */
  lemma {:induction false} DigitsEscape(s: string)
    requires AllDigits(s)
    ensures EscapeToken(s) == s
  {
    if s != [] {
      assert s == [s[0]] + s[1..] && AllDigits(s[1..]);
      EscapeCons(s[0], s[1..]);
      DigitsEscape(s[1..]);
    }
  }
}
