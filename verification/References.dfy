/**
  `@Ref(...)` links in documentation (src/documentation_references.rs:35-63 and 121-224): the scan of the literal
  text ranges of a Markdown tree, the removal of overlaps, and the projection that shows resolved
  references as links. Offsets count scalars; the text ranges, the catalog and the white space class are given.
*/
module References {
  import opened Wrappers
  import Sequences
  import TemplateScan

  const OPENER := "@Ref("

  datatype Reference = Reference(range: Range, expression: Range, complete: bool)

  // ---------------------------------------------------------------- one reference

  predicate OpensAt(source: string, p: nat, end: nat) {
    p + 5 <= end && end <= |source| && source[p..p + 5] == OPENER
  }

  /** The number of backslashes right before a position. */
  function Backslashes(source: string, p: nat): nat
    requires p <= |source|
  {
    if p == 0 || source[p - 1] != '\\' then 0 else 1 + Backslashes(source, p - 1)
  }

  function LineEnd(source: string, p: nat): (e: nat)
    requires p <= |source|
    ensures p <= e <= |source| && forall i :: p <= i < e ==> source[i] != '\n' && source[i] != '\r'
    ensures e < |source| ==> source[e] == '\n' || source[e] == '\r'
    decreases |source| - p
  {
    if p == |source| || TemplateScan.LineBreak(source[p]) then p else LineEnd(source, p + 1)
  }

  /** The closing parenthesis of a reference, or the end of the line; quoted parentheses do not close. */
  function Stop(source: string, p: nat, lineEnd: nat, quoted: bool, escaped: bool): (stop: nat)
    requires p <= lineEnd <= |source|
    ensures p <= stop <= lineEnd && (stop < lineEnd ==> source[stop] == ')')
    decreases lineEnd - p
  {
    if p == lineEnd then p
    else
      var c := source[p];
      var q := if c == '"' && !escaped then !quoted else quoted;
      if c == ')' && !q then p else Stop(source, p + 1, lineEnd, q, c == '\\' && !escaped)
  }

  function ReferenceAt(source: string, start: nat): (r: Reference)
    requires start + 5 <= |source|
    ensures r.range.start == start && r.expression.start == start + 5 <= r.expression.end <= |source|
    ensures r.range.end == r.expression.end + (if r.complete then 1 else 0) <= |source|
    ensures r.complete ==> source[r.expression.end] == ')'
  {
    var inner := start + 5;
    var lineEnd := LineEnd(source, inner);
    var stop := Stop(source, inner, lineEnd, false, false);
    Reference(Range(start, if stop < lineEnd then stop + 1 else stop), Range(inner, stop), stop < lineEnd)
  }

  /** Whether an odd number of backslashes stands right before `p`, none before `from` counted. */
  predicate OddBackslashes(source: string, from: nat, p: nat)
    requires from <= p <= |source|
  {
    p > from && source[p - 1] == '\\' && !OddBackslashes(source, from, p - 1)
  }

  /** Whether an odd number of unescaped quotes stands between two positions. */
  predicate InQuotes(source: string, from: nat, p: nat)
    requires from <= p <= |source|
  {
    p > from && InQuotes(source, from, p - 1) != (source[p - 1] == '"' && !OddBackslashes(source, from, p - 1))
  }

  /** A reference closes at the first parenthesis of its line that stands outside quotes. */
  lemma {:induction false} StopIsFirstUnquoted(source: string, from: nat, p: nat, lineEnd: nat)
    requires from <= p <= lineEnd <= |source|
    requires forall i :: from <= i < p && source[i] == ')' ==> InQuotes(source, from, i)
    ensures var stop := Stop(source, p, lineEnd, InQuotes(source, from, p), OddBackslashes(source, from, p));
      && (forall i :: from <= i < stop && source[i] == ')' ==> InQuotes(source, from, i))
      && (stop < lineEnd ==> source[stop] == ')' && !InQuotes(source, from, stop))
    decreases lineEnd - p
  {
    if p < lineEnd && !(source[p] == ')' && !InQuotes(source, from, p)) {
      StopIsFirstUnquoted(source, from, p + 1, lineEnd);
    }
  }

  method ScanReference(source: string, start: nat) returns (r: Reference)
    requires start + 5 <= |source|
    ensures r == ReferenceAt(source, start)
  {
    var inner := start + 5;
    var lineEnd := LineEnd(source, inner);
    var quoted, escaped, stop, complete := false, false, lineEnd, false;
    var p := inner;
    while p < lineEnd
      invariant inner <= p <= lineEnd && stop == lineEnd && !complete
      invariant Stop(source, inner, lineEnd, false, false) == Stop(source, p, lineEnd, quoted, escaped)
    {
      var c := source[p];
      if c == '"' && !escaped {
        quoted := !quoted;
      }
      if c == ')' && !quoted {
        stop, complete := p, true;
        break;
      }
      escaped := c == '\\' && !escaped;
      p := p + 1;
    }
    r := Reference(Range(start, if complete then stop + 1 else stop), Range(inner, stop), complete);
  }

  // ---------------------------------------------------------------- one text range, and all of them

  function FindOpener(source: string, cursor: nat, end: nat): (p: Option<nat>)
    requires cursor <= end <= |source|
    ensures p.Some? ==> cursor <= p.value && p.value + 5 <= end
    decreases end - cursor
  {
    if OpensAt(source, cursor, end) then Some(cursor)
    else if cursor == end then None
    else FindOpener(source, cursor + 1, end)
  }

  lemma {:induction false} FoundIsFirst(source: string, cursor: nat, end: nat)
    requires cursor <= end <= |source|
    ensures var p := FindOpener(source, cursor, end);
      && (p.Some? ==> OpensAt(source, p.value, end))
      && forall q :: cursor <= q && (p.None? || q < p.value) ==> !OpensAt(source, q, end)
    decreases end - cursor
  {
    if !OpensAt(source, cursor, end) && cursor < end {
      FoundIsFirst(source, cursor + 1, end);
    }
  }

  predicate Escaped(source: string, p: nat)
    requires p <= |source|
  {
    Backslashes(source, p) % 2 == 1
  }

  /** The references that start in a text range. */
  function InText(source: string, cursor: nat, end: nat): seq<Reference>
    requires cursor <= end <= |source|
    decreases end - cursor, 1
  {
    match FindOpener(source, cursor, end)
    case None => []
    case Some(start) =>
      if Escaped(source, start) then InText(source, start + 5, end)
      else [ReferenceAt(source, start)] + InTextAfter(source, ReferenceAt(source, start), end, cursor)
  }

  /** What follows a reference that starts in the range; it may reach beyond the range. */
  function InTextAfter(source: string, r: Reference, end: nat, cursor: nat): seq<Reference>
    requires cursor < r.range.end && end <= |source| && cursor <= end
    decreases end - cursor, 0
  {
    if r.range.end >= end then [] else InText(source, r.range.end, end)
  }

  method ScanText(source: string, range: Range) returns (found: seq<Reference>)
    requires range.start <= range.end <= |source|
    ensures found == InText(source, range.start, range.end)
  {
    found := [];
    var cursor, end := range.start, range.end;
    ghost var all := InText(source, cursor, end);
    ghost var rest := all;
    while true
      invariant cursor <= end <= |source|
      invariant rest == InText(source, cursor, end) && found + rest == all
      decreases end - cursor
    {
      var opener := FindOpener(source, cursor, end);
      if opener.None? {
        assert rest == [];
        break;
      }
      if Escaped(source, opener.value) {
        cursor := opener.value + 5;
        assert rest == InText(source, cursor, end);
      } else {
        var r := ScanReference(source, opener.value);
        ghost var after := InTextAfter(source, r, end, cursor);
        assert rest == [r] + after;
        Sequences.Reassociate(found, [r], after);
        found, rest := found + [r], after;
        if r.range.end >= end {
          assert rest == [];
          break;
        }
        cursor := r.range.end;
      }
    }
    assert found + [] == found;
  }

  predicate TextsFit(source: string, texts: seq<Range>) {
    forall i :: 0 <= i < |texts| ==> texts[i].start <= texts[i].end <= |source|
  }

  function InTexts(source: string, texts: seq<Range>): seq<Reference>
    requires TextsFit(source, texts)
  {
    if texts == [] then [] else InText(source, texts[0].start, texts[0].end) + InTexts(source, texts[1..])
  }

  // ---------------------------------------------------------------- sorting and overlaps

  /** A stable sort by start. */
  function Insert(r: Reference, sorted: seq<Reference>): seq<Reference> {
    if sorted == [] || r.range.start <= sorted[0].range.start then [r] + sorted
    else [sorted[0]] + Insert(r, sorted[1..])
  }

  function Sorted(found: seq<Reference>): seq<Reference> {
    if found == [] then [] else Insert(found[0], Sorted(found[1..]))
  }

  /** Keeps what starts at or behind the end of the last one kept. */
  function Disjoint(found: seq<Reference>, previousEnd: nat): seq<Reference> {
    if found == [] then []
    else if found[0].range.start < previousEnd then Disjoint(found[1..], previousEnd)
    else [found[0]] + Disjoint(found[1..], found[0].range.end)
  }

  method RetainDisjoint(found: seq<Reference>) returns (kept: seq<Reference>)
    ensures kept == Disjoint(found, 0)
  {
    kept := [];
    var previousEnd, i := 0, 0;
    while i < |found|
      invariant i <= |found|
      invariant kept + Disjoint(found[i..], previousEnd) == Disjoint(found, 0)
    {
      var r := found[i];
      assert found[i..][0] == r && found[i..][1..] == found[i + 1..];
      if r.range.start >= previousEnd {
        Sequences.Reassociate(kept, [r], Disjoint(found[i + 1..], r.range.end));
        kept := kept + [r];
        previousEnd := r.range.end;
      }
      i := i + 1;
    }
  }

  /** All references of a document whose literal text stands at `texts`. */
  function References(source: string, texts: seq<Range>): seq<Reference>
    requires TextsFit(source, texts)
  {
    Disjoint(Sorted(InTexts(source, texts)), 0)
  }

  method FindReferences(source: string, texts: seq<Range>) returns (references: seq<Reference>)
    requires TextsFit(source, texts)
    ensures references == References(source, texts)
  {
    var found, i := [], 0;
    while i < |texts|
      invariant i <= |texts| && found + InTexts(source, texts[i..]) == InTexts(source, texts)
    {
      var here := ScanText(source, texts[i]);
      assert texts[i..][0] == texts[i] && texts[i..][1..] == texts[i + 1..];
      Sequences.Reassociate(found, here, InTexts(source, texts[i + 1..]));
      found := found + here;
      i := i + 1;
    }
    assert found + [] == found;
    references := RetainDisjoint(Sorted(found));
  }

  /** An odd number of backslashes, and no more, stands right before a position. */
  ghost predicate OddRun(source: string, p: nat)
    requires p <= |source|
  {
    exists n :: BackslashRun(source, p, n) && n % 2 == 1
  }

  predicate BackslashRun(source: string, p: nat, n: nat)
    requires p <= |source|
  {
    && n <= p && (forall i :: p - n <= i < p ==> source[i] == '\\')
    && (n < p ==> source[p - n - 1] != '\\')
  }

  lemma {:induction false} BackslashesAreTheRun(source: string, p: nat)
    requires p <= |source|
    ensures BackslashRun(source, p, Backslashes(source, p))
  {
    if p > 0 && source[p - 1] == '\\' {
      BackslashesAreTheRun(source, p - 1);
    }
  }

  lemma {:induction false} EscapedIsOddRun(source: string, p: nat)
    requires p <= |source|
    ensures Escaped(source, p) <==> OddRun(source, p)
  {
    BackslashesAreTheRun(source, p);
    forall n | BackslashRun(source, p, n) ensures n == Backslashes(source, p) {
      SameRun(source, p, n, Backslashes(source, p));
      SameRun(source, p, Backslashes(source, p), n);
    }
  }

  lemma {:induction false} SameRun(source: string, p: nat, n: nat, m: nat)
    requires p <= |source| && BackslashRun(source, p, n) && BackslashRun(source, p, m)
    ensures n <= m
  {
  }

  /** The opener stands at a position. */
  predicate OpenerStands(source: string, p: nat) {
    p + 5 <= |source| && source[p..p + 5] == "@Ref("
  }

  /** A reference as it stands in the source, its opener not escaped. */
  ghost predicate Written(source: string, r: Reference) {
    && OpenerStands(source, r.range.start) && !OddRun(source, r.range.start)
    && r == ReferenceAt(source, r.range.start)
  }

  lemma {:induction false} OpenersApart(source: string, p: nat, q: nat)
    requires OpenerStands(source, p) && OpenerStands(source, q) && p < q
    ensures p + 5 <= q
  {
    assert forall k :: 0 <= k < 5 ==> source[p..p + 5][k] == source[p + k] && "@Ref("[k] == source[p + k];
    assert source[q..q + 5][0] == source[q] == '@';
  }

  /** In a text range no opener is missed: each that is not escaped begins a reference that is found, or stands inside one. */
  lemma {:induction false} EveryOpenerIsFound(source: string, cursor: nat, end: nat, p: nat)
    requires cursor <= p && p + 5 <= end <= |source| && OpenerStands(source, p) && !OddRun(source, p)
    ensures exists r :: r in InText(source, cursor, end) && r.range.start <= p < r.range.end
    decreases end - cursor
  {
    FoundIsFirst(source, cursor, end);
    EscapedIsOddRun(source, p);
    assert OpensAt(source, p, end);
    var start := FindOpener(source, cursor, end).value;
    if Escaped(source, start) {
      OpenersApart(source, start, p);
      EveryOpenerIsFound(source, start + 5, end, p);
    } else {
      var first := ReferenceAt(source, start);
      assert first in InText(source, cursor, end);
      if p >= first.range.end {
        EveryOpenerIsFound(source, first.range.end, end, p);
        var r :| r in InText(source, first.range.end, end) && r.range.start <= p < r.range.end;
        assert r in InText(source, cursor, end);
      }
    }
  }

  lemma {:induction false} InTextIsWritten(source: string, cursor: nat, end: nat)
    requires cursor <= end <= |source|
    ensures forall r :: r in InText(source, cursor, end) ==> Written(source, r)
    decreases end - cursor
  {
    var p := FindOpener(source, cursor, end);
    FoundIsFirst(source, cursor, end);
    if p.Some? {
      EscapedIsOddRun(source, p.value);
      if Escaped(source, p.value) {
        InTextIsWritten(source, p.value + 5, end);
      } else {
        var r := ReferenceAt(source, p.value);
        if r.range.end < end {
          InTextIsWritten(source, r.range.end, end);
        }
      }
    }
  }

  lemma {:induction false} InTextsIsWritten(source: string, texts: seq<Range>)
    requires TextsFit(source, texts)
    ensures forall r :: r in InTexts(source, texts) ==> Written(source, r)
  {
    if texts != [] {
      InTextIsWritten(source, texts[0].start, texts[0].end);
      InTextsIsWritten(source, texts[1..]);
    }
  }

  ghost predicate Ordered(found: seq<Reference>) {
    forall i, j :: 0 <= i < j < |found| ==> found[i].range.start <= found[j].range.start
  }

  lemma {:induction false} InsertKeepsAll(r: Reference, sorted: seq<Reference>)
    ensures multiset(Insert(r, sorted)) == multiset([r]) + multiset(sorted)
  {
    if sorted != [] && r.range.start > sorted[0].range.start {
      InsertKeepsAll(r, sorted[1..]);
      assert sorted == [sorted[0]] + sorted[1..];
    }
  }

  lemma {:induction false} InsertIsOrdered(r: Reference, sorted: seq<Reference>)
    requires Ordered(sorted)
    ensures Ordered(Insert(r, sorted))
    ensures Insert(r, sorted) != []
    ensures Insert(r, sorted)[0] == r || (sorted != [] && Insert(r, sorted)[0] == sorted[0])
  {
    if sorted != [] && r.range.start > sorted[0].range.start {
      InsertIsOrdered(r, sorted[1..]);
    }
  }

  lemma {:induction false} SortedIsOrdered(found: seq<Reference>)
    ensures Ordered(Sorted(found)) && multiset(Sorted(found)) == multiset(found)
  {
    if found != [] {
      SortedIsOrdered(found[1..]);
      InsertIsOrdered(found[0], Sorted(found[1..]));
      InsertKeepsAll(found[0], Sorted(found[1..]));
      assert found == [found[0]] + found[1..];
    }
  }

  /** The references kept are among those found, in order, and do not overlap. */
  ghost predicate Apart(kept: seq<Reference>, from: nat) {
    && (kept != [] ==> from <= kept[0].range.start)
    && forall i :: 0 <= i < |kept| - 1 ==> kept[i].range.end <= kept[i + 1].range.start
  }

  lemma {:induction false} DisjointIsApart(found: seq<Reference>, from: nat)
    ensures Apart(Disjoint(found, from), from)
    ensures forall r :: r in Disjoint(found, from) ==> r in found
  {
    if found != [] {
      var r := found[0];
      if r.range.start < from {
        DisjointIsApart(found[1..], from);
      } else {
        DisjointIsApart(found[1..], r.range.end);
      }
    }
  }

  /** A dropped reference starts inside one that was kept, which starts no later. */
  lemma {:induction false} DroppedOverlaps(found: seq<Reference>, from: nat, r: Reference) returns (kept: Reference)
    requires Ordered(found) && r in found && r !in Disjoint(found, from) && from <= r.range.start
    ensures kept in Disjoint(found, from) && kept.range.start <= r.range.start < kept.range.end
  {
    var first := found[0];
    if first.range.start < from {
      kept := DroppedOverlaps(found[1..], from, r);
    } else if r.range.start < first.range.end {
      kept := first;
    } else {
      kept := DroppedOverlaps(found[1..], first.range.end, r);
    }
  }

  // ---------------------------------------------------------------- the projected text

  datatype Link<+R> = Link(range: Range, expression: string, resource: R)

  /** A part of a text; out of bounds, where the program would stop, it is empty. */
  function Part(s: string, start: nat, end: nat): string {
    if start <= end <= |s| then s[start..end] else ""
  }

  function Expression(white: char -> bool, source: string, r: Reference): string {
    if r.expression.start <= r.expression.end <= |source| then
      var trimmed := TemplateScan.TrimmedRange(white, source, r.expression);
      Part(source, trimmed.start, trimmed.end)
    else ""
  }

  /** The expression is what stands between the parentheses, without the white space around it. */
  lemma {:induction false} ExpressionIsTrimmed(white: char -> bool, source: string, r: Reference) returns (before: string, after: string)
    requires r.expression.start <= r.expression.end <= |source|
    ensures var expression := Expression(white, source, r);
      && source[r.expression.start..r.expression.end] == before + expression + after
      && (forall c :: c in before || c in after ==> white(c))
      && (expression != "" ==> !white(expression[0]) && !white(expression[|expression| - 1]))
  {
    var trimmed := TemplateScan.TrimmedRange(white, source, r.expression);
    before, after := source[r.expression.start..trimmed.start], source[trimmed.end..r.expression.end];
    ThreeSlices(source, r.expression.start, trimmed.start, trimmed.end, r.expression.end);
    AllWhite(white, source, r.expression.start, trimmed.start);
    AllWhite(white, source, trimmed.end, r.expression.end);
    EndsOf(source, trimmed.start, trimmed.end);
  }

  lemma {:induction false} ThreeSlices(source: string, a: nat, b: nat, c: nat, d: nat)
    requires a <= b <= c <= d <= |source|
    ensures source[a..d] == source[a..b] + source[b..c] + source[c..d]
  {
  }

  lemma {:induction false} AllWhite(white: char -> bool, source: string, a: nat, b: nat)
    requires a <= b <= |source| && forall i :: a <= i < b ==> white(source[i])
    ensures forall c :: c in source[a..b] ==> white(c)
  {
  }

  lemma {:induction false} EndsOf(source: string, a: nat, b: nat)
    requires a <= b <= |source|
    ensures a < b ==> source[a..b][0] == source[a] && source[a..b][|source[a..b]| - 1] == source[b - 1]
  {
  }

  /** The text and links made so far, up to `cursor` in the source, and the references behind the links. */
  datatype Projection<+R> = Projection(text: string, links: seq<Link<R>>, cursor: nat, shown: seq<Reference>)

  /** One turn of the loop: a complete reference that the catalog knows becomes a link. */
  function Shown<R>(white: char -> bool, source: string, catalog: map<string, R>, s: Projection<R>, r: Reference)
    : Projection<R>
  {
    ShownAs(source, catalog, s, r, Expression(white, source, r))
  }

  function ShownAs<R>(source: string, catalog: map<string, R>, s: Projection<R>, r: Reference, expression: string)
    : Projection<R>
  {
    if !r.complete || expression !in catalog then s
    else
      var before := Part(source, s.cursor, r.range.start);
      Linked(s, before, LinkAt(|s.text + before|, expression, catalog[expression]), r)
  }

  function LinkAt<R>(start: nat, expression: string, resource: R): Link<R> {
    Link(Range(start, start + |expression|), expression, resource)
  }

  function Linked<R>(s: Projection<R>, before: string, link: Link<R>, r: Reference): Projection<R> {
    Projection(s.text + before + link.expression, s.links + [link], r.range.end, s.shown + [r])
  }

  /** After the first `n` references. */
  function ShownFirst<R>(white: char -> bool, source: string, catalog: map<string, R>, references: seq<Reference>, n: nat)
    : Projection<R>
    requires n <= |references|
  {
    if n == 0 then Projection("", [], 0, [])
    else Shown(white, source, catalog, ShownFirst(white, source, catalog, references, n - 1), references[n - 1])
  }

  function Projected<R>(white: char -> bool, source: string, catalog: map<string, R>, references: seq<Reference>)
    : Projection<R>
  {
    var s := ShownFirst(white, source, catalog, references, |references|);
    s.(text := s.text + Part(source, s.cursor, |source|))
  }

  method ProjectText<R>(white: char -> bool, source: string, references: seq<Reference>, catalog: map<string, R>)
    returns (text: string, links: seq<Link<R>>)
    ensures text == Projected(white, source, catalog, references).text
    ensures links == Projected(white, source, catalog, references).links
  {
    text, links := "", [];
    var cursor: nat, i: nat := 0, 0;
    ghost var shown: seq<Reference> := [];
    while i < |references|
      invariant i <= |references|
      invariant Projection(text, links, cursor, shown) == ShownFirst(white, source, catalog, references, i)
    {
      var r := references[i];
      var expression := Expression(white, source, r);
      if r.complete && expression in catalog {
        text := text + Part(source, cursor, r.range.start);
        links := links + [LinkAt(|text|, expression, catalog[expression])];
        text := text + expression;
        cursor, shown := r.range.end, shown + [r];
      }
      i := i + 1;
    }
    text := text + Part(source, cursor, |source|);
  }

  // ---------------------------------------------------------------- what the projection shows

  /** The text with every link replaced by the reference it stands for. */
  function Restored<R>(source: string, text: string, links: seq<Link<R>>, shown: seq<Reference>): string
    requires |links| == |shown|
    decreases |links|
  {
    if links == [] then text
    else
      var last := |links| - 1;
      var link, r := links[last].range, shown[last].range;
      Restored(source, Part(text, 0, link.start), links[..last], shown[..last])
      + Part(source, r.start, r.end) + Part(text, link.end, |text|)
  }

  /** A link covers exactly its expression. */
  predicate Covers<R>(text: string, link: Link<R>) {
    link.range.start <= link.range.end <= |text| && text[link.range.start..link.range.end] == link.expression
  }

  /** What holds after each turn of the loop. */
  ghost predicate Faithful<R(!new)>(source: string, s: Projection<R>) {
    && |s.links| == |s.shown| && s.cursor <= |source|
    && (forall i :: 0 <= i < |s.links| ==> Covers(s.text, s.links[i]))
    && Restored(source, s.text, s.links, s.shown) == source[..s.cursor]
  }

  lemma {:induction false} RestoredLonger<R>(
    source: string, text: string, more: string, links: seq<Link<R>>, shown: seq<Reference>)
    requires |links| == |shown| && (links != [] ==> Covers(text, links[|links| - 1]))
    ensures Restored(source, text + more, links, shown) == Restored(source, text, links, shown) + more
  {
    if links != [] {
      var last := |links| - 1;
      var link, r := links[last].range, shown[last].range;
      assert Part(text + more, 0, link.start) == Part(text, 0, link.start);
      assert Part(text + more, link.end, |text + more|) == Part(text, link.end, |text|) + more;
      var front := Restored(source, Part(text, 0, link.start), links[..last], shown[..last]);
      Sequences.Reassociate(front + Part(source, r.start, r.end), Part(text, link.end, |text|), more);
    }
  }

  lemma {:induction false} TurnRestores<R>(
    source: string, s: Projection<R>, r: Reference, before: string, link: Link<R>)
    requires |s.links| == |s.shown| && s.cursor <= r.range.start <= r.range.end <= |source|
    requires s.links != [] ==> Covers(s.text, s.links[|s.links| - 1])
    requires Restored(source, s.text, s.links, s.shown) == source[..s.cursor]
    requires before == Part(source, s.cursor, r.range.start)
    requires link.range == Range(|s.text + before|, |s.text + before| + |link.expression|)
    ensures Restored(source, s.text + before + link.expression, s.links + [link], s.shown + [r])
         == source[..r.range.end]
  {
    RestoredLonger(source, s.text, before, s.links, s.shown);
    SourceGrows(source, s.cursor, r.range.start, r.range.end);
  }

  lemma {:induction false} SourceGrows(source: string, a: nat, b: nat, c: nat)
    requires a <= b <= c <= |source|
    ensures (source[..a] + Part(source, a, b)) + Part(source, b, c) == source[..c]
  {
  }

  lemma {:induction false} TurnCovers<R(!new)>(text: string, before: string, links: seq<Link<R>>, link: Link<R>)
    requires forall i :: 0 <= i < |links| ==> Covers(text, links[i])
    requires link.range == Range(|text + before|, |text + before| + |link.expression|)
    ensures forall i :: 0 <= i < |links + [link]| ==> Covers(text + before + link.expression, (links + [link])[i])
  {
    forall i | 0 <= i < |links + [link]| ensures Covers(text + before + link.expression, (links + [link])[i]) {
    }
  }

  lemma {:induction false} LinkedIsFaithful<R(!new)>(
    source: string, s: Projection<R>, r: Reference, before: string, link: Link<R>)
    requires Faithful(source, s) && s.cursor <= r.range.start <= r.range.end <= |source|
    requires before == Part(source, s.cursor, r.range.start)
    requires link == LinkAt(|s.text + before|, link.expression, link.resource)
    ensures Faithful(source, Linked(s, before, link, r))
  {
    TurnRestores(source, s, r, before, link);
    TurnCovers(s.text, before, s.links, link);
  }

  /** Each turn keeps the projection faithful. */
  lemma {:induction false} ShownIsFaithful<R(!new)>(
    source: string, catalog: map<string, R>, s: Projection<R>, r: Reference, expression: string)
    requires Faithful(source, s) && s.cursor <= r.range.start <= r.range.end <= |source|
    ensures Faithful(source, ShownAs(source, catalog, s, r, expression))
    ensures ShownAs(source, catalog, s, r, expression).cursor <= r.range.end
  {
    if r.complete && expression in catalog {
      var before := Part(source, s.cursor, r.range.start);
      LinkedIsFaithful(source, s, r, before, LinkAt(|s.text + before|, expression, catalog[expression]));
    }
  }

  lemma {:induction false} AllShownIsFaithful<R(!new)>(
    white: char -> bool, source: string, catalog: map<string, R>, references: seq<Reference>, n: nat)
    requires n <= |references| && Apart(references, 0)
    requires forall i :: 0 <= i < |references| ==> references[i].range.start <= references[i].range.end <= |source|
    ensures Faithful(source, ShownFirst(white, source, catalog, references, n))
    ensures ShownFirst(white, source, catalog, references, n).cursor
         <= if n == 0 then 0 else references[n - 1].range.end
  {
    if n > 0 {
      AllShownIsFaithful(white, source, catalog, references, n - 1);
      var r := references[n - 1];
      assert n >= 2 ==> references[n - 2].range.end <= references[n - 2 + 1].range.start;
      ShownIsFaithful(source, catalog, ShownFirst(white, source, catalog, references, n - 1), r,
                      Expression(white, source, r));
    }
  }

  /**
    The references of a document are written there, in order and apart; every one that was found but is not
    among them starts inside one that is.
  */
  lemma {:induction false} ReferencesAreApart(source: string, texts: seq<Range>)
    requires TextsFit(source, texts)
    ensures Apart(References(source, texts), 0)
    ensures forall r :: r in References(source, texts) ==> Written(source, r) && r in InTexts(source, texts)
    ensures forall r :: r in InTexts(source, texts) && r !in References(source, texts) ==>
              exists k :: k in References(source, texts) && k.range.start <= r.range.start < k.range.end
  {
    var found := InTexts(source, texts);
    var sorted := Sorted(found);
    SortedIsOrdered(found);
    DisjointIsApart(sorted, 0);
    InTextsIsWritten(source, texts);
    forall r | r in sorted ensures r in found { assert r in multiset(sorted); }
    forall r | r in found && r !in References(source, texts)
      ensures exists k :: k in References(source, texts) && k.range.start <= r.range.start < k.range.end
    {
      assert r in multiset(found) && r in multiset(sorted);
      var k := DroppedOverlaps(sorted, 0, r);
    }
  }

  lemma {:induction false} EndIsFaithful<R(!new)>(source: string, s: Projection<R>, rest: string)
    requires Faithful(source, s) && rest == Part(source, s.cursor, |source|)
    ensures forall i :: 0 <= i < |s.links| ==> Covers(s.text + rest, s.links[i])
    ensures Restored(source, s.text + rest, s.links, s.shown) == source
  {
    RestoredLonger(source, s.text, rest, s.links, s.shown);
    forall i | 0 <= i < |s.links| ensures Covers(s.text + rest, s.links[i]) {
    }
    assert source[..s.cursor] + rest == source;
  }

  /** What the projection of these references is to show. */
  ghost predicate Restores<R(!new)>(source: string, p: Projection<R>) {
    && |p.links| == |p.shown|
    && (forall i :: 0 <= i < |p.links| ==> Covers(p.text, p.links[i]))
    && Restored(source, p.text, p.links, p.shown) == source
  }

  lemma {:induction false} ApartProjectionRestores<R(!new)>(
    white: char -> bool, source: string, references: seq<Reference>, catalog: map<string, R>)
    requires Apart(references, 0)
    requires forall i :: 0 <= i < |references| ==> references[i].range.start <= references[i].range.end <= |source|
    ensures Restores(source, Projected(white, source, catalog, references))
  {
    var s := ShownFirst(white, source, catalog, references, |references|);
    AllShownIsFaithful(white, source, catalog, references, |references|);
    EndIsFaithful(source, s, Part(source, s.cursor, |source|));
  }

  /** The complete references that the catalog knows, in order. */
  function Known<R>(white: char -> bool, source: string, catalog: map<string, R>, references: seq<Reference>)
    : seq<Reference>
  {
    if references == [] then []
    else
      var last := references[|references| - 1];
      Known(white, source, catalog, references[..|references| - 1])
      + if last.complete && Expression(white, source, last) in catalog then [last] else []
  }

  /** A link names the expression of its reference and leads to what the catalog has under it. */
  predicate LinksTo<R(==)>(white: char -> bool, source: string, catalog: map<string, R>, link: Link<R>, r: Reference) {
    && link.expression == Expression(white, source, r) && link.expression in catalog
    && link.resource == catalog[link.expression]
  }

  lemma {:induction false} ShownAreTheKnown<R(!new)>(
    white: char -> bool, source: string, catalog: map<string, R>, references: seq<Reference>, n: nat)
    requires n <= |references|
    ensures var s := ShownFirst(white, source, catalog, references, n);
      && s.shown == Known(white, source, catalog, references[..n]) && |s.links| == |s.shown|
      && forall i :: 0 <= i < |s.links| ==> LinksTo(white, source, catalog, s.links[i], s.shown[i])
  {
    if n > 0 {
      ShownAreTheKnown(white, source, catalog, references, n - 1);
      assert references[..n][..n - 1] == references[..n - 1];
    }
  }

  /** The links are exactly the complete references that the catalog knows, each leading to its resource. */
  lemma {:induction false} LinksAreTheKnown<R(!new)>(
    white: char -> bool, source: string, references: seq<Reference>, catalog: map<string, R>)
    ensures var p := Projected(white, source, catalog, references);
      && p.shown == Known(white, source, catalog, references) && |p.links| == |p.shown|
      && forall i :: 0 <= i < |p.links| ==> LinksTo(white, source, catalog, p.links[i], p.shown[i])
  {
    ShownAreTheKnown(white, source, catalog, references, |references|);
    assert references[..|references|] == references;
  }

  /**
    In the text projected from a document every link covers exactly its expression, and putting the references
    back in place of the links restores the document.
  */
  lemma {:induction false} ProjectionRestoresSource<R(!new)>(
    white: char -> bool, source: string, texts: seq<Range>, catalog: map<string, R>)
    requires TextsFit(source, texts)
    ensures Restores(source, Projected(white, source, catalog, References(source, texts)))
  {
    var references := References(source, texts);
    ReferencesAreApart(source, texts);
    forall i | 0 <= i < |references|
      ensures references[i].range.start <= references[i].range.end <= |source|
    {
      assert references[i] in references;
    }
    ApartProjectionRestores(white, source, references, catalog);
  }
}
