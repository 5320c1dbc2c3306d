/**
  Template expressions `{{ name }}` in request text (src/template_intelligence.rs:220-269 and 416-438): the
  forward scan that finds all of them, and the bounded backward scan that decides from the text before the
  cursor whether one is open there. Offsets count scalars; the white space class is a parameter.
*/
module TemplateScan {
  import opened Numbers
  import opened Wrappers

  const COMPLETION_CONTEXT_PADDING: nat := 32

  datatype Span = Span(range: Range, inner: Range, name: Range, complete: bool)

  // ---------------------------------------------------------------- the forward scan

  /** A doubled delimiter character starts at `p`. */
  predicate Pair(text: string, p: nat, c: char) {
    p + 1 < |text| && text[p] == c && text[p + 1] == c
  }

  /** The first doubled delimiter at or after `from`. */
  function FindPair(text: string, from: nat, c: char): (p: Option<nat>)
    requires from <= |text|
    ensures p.Some? ==> from <= p.value && Pair(text, p.value, c)
    ensures forall q: nat :: from <= q && (p.None? || q < p.value) ==> !Pair(text, q, c)
    decreases |text| - from
  {
    if Pair(text, from, c) then Some(from)
    else if from == |text| then None
    else FindPair(text, from + 1, c)
  }

  function SkipWhite(white: char -> bool, text: string, from: nat, until: nat): (p: nat)
    requires from <= until <= |text|
    ensures from <= p <= until && (p < until ==> !white(text[p])) && (forall i :: from <= i < p ==> white(text[i]))
    decreases until - from
  {
    if from < until && white(text[from]) then SkipWhite(white, text, from + 1, until) else from
  }

  function SkipWhiteBack(white: char -> bool, text: string, from: nat, until: nat): (p: nat)
    requires from <= until <= |text|
    ensures from <= p <= until && (from < p ==> !white(text[p - 1])) && (forall i :: p <= i < until ==> white(text[i]))
  {
    if from < until && white(text[until - 1]) then SkipWhiteBack(white, text, from, until - 1) else until
  }

  function TrimmedRange(white: char -> bool, text: string, range: Range): (name: Range)
    requires range.start <= range.end <= |text|
    ensures range.start <= name.start <= name.end <= range.end
    ensures forall i :: range.start <= i < name.start || name.end <= i < range.end ==> white(text[i])
    ensures name.start < name.end ==> !white(text[name.start]) && !white(text[name.end - 1])
  {
    var start := SkipWhite(white, text, range.start, range.end);
    Range(start, SkipWhiteBack(white, text, start, range.end))
  }

  /** The expression that opens at `opening`. */
  function SpanAt(white: char -> bool, text: string, opening: nat): Span
    requires opening + 2 <= |text|
  {
    var inner := opening + 2;
    match FindPair(text, inner, '}')
    case Some(closing) =>
      Span(Range(opening, closing + 2), Range(inner, closing), TrimmedRange(white, text, Range(inner, closing)), true)
    case None =>
      Span(Range(opening, |text|), Range(inner, |text|), TrimmedRange(white, text, Range(inner, |text|)), false)
  }

  function Spans(white: char -> bool, text: string, cursor: nat): seq<Span>
    requires cursor <= |text|
    decreases |text| - cursor
  {
    match FindPair(text, cursor, '{')
    case None => []
    case Some(opening) =>
      var span := SpanAt(white, text, opening);
      [span] + if span.complete then Spans(white, text, span.range.end) else []
  }

  method ScanTemplateSpans(white: char -> bool, text: string) returns (spans: seq<Span>)
    ensures spans == Spans(white, text, 0)
  {
    spans := [];
    var cursor := 0;
    while cursor < |text|
      invariant cursor <= |text|
      invariant spans + Spans(white, text, cursor) == Spans(white, text, 0)
      decreases |text| - cursor
    {
      var opening := FindPair(text, cursor, '{');
      if opening.None? {
        break;
      }
      var span := SpanAt(white, text, opening.value);
      ghost var before := spans;
      spans := spans + [span];
      if !span.complete {
        assert Spans(white, text, cursor) == [span];
        return;
      }
      assert Spans(white, text, cursor) == [span] + Spans(white, text, span.range.end);
      assert before + ([span] + Spans(white, text, span.range.end)) == spans + Spans(white, text, span.range.end);
      cursor := span.range.end;
    }
    assert spans + [] == spans;
  }

  /** What one span is: an opener, the first closer behind it, and the trimmed name between them. */
  predicate Delimits(white: char -> bool, text: string, s: Span) {
    && s.inner.start == s.range.start + 2 && Pair(text, s.range.start, '{')
    && s.inner.start <= s.inner.end <= s.range.end <= |text|
    && (if s.complete then Pair(text, s.inner.end, '}') && s.range.end == s.inner.end + 2
        else s.inner.end == s.range.end == |text|)
    && (forall q :: s.inner.start <= q < s.inner.end ==> !Pair(text, q, '}'))
    && s.name == TrimmedRange(white, text, s.inner)
  }

  /** Spans are in order and disjoint, no opener lies between them, and only the last may be unclosed. */
  lemma {:induction false} SpansAreDisjoint(white: char -> bool, text: string, cursor: nat, i: nat)
    requires cursor <= |text| && i < |Spans(white, text, cursor)|
    ensures var spans := Spans(white, text, cursor);
            var from := if i == 0 then cursor else spans[i - 1].range.end;
            && Delimits(white, text, spans[i]) && from <= spans[i].range.start
            && (forall q :: from <= q < spans[i].range.start ==> !Pair(text, q, '{'))
            && (i + 1 < |spans| ==> spans[i].complete)
    decreases i
  {
    var span := SpanAt(white, text, FindPair(text, cursor, '{').value);
    if i > 0 {
      SpansAreDisjoint(white, text, span.range.end, i - 1);
    }
  }

  // ---------------------------------------------------------------- the backward scan

  predicate LineBreak(c: char) {
    c == '\n' || c == '\r'
  }

  /** The scan of at most `limit` characters before `cursor`, when `newer` is the one looked at last. */
  function OpenBefore(text: string, cursor: nat, limit: nat, newer: Option<char>): bool
    requires cursor <= |text|
    decreases cursor
  {
    if cursor == 0 || limit == 0 then false
    else
      var c := text[cursor - 1];
      if LineBreak(c) then false
      else if c == '{' && newer == Some('{') then true
      else if c == '}' && newer == Some('}') then false
      else OpenBefore(text, cursor - 1, limit - 1, Some(c))
  }

  function ScanLimit(longestName: nat): nat {
    Min(Min(longestName + COMPLETION_CONTEXT_PADDING, USIZE_MAX) + 2, USIZE_MAX)
  }

  method HasOpenTemplateBeforeCursor(text: string, requested: nat, longestName: nat) returns (open: bool)
    ensures open == OpenBefore(text, Min(requested, |text|), ScanLimit(longestName), None)
  {
    var at: nat := Min(requested, |text|);
    var left: nat := ScanLimit(longestName);
    var newer := None;
    while at > 0 && left > 0
      invariant at <= |text|
      invariant OpenBefore(text, at, left, newer)
             == OpenBefore(text, Min(requested, |text|), ScanLimit(longestName), None)
    {
      var c := text[at - 1];
      if LineBreak(c) {
        return false;
      }
      if c == '{' && newer == Some('{') {
        return true;
      }
      if c == '}' && newer == Some('}') {
        return false;
      }
      newer := Some(c);
      at, left := at - 1, left - 1;
    }
    return false;
  }

  /** The limit is 34 characters more than the longest name, as far as a machine word goes. */
  lemma {:induction false} LimitIs(longestName: nat)
    ensures ScanLimit(longestName) == if longestName + 34 < 0x1_0000_0000_0000_0000 then longestName + 34
                                      else 0xFFFF_FFFF_FFFF_FFFF
  {
  }

  /** The last delimiter pair before the cursor is an opener at `p`, and no line break lies behind it. */
  predicate OpensAt(text: string, cursor: nat, p: nat)
    requires cursor <= |text|
  {
    && p + 2 <= cursor && Pair(text, p, '{')
    && (forall q :: p < q && q + 2 <= cursor ==> !Pair(text, q, '{') && !Pair(text, q, '}'))
    && (forall q :: p <= q < cursor ==> text[q] != '\n' && text[q] != '\r')
  }

  /** The scan says yes exactly when such an opener lies within its limit. */
  lemma {:induction false} OpenMeansOpener(text: string, cursor: nat, at: nat, limit: nat) returns (p: nat)
    requires at <= cursor <= |text|
    requires forall q :: at <= q && q + 2 <= cursor ==> !Pair(text, q, '{') && !Pair(text, q, '}')
    requires forall q :: at <= q < cursor ==> !LineBreak(text[q])
    requires OpenBefore(text, at, limit, if at < cursor then Some(text[at]) else None)
    ensures OpensAt(text, cursor, p) && p < at <= p + limit
    decreases at
  {
    if at < cursor && text[at - 1] == '{' && text[at] == '{' {
      p := at - 1;
    } else {
      p := OpenMeansOpener(text, cursor, at - 1, limit - 1);
    }
  }

  lemma {:induction false} OpenerMeansOpen(text: string, cursor: nat, at: nat, limit: nat, p: nat)
    requires at <= cursor <= |text| && OpensAt(text, cursor, p) && p < at <= p + limit
    ensures OpenBefore(text, at, limit, if at < cursor then Some(text[at]) else None)
    decreases at
  {
    if at - 1 > p {
      assert at < cursor ==> !Pair(text, at - 1, '{') && !Pair(text, at - 1, '}');
      OpenerMeansOpen(text, cursor, at - 1, limit - 1, p);
    }
  }

  // ---------------------------------------------------------------- both scans

  predicate Inside(span: Span, cursor: nat) {
    span.inner.start <= cursor <= span.inner.end
  }

  /** The cursor stands between the two braces of a closer. */
  predicate SplitsCloser(text: string, cursor: nat) {
    0 < cursor && Pair(text, cursor - 1, '}')
  }

  /** A closer that does not end before an opener which is still open at the cursor stands behind the cursor. */
  lemma {:induction false} CloserIsBehind(text: string, cursor: nat, p: nat, q: nat)
    requires cursor <= |text| && OpensAt(text, cursor, p) && Pair(text, q, '}') && q + 2 > p
    ensures q + 1 >= cursor && q >= p + 2 && (q < cursor ==> SplitsCloser(text, cursor))
  {
    assert text[p] == '{' && text[p + 1] == '{';
    assert q != p - 1 && q != p && q != p + 1;
  }

  lemma {:induction false} FirstSpan(white: char -> bool, text: string, from: nat, cursor: nat, p: nat) returns (span: Span)
    requires from <= p && cursor <= |text| && OpensAt(text, cursor, p) && !SplitsCloser(text, cursor)
    ensures FindPair(text, from, '{').Some? && span == SpanAt(white, text, FindPair(text, from, '{').value)
    ensures (span.complete && span.range.end <= p) || Inside(span, cursor)
  {
    var opening := FindPair(text, from, '{').value;
    span := SpanAt(white, text, opening);
    assert opening <= p && span.inner.start <= cursor;
    if span.complete && span.range.end > p {
      CloserIsBehind(text, cursor, p, span.inner.end);
    }
  }

  lemma {:induction false} OpenerIsCovered(white: char -> bool, text: string, from: nat, cursor: nat, p: nat)
    returns (i: nat)
    requires from <= p && cursor <= |text| && OpensAt(text, cursor, p) && !SplitsCloser(text, cursor)
    ensures i < |Spans(white, text, from)| && Inside(Spans(white, text, from)[i], cursor)
    decreases |text| - from
  {
    var span := FirstSpan(white, text, from, cursor, p);
    assert Spans(white, text, from)[0] == span;
    if Inside(span, cursor) {
      i := 0;
    } else {
      var j := OpenerIsCovered(white, text, span.range.end, cursor, p);
      i := j + 1;
      assert Spans(white, text, from)[i] == Spans(white, text, span.range.end)[j];
    }
  }

  /** If the cursor is inside a span, the last pair before it is an opener. */
  lemma {:induction false} SpanHasOpener(white: char -> bool, text: string, span: Span, cursor: nat, at: nat) returns (p: nat)
    requires Delimits(white, text, span) && Inside(span, cursor) && span.inner.start <= at <= cursor
    requires forall q :: span.range.start <= q < cursor ==> !LineBreak(text[q])
    requires forall q :: at - 1 <= q && q + 2 <= cursor ==> !Pair(text, q, '{')
    ensures span.range.start <= p && OpensAt(text, cursor, p)
    decreases at
  {
    if at == span.inner.start || Pair(text, at - 2, '{') {
      p := at - 2;
    } else {
      p := SpanHasOpener(white, text, span, cursor, at - 1);
    }
  }

  /**
    Whatever its limit, an open expression reported by the backward scan is there: the full scan has a
    span around the cursor, if the cursor does not split a closer.
  */
  lemma {:induction false} BackwardScanIsSound(white: char -> bool, text: string, cursor: nat, limit: nat) returns (i: nat)
    requires cursor <= |text| && !SplitsCloser(text, cursor) && OpenBefore(text, cursor, limit, None)
    ensures i < |Spans(white, text, 0)| && Inside(Spans(white, text, 0)[i], cursor)
  {
    var p := OpenMeansOpener(text, cursor, cursor, limit);
    i := OpenerIsCovered(white, text, 0, cursor, p);
  }

  lemma {:induction false} SpansStartAfter(white: char -> bool, text: string, from: nat, i: nat)
    requires from <= |text| && i < |Spans(white, text, from)|
    ensures from <= Spans(white, text, from)[i].range.start
    ensures Spans(white, text, from)[i].range.start < Spans(white, text, from)[i].inner.start
    decreases i
  {
    if i > 0 {
      SpansStartAfter(white, text, SpanAt(white, text, FindPair(text, from, '{').value).range.end, i - 1);
    }
  }

  /** There, and only there, it is mistaken: no span has a cursor inside that splits a closer. */
  lemma {:induction false} SplitCloserIsOutside(
    white: char -> bool, text: string, from: nat, cursor: nat, p: nat, i: nat)
    requires from <= p && cursor <= |text| && OpensAt(text, cursor, p) && SplitsCloser(text, cursor)
    requires i < |Spans(white, text, from)|
    ensures !Inside(Spans(white, text, from)[i], cursor)
    decreases i
  {
    var span := SpanAt(white, text, FindPair(text, from, '{').value);
    CloserIsBehind(text, cursor, p, cursor - 1);
    if span.complete {
      if span.range.end > p {
        CloserIsBehind(text, cursor, p, span.inner.end);
        if i > 0 {
          SpansStartAfter(white, text, span.range.end, i - 1);
        }
      } else if i > 0 {
        SplitCloserIsOutside(white, text, span.range.end, cursor, p, i - 1);
      }
    }
  }

  /** So an expression that is reported as open is one of the scanned spans exactly when no closer is split. */
  lemma {:induction false} BackwardScanIsExact(white: char -> bool, text: string, cursor: nat, limit: nat)
    requires cursor <= |text| && OpenBefore(text, cursor, limit, None)
    ensures (exists i :: 0 <= i < |Spans(white, text, 0)| && Inside(Spans(white, text, 0)[i], cursor))
       <==> !SplitsCloser(text, cursor)
  {
    if SplitsCloser(text, cursor) {
      var p := OpenMeansOpener(text, cursor, cursor, limit);
      forall i | 0 <= i < |Spans(white, text, 0)| ensures !Inside(Spans(white, text, 0)[i], cursor) {
        SplitCloserIsOutside(white, text, 0, cursor, p, i);
      }
    } else {
      var i := BackwardScanIsSound(white, text, cursor, limit);
    }
  }

  /** `{{a}}` with the cursor between the closing braces. */
  lemma {:induction false} SplitCloserIsReported(white: char -> bool)
    ensures OpenBefore("{{a}}", 4, ScanLimit(0), None) && SplitsCloser("{{a}}", 4)
    ensures forall i :: 0 <= i < |Spans(white, "{{a}}", 0)| ==> !Inside(Spans(white, "{{a}}", 0)[i], 4)
  {
    OpenerMeansOpen("{{a}}", 4, 4, ScanLimit(0), 0);
    forall i | 0 <= i < |Spans(white, "{{a}}", 0)| ensures !Inside(Spans(white, "{{a}}", 0)[i], 4) {
      SplitCloserIsOutside(white, "{{a}}", 0, 4, 0, i);
    }
  }

  /** And one around the cursor on the same line is reported if its opener is within the limit. */
  lemma {:induction false} BackwardScanIsComplete(white: char -> bool, text: string, cursor: nat, limit: nat, i: nat)
    requires cursor <= |text| && i < |Spans(white, text, 0)| && Inside(Spans(white, text, 0)[i], cursor)
    requires forall q :: Spans(white, text, 0)[i].range.start <= q < cursor ==> !LineBreak(text[q])
    requires cursor <= Spans(white, text, 0)[i].range.start + limit
    ensures OpenBefore(text, cursor, limit, None)
  {
    var span := Spans(white, text, 0)[i];
    SpansAreDisjoint(white, text, 0, i);
    var p := SpanHasOpener(white, text, span, cursor, cursor);
    OpenerMeansOpen(text, cursor, cursor, limit, p);
  }
}
