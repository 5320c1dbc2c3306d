/**
  Hover explanations in a JSON body (src/documentation_intelligence.rs:527-554): of all fields whose
  range contains the hover offset the shortest is chosen. Its partner is the nesting of the ranges that
  discovery records, which makes the shortest range the deepest field.
*/
module BodyHover {
  import opened Wrappers
  import opened JsonPointer
  import opened BodyTargets
  import opened BodyEvaluation

  // ---------------------------------------------------------------- the choice

  predicate Contains(r: Range, offset: nat) {
    r.start <= offset < r.end
  }

  function Length(r: Range): nat {
    if r.start < r.end then r.end - r.start else 0
  }

  function Least(a: Option<nat>, b: Option<nat>): Option<nat> {
    if a.None? then b else if b.None? then a else if a.value <= b.value then a else b
  }

  /** The length of the shortest of the ranges that contain the offset. */
  function Covering(ranges: seq<Range>, offset: nat): Option<nat> {
    if ranges == [] then None
    else Least(if Contains(ranges[0], offset) then Some(Length(ranges[0])) else None, Covering(ranges[1..], offset))
  }

  /** The names under the offset, each with the length of its shortest range there; `paths` lists the names. */
  function Matches(paths: seq<string>, m: Recorded, offset: nat): seq<(string, nat)> {
    if paths == [] then []
    else
      match Covering(RangesAt(m, paths[0]), offset)
      case None => Matches(paths[1..], m, offset)
      case Some(length) => [(paths[0], length)] + Matches(paths[1..], m, offset)
  }

  function Shortest(matches: seq<(string, nat)>): Option<nat> {
    if matches == [] then None else Least(Some(matches[0].1), Shortest(matches[1..]))
  }

  function OfLength(matches: seq<(string, nat)>, shortest: Option<nat>): seq<string> {
    if matches == [] then []
    else (if Some(matches[0].1) == shortest then [matches[0].0] else []) + OfLength(matches[1..], shortest)
  }

  function Explained(paths: seq<string>, explain: string -> Option<string>): seq<string> {
    if paths == [] then []
    else (match explain(paths[0]) case None => [] case Some(e) => [e]) + Explained(paths[1..], explain)
  }

  function BodyExplanations(paths: seq<string>, m: Recorded, offset: nat, explain: string -> Option<string>): seq<string> {
    var matches := Matches(paths, m, offset);
    Explained(OfLength(matches, Shortest(matches)), explain)
  }

  // ---------------------------------------------------------------- located trees

  /**
    The ranges of the objects and arrays of a syntax tree: their children follow one another inside the
    brackets, and the value of a pair lies inside the pair. Nothing is asked of other nodes.
  */
  predicate Located(node: Node)
    decreases node, 1
  {
    node.kind == ObjectKind || node.kind == ArrayKind ==>
      && (forall i :: 0 <= i < |node.children| ==> LocatedChild(node, node.children[i]))
      && forall i, j :: 0 <= i < j < |node.children| ==> node.children[i].range.end <= node.children[j].range.start
  }

  predicate LocatedChild(node: Node, child: Node)
    requires child in node.children
    decreases node, 0
  {
    && node.range.start < child.range.start <= child.range.end <= node.range.end
    && Located(child)
    && (child.value.Some? ==>
          && child.range.start <= child.value.value.range.start
          && child.value.value.range.end <= child.range.end
          && Located(child.value.value))
  }

  function Leaf(start: nat, end: nat): Node {
    Node(ScalarKind, Range(start, end), false, false, false, [], None, false, None)
  }

  /** The tree of `{"a":1}`: the pair lists its key, which starts where the pair does, and its value. */
  function SmallObject(): Node {
    var key, value := Leaf(1, 4), Leaf(5, 6);
    var pair := Node(PairKind, Range(1, 6), false, false, false, [key, value], Some("a"), true, Some(value));
    Node(ObjectKind, Range(0, 7), false, false, false, [pair], None, false, None)
  }

  /** Such trees are located and clean, and the field is found. */
  lemma {:induction false} SmallObjectIsLocated()
    ensures Located(SmallObject()) && Clean(SmallObject())
    ensures Discovered(SmallObject(), Range(0, 7), 0).hits == [Hit([], Range(0, 7)), Hit(["a"], Range(1, 6))]
  {
    var small := SmallObject();
    var pair := small.children[0];
    var value := pair.value.value;
    assert Discovered(value, pair.range, 1).hits == [Hit([], pair.range)];
    assert Prefixed("a", [Hit([], pair.range)]) == [Hit(["a"], pair.range)] by {
      assert ["a"] + [] == ["a"] && [Hit([], pair.range)][1..] == [];
    }
    assert ChildFound(ObjectKind, pair, 0, 0).hits == [Hit(["a"], pair.range)];
    assert DiscoveredFrom(small, 1, 0, 0).hits == [];
    assert LocatedChild(small, pair);
  }

  predicate Below(outer: Hit, inner: Hit) {
    && outer.range.start < inner.range.start && inner.range.end <= outer.range.end
    && |outer.tokens| < |inner.tokens| && inner.tokens[..|outer.tokens|] == outer.tokens
  }

  predicate Apart(a: Hit, b: Hit) {
    a.range.end <= b.range.start
  }

  /** In the order of discovery a later field lies below an earlier one or after it. */
  ghost predicate Nested(hits: seq<Hit>) {
    forall a, b :: 0 <= a < b < |hits| ==> Apart(hits[a], hits[b]) || Below(hits[a], hits[b])
  }

  ghost predicate Within(hits: seq<Hit>, lo: nat, hi: nat) {
    forall k :: 0 <= k < |hits| ==> lo <= hits[k].range.start && hits[k].range.end <= hi
  }

  lemma {:induction false} PrefixedIs(token: string, hits: seq<Hit>)
    ensures |Prefixed(token, hits)| == |hits|
    ensures forall k :: 0 <= k < |hits| ==> Prefixed(token, hits)[k] == Hit([token] + hits[k].tokens, hits[k].range)
  {
    if hits != [] {
      PrefixedIs(token, hits[1..]);
    }
  }

  lemma {:induction false} PrefixedNested(token: string, hits: seq<Hit>, lo: nat, hi: nat)
    requires Nested(hits) && Within(hits, lo, hi)
    ensures Nested(Prefixed(token, hits)) && Within(Prefixed(token, hits), lo, hi)
  {
    PrefixedIs(token, hits);
    forall a, b | 0 <= a < b < |hits|
      ensures Apart(Prefixed(token, hits)[a], Prefixed(token, hits)[b])
           || Below(Prefixed(token, hits)[a], Prefixed(token, hits)[b])
    {
      if Below(hits[a], hits[b]) {
        var n := |hits[a].tokens|;
        assert ([token] + hits[b].tokens)[..n + 1] == [token] + hits[b].tokens[..n];
      }
    }
  }

  lemma {:induction false} NestedUnder(range: Range, lo: nat, hits: seq<Hit>)
    requires Nested(hits) && Within(hits, lo, range.end) && range.start < lo
    requires forall k :: 0 <= k < |hits| ==> hits[k].tokens != []
    ensures Nested([Hit([], range)] + hits) && Within([Hit([], range)] + hits, range.start, range.end)
  {
    forall k | 0 <= k < |hits| ensures Below(Hit([], range), hits[k]) {
      assert hits[k].tokens[..0] == [];
    }
  }

  lemma {:induction false} DiscoveredNested(node: Node, range: Range, depth: nat)
    requires Located(node) && range.start <= node.range.start && node.range.end <= range.end
    ensures Nested(Discovered(node, range, depth).hits)
    ensures Within(Discovered(node, range, depth).hits, range.start, range.end)
    decreases node, |node.children| + 1
  {
    if depth <= DEPTH_LIMIT && !node.missing && !node.error && (node.kind == ObjectKind || node.kind == ArrayKind) {
      ChildrenNested(node, 0, 0, depth);
      NestedUnder(range, node.range.start + 1, DiscoveredFrom(node, 0, 0, depth).hits);
    }
  }

  /** Where the fields from child `i` on begin. */
  function From(node: Node, i: nat): nat
    requires i <= |node.children|
  {
    if i < |node.children| then node.children[i].range.start else node.range.end
  }

  lemma {:induction false} ChildrenNested(node: Node, i: nat, index: nat, depth: nat)
    requires i <= |node.children| && Located(node) && (node.kind == ObjectKind || node.kind == ArrayKind)
    ensures var hits := DiscoveredFrom(node, i, index, depth).hits;
            && Nested(hits) && Within(hits, From(node, i), node.range.end)
            && Within(hits, node.range.start + 1, node.range.end)
            && forall k :: 0 <= k < |hits| ==> hits[k].tokens != []
    decreases node, |node.children| - i
  {
    if i < |node.children| && !node.children[i].error && !node.children[i].missing {
      var child := node.children[i];
      assert LocatedChild(node, child);
      var next := NextIndex(node.kind, child, index);
      var here, rest := ChildFound(node.kind, child, index, depth).hits, DiscoveredFrom(node, i + 1, next, depth).hits;
      ChildNested(node, child, index, depth);
      ChildrenNested(node, i + 1, next, depth);
      var mid := From(node, i + 1);
      assert child.range.end <= mid <= node.range.end by {
        if i + 1 < |node.children| {
          assert LocatedChild(node, node.children[i + 1]);
        }
      }
    }
  }

  lemma {:induction false} ChildNested(node: Node, child: Node, index: nat, depth: nat)
    requires child in node.children && LocatedChild(node, child)
    ensures var hits := ChildFound(node.kind, child, index, depth).hits;
            && Nested(hits) && Within(hits, child.range.start, child.range.end)
            && forall k :: 0 <= k < |hits| ==> hits[k].tokens != []
    decreases child, |child.children| + 2
  {
    if child.kind != CommentKind && EntryOf(node.kind, child, index).Some? {
      var e := EntryOf(node.kind, child, index).value;
      DiscoveredNested(e.node, e.range, depth + 1);
      var hits := Discovered(e.node, e.range, depth + 1).hits;
      PrefixedIs(e.token, hits);
      PrefixedNested(e.token, hits, e.range.start, e.range.end);
    }
  }

  // ---------------------------------------------------------------- the deepest field under the offset

  /** The last discovered field that contains the offset. */
  function Deepest(hits: seq<Hit>, offset: nat): (d: Option<nat>)
    ensures d.Some? ==> d.value < |hits| && Contains(hits[d.value].range, offset)
    ensures forall k :: 0 <= k < |hits| && (d.None? || d.value < k) ==> !Contains(hits[k].range, offset)
    decreases |hits|
  {
    if hits == [] then None
    else
      var last := |hits| - 1;
      if Contains(hits[last].range, offset) then Some(last)
      else
        var d := Deepest(hits[..last], offset);
        assert forall k :: 0 <= k < last ==> hits[..last][k] == hits[k];
        d
  }

  function DeepestName(hits: seq<Hit>, offset: nat): seq<string> {
    match Deepest(hits, offset)
    case None => []
    case Some(k) => [Encode(hits[k].tokens)]
  }

  /** Every other field under the offset is an ancestor of the deepest one, and its range is longer. */
  lemma {:induction false} OthersAreAncestors(hits: seq<Hit>, offset: nat, k: nat)
    requires Nested(hits) && Deepest(hits, offset).Some?
    requires k < |hits| && k != Deepest(hits, offset).value && Contains(hits[k].range, offset)
    ensures Below(hits[k], hits[Deepest(hits, offset).value])
    ensures Length(hits[k].range) > Length(hits[Deepest(hits, offset).value].range)
  {
    var d := Deepest(hits, offset).value;
    assert k < d;
    assert Apart(hits[k], hits[d]) || Below(hits[k], hits[d]);
  }

  /** A bound on the ranges of one name bounds the shortest of them under the offset. */
  lemma {:induction false} CoveringLongerThan(ranges: seq<Range>, offset: nat, bound: nat)
    requires forall r :: r in ranges && Contains(r, offset) ==> Length(r) > bound
    ensures Covering(ranges, offset).Some? ==> Covering(ranges, offset).value > bound
  {
    if ranges != [] {
      CoveringLongerThan(ranges[1..], offset, bound);
    }
  }

  lemma {:induction false} CoveringIs(ranges: seq<Range>, offset: nat, chosen: Range)
    requires chosen in ranges && Contains(chosen, offset)
    requires forall r :: r in ranges && Contains(r, offset) ==> Length(r) >= Length(chosen)
    ensures Covering(ranges, offset) == Some(Length(chosen))
  {
    if chosen in ranges[1..] {
      CoveringIs(ranges[1..], offset, chosen);
    } else {
      assert ranges[0] == chosen;
      CoveringAtLeast(ranges[1..], offset, Length(chosen));
    }
  }

  lemma {:induction false} CoveringAtLeast(ranges: seq<Range>, offset: nat, bound: nat)
    requires forall r :: r in ranges && Contains(r, offset) ==> Length(r) >= bound
    ensures Covering(ranges, offset).Some? ==> Covering(ranges, offset).value >= bound
  {
    if ranges != [] {
      CoveringAtLeast(ranges[1..], offset, bound);
    }
  }

  /** The hits behind the ranges of a name. */
  lemma {:induction false} RangeOfHit(hits: seq<Hit>, tokens: seq<string>, r: Range) returns (k: nat)
    requires r in At(hits, tokens)
    ensures k < |hits| && hits[k] == Hit(tokens, r)
  {
    if hits[0] == Hit(tokens, r) {
      k := 0;
    } else {
      k := RangeOfHit(hits[1..], tokens, r);
      k := k + 1;
    }
  }

  lemma {:induction false} HitIsRecorded(hits: seq<Hit>, k: nat)
    requires k < |hits|
    ensures hits[k].range in At(hits, hits[k].tokens)
  {
    if k > 0 {
      HitIsRecorded(hits[1..], k - 1);
    }
  }

  /** Every name but the deepest field's is under the offset only with longer ranges. */
  lemma {:induction false} OtherNameIsLonger(hits: seq<Hit>, offset: nat, tokens: seq<string>)
    requires Nested(hits) && Deepest(hits, offset).Some?
    requires tokens != hits[Deepest(hits, offset).value].tokens
    ensures var c := Covering(At(hits, tokens), offset);
            c.Some? ==> c.value > Length(hits[Deepest(hits, offset).value].range)
  {
    var d := hits[Deepest(hits, offset).value];
    forall r | r in At(hits, tokens) && Contains(r, offset) ensures Length(r) > Length(d.range) {
      var k := RangeOfHit(hits, tokens, r);
      OthersAreAncestors(hits, offset, k);
    }
    CoveringLongerThan(At(hits, tokens), offset, Length(d.range));
  }

  lemma {:induction false} DeepestNameIs(hits: seq<Hit>, offset: nat)
    requires Nested(hits) && Deepest(hits, offset).Some?
    ensures var d := hits[Deepest(hits, offset).value];
            Covering(At(hits, d.tokens), offset) == Some(Length(d.range))
  {
    var i := Deepest(hits, offset).value;
    var d := hits[i];
    HitIsRecorded(hits, i);
    forall r | r in At(hits, d.tokens) && Contains(r, offset) ensures Length(r) >= Length(d.range) {
      var k := RangeOfHit(hits, d.tokens, r);
      if k != i {
        OthersAreAncestors(hits, offset, k);
      }
    }
    CoveringIs(At(hits, d.tokens), offset, d.range);
  }

  // ---------------------------------------------------------------- the choice is the deepest field

  /** One name that is strictly shorter than all others is what the choice returns. */
  lemma {:induction false} OneWinner(paths: seq<string>, m: Recorded, offset: nat, winner: string, length: nat)
    requires forall a, b :: 0 <= a < b < |paths| ==> paths[a] != paths[b]
    requires Covering(RangesAt(m, winner), offset) == Some(length)
    requires forall p :: p in paths && p != winner && Covering(RangesAt(m, p), offset).Some?
                     ==> Covering(RangesAt(m, p), offset).value > length
    ensures var matches := Matches(paths, m, offset);
            if winner in paths then Shortest(matches) == Some(length) && OfLength(matches, Some(length)) == [winner]
            else (Shortest(matches).Some? ==> Shortest(matches).value > length) && OfLength(matches, Some(length)) == []
  {
    if paths != [] {
      OneWinner(paths[1..], m, offset, winner, length);
      if paths[0] == winner {
        assert winner !in paths[1..];
      }
      var rest, c := Matches(paths[1..], m, offset), Covering(RangesAt(m, paths[0]), offset);
      if c.Some? {
        assert ([(paths[0], c.value)] + rest)[1..] == rest;
      }
    }
  }

  lemma {:induction false} NoMatches(paths: seq<string>, m: Recorded, offset: nat)
    requires forall p :: p in paths ==> Covering(RangesAt(m, p), offset) == None
    ensures Matches(paths, m, offset) == []
  {
    if paths != [] {
      NoMatches(paths[1..], m, offset);
    }
  }

  /** `paths` lists the recorded names, each once. */
  ghost predicate Lists(paths: seq<string>, m: Recorded) {
    && (forall p :: p in paths <==> p in m)
    && forall a, b :: 0 <= a < b < |paths| ==> paths[a] != paths[b]
  }

  lemma {:induction false} FindName(m: Recorded, hits: seq<Hit>, path: string) returns (k: nat)
    requires path in Collected(m, "", hits) && path !in m
    ensures k < |hits| && Encode(hits[k].tokens) == path
    decreases |hits|
  {
    assert "" + Encode(hits[0].tokens) == Encode(hits[0].tokens);
    if Encode(hits[0].tokens) == path {
      k := 0;
    } else {
      k := FindName(Add(m, Encode(hits[0].tokens), hits[0].range), hits[1..], path);
      k := k + 1;
    }
  }

  /** The tokens behind a recorded name, and its ranges. */
  lemma {:induction false} TokensOf(hits: seq<Hit>, path: string) returns (tokens: seq<string>)
    requires path in Collected(map[], "", hits)
    ensures Encode(tokens) == path && RangesAt(Collected(map[], "", hits), path) == At(hits, tokens)
  {
    var k := FindName(map[], hits, path);
    tokens := hits[k].tokens;
    RecordedRanges(map[], hits, tokens);
    assert RangesAt(map[], path) + At(hits, tokens) == At(hits, tokens);
  }

  lemma {:induction false} CoveringNone(ranges: seq<Range>, offset: nat)
    requires forall r :: r in ranges ==> !Contains(r, offset)
    ensures Covering(ranges, offset) == None
  {
    if ranges != [] {
      CoveringNone(ranges[1..], offset);
    }
  }

  lemma {:induction false} NothingChosen(hits: seq<Hit>, paths: seq<string>, offset: nat)
    requires Lists(paths, Collected(map[], "", hits)) && Deepest(hits, offset).None?
    ensures Matches(paths, Collected(map[], "", hits), offset) == []
  {
    var m := Collected(map[], "", hits);
    forall p | p in paths ensures Covering(RangesAt(m, p), offset) == None {
      var tokens := TokensOf(hits, p);
      forall r | r in At(hits, tokens) ensures !Contains(r, offset) {
        var k := RangeOfHit(hits, tokens, r);
      }
      CoveringNone(At(hits, tokens), offset);
    }
    NoMatches(paths, m, offset);
  }

  lemma {:induction false} WinnerCovers(hits: seq<Hit>, offset: nat)
    requires Nested(hits) && Deepest(hits, offset).Some?
    ensures var m, d := Collected(map[], "", hits), hits[Deepest(hits, offset).value];
            Covering(RangesAt(m, Encode(d.tokens)), offset) == Some(Length(d.range)) && Encode(d.tokens) in m
  {
    var d := hits[Deepest(hits, offset).value];
    RecordedRanges(map[], hits, d.tokens);
    assert RangesAt(map[], Encode(d.tokens)) + At(hits, d.tokens) == At(hits, d.tokens);
    DeepestNameIs(hits, offset);
  }

  lemma {:induction false} DeepestChosen(hits: seq<Hit>, paths: seq<string>, offset: nat)
    requires Lists(paths, Collected(map[], "", hits)) && Nested(hits) && Deepest(hits, offset).Some?
    ensures var matches := Matches(paths, Collected(map[], "", hits), offset);
            OfLength(matches, Shortest(matches)) == DeepestName(hits, offset)
  {
    var m, d := Collected(map[], "", hits), hits[Deepest(hits, offset).value];
    var winner := Encode(d.tokens);
    WinnerCovers(hits, offset);
    forall p | p in paths && p != winner && Covering(RangesAt(m, p), offset).Some?
      ensures Covering(RangesAt(m, p), offset).value > Length(d.range)
    {
      var tokens := TokensOf(hits, p);
      OtherNameIsLonger(hits, offset, tokens);
    }
    OneWinner(paths, m, offset, winner, Length(d.range));
  }

  /**
    The hover shows the explanation of the deepest field under the offset, or nothing: never one of a
    parent in place of its child. The tree may hold recovery nodes.
  */
  lemma {:induction false} HoverShowsTheDeepest(
    root: Node, paths: seq<string>, offset: nat, explain: string -> Option<string>)
    requires Located(root) && Lists(paths, DocumentTargets(root))
    ensures BodyExplanations(paths, DocumentTargets(root), offset, explain)
         == match Deepest(Discovered(root, root.range, 0).hits, offset)
            case None => []
            case Some(k) =>
              (match explain(Encode(Discovered(root, root.range, 0).hits[k].tokens))
               case None => []
               case Some(explanation) => [explanation])
  {
    var hits := Discovered(root, root.range, 0).hits;
    DiscoveredNested(root, root.range, 0);
    if Deepest(hits, offset).None? {
      NothingChosen(hits, paths, offset);
    } else {
      DeepestChosen(hits, paths, offset);
      ExplainedOne(Encode(hits[Deepest(hits, offset).value].tokens), explain);
    }
  }

  lemma {:induction false} ExplainedOne(path: string, explain: string -> Option<string>)
    ensures Explained([path], explain) == match explain(path) case None => [] case Some(explanation) => [explanation]
  {
    assert Explained([path][1..], explain) == [];
  }

  /**
    And deepest means deepest: on an error-free tree every pointer that reaches a range around the offset,
    within the depth limit, leads to the chosen field or to one of its ancestors.
  */
  lemma {:induction false} DeepestIsBelowAll(root: Node, offset: nat, tokens: seq<string>, r: Range)
    requires Located(root) && Clean(root) && |tokens| <= 256
    requires r in Eval(root, root.range, tokens) && r.start <= offset < r.end
    ensures var hits := Discovered(root, root.range, 0).hits;
            && Deepest(hits, offset).Some?
            && tokens <= hits[Deepest(hits, offset).value].tokens
            && (tokens == hits[Deepest(hits, offset).value].tokens ==> r == hits[Deepest(hits, offset).value].range)
  {
    var hits := Discovered(root, root.range, 0).hits;
    DiscoveredNested(root, root.range, 0);
    DiscoveryIsEvaluation(root, root.range, 0, tokens);
    var k := RangeOfHit(hits, tokens, r);
    if k != Deepest(hits, offset).value {
      OthersAreAncestors(hits, offset, k);
    }
  }

  /** The chosen field is one that its pointer evaluates to, and the offset is in it: from its start, and before its end. */
  lemma {:induction false} DeepestIsUnderTheOffset(root: Node, offset: nat)
    requires Deepest(Discovered(root, root.range, 0).hits, offset).Some?
    ensures var hits := Discovered(root, root.range, 0).hits;
            var chosen := hits[Deepest(hits, offset).value];
            chosen.range.start <= offset < chosen.range.end && chosen.range in Eval(root, root.range, chosen.tokens)
  {
    var hits := Discovered(root, root.range, 0).hits;
    var chosen := hits[Deepest(hits, offset).value];
    HitIsAt(hits, Deepest(hits, offset).value);
    NothingIsInvented(root, root.range, 0, chosen.tokens);
  }

  lemma {:induction false} HitIsAt(hits: seq<Hit>, k: nat)
    requires k < |hits|
    ensures hits[k].range in At(hits, hits[k].tokens)
  {
    if k > 0 {
      HitIsAt(hits[1..], k - 1);
    }
  }
}
