/**
  Discovery against evaluation: on an error-free tree the recorded names and ranges are exactly what
  RFC 6901, section 4, reaches, and absence is claimed only when it is true
  (src/documentation_body.rs:23-84 and 180-253).
*/
module BodyEvaluation {
  import opened Wrappers
  import Sequences
  import opened JsonPointer
  import opened BodyTargets

  // ---------------------------------------------------------------- the reference

  /** The values of an array from its child `i` on: the children but for the comments. */
  function Elements(children: seq<Node>, i: nat): seq<Node>
    requires i <= |children|
    decreases |children| - i
  {
    if i == |children| then []
    else (if children[i].kind == CommentKind then [] else [children[i]]) + Elements(children, i + 1)
  }

  /**
    Evaluation of a pointer: the ranges of all the fields it reaches. An array token must be an index
    by the rule of the standard; of equal member names every one is followed.
  */
  function Eval(node: Node, range: Range, tokens: seq<string>): seq<Range>
    decreases |tokens|, 1, 0
  {
    if tokens == [] then [range]
    else if node.kind == ArrayKind then
      var elements := Elements(node.children, 0);
      match ArrayIndex(tokens[0])
      case None => []
      case Some(n) => if n < |elements| then Eval(elements[n], elements[n].range, tokens[1..]) else []
    else if node.kind == ObjectKind then EvalMembers(node.children, 0, tokens)
    else []
  }

  function EvalMembers(children: seq<Node>, i: nat, tokens: seq<string>): seq<Range>
    requires i <= |children| && tokens != []
    decreases |tokens|, 0, |children| - i
  {
    if i == |children| then []
    else
      var c := children[i];
      (if c.kind == PairKind && c.key == Some(tokens[0]) && c.colon && c.value.Some?
       then Eval(c.value.value, c.range, tokens[1..]) else []) + EvalMembers(children, i + 1, tokens)
  }

  /** A tree without recovery nodes. */
  predicate Clean(node: Node)
    decreases node, 1
  {
    && !node.missing && !node.error
    && (node.kind == ScalarKind ==> !node.hasError)
    && (node.kind == ScalarKind || node.kind == ArrayKind || node.kind == ObjectKind)
    && (node.kind != ScalarKind ==> forall i :: 0 <= i < |node.children| ==> CleanChild(node.kind, node.children[i]))
  }

  predicate CleanChild(parent: Kind, child: Node)
    decreases child, 2
  {
    && !child.missing && !child.error
    && (child.kind == CommentKind
        || (parent == ArrayKind && Clean(child))
        || (parent == ObjectKind && child.kind == PairKind && child.colon && child.value.Some?
            && Clean(child.value.value)))
  }

  // ---------------------------------------------------------------- the ranges discovered at a pointer

  function At(hits: seq<Hit>, tokens: seq<string>): seq<Range> {
    if hits == [] then []
    else (if hits[0].tokens == tokens then [hits[0].range] else []) + At(hits[1..], tokens)
  }

  lemma {:induction false} AtCons(first: Hit, hits: seq<Hit>, tokens: seq<string>)
    ensures At([first] + hits, tokens) == (if first.tokens == tokens then [first.range] else []) + At(hits, tokens)
  {
  }

  lemma {:induction false} AtConsAll(first: Hit, a: seq<Hit>, b: seq<Hit>, tokens: seq<string>)
    requires At(a + b, tokens) == At(a, tokens) + At(b, tokens)
    ensures At([first] + a + b, tokens) == At([first] + a, tokens) + At(b, tokens)
  {
    AtCons(first, a, tokens);
    AtCons(first, a + b, tokens);
    Sequences.Reassociate([first], a, b);
    Sequences.Reassociate(if first.tokens == tokens then [first.range] else [], At(a, tokens), At(b, tokens));
  }

  lemma {:induction false} AtAll(a: seq<Hit>, b: seq<Hit>, tokens: seq<string>)
    ensures At(a + b, tokens) == At(a, tokens) + At(b, tokens)
  {
    if a == [] {
      assert a + b == b;
    } else {
      AtAll(a[1..], b, tokens);
      AtConsAll(a[0], a[1..], b, tokens);
      assert [a[0]] + a[1..] == a;
    }
  }

  lemma {:induction false} AtPrefixed(token: string, hits: seq<Hit>, tokens: seq<string>)
    ensures At(Prefixed(token, hits), tokens)
         == if tokens != [] && tokens[0] == token then At(hits, tokens[1..]) else []
  {
    if hits != [] {
      var h := hits[0];
      assert Prefixed(token, hits)[0] == Hit([token] + h.tokens, h.range);
      assert Prefixed(token, hits)[1..] == Prefixed(token, hits[1..]);
      AtPrefixed(token, hits[1..], tokens);
      if tokens != [] && tokens[0] == token {
        assert ([token] + h.tokens)[1..] == h.tokens && tokens == [token] + tokens[1..];
      } else {
        assert ([token] + h.tokens)[0] == token;
      }
    }
  }

  // ---------------------------------------------------------------- evaluation, child by child

  /** What one child contributes to the evaluation. */
  function ChildEval(parent: Kind, child: Node, index: nat, tokens: seq<string>): seq<Range>
    requires tokens != []
  {
    if child.kind == CommentKind then []
    else
      match EntryOf(parent, child, index)
      case None => []
      case Some(e) => if e.token == tokens[0] then Eval(e.node, e.range, tokens[1..]) else []
  }

  function EvalFrom(node: Node, i: nat, index: nat, tokens: seq<string>): seq<Range>
    requires i <= |node.children| && tokens != []
    decreases |node.children| - i
  {
    if i == |node.children| then []
    else
      ChildEval(node.kind, node.children[i], index, tokens)
      + EvalFrom(node, i + 1, NextIndex(node.kind, node.children[i], index), tokens)
  }

  /** The element with index `n` of a list that starts at `index`. */
  function Picked(elements: seq<Node>, index: nat, n: Option<nat>, tokens: seq<string>): seq<Range> {
    if n.Some? && index <= n.value < index + |elements|
    then Eval(elements[n.value - index], elements[n.value - index].range, tokens) else []
  }

  lemma {:induction false} PickedCons(first: Node, elements: seq<Node>, index: nat, n: Option<nat>, tokens: seq<string>)
    ensures Picked([first] + elements, index, n, tokens)
         == (if n == Some(index) then Eval(first, first.range, tokens) else []) + Picked(elements, index + 1, n, tokens)
  {
  }

  lemma {:induction false} ArrayFrom(node: Node, i: nat, index: nat, tokens: seq<string>)
    requires i <= |node.children| && tokens != [] && node.kind == ArrayKind
    ensures EvalFrom(node, i, index, tokens)
         == Picked(Elements(node.children, i), index, ArrayIndex(tokens[0]), tokens[1..])
    decreases |node.children| - i
  {
    if i < |node.children| {
      var child := node.children[i];
      ArrayFrom(node, i + 1, NextIndex(node.kind, child, index), tokens);
      if child.kind != CommentKind {
        ArrayIndexIsDigits(tokens[0], index);
        PickedCons(child, Elements(node.children, i + 1), index, ArrayIndex(tokens[0]), tokens[1..]);
      }
    }
  }

  lemma {:induction false} ObjectFrom(node: Node, i: nat, index: nat, tokens: seq<string>)
    requires i <= |node.children| && tokens != [] && node.kind == ObjectKind
    ensures EvalFrom(node, i, index, tokens) == EvalMembers(node.children, i, tokens)
    decreases |node.children| - i
  {
    if i < |node.children| {
      ObjectFrom(node, i + 1, index, tokens);
    }
  }

  lemma {:induction false} EvalByChildren(node: Node, range: Range, tokens: seq<string>)
    requires tokens != [] && (node.kind == ArrayKind || node.kind == ObjectKind)
    ensures Eval(node, range, tokens) == EvalFrom(node, 0, 0, tokens)
  {
    if node.kind == ArrayKind {
      ArrayFrom(node, 0, 0, tokens);
    } else {
      ObjectFrom(node, 0, 0, tokens);
    }
  }

  // ---------------------------------------------------------------- exactness

  /** Within the limit, discovery finds at each pointer exactly the evaluated ranges; beyond it, nothing. */
  lemma {:induction false} DiscoveryIsEvaluation(node: Node, range: Range, depth: nat, tokens: seq<string>)
    requires Clean(node)
    ensures At(Discovered(node, range, depth).hits, tokens)
         == if depth + |tokens| <= DEPTH_LIMIT then Eval(node, range, tokens) else []
    decreases node, |node.children| + 1
  {
    if depth <= DEPTH_LIMIT && node.kind != ScalarKind {
      var below := DiscoveredFrom(node, 0, 0, depth).hits;
      AtAll([Hit([], range)], below, tokens);
      AtSingle(range, tokens);
      if tokens == [] {
        ChildrenNeverAtRoot(node, 0, 0, depth);
      } else {
        EvalByChildren(node, range, tokens);
        ChildrenAreEvaluated(node, 0, 0, depth, tokens);
      }
    } else if depth <= DEPTH_LIMIT {
      AtSingle(range, tokens);
    }
  }

  lemma {:induction false} AtSingle(range: Range, tokens: seq<string>)
    ensures At([Hit([], range)], tokens) == if tokens == [] then [range] else []
  {
    assert [Hit([], range)][1..] == [];
  }

  lemma {:induction false} ChildrenNeverAtRoot(node: Node, i: nat, index: nat, depth: nat)
    requires i <= |node.children|
    ensures At(DiscoveredFrom(node, i, index, depth).hits, []) == []
    decreases |node.children| - i
  {
    if i < |node.children| && !node.children[i].error && !node.children[i].missing {
      var child := node.children[i];
      var next := NextIndex(node.kind, child, index);
      ChildrenNeverAtRoot(node, i + 1, next, depth);
      AtAll(ChildFound(node.kind, child, index, depth).hits, DiscoveredFrom(node, i + 1, next, depth).hits, []);
      if child.kind != CommentKind && EntryOf(node.kind, child, index).Some? {
        var e := EntryOf(node.kind, child, index).value;
        AtPrefixed(e.token, Discovered(e.node, e.range, depth + 1).hits, []);
      }
    }
  }

  lemma {:induction false} ChildrenAreEvaluated(node: Node, i: nat, index: nat, depth: nat, tokens: seq<string>)
    requires i <= |node.children| && tokens != [] && depth <= DEPTH_LIMIT
    requires Clean(node) && node.kind != ScalarKind
    ensures At(DiscoveredFrom(node, i, index, depth).hits, tokens)
         == if depth + |tokens| <= DEPTH_LIMIT then EvalFrom(node, i, index, tokens) else []
    decreases node, |node.children| - i
  {
    if i < |node.children| {
      var child := node.children[i];
      assert CleanChild(node.kind, child);
      var next := NextIndex(node.kind, child, index);
      ChildIsEvaluated(node.kind, child, index, depth, tokens);
      ChildrenAreEvaluated(node, i + 1, next, depth, tokens);
      AtAll(ChildFound(node.kind, child, index, depth).hits, DiscoveredFrom(node, i + 1, next, depth).hits, tokens);
    }
  }

  lemma {:induction false} ChildIsEvaluated(parent: Kind, child: Node, index: nat, depth: nat, tokens: seq<string>)
    requires CleanChild(parent, child) && tokens != [] && depth <= DEPTH_LIMIT
    ensures At(ChildFound(parent, child, index, depth).hits, tokens)
         == if depth + |tokens| <= DEPTH_LIMIT then ChildEval(parent, child, index, tokens) else []
    decreases child, |child.children| + 2
  {
    if child.kind != CommentKind && EntryOf(parent, child, index).Some? {
      var e := EntryOf(parent, child, index).value;
      AtPrefixed(e.token, Discovered(e.node, e.range, depth + 1).hits, tokens);
      DiscoveryIsEvaluation(e.node, e.range, depth + 1, tokens[1..]);
    }
  }

  // ---------------------------------------------------------------- absence

  /** Discovery reports that it was complete exactly when no pointer that evaluates is beyond the limit. */
  lemma {:induction false} FullMeansAllWithinLimit(node: Node, range: Range, depth: nat, tokens: seq<string>)
    requires Clean(node) && Discovered(node, range, depth).full && Eval(node, range, tokens) != []
    ensures depth + |tokens| <= DEPTH_LIMIT
    decreases node, |node.children| + 1
  {
    if tokens != [] {
      EvalByChildren(node, range, tokens);
      FullChildren(node, 0, 0, depth, tokens);
    }
  }

  lemma {:induction false} FullChildren(node: Node, i: nat, index: nat, depth: nat, tokens: seq<string>)
    requires i <= |node.children| && tokens != [] && Clean(node) && node.kind != ScalarKind
    requires DiscoveredFrom(node, i, index, depth).full && EvalFrom(node, i, index, tokens) != []
    ensures depth + |tokens| <= DEPTH_LIMIT
    decreases node, |node.children| - i
  {
    var child := node.children[i];
    assert CleanChild(node.kind, child);
    if ChildEval(node.kind, child, index, tokens) != [] {
      var e := EntryOf(node.kind, child, index).value;
      FullMeansAllWithinLimit(e.node, e.range, depth + 1, tokens[1..]);
    } else {
      FullChildren(node, i + 1, NextIndex(node.kind, child, index), depth, tokens);
    }
  }

  lemma {:induction false} NotFullHasDeepPointer(node: Node, range: Range, depth: nat) returns (tokens: seq<string>)
    requires Clean(node) && !Discovered(node, range, depth).full
    ensures Eval(node, range, tokens) != [] && depth + |tokens| > DEPTH_LIMIT
    decreases node, |node.children| + 1
  {
    if depth > DEPTH_LIMIT {
      tokens := [];
    } else {
      tokens := DeepBelow(node, 0, 0, depth);
      EvalByChildren(node, range, tokens);
    }
  }

  lemma {:induction false} DeepBelow(node: Node, i: nat, index: nat, depth: nat) returns (tokens: seq<string>)
    requires i <= |node.children| && Clean(node) && node.kind != ScalarKind
    requires !DiscoveredFrom(node, i, index, depth).full
    ensures tokens != [] && EvalFrom(node, i, index, tokens) != [] && depth + |tokens| > DEPTH_LIMIT
    decreases node, |node.children| - i
  {
    var child := node.children[i];
    assert CleanChild(node.kind, child);
    if ChildFound(node.kind, child, index, depth).full {
      tokens := DeepBelow(node, i + 1, NextIndex(node.kind, child, index), depth);
    } else {
      var e := EntryOf(node.kind, child, index).value;
      var rest := NotFullHasDeepPointer(e.node, e.range, depth + 1);
      tokens := [e.token] + rest;
      assert tokens[1..] == rest;
      assert ChildEval(node.kind, child, index, tokens) != [];
    }
  }

  /**
    A member whose key does not decode is skipped and costs no completeness: the tree of an object with only
    such a member is clean, and records nothing but its root.
  */
  lemma {:induction false} UndecodedKeyIsSkipped(root: Node, pair: Node, value: Node)
    requires Clean(value) && pair == Node(PairKind, pair.range, false, false, false, pair.children, None, true, Some(value))
    requires root == Node(ObjectKind, root.range, false, false, false, [pair], None, false, None)
    ensures Clean(root) && Discovered(root, root.range, 0) == Found([Hit([], root.range)], true)
  {
    assert EntryOf(ObjectKind, pair, 0) == None;
    assert ChildFound(ObjectKind, pair, 0, 0) == Found([], true);
    assert DiscoveredFrom(root, 1, 0, 0) == Found([], true);
    assert DiscoveredFrom(root, 0, 0, 0) == Found([], true);
  }

  // ---------------------------------------------------------------- any tree, recovery nodes included

  /** Whatever the parser recovered, a range is recorded at a pointer only where the pointer evaluates to it. */
  lemma {:induction false} NothingIsInvented(node: Node, range: Range, depth: nat, tokens: seq<string>)
    ensures forall r :: r in At(Discovered(node, range, depth).hits, tokens) ==> r in Eval(node, range, tokens)
    decreases node, |node.children| + 1
  {
    if depth <= DEPTH_LIMIT && !node.missing && !node.error {
      AtSingle(range, tokens);
      if node.kind == ArrayKind || node.kind == ObjectKind {
        AtAll([Hit([], range)], DiscoveredFrom(node, 0, 0, depth).hits, tokens);
        if tokens == [] {
          ChildrenNeverAtRoot(node, 0, 0, depth);
        } else {
          EvalByChildren(node, range, tokens);
          NoChildIsInvented(node, 0, 0, depth, tokens);
        }
      }
    }
  }

  lemma {:induction false} NoChildIsInvented(node: Node, i: nat, index: nat, depth: nat, tokens: seq<string>)
    requires i <= |node.children| && tokens != []
    ensures forall r :: r in At(DiscoveredFrom(node, i, index, depth).hits, tokens)
                    ==> r in EvalFrom(node, i, index, tokens)
    decreases node, |node.children| - i
  {
    if i < |node.children| && !node.children[i].error && !node.children[i].missing {
      var child := node.children[i];
      var next := NextIndex(node.kind, child, index);
      NoChildIsInvented(node, i + 1, next, depth, tokens);
      AtAll(ChildFound(node.kind, child, index, depth).hits, DiscoveredFrom(node, i + 1, next, depth).hits, tokens);
      if child.kind != CommentKind && EntryOf(node.kind, child, index).Some? {
        var e := EntryOf(node.kind, child, index).value;
        AtPrefixed(e.token, Discovered(e.node, e.range, depth + 1).hits, tokens);
        NothingIsInvented(e.node, e.range, depth + 1, tokens[1..]);
      }
    }
  }

  // ---------------------------------------------------------------- pointer texts

  lemma {:induction false} RecordedRanges(m: Recorded, hits: seq<Hit>, tokens: seq<string>)
    ensures RangesAt(Collected(m, "", hits), Encode(tokens)) == RangesAt(m, Encode(tokens)) + At(hits, tokens)
    decreases |hits|
  {
    if hits != [] {
      var h := hits[0];
      assert "" + Encode(h.tokens) == Encode(h.tokens);
      var added := Add(m, Encode(h.tokens), h.range);
      RecordedRanges(added, hits[1..], tokens);
      SameText(h.tokens, tokens);
    }
  }

  lemma {:induction false} SameText(a: seq<string>, b: seq<string>)
    ensures Encode(a) == Encode(b) <==> a == b
  {
    PointerRoundTrip(a);
    PointerRoundTrip(b);
  }

  /** Only printed pointers are recorded, and none without a range. */
  lemma {:induction false} RecordedNames(m: Recorded, hits: seq<Hit>, path: string)
    requires path in m ==> ValidPath(path) && m[path] != []
    ensures path in Collected(m, "", hits) ==> ValidPath(path) && Collected(m, "", hits)[path] != []
    decreases |hits|
  {
    if hits != [] {
      var h := hits[0];
      assert "" + Encode(h.tokens) == Encode(h.tokens);
      EncodedIsValid(h.tokens);
      RecordedNames(Add(m, Encode(h.tokens), h.range), hits[1..], path);
    }
  }

  /** What discovery records for a document with this root value. */
  function DocumentTargets(root: Node): Recorded {
    Collected(map[], "", Discovered(root, root.range, 0).hits)
  }

  /**
    On an error-free tree the recorded ranges of a pointer are exactly those it evaluates to, up to
    the depth limit; beyond the limit nothing is recorded.
  */
  lemma {:induction false} RangesAreTheFields(root: Node, tokens: seq<string>)
    requires Clean(root)
    ensures RangesAt(DocumentTargets(root), Encode(tokens))
         == if |tokens| <= 256 then Eval(root, root.range, tokens) else []
  {
    RecordedRanges(map[], Discovered(root, root.range, 0).hits, tokens);
    DiscoveryIsEvaluation(root, root.range, 0, tokens);
  }

  /** Every recorded name passes the syntax check, and is the text of a pointer that evaluates. */
  lemma {:induction false} NamesArePointers(root: Node, path: string) returns (tokens: seq<string>)
    requires Clean(root) && path in DocumentTargets(root)
    ensures ValidPath(path) && Encode(tokens) == path
    ensures |tokens| <= 256 && Eval(root, root.range, tokens) != []
  {
    RecordedNames(map[], Discovered(root, root.range, 0).hits, path);
    ValidPathsAreThePointers(path);
    tokens :| Encode(tokens) == path;
    RangesAreTheFields(root, tokens);
  }

  /**
    The answers are true: a field is claimed exactly for the pointers within the limit that evaluate, it is
    denied only for pointers that do not, and the third answer is given only when the strict parser
    refused the text or some field of the document is beyond the limit.
  */
  lemma {:induction false} AnswersAreTrue(root: Node, strict: bool, tokens: seq<string>) returns (deep: seq<string>)
    requires Clean(root)
    ensures var answer := Answer(DocumentTargets(root), strict && Discovered(root, root.range, 0).full, Encode(tokens));
            && (answer == Some(true) <==> |tokens| <= 256 && Eval(root, root.range, tokens) != [])
            && (answer == Some(false) ==> strict && Eval(root, root.range, tokens) == [])
            && (answer == None && strict ==> Eval(root, root.range, deep) != [] && |deep| > 256)
  {
    RangesAreTheFields(root, tokens);
    RecordedNames(map[], Discovered(root, root.range, 0).hits, Encode(tokens));
    deep := [];
    if !Discovered(root, root.range, 0).full {
      deep := NotFullHasDeepPointer(root, root.range, 0);
    } else if Eval(root, root.range, tokens) != [] {
      FullMeansAllWithinLimit(root, root.range, 0, tokens);
    }
  }
}
