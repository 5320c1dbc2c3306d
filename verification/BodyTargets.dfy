/**
  The fields of a JSON body that annotations may name (src/documentation_body.rs:23-253): discovery
  walks a syntax tree that may hold recovery nodes and records a pointer and a source range for every
  field. The reference is the evaluation of RFC 6901, section 4, on the same tree.
*/
module BodyTargets {
  import opened Wrappers
  import opened JsonPointer

  const DEPTH_LIMIT := 256

  datatype Kind = ObjectKind | ArrayKind | ScalarKind | PairKind | CommentKind | OtherKind

  /**
    A named node of the syntax tree. `key`, `colon` and `value` matter only for a pair: the decoded
    text of its key field, whether a colon is really there, and its value field.
  */
  datatype Node = Node(
    kind: Kind, range: Range, missing: bool, error: bool, hasError: bool, children: seq<Node>,
    key: Option<string>, colon: bool, value: Option<Node>)

  /** One discovered field: the reference tokens that lead to it and its source range. */
  datatype Hit = Hit(tokens: seq<string>, range: Range)

  datatype Found = Found(hits: seq<Hit>, full: bool)

  // ---------------------------------------------------------------- discovery

  function Prefixed(token: string, hits: seq<Hit>): seq<Hit> {
    if hits == [] then []
    else [Hit([token] + hits[0].tokens, hits[0].range)] + Prefixed(token, hits[1..])
  }

  /** A field under a parent: its token, the node that holds its value, and the range shown for it. */
  datatype Entry = Entry(token: string, node: Node, range: Range)

  /** The field a child stands for, if any: every array child is one, an object child only as a whole pair. */
  function EntryOf(parent: Kind, child: Node, index: nat): (e: Option<Entry>)
    ensures e.Some? ==> e.value.node == child || (child.value.Some? && e.value.node == child.value.value)
  {
    if parent == ArrayKind then Some(Entry(Digits(index), child, child.range))
    else if child.kind == PairKind && child.key.Some? && child.value.Some? && child.colon then
      Some(Entry(child.key.value, child.value.value, child.range))
    else None
  }

  /** What discovery records at and below `node`, in order, with tokens relative to it. */
  function Discovered(node: Node, range: Range, depth: nat): Found
    decreases node, |node.children| + 1
  {
    if depth > DEPTH_LIMIT then Found([], false)
    else if node.missing || node.error then Found([], true)
    else if node.kind == ScalarKind then Found(if node.hasError then [] else [Hit([], range)], true)
    else if node.kind == ObjectKind || node.kind == ArrayKind then
      var below := DiscoveredFrom(node, 0, 0, depth);
      Found([Hit([], range)] + below.hits, below.full)
    else Found([], true)
  }

  /** What one child adds below its parent. */
  function ChildFound(parent: Kind, child: Node, index: nat, depth: nat): Found
    decreases child, |child.children| + 2
  {
    if child.kind == CommentKind then Found([], true)
    else
      match EntryOf(parent, child, index)
      case None => Found([], true)
      case Some(entry) =>
        var here := Discovered(entry.node, entry.range, depth + 1);
        Found(Prefixed(entry.token, here.hits), here.full)
  }

  /** The index of the next array element: comments and object members do not count. */
  function NextIndex(parent: Kind, child: Node, index: nat): nat {
    if parent == ArrayKind && child.kind != CommentKind then index + 1 else index
  }

  function DiscoveredFrom(node: Node, i: nat, index: nat, depth: nat): Found
    requires i <= |node.children|
    decreases node, |node.children| - i
  {
    if i == |node.children| || node.children[i].error || node.children[i].missing then Found([], true)
    else
      var here := ChildFound(node.kind, node.children[i], index, depth);
      var rest := DiscoveredFrom(node, i + 1, NextIndex(node.kind, node.children[i], index), depth);
      Found(here.hits + rest.hits, here.full && rest.full)
  }

  // ---------------------------------------------------------------- the recorded targets

  type Recorded = map<string, seq<Range>>

  function RangesAt(m: Recorded, path: string): seq<Range> {
    if path in m then m[path] else []
  }

  function Add(m: Recorded, path: string, range: Range): Recorded {
    m[path := RangesAt(m, path) + [range]]
  }

  /** `m` after every hit was recorded, in order, below `path`. */
  function Collected(m: Recorded, path: string, hits: seq<Hit>): Recorded
    decreases |hits|
  {
    if hits == [] then m
    else Collected(Add(m, path + Encode(hits[0].tokens), hits[0].range), path, hits[1..])
  }

  lemma {:induction false} CollectedAll(m: Recorded, path: string, a: seq<Hit>, b: seq<Hit>)
    ensures Collected(m, path, a + b) == Collected(Collected(m, path, a), path, b)
    decreases |a|
  {
    if a == [] {
      assert a + b == b;
    } else {
      assert (a + b)[0] == a[0] && (a + b)[1..] == a[1..] + b;
      CollectedAll(Add(m, path + Encode(a[0].tokens), a[0].range), path, a[1..], b);
    }
  }

  /** Recording below a longer path is recording the hits with the token in front. */
  lemma {:induction false} CollectedBelow(m: Recorded, path: string, token: string, hits: seq<Hit>)
    ensures Collected(m, path + "/" + EscapeToken(token), hits) == Collected(m, path, Prefixed(token, hits))
    decreases |hits|
  {
    if hits != [] {
      var h := hits[0];
      assert path + "/" + EscapeToken(token) + Encode(h.tokens) == path + Encode([token] + h.tokens);
      assert Prefixed(token, hits)[0] == Hit([token] + h.tokens, h.range);
      assert Prefixed(token, hits)[1..] == Prefixed(token, hits[1..]);
      CollectedBelow(Add(m, path + Encode([token] + h.tokens), h.range), path, token, hits[1..]);
    }
  }

  /** Whether a field is there, as far as the recorded targets tell. */
  function Answer(m: Recorded, complete: bool, path: string): Option<bool> {
    if path in m then Some(true) else if complete then Some(false) else None
  }

  class Targets {
    var names: set<string>
    var ranges: Recorded
    var complete: bool

    ghost predicate Valid()
      reads this
    {
      names == ranges.Keys
    }

    constructor (strict: bool)
      ensures Valid() && names == {} && ranges == map[] && complete == strict
    {
      names, ranges, complete := {}, map[], strict;
    }

    method Insert(path: string, range: Range)
      requires Valid()
      modifies this
      ensures Valid() && complete == old(complete)
      ensures ranges == Add(old(ranges), path, range)
    {
      names := names + {path};
      ranges := ranges[path := RangesAt(ranges, path) + [range]];
    }

    method Discover(node: Node, range: Range, path: string, depth: nat)
      requires Valid()
      modifies this
      ensures Valid()
      ensures ranges == Collected(old(ranges), path, Discovered(node, range, depth).hits)
      ensures complete == (old(complete) && Discovered(node, range, depth).full)
      decreases node, 1
    {
      if depth > DEPTH_LIMIT {
        complete := false;
        return;
      }
      if node.missing || node.error {
        return;
      }
      RecordedHere(ranges, path, range);
      if node.kind == ObjectKind || node.kind == ArrayKind {
        CollectedAll(ranges, path, [Hit([], range)], DiscoveredFrom(node, 0, 0, depth).hits);
        Insert(path, range);
        DiscoverChildren(node, path, depth);
      } else if node.kind == ScalarKind && !node.hasError {
        Insert(path, range);
      }
    }

    /** The loop over the children of an object or array. */
    method DiscoverChildren(node: Node, path: string, depth: nat)
      requires Valid()
      modifies this
      ensures Valid()
      ensures ranges == Collected(old(ranges), path, DiscoveredFrom(node, 0, 0, depth).hits)
      ensures complete == (old(complete) && DiscoveredFrom(node, 0, 0, depth).full)
      decreases node, 0
    {
      var index, i := 0, 0;
      while i < |node.children|
        invariant i <= |node.children| && Valid()
        invariant Collected(ranges, path, DiscoveredFrom(node, i, index, depth).hits)
               == Collected(old(ranges), path, DiscoveredFrom(node, 0, 0, depth).hits)
        invariant (complete && DiscoveredFrom(node, i, index, depth).full)
               == (old(complete) && DiscoveredFrom(node, 0, 0, depth).full)
      {
        var child := node.children[i];
        if child.error || child.missing {
          break;
        }
        ghost var here := ChildFound(node.kind, child, index, depth).hits;
        ghost var rest := DiscoveredFrom(node, i + 1, NextIndex(node.kind, child, index), depth).hits;
        CollectedAll(ranges, path, here, rest);
        index := DiscoverChild(node.kind, child, index, path, depth);
        i := i + 1;
      }
    }

    /** The body of that loop for one sound child. */
    method DiscoverChild(parent: Kind, child: Node, index: nat, path: string, depth: nat) returns (next: nat)
      requires Valid()
      modifies this
      ensures Valid() && next == NextIndex(parent, child, index)
      ensures ranges == Collected(old(ranges), path, ChildFound(parent, child, index, depth).hits)
      ensures complete == (old(complete) && ChildFound(parent, child, index, depth).full)
      decreases child, 2
    {
      next := index;
      if child.kind == CommentKind {
      } else if parent == ArrayKind {
        IndexRecorded(ranges, path, child, index, depth);
        Discover(child, child.range, path + "/" + Digits(index), depth + 1);
        next := index + 1;
      } else if child.kind == PairKind {
        if child.key.Some? && child.value.Some? && child.colon {
          MemberRecorded(ranges, path, parent, child, index, depth);
          Discover(child.value.value, child.range, path + "/" + EscapeToken(child.key.value), depth + 1);
        }
      }
    }

    function Contains(path: string): (answer: Option<bool>)
      requires Valid()
      reads this
      ensures answer == Answer(ranges, complete, path)
    {
      if path in names then Some(true) else if complete then Some(false) else None
    }
  }

  lemma {:induction false} IndexToken(index: nat)
    ensures EscapeToken(Digits(index)) == Digits(index)
  {
    DigitsAreAnIndex(index);
    DigitsEscape(Digits(index));
  }

  lemma {:induction false} IndexRecorded(m: Recorded, path: string, child: Node, index: nat, depth: nat)
    requires child.kind != CommentKind
    ensures var here := ChildFound(ArrayKind, child, index, depth);
            var below := Discovered(child, child.range, depth + 1);
            here.full == below.full &&
            Collected(m, path, here.hits) == Collected(m, path + "/" + Digits(index), below.hits)
  {
    IndexToken(index);
    CollectedBelow(m, path, Digits(index), Discovered(child, child.range, depth + 1).hits);
  }

  lemma {:induction false} MemberRecorded(
    m: Recorded, path: string, parent: Kind, child: Node, index: nat, depth: nat)
    requires parent != ArrayKind && child.kind == PairKind && child.key.Some? && child.value.Some? && child.colon
    ensures var here := ChildFound(parent, child, index, depth);
            var below := Discovered(child.value.value, child.range, depth + 1);
            here.full == below.full &&
            Collected(m, path, here.hits) == Collected(m, path + "/" + EscapeToken(child.key.value), below.hits)
  {
    CollectedBelow(m, path, child.key.value, Discovered(child.value.value, child.range, depth + 1).hits);
  }

  lemma {:induction false} RecordedHere(m: Recorded, path: string, range: Range)
    ensures Collected(m, path, [Hit([], range)]) == Add(m, path, range)
  {
    assert path + Encode([]) == path;
    assert [Hit([], range)][1..] == [];
  }

  /**
    Discovery on a whole document: `children` are the named nodes under its root, `strict` says that a
    strict parser accepted the text. Only the first value counts.
  */
  method ParseJson(children: seq<Node>, strict: bool) returns (targets: Targets)
    ensures fresh(targets) && targets.Valid()
    ensures var root := RootOf(children);
            if root.None? then targets.ranges == map[] && targets.complete == strict
            else var found := Discovered(root.value, root.value.range, 0);
              targets.ranges == Collected(map[], "", found.hits) && targets.complete == (strict && found.full)
  {
    targets := new Targets(strict);
    var i := 0;
    while i < |children|
      invariant i <= |children| && RootOf(children) == RootOf(children[i..])
      invariant fresh(targets) && targets.Valid() && targets.ranges == map[] && targets.complete == strict
    {
      assert children[i..][0] == children[i] && children[i..][1..] == children[i + 1..];
      if children[i].kind != CommentKind {
        targets.Discover(children[i], children[i].range, "", 0);
        return;
      }
      i := i + 1;
    }
  }

  function RootOf(children: seq<Node>): Option<Node> {
    if children == [] then None
    else if children[0].kind == CommentKind then RootOf(children[1..])
    else Some(children[0])
  }
}
