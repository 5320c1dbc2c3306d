/**
  The caches behind the documentation editor (src/documentation_intelligence.rs:329-494): the reference catalog is
  rebuilt only when the flattened navigation inputs of the workspace change, and decorations are redone only
  when the source, the styles or the catalog changed.
*/
module ResourceCache {
  import opened Wrappers

  // ---------------------------------------------------------------- the workspace, as navigation sees it

  datatype Folder = Folder(id: string, name: string, parent: Option<string>)
  datatype Request = Request(id: string, name: string, folder: Option<string>)
  datatype Collection = Collection(id: string, name: string, folders: seq<Folder>, requests: seq<Request>)
  datatype Variable = Variable(id: string, key: string)
  datatype Environment = Environment(id: string, variables: seq<Variable>)

  /** What the catalog is built from: the tree of collections and the active environment. */
  datatype Navigation = Navigation(collections: seq<Collection>, active: Option<Environment>)

  /** The payload is everything else: request contents, variable values, inactive environments. */
  datatype Workspace<+P> = Workspace(navigation: Navigation, payload: P)

  datatype InputKind = CollectionKind | FolderKind | RequestKind | EnvironmentKind | VariableKind

  datatype Input = Input(kind: InputKind, id: string, name: string, parent: Option<string>)

  function FolderInputs(folders: seq<Folder>): seq<Input> {
    seq(|folders|, i requires 0 <= i < |folders| =>
      Input(FolderKind, folders[i].id, folders[i].name, folders[i].parent))
  }

  function RequestInputs(requests: seq<Request>): seq<Input> {
    seq(|requests|, i requires 0 <= i < |requests| =>
      Input(RequestKind, requests[i].id, requests[i].name, requests[i].folder))
  }

  function VariableInputs(variables: seq<Variable>): seq<Input> {
    seq(|variables|, i requires 0 <= i < |variables| =>
      Input(VariableKind, variables[i].id, variables[i].key, None))
  }

  function CollectionInputs(collections: seq<Collection>): seq<Input> {
    if collections == [] then []
    else
      var c := collections[0];
      [Input(CollectionKind, c.id, c.name, None)]
      + (FolderInputs(c.folders) + (RequestInputs(c.requests) + CollectionInputs(collections[1..])))
  }

  function EnvironmentInputs(active: Option<Environment>): seq<Input> {
    match active
    case None => []
    case Some(e) => [Input(EnvironmentKind, e.id, "", None)] + VariableInputs(e.variables)
  }

  function ResourceInputs(n: Navigation): seq<Input> {
    CollectionInputs(n.collections) + EnvironmentInputs(n.active)
  }

  // ---------------------------------------------------------------- the inputs determine the navigation

  /** How many inputs of one kind stand at the front. */
  function Run(inputs: seq<Input>, kind: InputKind): (n: nat)
    ensures n <= |inputs|
  {
    if inputs == [] || inputs[0].kind != kind then 0 else 1 + Run(inputs[1..], kind)
  }

  lemma {:induction false} RunIs(part: seq<Input>, rest: seq<Input>, kind: InputKind)
    requires forall i :: 0 <= i < |part| ==> part[i].kind == kind
    requires rest != [] ==> rest[0].kind != kind
    ensures Run(part + rest, kind) == |part|
    ensures (part + rest)[..|part|] == part && (part + rest)[|part|..] == rest
  {
    if part == [] {
      assert part + rest == rest;
    } else {
      assert (part + rest)[1..] == part[1..] + rest;
      RunIs(part[1..], rest, kind);
    }
  }

  function Folders(inputs: seq<Input>): seq<Folder> {
    seq(|inputs|, i requires 0 <= i < |inputs| => Folder(inputs[i].id, inputs[i].name, inputs[i].parent))
  }

  function Requests(inputs: seq<Input>): seq<Request> {
    seq(|inputs|, i requires 0 <= i < |inputs| => Request(inputs[i].id, inputs[i].name, inputs[i].parent))
  }

  function Variables(inputs: seq<Input>): seq<Variable> {
    seq(|inputs|, i requires 0 <= i < |inputs| => Variable(inputs[i].id, inputs[i].name))
  }

  /** Reads the navigation back from its inputs. */
  function Rebuilt(inputs: seq<Input>): Navigation
    decreases |inputs|
  {
    if inputs == [] then Navigation([], None)
    else if inputs[0].kind == EnvironmentKind then
      Navigation([], Some(Environment(inputs[0].id, Variables(inputs[1..]))))
    else
      var f := Run(inputs[1..], FolderKind);
      var behind := inputs[1..][f..];
      var r := Run(behind, RequestKind);
      var rest := Rebuilt(behind[r..]);
      var c := Collection(inputs[0].id, inputs[0].name, Folders(inputs[1..][..f]), Requests(behind[..r]));
      Navigation([c] + rest.collections, rest.active)
  }

  lemma {:induction false} InputsSplit(n: Navigation, c: Collection, tail: Navigation)
    requires n.collections == [c] + tail.collections && n.active == tail.active
    ensures ResourceInputs(n)
         == [Input(CollectionKind, c.id, c.name, None)]
            + (FolderInputs(c.folders) + (RequestInputs(c.requests) + ResourceInputs(tail)))
  {
    assert n.collections[1..] == tail.collections;
  }

  /** Reading back a collection and what follows it. */
  lemma {:induction false} CollectionReadsBack(c: Collection, rest: seq<Input>)
    requires rest != [] ==> rest[0].kind != FolderKind && rest[0].kind != RequestKind
    ensures Rebuilt([Input(CollectionKind, c.id, c.name, None)]
                    + (FolderInputs(c.folders) + (RequestInputs(c.requests) + rest)))
         == Navigation([c] + Rebuilt(rest).collections, Rebuilt(rest).active)
  {
    var behind := RequestInputs(c.requests) + rest;
    var inputs := FolderInputs(c.folders) + behind;
    RunIs(RequestInputs(c.requests), rest, RequestKind);
    RunIs(FolderInputs(c.folders), behind, FolderKind);
    assert ([Input(CollectionKind, c.id, c.name, None)] + inputs)[1..] == inputs;
    assert Folders(FolderInputs(c.folders)) == c.folders;
    assert Requests(RequestInputs(c.requests)) == c.requests;
  }

  /** Reading back the inputs of a navigation gives that navigation. */
  lemma {:induction false} InputsRoundTrip(n: Navigation)
    ensures Rebuilt(ResourceInputs(n)) == n
    decreases |n.collections|
  {
    if n.collections == [] {
      assert ResourceInputs(n) == EnvironmentInputs(n.active);
      if n.active.Some? {
        var e := n.active.value;
        assert EnvironmentInputs(n.active)[1..] == VariableInputs(e.variables);
        assert Variables(VariableInputs(e.variables)) == e.variables;
      }
    } else {
      var c, tail := n.collections[0], Navigation(n.collections[1..], n.active);
      InputsSplit(n, c, tail);
      CollectionReadsBack(c, ResourceInputs(tail));
      InputsRoundTrip(tail);
    }
  }

  /** So two workspaces have equal inputs exactly when navigation sees no difference between them. */
  lemma {:induction false} EqualInputsMeanEqualNavigation(a: Navigation, b: Navigation)
    ensures ResourceInputs(a) == ResourceInputs(b) <==> a == b
  {
    InputsRoundTrip(a);
    InputsRoundTrip(b);
  }

  // ---------------------------------------------------------------- the caches

  datatype State<+C, +S> = State(inputs: Option<seq<Input>>, resources: C, decorations: Option<(string, S)>)

  datatype Op<+P, +S> = Refresh(workspace: Workspace<P>) | Decorate(source: string, styles: S) | Invalidate

  function Start<C, S>(empty: C): State<C, S> {
    State(None, empty, None)
  }

  function Step<P, C(==), S(==)>(build: Navigation -> C, s: State<C, S>, op: Op<P, S>): State<C, S> {
    match op
    case Refresh(w) =>
      var built := build(w.navigation);
      if s.inputs == Some(ResourceInputs(w.navigation)) then s
      else if s.resources == built then s.(inputs := Some(ResourceInputs(w.navigation)))
      else State(Some(ResourceInputs(w.navigation)), built, None)
    case Decorate(source, styles) => s.(decorations := Some((source, styles)))
    case Invalidate => s.(decorations := None)
  }

  class DocumentationIntelligence<C(==), S(==)> {
    var resourceInputs: Option<seq<Input>>
    var resources: C
    var decorations: Option<(string, S)>

    ghost function Contents(): State<C, S>
      reads this
    {
      State(resourceInputs, resources, decorations)
    }

    constructor (empty: C)
      ensures Contents() == Start(empty)
    {
      resourceInputs, resources, decorations := None, empty, None;
    }

    method RefreshResources<P>(build: Navigation -> C, workspace: Workspace<P>) returns (changed: bool)
      modifies this
      ensures Contents() == Step(build, old(Contents()), Refresh(workspace))
      ensures changed <==> resources != old(resources)
    {
      var inputs := ResourceInputs(workspace.navigation);
      if resourceInputs == Some(inputs) {
        return false;
      }
      resourceInputs := Some(inputs);
      var built := build(workspace.navigation);
      if resources == built {
        return false;
      }
      resources := built;
      InvalidateDecorations();
      return true;
    }

    method InvalidateDecorations()
      modifies this`decorations
      ensures decorations == None
    {
      decorations := None;
    }

    method RefreshDecorations(source: string, styles: S) returns (redo: bool)
      modifies this`decorations
      ensures decorations == Some((source, styles))
      ensures redo <==> old(decorations) != Some((source, styles))
    {
      if decorations == Some((source, styles)) {
        return false;
      }
      decorations := Some((source, styles));
      return true;
    }
  }

  // ---------------------------------------------------------------- over whole runs

  /** The caches after the first `n` operations of a run. */
  function After<P, C(==), S(==)>(build: Navigation -> C, empty: C, ops: seq<Op<P, S>>, n: nat): State<C, S>
    requires n <= |ops|
  {
    if n == 0 then Start(empty) else Step(build, After(build, empty, ops, n - 1), ops[n - 1])
  }

  function LastRefresh<P, S>(ops: seq<Op<P, S>>, n: nat): Option<Navigation>
    requires n <= |ops|
  {
    if n == 0 then None
    else if ops[n - 1].Refresh? then Some(ops[n - 1].workspace.navigation)
    else LastRefresh(ops, n - 1)
  }

  /** After any run the catalog is the one built from the workspace refreshed last. */
  lemma {:induction false} CatalogIsFresh<P, C, S>(build: Navigation -> C, empty: C, ops: seq<Op<P, S>>, n: nat)
    requires n <= |ops|
    ensures var s := After(build, empty, ops, n);
            match LastRefresh(ops, n)
            case None => s.inputs == None && s.resources == empty
            case Some(w) => s.inputs == Some(ResourceInputs(w)) && s.resources == build(w)
  {
    if n > 0 {
      CatalogIsFresh(build, empty, ops, n - 1);
      if ops[n - 1].Refresh? && LastRefresh(ops, n - 1).Some? {
        EqualInputsMeanEqualNavigation(LastRefresh(ops, n - 1).value, ops[n - 1].workspace.navigation);
      }
    }
  }

  /** An operation that gives no reason to redo decorations of this source in these styles. */
  ghost predicate Quiet<P, C, S>(
    build: Navigation -> C, empty: C, ops: seq<Op<P, S>>, j: nat, source: string, styles: S)
    requires j < |ops|
  {
    && After(build, empty, ops, j + 1).resources == After(build, empty, ops, j).resources
    && ops[j] != Invalidate && (ops[j].Decorate? ==> ops[j] == Decorate(source, styles))
  }

  /** Operation `i` decorated with this source and these styles, and all was quiet until operation `n`. */
  ghost predicate UnchangedSince<P, C, S>(
    build: Navigation -> C, empty: C, ops: seq<Op<P, S>>, i: nat, n: nat, source: string, styles: S)
    requires n <= |ops|
    decreases n
  {
    && i < n && ops[i] == Decorate(source, styles)
    && (i == n - 1 || (Quiet(build, empty, ops, n - 1, source, styles)
                       && UnchangedSince(build, empty, ops, i, n - 1, source, styles)))
  }

  lemma {:induction false} OneMoreOp<P, C, S>(
    build: Navigation -> C, empty: C, ops: seq<Op<P, S>>, n: nat, source: string, styles: S)
    requires 0 < n <= |ops|
    ensures After(build, empty, ops, n).decorations == Some((source, styles))
       <==> ops[n - 1] == Decorate(source, styles)
            || (After(build, empty, ops, n - 1).decorations == Some((source, styles))
                && Quiet(build, empty, ops, n - 1, source, styles))
  {
  }

  /**
    Decorations are skipped only when an earlier call decorated the same source in the same styles and since
    then the catalog did not change and nothing was invalidated or decorated otherwise.
  */
  lemma {:induction false} SkippedMeansUnchanged<P, C, S>(
    build: Navigation -> C, empty: C, ops: seq<Op<P, S>>, n: nat, source: string, styles: S) returns (i: nat)
    requires n <= |ops| && After(build, empty, ops, n).decorations == Some((source, styles))
    ensures UnchangedSince(build, empty, ops, i, n, source, styles)
  {
    OneMoreOp(build, empty, ops, n, source, styles);
    if ops[n - 1] == Decorate(source, styles) {
      i := n - 1;
    } else {
      i := SkippedMeansUnchanged(build, empty, ops, n - 1, source, styles);
    }
  }

  /** And then they always are. */
  lemma {:induction false} UnchangedMeansSkipped<P, C, S>(
    build: Navigation -> C, empty: C, ops: seq<Op<P, S>>, i: nat, n: nat, source: string, styles: S)
    requires n <= |ops| && UnchangedSince(build, empty, ops, i, n, source, styles)
    ensures After(build, empty, ops, n).decorations == Some((source, styles))
    decreases n
  {
    OneMoreOp(build, empty, ops, n, source, styles);
    if i < n - 1 {
      UnchangedMeansSkipped(build, empty, ops, i, n - 1, source, styles);
    }
  }
}
