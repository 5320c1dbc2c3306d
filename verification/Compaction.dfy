/**
  Build-time compaction of a generated parser: the tail of the dense parse table is rewritten as
  grouped, offset-addressed rows of the small table, and the state boundary is moved down.

  Tables are the parsed initializer lists of the C source, in source order. `Lookup` is the meaning of
  those lists: what the compiled arrays answer for a state and a symbol.
*/
module Compaction {
  import opened Sequences
  import opened Wrappers

  /** `[symbol] = ACTIONS(value)` or `[symbol] = STATE(value)` inside a dense row. */
  datatype Entry = Entry(symbol: nat, value: nat)

  /** `[STATE(state)] = { entries }`. */
  datatype Row = Row(state: nat, entries: seq<Entry>)

  /** One initializer of the small table, with its `[index] =` designator when it has one. */
  datatype Word = Word(designator: Option<nat>, value: nat)

  /** `[SMALL_STATE(state)] = offset`; SMALL_STATE subtracts LARGE_STATE_COUNT. */
  datatype MapEntry = MapEntry(state: nat, offset: nat)

  datatype Tables = Tables(largeCount: nat, dense: seq<Row>, small: seq<Word>, smallMap: seq<MapEntry>)

  /** The symbols of one row that share a value. */
  datatype Group = Group(value: nat, symbols: seq<nat>)

  const U16: nat := 0x1_0000

  // ---------------------------------------------------------------- meaning of the tables

  /** C initializers: the last designator for a symbol wins, an absent symbol is zero. */
  function RowValue(entries: seq<Entry>, symbol: nat): nat {
    if entries == [] then 0
    else
      var last := entries[|entries| - 1];
      if last.symbol == symbol then last.value else RowValue(entries[..|entries| - 1], symbol)
  }

  function DenseValue(rows: seq<Row>, state: nat, symbol: nat): nat {
    if rows == [] then 0
    else
      var last := rows[|rows| - 1];
      if last.state == state then RowValue(last.entries, symbol)
      else DenseValue(rows[..|rows| - 1], state, symbol)
  }

  /** The map slot `index`, where slot numbers are state numbers less `large`. */
  function MapSlot(entries: seq<MapEntry>, large: nat, index: nat): Option<nat> {
    if entries == [] then None
    else
      var last := entries[|entries| - 1];
      if last.state - large == index then Some(last.offset) else MapSlot(entries[..|entries| - 1], large, index)
  }

  /** A designator moves the write position in C, so the list is the array only when they agree. */
  ghost predicate DesignatorsMatch(words: seq<Word>) {
    forall i :: 0 <= i < |words| && words[i].designator.Some? ==> words[i].designator.value == i
  }

  function Values(words: seq<Word>): (r: seq<nat>) {
    seq(|words|, i requires 0 <= i < |words| => words[i].value)
  }

  /** The reference reader of the small table; None once it would read outside the array. */
  function ReadGroups(table: seq<nat>, at: nat, groups: nat, symbol: nat, value: nat): Option<nat>
    decreases groups
  {
    if groups == 0 then Some(value)
    else if at + 2 > |table| then None
    else
      var v, n := table[at], table[at + 1];
      if at + 2 + n > |table| then None
      else ReadGroups(table, at + 2 + n, groups - 1, symbol, if symbol in table[at + 2..at + 2 + n] then v else value)
  }

  function ReadSmall(table: seq<nat>, at: nat, symbol: nat): Option<nat> {
    if at >= |table| then None else ReadGroups(table, at + 1, table[at], symbol, 0)
  }

  /** Negative or out-of-range designators do not compile. */
  ghost predicate Compiles(t: Tables) {
    && (forall e :: e in t.smallMap ==> t.largeCount <= e.state)
    && (forall r :: r in t.dense ==> r.state < t.largeCount)
    && DesignatorsMatch(t.small)
  }

  /** What the compiled tables answer; None where C has no answer. */
  ghost function Lookup(t: Tables, state: nat, symbol: nat): Option<nat> {
    if !Compiles(t) then None
    else if state < t.largeCount then Some(DenseValue(t.dense, state, symbol))
    else
      match MapSlot(t.smallMap, t.largeCount, state - t.largeCount)
      case None => None
      case Some(offset) => ReadSmall(Values(t.small), offset, symbol)
  }

  /** Every answer of `before` is the answer of `after`. */
  ghost predicate Faithful(before: Tables, after: Tables) {
    forall state: nat, symbol: nat ::
      Lookup(before, state, symbol).Some? ==> Lookup(after, state, symbol) == Lookup(before, state, symbol)
  }

  // ---------------------------------------------------------------- the transformation as a function

  function Retained(count: nat): nat {
    if count > 1024 then 512 else 128
  }

  /** `groups.entry(value).or_default().push(symbol)` on a map ordered by value. */
  function AddToGroup(groups: seq<Group>, value: nat, symbol: nat): seq<Group> {
    if groups == [] then [Group(value, [symbol])]
    else if groups[0].value == value then [Group(value, groups[0].symbols + [symbol])] + groups[1..]
    else if value < groups[0].value then [Group(value, [symbol])] + groups
    else [groups[0]] + AddToGroup(groups[1..], value, symbol)
  }

  function GroupsOf(entries: seq<Entry>): seq<Group> {
    if entries == [] then []
    else
      var groups, last := GroupsOf(entries[..|entries| - 1]), entries[|entries| - 1];
      if last.value != 0 then AddToGroup(groups, last.value, last.symbol) else groups
  }

  function PackGroups(groups: seq<Group>): seq<nat> {
    if groups == [] then []
    else
      var last := groups[|groups| - 1];
      PackGroups(groups[..|groups| - 1]) + ([last.value, |last.symbols|] + last.symbols)
  }

  /** The numbers of one packed row: the group count, then each group. */
  function Payload(groups: seq<Group>): seq<nat> {
    [|groups|] + PackGroups(groups)
  }

  /** A row ready to be placed: its state and its packed numbers. */
  datatype PackedRow = PackedRow(state: nat, payload: seq<nat>)

  function Pack(row: Row): PackedRow {
    PackedRow(row.state, Payload(GroupsOf(row.entries)))
  }

  function PackAll(rows: seq<Row>): (r: seq<PackedRow>)
    ensures |r| == |rows|
  {
    if rows == [] then [] else PackAll(rows[..|rows| - 1]) + [Pack(rows[|rows| - 1])]
  }

  /** The first number of a packed row is written with its position as designator. */
  function WordsAt(payload: seq<nat>, offset: nat): seq<Word> {
    seq(|payload|, i requires 0 <= i < |payload| => Word(if i == 0 then Some(offset) else None, payload[i]))
  }

  /** `words` and `entries` lay out exactly `rows`, back to back from `base`. */
  ghost predicate LaidOut(rows: seq<PackedRow>, base: nat, words: seq<Word>, entries: seq<MapEntry>) {
    if rows == [] then words == [] && entries == []
    else
      var k, at := |rows| - 1, |words| - |rows[|rows| - 1].payload|;
      && |entries| == |rows| && at >= 0
      && entries[k] == MapEntry(rows[k].state, base + at)
      && words[at..] == WordsAt(rows[k].payload, base + at)
      && LaidOut(rows[..k], base, words[..at], entries[..k])
  }

  ghost predicate DistinctSymbols(entries: seq<Entry>) {
    forall i, j :: 0 <= i < j < |entries| ==> entries[i].symbol != entries[j].symbol
  }

  /** The assertions on row `index`; values are parsed only in rows that move. */
  ghost predicate RowAccepted(row: Row, index: nat, retained: nat) {
    && row.state == index
    && (index >= retained ==> DistinctSymbols(row.entries) && forall e :: e in row.entries ==> e.value < U16)
  }

  ghost predicate RowsAccepted(dense: seq<Row>, retained: nat) {
    forall k {:trigger RowAccepted(dense[k], k, retained)} :: 0 <= k < |dense| ==> RowAccepted(dense[k], k, retained)
  }

  ghost predicate Accepted(t: Tables) {
    DesignatorsMatch(t.small) && |t.dense| == t.largeCount && RowsAccepted(t.dense, Retained(t.largeCount))
  }

  ghost predicate InOrder(dense: seq<Row>) {
    forall k :: 0 <= k < |dense| ==> dense[k].state == k
  }

  lemma {:induction false} AcceptedInOrder(t: Tables)
    requires Accepted(t)
    ensures InOrder(t.dense)
  {
    forall k | 0 <= k < |t.dense| ensures t.dense[k].state == k {
      assert RowAccepted(t.dense[k], k, Retained(t.largeCount));
    }
  }

  function Moved(t: Tables): seq<Row> {
    t.dense[if Retained(t.largeCount) <= |t.dense| then Retained(t.largeCount) else |t.dense|..]
  }

  /** `r` is `t` with the moved rows laid out behind the small table and their offsets put before the map. */
  ghost predicate CompactedTo(t: Tables, r: Tables) {
    exists words, entries ::
      && LaidOut(PackAll(Moved(t)), |t.small|, words, entries)
      && r == Tables(Retained(t.largeCount), t.dense[..|t.dense| - |Moved(t)|], t.small + words, entries + t.smallMap)
  }

  // ---------------------------------------------------------------- the transformation as the program runs it

  /** Groups one row, or None on a duplicate symbol or a value that is not a u16. */
  method GroupRow(entries: seq<Entry>) returns (r: Option<seq<Group>>)
    ensures r.Some? <==> DistinctSymbols(entries) && forall e :: e in entries ==> e.value < U16
    ensures r.Some? ==> r.value == GroupsOf(entries)
  {
    var groups: seq<Group> := [];
    var symbols: set<nat> := {};
    for i := 0 to |entries|
      invariant groups == GroupsOf(entries[..i])
      invariant symbols == set k | 0 <= k < i :: entries[k].symbol
      invariant DistinctSymbols(entries[..i])
      invariant forall k :: 0 <= k < i ==> entries[k].value < U16
    {
      var Entry(symbol, value) := entries[i];
      if symbol in symbols {
        return None;
      }
      symbols := symbols + {symbol};
      if value >= U16 {
        assert entries[i] in entries;
        return None;
      }
      assert entries[..i + 1][..i] == entries[..i];
      if value != 0 {
        groups := AddToGroup(groups, value, symbol);
      }
    }
    assert entries[..|entries|] == entries;
    return Some(groups);
  }

  /** Emits one packed row at `start`, counting the words as they are written. */
  method EmitRow(groups: seq<Group>, start: nat) returns (words: seq<Word>, offset: nat)
    ensures words == WordsAt(Payload(groups), start)
    ensures offset == start + |words|
  {
    words := [Word(Some(start), |groups|)];
    offset := start + 1;
    for i := 0 to |groups|
      invariant words == WordsAt([|groups|] + PackGroups(groups[..i]), start)
      invariant offset == start + |words|
    {
      var group := groups[i];
      assert groups[..i + 1][..i] == groups[..i];
      words := words + [Word(None, group.value), Word(None, |group.symbols|)]
                     + seq(|group.symbols|, k requires 0 <= k < |group.symbols| => Word(None, group.symbols[k]));
      offset := offset + 2 + |group.symbols|;
    }
    assert groups[..|groups|] == groups;
  }

  lemma {:induction false} AcceptOneMore(dense: seq<Row>, retained: nat, k: nat)
    requires k < |dense| && RowsAccepted(dense[..k], retained) && RowAccepted(dense[k], k, retained)
    ensures RowsAccepted(dense[..k + 1], retained)
  {
    var before, after := dense[..k], dense[..k + 1];
    forall i {:trigger RowAccepted(after[i], i, retained)} | 0 <= i < k + 1 ensures RowAccepted(after[i], i, retained) {
      if i < k { assert RowAccepted(before[i], i, retained); }
    }
  }

  lemma {:induction false} PackAllNext(dense: seq<Row>, from: nat, k: nat)
    requires from <= k < |dense|
    ensures PackAll(dense[from..k + 1]) == PackAll(dense[from..k]) + [Pack(dense[k])]
  {
    var rows := dense[from..k + 1];
    assert rows[..|rows| - 1] == dense[from..k];
  }

  /** What the row loop has produced from the first `rows` rows. */
  ghost predicate Produced(dense: seq<Row>, retained: nat, base: nat, rows: nat,
                           kept: seq<Row>, packed: seq<Word>, smallMap: seq<MapEntry>)
    requires rows <= |dense|
  {
    && |kept| == (if rows < retained then rows else retained) && kept == dense[..|kept|]
    && |smallMap| == rows - |kept| && LaidOut(PackAll(dense[|kept|..rows]), base, packed, smallMap)
  }

  /** Checks one row, then keeps it or groups and emits it behind the rows already packed. */
  method PlaceRow(dense: seq<Row>, retained: nat, ghost base: nat, rows: nat,
                  kept: seq<Row>, packed: seq<Word>, smallMap: seq<MapEntry>, offset: nat)
    returns (ok: bool, kept': seq<Row>, packed': seq<Word>, smallMap': seq<MapEntry>, offset': nat)
    requires rows < |dense| && Produced(dense, retained, base, rows, kept, packed, smallMap)
    requires offset == base + |packed|
    ensures ok <==> RowAccepted(dense[rows], rows, retained)
    ensures ok ==> Produced(dense, retained, base, rows + 1, kept', packed', smallMap') && offset' == base + |packed'|
  {
    var row := dense[rows];
    kept', packed', smallMap', offset' := kept, packed, smallMap, offset;
    if row.state != rows {
      return false, kept, packed, smallMap, offset;
    }
    if row.state < retained {
      kept' := kept + [row];
      assert dense[|kept'|..rows + 1] == dense[|kept|..rows] == [];
      return true, kept', packed, smallMap, offset;
    }
    var groups := GroupRow(row.entries);
    ok := groups.Some?;
    if ok {
      var words, next := EmitRow(groups.value, offset);
      PackAllNext(dense, |kept|, rows);
      smallMap' := smallMap + [MapEntry(row.state, offset)];
      packed', offset' := packed + words, next;
    }
  }

  /** The rows of the dense table: the first `retained` are kept, the rest are packed behind the small table. */
  method PackDense(dense: seq<Row>, retained: nat, base: nat)
    returns (ok: bool, kept: seq<Row>, packed: seq<Word>, smallMap: seq<MapEntry>)
    ensures ok <==> RowsAccepted(dense, retained)
    ensures ok ==> Produced(dense, retained, base, |dense|, kept, packed, smallMap)
  {
    var offset := base;
    kept, packed, smallMap := [], [], [];
    for rows := 0 to |dense|
      invariant RowsAccepted(dense[..rows], retained)
      invariant Produced(dense, retained, base, rows, kept, packed, smallMap)
      invariant offset == base + |packed|
    {
      ok, kept, packed, smallMap, offset := PlaceRow(dense, retained, base, rows, kept, packed, smallMap, offset);
      if !ok {
        return;
      }
      AcceptOneMore(dense, retained, rows);
    }
    assert dense[..|dense|] == dense;
    ok := true;
  }

  method Transform(t: Tables) returns (r: Option<Tables>)
    ensures Retained(t.largeCount) == t.largeCount ==> r == Some(t)
    ensures Retained(t.largeCount) != t.largeCount ==> (r.Some? <==> Accepted(t))
    ensures Retained(t.largeCount) != t.largeCount && r.Some? ==> CompactedTo(t, r.value)
  {
    var count := t.largeCount;
    var retained := if count > 1024 then 512 else 128;
    if retained == count {
      return Some(t);
    }
    var offset := 0;
    while offset < |t.small|
      invariant 0 <= offset <= |t.small|
      invariant forall i :: 0 <= i < offset && t.small[i].designator.Some? ==> t.small[i].designator.value == i
    {
      if t.small[offset].designator.Some? && t.small[offset].designator.value != offset {
        return None;
      }
      offset := offset + 1;
    }
    var ok, kept, packed, smallMap := PackDense(t.dense, retained, offset);
    if !ok || |t.dense| != count {
      return None;
    }
    assert t.dense[|kept|..|t.dense|] == Moved(t);
    return Some(Tables(retained, kept, t.small + packed, smallMap + t.smallMap));
  }

  // ---------------------------------------------------------------- one packed row decodes to its dense row

  ghost predicate Holds(groups: seq<Group>, symbol: nat, value: nat) {
    exists g :: g in groups && g.value == value && symbol in g.symbols
  }

  /** The last group listing `symbol` decides, starting from `value`. */
  function GroupValue(groups: seq<Group>, symbol: nat, value: nat): nat {
    if groups == [] then value
    else GroupValue(groups[1..], symbol, if symbol in groups[0].symbols then groups[0].value else value)
  }

  lemma {:induction false} AddToGroupHolds(groups: seq<Group>, value: nat, symbol: nat, s: nat, v: nat)
    ensures Holds(AddToGroup(groups, value, symbol), s, v) <==> Holds(groups, s, v) || (s == symbol && v == value)
  {
    var after := AddToGroup(groups, value, symbol);
    if groups == [] {
      assert Group(value, [symbol]) in after;
    } else if groups[0].value == value {
      assert after[0] == Group(value, groups[0].symbols + [symbol]);
      assert groups == [groups[0]] + groups[1..];
      if s == symbol && v == value { assert after[0] in after; }
      if Holds(groups, s, v) {
        var g :| g in groups && g.value == v && s in g.symbols;
        assert if g == groups[0] then after[0] in after else g in after;
      }
    } else if value < groups[0].value {
      assert after[0] == Group(value, [symbol]);
      if s == symbol && v == value { assert after[0] in after; }
    } else {
      AddToGroupHolds(groups[1..], value, symbol, s, v);
      assert groups == [groups[0]] + groups[1..];
      assert Holds(after, s, v) <==> (groups[0].value == v && s in groups[0].symbols) || Holds(after[1..], s, v) by {
        assert after == [groups[0]] + after[1..];
      }
    }
  }

  lemma {:induction false} GroupsHold(entries: seq<Entry>, s: nat, v: nat)
    ensures Holds(GroupsOf(entries), s, v) <==> Entry(s, v) in entries && v != 0
  {
    if entries != [] {
      var init, last := entries[..|entries| - 1], entries[|entries| - 1];
      assert entries == init + [last];
      GroupsHold(init, s, v);
      AddToGroupHolds(GroupsOf(init), last.value, last.symbol, s, v);
    }
  }

  lemma {:induction false} DistinctRowValue(entries: seq<Entry>, s: nat, v: nat)
    requires DistinctSymbols(entries) && Entry(s, v) in entries
    ensures RowValue(entries, s) == v
  {
    var init, last := entries[..|entries| - 1], entries[|entries| - 1];
    assert entries == init + [last];
    if last == Entry(s, v) {
    } else {
      DistinctRowValue(init, s, v);
      assert last.symbol != s by {
        var i :| 0 <= i < |init| && init[i] == Entry(s, v);
        assert entries[i].symbol != entries[|entries| - 1].symbol;
      }
    }
  }

  lemma {:induction false} AbsentRowValue(entries: seq<Entry>, s: nat)
    requires forall v: nat :: Entry(s, v) !in entries
    ensures RowValue(entries, s) == 0
  {
    if entries != [] {
      var init, last := entries[..|entries| - 1], entries[|entries| - 1];
      assert entries == init + [last];
      assert last == Entry(last.symbol, last.value) && last in entries;
      AbsentRowValue(init, s);
    }
  }

  lemma {:induction false} GroupValueIsHeld(groups: seq<Group>, s: nat, value: nat)
    ensures (GroupValue(groups, s, value) == value && forall g :: g in groups ==> s !in g.symbols)
         || Holds(groups, s, GroupValue(groups, s, value))
  {
    if groups != [] {
      assert groups == [groups[0]] + groups[1..];
      GroupValueIsHeld(groups[1..], s, if s in groups[0].symbols then groups[0].value else value);
      assert groups[0] in groups;
    }
  }

  /** The groups of a row without duplicates answer exactly what the dense row answers. */
  lemma {:induction false} GroupsKeepRow(entries: seq<Entry>, symbol: nat)
    requires DistinctSymbols(entries)
    ensures GroupValue(GroupsOf(entries), symbol, 0) == RowValue(entries, symbol)
  {
    var groups := GroupsOf(entries);
    var v := GroupValue(groups, symbol, 0);
    GroupValueIsHeld(groups, symbol, 0);
    GroupsHold(entries, symbol, v);
    if Holds(groups, symbol, v) {
      DistinctRowValue(entries, symbol, v);
    } else if e :| e in entries && e.symbol == symbol {
      assert e == Entry(symbol, e.value);
      DistinctRowValue(entries, symbol, e.value);
      GroupsHold(entries, symbol, e.value);
    } else {
      AbsentRowValue(entries, symbol);
    }
  }

  lemma {:induction false} PackGroupsCons(groups: seq<Group>)
    requires groups != []
    ensures PackGroups(groups)
         == ([groups[0].value, |groups[0].symbols|] + groups[0].symbols) + PackGroups(groups[1..])
  {
    var init, tail, last := groups[..|groups| - 1], groups[1..], groups[|groups| - 1];
    if |groups| > 1 {
      PackGroupsCons(init);
      assert init[1..] == tail[..|tail| - 1];
      Reassociate([init[0].value, |init[0].symbols|] + init[0].symbols, PackGroups(init[1..]),
                  [last.value, |last.symbols|] + last.symbols);
    }
  }

  lemma {:induction false} ReadOneGroup(table: seq<nat>, at: nat, groups: nat, g: Group, symbol: nat, value: nat)
    requires 0 < groups && HoldsAt(table, at, [g.value, |g.symbols|] + g.symbols)
    ensures at + 2 + |g.symbols| <= |table|
    ensures ReadGroups(table, at, groups, symbol, value)
         == ReadGroups(table, at + 2 + |g.symbols|, groups - 1, symbol, if symbol in g.symbols then g.value else value)
  {
    var head := [g.value, |g.symbols|];
    HoldsSplit(table, at, head, g.symbols);
    assert table[at + 0] == head[0] && table[at + 1] == head[1];
    assert table[at + 2..at + 2 + |g.symbols|] == g.symbols;
  }

  /** Reading packed groups anywhere in a table gives the value of the last listing group. */
  lemma {:induction false} ReadPacked(table: seq<nat>, at: nat, groups: seq<Group>, symbol: nat, value: nat)
    requires HoldsAt(table, at, PackGroups(groups))
    ensures ReadGroups(table, at, |groups|, symbol, value) == Some(GroupValue(groups, symbol, value))
    decreases |groups|
  {
    if groups != [] {
      var g := groups[0];
      PackGroupsCons(groups);
      HoldsSplit(table, at, [g.value, |g.symbols|] + g.symbols, PackGroups(groups[1..]));
      ReadOneGroup(table, at, |groups|, g, symbol, value);
      ReadPacked(table, at + 2 + |g.symbols|, groups[1..], symbol, if symbol in g.symbols then g.value else value);
    }
  }

  lemma {:induction false} ReadPackedRow(table: seq<nat>, at: nat, entries: seq<Entry>, symbol: nat)
    requires DistinctSymbols(entries) && HoldsAt(table, at, Payload(GroupsOf(entries)))
    ensures ReadSmall(table, at, symbol) == Some(RowValue(entries, symbol))
  {
    var groups := GroupsOf(entries);
    var head := [|groups|];
    HoldsSplit(table, at, head, PackGroups(groups));
    assert table[at + 0] == head[0];
    ReadPacked(table, at + 1, groups, symbol, 0);
    GroupsKeepRow(entries, symbol);
  }

  // ---------------------------------------------------------------- the appended rows and the map

  lemma {:induction false} PackAllAt(rows: seq<Row>, i: nat)
    requires i < |rows|
    ensures PackAll(rows)[i] == Pack(rows[i])
  {
    if i < |rows| - 1 {
      PackAllAt(rows[..|rows| - 1], i);
    }
  }

  lemma {:induction false} MapSlotAppend(a: seq<MapEntry>, b: seq<MapEntry>, large: nat, index: nat)
    ensures MapSlot(a + b, large, index)
         == if MapSlot(b, large, index).Some? then MapSlot(b, large, index) else MapSlot(a, large, index)
  {
    if b == [] {
      assert a + b == a;
    } else {
      assert (a + b)[..|a + b| - 1] == a + b[..|b| - 1];
      MapSlotAppend(a, b[..|b| - 1], large, index);
    }
  }

  lemma {:induction false} MapSlotNone(entries: seq<MapEntry>, large: nat, index: nat)
    requires forall e :: e in entries ==> e.state != large + index
    ensures MapSlot(entries, large, index) == None
  {
    if entries != [] {
      assert entries[|entries| - 1] in entries;
      MapSlotNone(entries[..|entries| - 1], large, index);
    }
  }

  /** Moving the boundary down renumbers every slot of the old map by the same amount. */
  lemma {:induction false} MapSlotShift(entries: seq<MapEntry>, large: nat, lower: nat, index: nat)
    requires lower <= large
    ensures MapSlot(entries, lower, index + (large - lower)) == MapSlot(entries, large, index)
  {
    if entries != [] {
      MapSlotShift(entries[..|entries| - 1], large, lower, index);
    }
  }

  lemma {:induction false} MapSlotAt(entries: seq<MapEntry>, large: nat, i: nat)
    requires i < |entries|
    requires forall k :: 0 <= k < |entries| ==> entries[k].state == large + k
    ensures MapSlot(entries, large, i) == Some(entries[i].offset)
  {
    if i < |entries| - 1 {
      MapSlotAt(entries[..|entries| - 1], large, i);
    }
  }

  lemma {:induction false} DenseValueAt(rows: seq<Row>, state: nat, symbol: nat)
    requires forall k :: 0 <= k < |rows| ==> rows[k].state == k
    ensures DenseValue(rows, state, symbol) == if state < |rows| then RowValue(rows[state].entries, symbol) else 0
  {
    if rows != [] {
      DenseValueAt(rows[..|rows| - 1], state, symbol);
    }
  }

  lemma {:induction false} ReadGroupsPrefix(table: seq<nat>, more: seq<nat>, at: nat, groups: nat, symbol: nat, value: nat)
    requires ReadGroups(table, at, groups, symbol, value).Some?
    ensures ReadGroups(table + more, at, groups, symbol, value) == ReadGroups(table, at, groups, symbol, value)
    decreases groups
  {
    if groups > 0 {
      var n := table[at + 1];
      assert (table + more)[at + 2..at + 2 + n] == table[at + 2..at + 2 + n];
      ReadGroupsPrefix(table, more, at + 2 + n, groups - 1, symbol,
                       if symbol in table[at + 2..at + 2 + n] then table[at] else value);
    }
  }

  // ---------------------------------------------------------------- the theorem

  /** The i-th laid out row is found in the words from exactly the offset the map records. */
  lemma {:induction false} LaidOutAt(rows: seq<PackedRow>, base: nat, words: seq<Word>, entries: seq<MapEntry>, i: nat)
    requires LaidOut(rows, base, words, entries) && i < |rows|
    ensures |entries| == |rows| && entries[i].state == rows[i].state && base <= entries[i].offset
    ensures HoldsAt(Values(words), entries[i].offset - base, rows[i].payload)
  {
    var k, at := |rows| - 1, |words| - |rows[|rows| - 1].payload|;
    if i == k {
    } else {
      LaidOutAt(rows[..k], base, words[..at], entries[..k], i);
    }
  }

  lemma {:induction false} LaidOutDesignators(rows: seq<PackedRow>, base: nat, words: seq<Word>, entries: seq<MapEntry>)
    requires LaidOut(rows, base, words, entries)
    ensures |entries| == |rows|
    ensures DesignatorsFrom(words, base)
  {
    if rows != [] {
      var k, at := |rows| - 1, |words| - |rows[|rows| - 1].payload|;
      LaidOutDesignators(rows[..k], base, words[..at], entries[..k]);
      forall i | 0 <= i < |words| && words[i].designator.Some? ensures words[i].designator.value == base + i {
        assert if i < at then words[i] == words[..at][i] else words[i] == words[at..][i - at];
      }
    }
  }

  /** Every designator of `words`, appended at `base`, is the position it lands on. */
  ghost predicate DesignatorsFrom(words: seq<Word>, base: nat) {
    forall i :: 0 <= i < |words| && words[i].designator.Some? ==> words[i].designator.value == base + i
  }

  /** From `offset` the small table answers as the dense row `entries` does. */
  ghost predicate ReadsAs(table: seq<nat>, offset: nat, entries: seq<Entry>) {
    forall symbol: nat :: ReadSmall(table, offset, symbol) == Some(RowValue(entries, symbol))
  }

  lemma {:induction false} LaidOutReads(rows: seq<PackedRow>, small: seq<Word>, words: seq<Word>, entries: seq<MapEntry>,
                                        i: nat, row: Row)
    requires LaidOut(rows, |small|, words, entries) && i < |rows|
    requires rows[i] == Pack(row) && DistinctSymbols(row.entries)
    ensures |entries| == |rows| && ReadsAs(Values(small + words), entries[i].offset, row.entries)
  {
    LaidOutAt(rows, |small|, words, entries, i);
    forall symbol: nat
      ensures ReadSmall(Values(small + words), entries[i].offset, symbol) == Some(RowValue(row.entries, symbol))
    {
      ReadPackedRow(Values(small + words), entries[i].offset, row.entries, symbol);
    }
  }

  lemma {:induction false} AddedStates(t: Tables, words: seq<Word>, entries: seq<MapEntry>)
    requires InOrder(t.dense) && LaidOut(PackAll(Moved(t)), |t.small|, words, entries)
    ensures |entries| == |Moved(t)|
    ensures forall k :: 0 <= k < |entries| ==> entries[k].state == |t.dense| - |Moved(t)| + k
  {
    LaidOutDesignators(PackAll(Moved(t)), |t.small|, words, entries);
    forall k | 0 <= k < |entries| ensures entries[k].state == |t.dense| - |Moved(t)| + k {
      LaidOutAt(PackAll(Moved(t)), |t.small|, words, entries, k);
      PackAllAt(Moved(t), k);
      assert Moved(t)[k] == t.dense[|t.dense| - |Moved(t)| + k];
    }
  }

  lemma {:induction false} AddedReads(t: Tables, words: seq<Word>, entries: seq<MapEntry>, k: nat)
    requires Accepted(t) && LaidOut(PackAll(Moved(t)), |t.small|, words, entries)
    requires k < |entries| == |Moved(t)|
    ensures ReadsAs(Values(t.small + words), entries[k].offset, Moved(t)[k].entries)
  {
    var state := |t.dense| - |Moved(t)| + k;
    assert RowAccepted(t.dense[state], state, Retained(t.largeCount));
    PackAllAt(Moved(t), k);
    LaidOutReads(PackAll(Moved(t)), t.small, words, entries, k, t.dense[state]);
  }

  /** What the rest of the proof needs to know about the appended words and map entries. */
  lemma {:induction false} AddedParts(t: Tables, r: Tables) returns (words: seq<Word>, entries: seq<MapEntry>)
    requires Accepted(t) && CompactedTo(t, r)
    ensures r == Tables(Retained(t.largeCount), t.dense[..|t.dense| - |Moved(t)|], t.small + words, entries + t.smallMap)
    ensures |entries| == |Moved(t)|
    ensures forall k :: 0 <= k < |entries| ==> entries[k].state == |t.dense| - |Moved(t)| + k
    ensures forall k :: 0 <= k < |entries| ==> ReadsAs(Values(r.small), entries[k].offset, Moved(t)[k].entries)
    ensures DesignatorsFrom(words, |t.small|)
  {
    words, entries :| LaidOut(PackAll(Moved(t)), |t.small|, words, entries)
      && r == Tables(Retained(t.largeCount), t.dense[..|t.dense| - |Moved(t)|], t.small + words, entries + t.smallMap);
    AcceptedInOrder(t);
    AddedStates(t, words, entries);
    LaidOutDesignators(PackAll(Moved(t)), |t.small|, words, entries);
    forall k | 0 <= k < |entries| ensures ReadsAs(Values(r.small), entries[k].offset, Moved(t)[k].entries) {
      AddedReads(t, words, entries, k);
    }
  }

  lemma {:induction false} MovedRowSlot(t: Tables, entries: seq<MapEntry>, i: nat)
    requires |t.dense| == t.largeCount && Compiles(t) && i < |entries| == |Moved(t)|
    requires forall k :: 0 <= k < |entries| ==> entries[k].state == |t.dense| - |Moved(t)| + k
    ensures MapSlot(entries + t.smallMap, Retained(t.largeCount), i) == Some(entries[i].offset)
  {
    var retained := Retained(t.largeCount);
    MapSlotNone(t.smallMap, retained, i);
    MapSlotAppend(entries, t.smallMap, retained, i);
    MapSlotAt(entries, retained, i);
  }

  lemma {:induction false} KeptDenseLookup(t: Tables, r: Tables, state: nat, symbol: nat)
    requires InOrder(t.dense) && |t.dense| == t.largeCount && Compiles(t) && Compiles(r)
    requires r.largeCount == Retained(t.largeCount) && r.dense == t.dense[..|t.dense| - |Moved(t)|]
    requires state < t.largeCount && state < Retained(t.largeCount)
    ensures Lookup(r, state, symbol) == Lookup(t, state, symbol)
  {
    DenseValueAt(t.dense, state, symbol);
    DenseValueAt(r.dense, state, symbol);
  }

  lemma {:induction false} OldSmallSlot(t: Tables, entries: seq<MapEntry>, state: nat)
    requires Compiles(t) && t.largeCount <= state && Retained(t.largeCount) <= state
    requires MapSlot(t.smallMap, t.largeCount, state - t.largeCount).Some?
    ensures MapSlot(entries + t.smallMap, Retained(t.largeCount), state - Retained(t.largeCount))
         == MapSlot(t.smallMap, t.largeCount, state - t.largeCount)
  {
    var large, lower := t.largeCount, Retained(t.largeCount);
    MapSlotAppend(entries, t.smallMap, lower, state - lower);
    if lower <= large {
      MapSlotShift(t.smallMap, large, lower, state - large);
    } else {
      MapSlotShift(t.smallMap, lower, large, state - lower);
    }
  }

  lemma {:induction false} ReadSmallPrefix(table: seq<nat>, more: seq<nat>, at: nat, symbol: nat)
    requires ReadSmall(table, at, symbol).Some?
    ensures ReadSmall(table + more, at, symbol) == ReadSmall(table, at, symbol)
  {
    ReadGroupsPrefix(table, more, at + 1, table[at], symbol, 0);
    assert (table + more)[at] == table[at];
  }

  lemma {:induction false} OldSmallLookup(t: Tables, r: Tables, words: seq<Word>, entries: seq<MapEntry>, state: nat, symbol: nat)
    requires r.small == t.small + words && r.smallMap == entries + t.smallMap
    requires r.largeCount == Retained(t.largeCount) && Compiles(t) && Compiles(r)
    requires t.largeCount <= state && Lookup(t, state, symbol).Some?
    ensures Lookup(r, state, symbol) == Lookup(t, state, symbol)
  {
    if state < Retained(t.largeCount) {
      forall e | e in t.smallMap ensures e.state != state { assert e in r.smallMap; }
      MapSlotNone(t.smallMap, t.largeCount, state - t.largeCount);
      assert false;
    }
    OldSmallSlot(t, entries, state);
    assert Values(t.small + words) == Values(t.small) + Values(words);
    ReadSmallPrefix(Values(t.small), Values(words), MapSlot(t.smallMap, t.largeCount, state - t.largeCount).value, symbol);
  }

  lemma {:induction false} JoinedDesignators(small: seq<Word>, words: seq<Word>)
    requires DesignatorsMatch(small) && DesignatorsFrom(words, |small|)
    ensures DesignatorsMatch(small + words)
  {
  }

  lemma {:induction false} CompactedCompiles(t: Tables, r: Tables, words: seq<Word>, entries: seq<MapEntry>)
    requires InOrder(t.dense) && |t.dense| == t.largeCount && Compiles(t)
    requires r == Tables(Retained(t.largeCount), t.dense[..|t.dense| - |Moved(t)|], t.small + words, entries + t.smallMap)
    requires |entries| == |Moved(t)| && DesignatorsFrom(words, |t.small|)
    requires forall k :: 0 <= k < |entries| ==> entries[k].state == |t.dense| - |Moved(t)| + k
    ensures Compiles(r) <==> forall e :: e in t.smallMap ==> Retained(t.largeCount) <= e.state
  {
    JoinedDesignators(t.small, words);
    assert forall e :: e in r.smallMap <==> e in entries || e in t.smallMap;
  }

  lemma {:induction false} MovedLookup(t: Tables, r: Tables, entries: seq<MapEntry>, state: nat, symbol: nat)
    requires InOrder(t.dense) && |t.dense| == t.largeCount && Compiles(t) && Compiles(r)
    requires r.largeCount == Retained(t.largeCount) && r.smallMap == entries + t.smallMap
    requires |entries| == |Moved(t)| && forall k :: 0 <= k < |entries| ==> entries[k].state == |t.dense| - |Moved(t)| + k
    requires forall k :: 0 <= k < |entries| ==> ReadsAs(Values(r.small), entries[k].offset, Moved(t)[k].entries)
    requires Retained(t.largeCount) <= state < t.largeCount
    ensures Lookup(r, state, symbol) == Lookup(t, state, symbol)
  {
    var i := state - Retained(t.largeCount);
    MovedRowSlot(t, entries, i);
    DenseValueAt(t.dense, state, symbol);
    assert Moved(t)[i] == t.dense[state] && ReadsAs(Values(r.small), entries[i].offset, Moved(t)[i].entries);
  }

  /**
    The rewritten parser answers every state and symbol as the original does exactly when no small
    state is numbered below the retained boundary. That always holds when the boundary moves down.
  */
  lemma {:induction false} CompactionIsFaithful(t: Tables, r: Tables)
    requires Accepted(t) && CompactedTo(t, r) && Compiles(t) && 0 < t.largeCount
    ensures Faithful(t, r) <==> forall e :: e in t.smallMap ==> Retained(t.largeCount) <= e.state
    ensures Retained(t.largeCount) <= t.largeCount ==> Faithful(t, r)
  {
    AcceptedInOrder(t);
    var words, entries := AddedParts(t, r);
    CompactedCompiles(t, r, words, entries);
    if !Compiles(r) {
      assert Lookup(t, 0, 0).Some? && Lookup(r, 0, 0).None?;
    } else {
      forall state: nat, symbol: nat | Lookup(t, state, symbol).Some?
        ensures Lookup(r, state, symbol) == Lookup(t, state, symbol)
      {
        if t.largeCount <= state {
          OldSmallLookup(t, r, words, entries, state, symbol);
        } else if state < Retained(t.largeCount) {
          KeptDenseLookup(t, r, state, symbol);
        } else {
          MovedLookup(t, r, entries, state, symbol);
        }
      }
    }
  }

  /**
    A parser with one dense and one small state is accepted and broken: state 1 gets a designator below zero, so
    that the rewritten parser does not compile and looks up nothing.
  */
  lemma {:induction false} TinyParserIsBroken(r: Tables)
    requires CompactedTo(Tables(1, [Row(0, [])], [Word(Some(0), 0)], [MapEntry(1, 0)]), r)
    ensures var t := Tables(1, [Row(0, [])], [Word(Some(0), 0)], [MapEntry(1, 0)]);
            && Compiles(t) && Accepted(t)
            && Lookup(t, 1, 0) == Some(0)
            && !Compiles(r)
            && forall state: nat, symbol: nat :: Lookup(r, state, symbol) == None
  {
    var t := Tables(1, [Row(0, [])], [Word(Some(0), 0)], [MapEntry(1, 0)]);
    assert MapSlot(t.smallMap, 1, 0) == Some(0);
    var words, entries := AddedParts(t, r);
    CompactedCompiles(t, r, words, entries);
    assert MapEntry(1, 0) in t.smallMap;
  }

  // ---------------------------------------------------------------- every emitted word is a u16

  lemma {:induction false} DistinctBelow(symbols: seq<nat>, bound: nat)
    requires forall i, j :: 0 <= i < j < |symbols| ==> symbols[i] != symbols[j]
    requires forall s :: s in symbols ==> s < bound
    ensures |symbols| <= bound
  {
    if symbols == [] {
      return;
    }
    assert symbols[0] in symbols;
    if i :| 0 <= i < |symbols| && symbols[i] == bound - 1 {
      var rest := symbols[..i] + symbols[i + 1..];
      forall s | s in rest ensures s < bound - 1 {
        var k :| 0 <= k < |rest| && rest[k] == s;
        var j := if k < i then k else k + 1;
        assert s == symbols[j] && symbols[j] in symbols && symbols[j] != symbols[i];
      }
      DistinctBelow(rest, bound - 1);
    } else {
      DistinctBelow(symbols, bound - 1);
    }
  }

  ghost predicate GroupsWithin(groups: seq<Group>, limit: nat) {
    |groups| <= limit && forall g :: g in groups ==> |g.symbols| <= limit
  }

  lemma {:induction false} AddToGroupWithin(groups: seq<Group>, value: nat, symbol: nat, limit: nat)
    requires GroupsWithin(groups, limit)
    ensures GroupsWithin(AddToGroup(groups, value, symbol), limit + 1)
    ensures |AddToGroup(groups, value, symbol)| <= |groups| + 1
  {
    if groups != [] && groups[0].value < value {
      AddToGroupWithin(groups[1..], value, symbol, limit);
    }
  }

  lemma {:induction false} GroupsOfWithin(entries: seq<Entry>)
    ensures GroupsWithin(GroupsOf(entries), |entries|)
  {
    if entries != [] {
      var init, last := entries[..|entries| - 1], entries[|entries| - 1];
      GroupsOfWithin(init);
      AddToGroupWithin(GroupsOf(init), last.value, last.symbol, |init|);
    }
  }

  lemma {:induction false} PackGroupsFit(groups: seq<Group>)
    requires forall g :: g in groups ==> g.value < U16 && |g.symbols| < U16 && forall s :: s in g.symbols ==> s < U16
    ensures forall w :: w in PackGroups(groups) ==> w < U16
  {
    if groups != [] {
      PackGroupsFit(groups[..|groups| - 1]);
      assert groups[|groups| - 1] in groups;
    }
  }

  lemma {:induction false} GroupMembers(entries: seq<Entry>, g: Group, s: nat)
    requires g in GroupsOf(entries) && s in g.symbols
    ensures Entry(s, g.value) in entries
  {
    GroupsHold(entries, s, g.value);
  }

  lemma {:induction false} GroupNonEmpty(entries: seq<Entry>)
    ensures forall g :: g in GroupsOf(entries) ==> g.symbols != []
  {
    if entries != [] {
      var init, last := entries[..|entries| - 1], entries[|entries| - 1];
      GroupNonEmpty(init);
      AddNonEmpty(GroupsOf(init), last.value, last.symbol);
    }
  }

  lemma {:induction false} AddNonEmpty(groups: seq<Group>, value: nat, symbol: nat)
    requires forall g :: g in groups ==> g.symbols != []
    ensures forall g :: g in AddToGroup(groups, value, symbol) ==> g.symbols != []
  {
    if groups != [] && groups[0].value < value {
      AddNonEmpty(groups[1..], value, symbol);
    }
  }

  /** With at most 65535 symbols no count, value or symbol is cut when the words become uint16_t. */
  lemma {:induction false} PackedWordsFit(entries: seq<Entry>, offset: nat, symbolCount: nat)
    requires DistinctSymbols(entries) && symbolCount < U16
    requires forall e :: e in entries ==> e.value < U16 && e.symbol < symbolCount
    ensures forall w :: w in WordsAt(Payload(GroupsOf(entries)), offset) ==> w.value < U16
  {
    var groups := GroupsOf(entries);
    DistinctBelow(seq(|entries|, i requires 0 <= i < |entries| => entries[i].symbol), symbolCount);
    GroupsOfWithin(entries);
    GroupNonEmpty(entries);
    forall g | g in groups
      ensures g.value < U16 && |g.symbols| < U16 && forall s :: s in g.symbols ==> s < U16
    {
      GroupMembers(entries, g, g.symbols[0]);
      forall s | s in g.symbols ensures s < U16 { GroupMembers(entries, g, s); }
    }
    PackGroupsFit(groups);
    forall w | w in WordsAt(Payload(groups), offset) ensures w.value < U16 {
      assert w.value in Payload(groups);
    }
  }

  ghost predicate WordsFit(words: seq<Word>) {
    forall w :: w in words ==> w.value < U16
  }

  lemma {:induction false} LaidOutFit(rows: seq<PackedRow>, base: nat, words: seq<Word>, entries: seq<MapEntry>)
    requires LaidOut(rows, base, words, entries)
    requires forall k :: 0 <= k < |rows| ==> forall offset: nat :: WordsFit(WordsAt(rows[k].payload, offset))
    ensures WordsFit(words)
  {
    if rows != [] {
      var k, at := |rows| - 1, |words| - |rows[|rows| - 1].payload|;
      LaidOutFit(rows[..k], base, words[..at], entries[..k]);
      assert WordsFit(WordsAt(rows[k].payload, base + at));
      assert words == words[..at] + words[at..];
    }
  }

  /** So every word of a rewritten small table is a uint16_t, if those of the old one were. */
  lemma {:induction false} RewrittenWordsFit(t: Tables, r: Tables, symbolCount: nat)
    requires Accepted(t) && CompactedTo(t, r) && WordsFit(t.small) && symbolCount < U16
    requires forall row, e :: row in t.dense && e in row.entries ==> e.symbol < symbolCount
    ensures WordsFit(r.small)
  {
    var words, entries :| LaidOut(PackAll(Moved(t)), |t.small|, words, entries)
      && r == Tables(Retained(t.largeCount), t.dense[..|t.dense| - |Moved(t)|], t.small + words, entries + t.smallMap);
    forall k, offset: nat | 0 <= k < |Moved(t)| ensures WordsFit(WordsAt(PackAll(Moved(t))[k].payload, offset)) {
      var state := |t.dense| - |Moved(t)| + k;
      assert RowAccepted(t.dense[state], state, Retained(t.largeCount));
      PackAllAt(Moved(t), k);
      PackedWordsFit(t.dense[state].entries, offset, symbolCount);
    }
    LaidOutFit(PackAll(Moved(t)), |t.small|, words, entries);
  }
}
