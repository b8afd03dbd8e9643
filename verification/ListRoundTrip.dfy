/** From end to end: a list written by name and read by name, structures and chunking included. */
module ListRoundTrips {
  import opened Wrappers
  import opened StructureCodec
  import opened CodecTheorems
  import opened AdvancedHandlers
  import opened SumCommands
  import opened SumLayout
  import opened SumCalls
  import opened SumTheorems
  import opened Connections
  import opened ConnectionTheorems

  /** A value the variable can hold: of the structure's type when it has a definition, of the symbol's otherwise. */
  predicate Holdable(defs: Defs, entry: SymbolEntry, name: string, v: SumValue) {
    match DefOf(defs, name)
    case Some(def) =>
      v.Plain? && Typed(def, v.v) && AsciiMembers(def, v.v) && SizeOf(def) == Ok(entry.size)
    case None => Fits(entry, false, v)
  }

  /** The value as it comes back: a structure without the lists around its single nested members. */
  function Returned(defs: Defs, name: string, v: SumValue): SumValue {
    match DefOf(defs, name)
    case Some(def) => if v.Plain? then Plain(Decoded(def, v.v)) else v
    case None => v
  }

  /** The value as it is handed to the sum write. */
  function Prepared(defs: Defs, name: string, v: SumValue): SumValue {
    match DefOf(defs, name)
    case Some(def) => if v.Plain? && Encode(def, v.v).Ok? then Raw(Encode(def, v.v).value) else v
    case None => v
  }

  predicate DistinctItems(items: Items) {
    forall i, j | 0 <= i < j < |items| :: items[i].0 != items[j].0
  }

  predicate Encodable(defs: Defs, items: Items) {
    forall k | 0 <= k < |items| && DefOf(defs, items[k].0).Some? ::
      items[k].1.Plain? && Encode(DefOf(defs, items[k].0).value, items[k].1.v).Ok?
  }

  predicate DefsAreItems(defs: Defs, items: Items) {
    forall j | 0 <= j < |defs| :: exists k :: 0 <= k < |items| && items[k].0 == defs[j].0
  }

  /** Turning structures into bytes prepares every item by its own definition. */
  lemma {:induction false} PreProcessedAt(defs: Defs, items: Items)
    requires DistinctDefs(defs) && DistinctItems(items) && DefsAreItems(defs, items) && Encodable(defs, items)
    ensures var r := PreProcessed(defs, items);
            && r.Ok? && |r.value| == |items|
            && forall k | 0 <= k < |items| :: r.value[k] == (items[k].0, Prepared(defs, items[k].0, items[k].1))
    decreases |defs|
  {
    if defs != [] {
      var (name, def) := defs[0];
      assert exists k :: 0 <= k < |items| && items[k].0 == defs[0].0;
      var k := ItemAt(items, name).value;
      var b := Encode(def, items[k].1.v).value;
      var rest, items' := defs[1..], items[k := (name, Raw(b))];
      assert forall j | 0 <= j < |rest| :: rest[j] == defs[j + 1];
      assert forall j | 0 <= j < |items| :: items'[j].0 == items[j].0;
      RestOfDefs(defs);
      forall j | 0 <= j < |items| && j != k
        ensures items[j].0 != name && DefOf(rest, items[j].0) == DefOf(defs, items[j].0)
      {
      }
      PreProcessedAt(rest, items');
    }
  }

  lemma RestOfDefs(defs: Defs)
    requires defs != [] && DistinctDefs(defs)
    ensures DistinctDefs(defs[1..]) && DefOf(defs[1..], defs[0].0) == None
  {
    assert forall j | 0 <= j < |defs| - 1 :: defs[1..][j] == defs[j + 1];
    DefOfIn(defs[1..], defs[0].0);
  }

  /** A holdable value prepared for the wire fits its variable, and taken through its definition is what comes back. */
  lemma PreparedFits(defs: Defs, entry: SymbolEntry, name: string, v: SumValue)
    requires Holdable(defs, entry, name, v)
    ensures var structured := name in DefNames(defs);
            && Fits(entry, structured, Prepared(defs, name, v))
            && Through(defs, name, Prepared(defs, name, v)) == Ok(Returned(defs, name, v))
    ensures (DefOf(defs, name).Some? ==> !HasSingle(DefOf(defs, name).value)) ==> Returned(defs, name, v) == v
    ensures DefOf(defs, name).Some? ==> v.Plain? && Encode(DefOf(defs, name).value, v.v).Ok?
  {
    DefOfIn(defs, name);
    if DefOf(defs, name).Some? {
      var def := DefOf(defs, name).value;
      ExactSize(def, v.v, []);
      RoundTrip(def, v.v);
    }
  }

  /** Distinct items with a known symbol each, of a value it can hold. */
  predicate Writable(table: map<string, SymbolEntry>, defs: Defs, items: Items) {
    && DistinctItems(items) && DistinctDefs(defs) && DefsAreItems(defs, items)
    && forall k | 0 <= k < |items| :: items[k].0 in table && Holdable(defs, table[items[k].0], items[k].0, items[k].1)
  }

  /** What reading one by one after the write yields. */
  lemma ReadsBack(codes: map<nat, string>, after: Store, cols: seq<Column>, vs: seq<SumValue>, defs: Defs, values: seq<SumValue>)
    requires |vs| == |cols| == |values| && DistinctDefs(defs)
    requires ComeBack(SumRead(codes, after, cols), cols, vs)
    requires forall k | 0 <= k < |cols| :: Through(defs, cols[k].name, vs[k]) == Ok(values[k])
    ensures ComeBack(ReadOnce(codes, TestServer(after), cols, defs), cols, values)
  {
    hide SumRead, Through, PostProcessed;
    var m := SumRead(codes, after, cols).value;
    PostProcessedAt(defs, m);
    forall n | n in m ensures Through(defs, n, m[n]).Ok? {
      assert n in NameSet(cols);
      var k :| 0 <= k < |cols| && cols[k].name == n;
    }
  }

  /** No structure of the list has a single nested member. */
  predicate NoSingles(defs: Defs) {
    forall j | 0 <= j < |defs| :: !HasSingle(defs[j].1)
  }

  function AllReturned(defs: Defs, items: Items): seq<SumValue> {
    seq(|items|, k requires 0 <= k < |items| => Returned(defs, items[k].0, items[k].1))
  }

  lemma NoSinglesReturned(defs: Defs, items: Items)
    requires NoSingles(defs) && DistinctDefs(defs)
    requires forall k | 0 <= k < |items| ::
               (DefOf(defs, items[k].0).Some? ==> !HasSingle(DefOf(defs, items[k].0).value)) ==>
                 Returned(defs, items[k].0, items[k].1) == items[k].1
    ensures AllReturned(defs, items) == SumCommands.Values(items)
  {
    hide HasSingle, Returned;
    forall k | 0 <= k < |items| ensures DefOf(defs, items[k].0).Some? ==> !HasSingle(DefOf(defs, items[k].0).value) {
      DefOfHas(defs, items[k].0);
    }
  }

  lemma {:induction false} DefOfHas(defs: Defs, name: string)
    ensures DefOf(defs, name).Some? ==> exists j :: 0 <= j < |defs| && defs[j] == (name, DefOf(defs, name).value)
  {
    if defs != [] && defs[0].0 != name {
      DefOfHas(defs[1..], name);
      if DefOf(defs, name).Some? {
        var j :| 0 <= j < |defs| - 1 && defs[1..][j] == (name, DefOf(defs[1..], name).value);
        assert defs[j + 1] == defs[1..][j];
      }
    } else if defs != [] {
      assert defs[0] == (name, DefOf(defs, name).value);
    }
  }

  /**
   `write_list_by_name` then `read_list_by_name`, each with any chunk size of at least one: the values
   come back under their names, structures as dictionaries, without the lists around single nested members
   and unchanged when they have none, and no other variable has changed.
   */
  lemma ListRoundTrip(
    codes: map<nat, string>, table: map<string, SymbolEntry>, data: Store, items: Items, k: int, l: int, defs: Defs)
    requires 0 in codes && k >= 1 && l >= 1 && Writable(table, defs, items) && AllIn(Keys(items), table)
    requires var cols := Columns(Keys(items), table, DefNames(defs)); Known(data, cols) && DistinctAddresses(cols)
    ensures var cols := Columns(Keys(items), table, DefNames(defs));
            var (after, statuses) := WriteResult(codes, table, data, items, k, defs);
            && statuses.Ok? && OthersKept(data, after, cols)
            && ComeBack(ReadResult(codes, table, after, Keys(items), l, defs), cols, AllReturned(defs, items))
    ensures NoSingles(defs) ==> AllReturned(defs, items) == SumCommands.Values(items)
  {
    hide Holdable, Fits, Through, Prepared, Returned, SumWrite, SumRead, ReadOnce, ReadList, WriteList, NoneBorrows, Places, Known,
      PreProcessed, OthersKept, ComeBack, NoSingles, HasSingle;
    var cols := Columns(Keys(items), table, DefNames(defs));
    forall i | 0 <= i < |items|
      ensures Fits(cols[i].entry, cols[i].structured, Prepared(defs, items[i].0, items[i].1))
      ensures Through(defs, items[i].0, Prepared(defs, items[i].0, items[i].1)) == Ok(Returned(defs, items[i].0, items[i].1))
      ensures (DefOf(defs, items[i].0).Some? ==> !HasSingle(DefOf(defs, items[i].0).value)) ==>
                Returned(defs, items[i].0, items[i].1) == items[i].1
      ensures DefOf(defs, items[i].0).Some? ==>
                items[i].1.Plain? && Encode(DefOf(defs, items[i].0).value, items[i].1.v).Ok?
    {
      PreparedFits(defs, table[items[i].0], items[i].0, items[i].1);
    }
    if NoSingles(defs) { NoSinglesReturned(defs, items); }
    PreProcessedAt(defs, items);
    var vs := SumCommands.Values(PreProcessed(defs, items).value);
    PreparedReadBack(codes, table, data, items, cols, vs, k, l, defs);
  }

  /** The list calls on prepared values that fit. */
  lemma {:induction false} PreparedReadBack(
    codes: map<nat, string>, table: map<string, SymbolEntry>, data: Store, items: Items, cols: seq<Column>, vs: seq<SumValue>,
    k: int, l: int, defs: Defs)
    requires 0 in codes && k >= 1 && l >= 1 && DistinctDefs(defs) && DistinctItems(items) && AllIn(Keys(items), table)
    requires cols == Columns(Keys(items), table, DefNames(defs)) && Known(data, cols) && DistinctAddresses(cols)
    requires AllFit(cols, vs)
    requires forall i | 0 <= i < |cols| :: Through(defs, cols[i].name, vs[i]) == Ok(Returned(defs, items[i].0, items[i].1))
    ensures var (after, statuses) := WriteList(codes, data, cols, vs, k);
            && statuses.Ok? && OthersKept(data, after, cols)
            && ComeBack(ReadList(codes, TestServer(after), cols, l, defs), cols, AllReturned(defs, items))
  {
    hide Fits, Through, Returned, SumWrite, SumRead, ReadOnce, ReadList, WriteList, NoneBorrows, Places, Known, OthersKept, ComeBack;
    FitsPlace(cols, vs);
    PlaceGiven(cols, vs);
    ChunkedWriteAgrees(codes, data, cols, vs, k);
    WriteThenRead(codes, data, cols, vs);
    var after := SumWrite(codes, data, cols, vs).0;
    GivenBorrowsNothing(cols, vs);
    ReadsBack(codes, after, cols, vs, defs, AllReturned(defs, items));
    ColumnsAreConsistent(Keys(items), table, DefNames(defs));
    ChunkedReadAgrees(codes, TestServer(after), cols, l, defs);
    SameBack(codes, after, cols, l, defs, AllReturned(defs, items));
  }

  lemma SameBack(codes: map<nat, string>, after: Store, cols: seq<Column>, l: int, defs: Defs, values: seq<SumValue>)
    requires |values| == |cols| && ComeBack(ReadOnce(codes, TestServer(after), cols, defs), cols, values)
    requires SameOutcome(ReadList(codes, TestServer(after), cols, l, defs), ReadOnce(codes, TestServer(after), cols, defs))
    ensures ComeBack(ReadList(codes, TestServer(after), cols, l, defs), cols, values)
  {
    hide ReadOnce, ReadList;
  }
}
