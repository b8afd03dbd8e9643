/** The by-name list calls of `Connection`: the symbol cache, chunking, and structures in lists. */
module Connections {
  import opened Wrappers
  import opened StructureCodec
  import opened AdvancedHandlers
  import opened SumCommands
  import opened SumCalls
  import opened SumTheorems
  import AdsStructures

  const SYMBOL_NOT_FOUND: nat := 1808

  // --- slices --------------------------------------------------------------------------------------

  /** `s` in pieces of `k`, the last one shorter when `k` does not divide it. */
  function Slices<T>(s: seq<T>, k: nat): seq<seq<T>>
    requires k > 0
    decreases |s|
  {
    if s == [] then [] else if |s| <= k then [s] else [s[..k]] + Slices(s[k..], k)
  }

  /** The slice generators: `range` rejects a step of zero and is empty for a negative one. */
  function Sliced<T>(s: seq<T>, size: int): Result<seq<seq<T>>> {
    if size == 0 then Err(ValueError) else if size < 0 then Ok([]) else Ok(Slices(s, size))
  }

  lemma SlicesStep<T>(done: seq<seq<T>>, s: seq<T>, k: nat)
    requires k > 0 && s != []
    ensures var n := if |s| <= k then |s| else k; done + Slices(s, k) == done + [s[..n]] + Slices(s[n..], k)
  {
    if |s| <= k {
      assert s[..|s|] == s;
    }
  }

  /** `_list_slice_generator`, and `_dict_slice_generator` on the items of a dict: one iterator advanced slice by slice. */
  method SliceGenerator<T>(s: seq<T>, size: int) returns (r: Result<seq<seq<T>>>)
    ensures r == Sliced(s, size)
    ensures (size == 0 ==> r == Err(ValueError)) && (size < 0 ==> r == Ok([])) && (size > 0 ==> r == Ok(Slices(s, size)))
  {
    if size == 0 {
      return Err(ValueError);
    }
    if size < 0 {
      return Ok([]);
    }
    var slices: seq<seq<T>> := [];
    var it := 0;
    assert s[0..] == s;
    while it < |s|
      invariant it <= |s| && slices + Slices(s[it..], size) == Slices(s, size)
    {
      var n := if |s| - it <= size then |s| - it else size;
      SlicesStep(slices, s[it..], size);
      assert s[it..][..n] == s[it..it + n] && s[it..][n..] == s[it + n..];
      slices := slices + [s[it..it + n]];
      it := it + n;
    }
    assert slices + [] == slices;
    r := Ok(slices);
  }

  // --- reading -------------------------------------------------------------------------------------

  /** A Python dict from names to structure definitions, in its order. */
  type Defs = seq<(string, seq<Item>)>

  function DefNames(defs: Defs): set<string> {
    set k | 0 <= k < |defs| :: defs[k].0
  }

  /** `dict_from_bytes` on an error text, which is a string: any element that is looked at raises. */
  function DecodeTextElem(ty: PlcType): Result<Value>
    decreases ty, 0
  {
    match ty
    case NestedT(def) =>
      var _ :- SizeOf(def);
      var m :- DecodeText(def, map[]);
      Ok(DictV(m))
    case Unsupported => Err(RuntimeError)
    case _ => Err(TypeError)
  }

  function DecodeText(def: seq<Item>, acc: map<string, Value>): Result<map<string, Value>>
    decreases def, 1
  {
    if def == [] then Ok(acc)
    else if def[0].count == 0 then DecodeText(def[1..], acc[def[0].name := ListV([])])
    else
      var e :- DecodeTextElem(def[0].ty);
      var v := if def[0].count == 1 then e else ListV(seq(def[0].count, _ => e));
      DecodeText(def[1..], acc[def[0].name := v])
  }

  /** A structured name's result taken through its definition. */
  function Structured(def: seq<Item>, v: SumValue): Result<SumValue> {
    match v
    case Raw(b) =>
      var d :- Decode(def, b, 1);
      Ok(Plain(d))
    case ErrorText(_) =>
      var m :- DecodeText(def, map[]);
      Ok(Plain(DictV(m)))
    case Plain(_) => Err(TypeError)
  }

  /** The loop over the structure definitions after a sum read. */
  function PostProcessed(defs: Defs, r: map<string, SumValue>): Result<map<string, SumValue>> {
    if defs == [] then Ok(r)
    else if defs[0].0 !in r then PostProcessed(defs[1..], r)
    else
      var v :- Structured(defs[0].1, r[defs[0].0]);
      PostProcessed(defs[1..], r[defs[0].0 := v])
  }

  /** The target: the test server with its store, or any device that answers each sub-request by itself. */
  datatype Target = TestServer(data: Store) | Device(serve: Request -> Answer)

  function TargetRead(codes: map<nat, string>, target: Target, cols: seq<Column>): Result<map<string, SumValue>> {
    match target
    case TestServer(data) => SumRead(codes, data, cols)
    case Device(serve) =>
      ParsedRead(codes, cols, Response(seq(|cols|, k requires 0 <= k < |cols| => serve(cols[k].entry.AsRequest()))))
  }

  function ReadOnce(codes: map<nat, string>, target: Target, cols: seq<Column>, defs: Defs): Result<map<string, SumValue>> {
    var r :- TargetRead(codes, target, cols);
    PostProcessed(defs, r)
  }

  /** One sum read after another, `k` columns each, merged into `acc`. */
  function ReadChunks(
    codes: map<nat, string>, target: Target, cols: seq<Column>, k: nat, defs: Defs, acc: map<string, SumValue>)
    : Result<map<string, SumValue>>
    requires k > 0
    decreases |cols|
  {
    if cols == [] then Ok(acc) else
    var n := if |cols| <= k then |cols| else k;
    var r :- ReadOnce(codes, target, cols[..n], defs);
    ReadChunks(codes, target, cols[n..], k, defs, acc + r)
  }

  /** A list read with at most `k` names a call. */
  function ReadList(codes: map<nat, string>, target: Target, cols: seq<Column>, k: int, defs: Defs)
    : Result<map<string, SumValue>>
  {
    if |cols| <= k then ReadOnce(codes, target, cols, defs)
    else if k == 0 then Err(ValueError)
    else if k < 0 then Ok(map[])
    else ReadChunks(codes, target, cols, k, defs, map[])
  }

  // --- writing -------------------------------------------------------------------------------------

  function ItemAt(items: Items, name: string): (r: Option<nat>)
    ensures r.Some? ==> r.value < |items| && items[r.value].0 == name
    ensures r.None? ==> forall k | 0 <= k < |items| :: items[k].0 != name
  {
    if items == [] then None
    else if items[0].0 == name then Some(0)
    else match ItemAt(items[1..], name) case None => None case Some(k) => Some(k + 1)
  }

  /** The loop that replaces structured values by their bytes. */
  function PreProcessed(defs: Defs, items: Items): (r: Result<Items>)
    ensures r.Ok? ==> Keys(r.value) == Keys(items)
    decreases |defs|
  {
    if defs == [] then Ok(items) else
    var (name, def) := defs[0];
    match ItemAt(items, name)
    case None => Err(KeyError)
    case Some(k) =>
      if !items[k].1.Plain? then Err(TypeError) else
      var b :- Encode(def, items[k].1.v);
      assert Keys(items[k := (name, Raw(b))]) == Keys(items);
      PreProcessed(defs[1..], items[k := (name, Raw(b))])
  }

  /** One sum write after another, `k` columns each; a raised exception leaves the rest unwritten. */
  function WriteChunks(
    codes: map<nat, string>, data: Store, cols: seq<Column>, vs: seq<SumValue>, k: nat, acc: map<string, string>)
    : (Store, Result<map<string, string>>)
    requires k > 0 && |vs| == |cols|
    decreases |cols|
  {
    if cols == [] then (data, Ok(acc)) else
    var n := if |cols| <= k then |cols| else k;
    match SumWrite(codes, data, cols[..n], vs[..n])
    case (after, Err(e)) => (after, Err(e))
    case (after, Ok(r)) => WriteChunks(codes, after, cols[n..], vs[n..], k, acc + r)
  }

  function WriteList(codes: map<nat, string>, data: Store, cols: seq<Column>, vs: seq<SumValue>, k: int)
    : (Store, Result<map<string, string>>)
    requires |vs| == |cols|
  {
    if |cols| <= k then SumWrite(codes, data, cols, vs)
    else if k == 0 then (data, Err(ValueError))
    else if k < 0 then (data, Ok(map[]))
    else WriteChunks(codes, data, cols, vs, k, map[])
  }

  // --- the symbol cache ----------------------------------------------------------------------------

  /** The names a caching call has to ask for, and all names for a call that does not cache. */
  function Wanted(names: seq<string>, cache: map<string, SymbolEntry>, cacheSymbolInfo: bool): seq<string> {
    if names == [] then []
    else if cacheSymbolInfo && names[0] in cache then Wanted(names[1..], cache, cacheSymbolInfo)
    else [names[0]] + Wanted(names[1..], cache, cacheSymbolInfo)
  }

  /** The lookups made for a list of wanted names: all of them, or up to the first the target does not know. */
  function Asked(wanted: seq<string>, table: map<string, SymbolEntry>): seq<string> {
    if wanted == [] then []
    else if wanted[0] !in table then [wanted[0]]
    else [wanted[0]] + Asked(wanted[1..], table)
  }

  predicate SubMap(cache: map<string, SymbolEntry>, table: map<string, SymbolEntry>) {
    forall n | n in cache :: n in table && cache[n] == table[n]
  }

  /** The cache after a call for some names: a caching call that finds them all adds them. */
  function CacheAfter(
    table: map<string, SymbolEntry>, cache: map<string, SymbolEntry>, names: seq<string>, cacheSymbolInfo: bool)
    : map<string, SymbolEntry>
  {
    if cacheSymbolInfo && AllIn(names, table) then cache + (map n | n in names && n in table :: table[n]) else cache
  }

  /** What a list read returns, told without the cache. */
  function ReadResult(
    codes: map<nat, string>, table: map<string, SymbolEntry>, data: Store, names: seq<string>, k: int, defs: Defs)
    : Result<map<string, SumValue>>
  {
    if !AllIn(names, table) then Err(AdsError(SYMBOL_NOT_FOUND))
    else ReadList(codes, TestServer(data), Columns(names, table, DefNames(defs)), k, defs)
  }

  /** What a list write does and returns, told without the cache. */
  function WriteResult(
    codes: map<nat, string>, table: map<string, SymbolEntry>, data: Store, items: Items, k: int, defs: Defs)
    : (Store, Result<map<string, string>>)
  {
    if !AllIn(Keys(items), table) then (data, Err(AdsError(SYMBOL_NOT_FOUND))) else
    match PreProcessed(defs, items)
    case Err(e) => (data, Err(e))
    case Ok(ready) => WriteList(codes, data, Columns(Keys(items), table, DefNames(defs)), Values(ready), k)
  }

  lemma {:induction false} WantedSnoc(names: seq<string>, k: nat, cache: map<string, SymbolEntry>, flag: bool)
    requires k < |names|
    ensures Wanted(names[..k + 1], cache, flag) ==
            Wanted(names[..k], cache, flag) + (if flag && names[k] in cache then [] else [names[k]])
    decreases k
  {
    if k == 0 {
      assert names[..1][1..] == [];
    } else {
      assert names[..k + 1][1..] == names[1..][..k] && names[..k][1..] == names[1..][..k - 1];
      WantedSnoc(names[1..], k - 1, cache, flag);
    }
  }

  lemma {:induction false} WantedHas(names: seq<string>, cache: map<string, SymbolEntry>, flag: bool)
    ensures forall n | n in Wanted(names, cache, flag) :: n in names && !(flag && n in cache)
    ensures forall n | n in names :: n in Wanted(names, cache, flag) || (flag && n in cache)
  {
    if names != [] {
      WantedHas(names[1..], cache, flag);
      assert names == [names[0]] + names[1..];
    }
  }

  /** The columns of a slice of the names are that slice of the columns. */
  lemma ColumnsOfSlice(names: seq<string>, symbols: map<string, SymbolEntry>, structured: set<string>, pos: nat, n: nat)
    requires AllIn(names, symbols) && pos + n <= |names|
    ensures AllIn(names[pos..pos + n], symbols)
    ensures var cols := Columns(names, symbols, structured);
            && Columns(names[pos..pos + n], symbols, structured) == cols[pos..][..n]
            && cols[pos..][n..] == cols[pos + n..]
  {
  }

  lemma ItemsOfSlice(items: Items, symbols: map<string, SymbolEntry>, structured: set<string>, pos: nat, n: nat)
    requires AllIn(Keys(items), symbols) && pos + n <= |items|
    ensures |Keys(items)| == |Values(items)| == |items| && AllIn(Keys(items[pos..pos + n]), symbols)
    ensures var cols, vs := Columns(Keys(items), symbols, structured), Values(items);
            && |cols| == |items|
            && Columns(Keys(items[pos..pos + n]), symbols, structured) == cols[pos..][..n]
            && Values(items[pos..pos + n]) == vs[pos..][..n]
            && cols[pos..][n..] == cols[pos + n..] && vs[pos..][n..] == vs[pos + n..]
  {
    ColumnsOfSlice(Keys(items), symbols, structured, pos, n);
    assert Keys(items[pos..pos + n]) == Keys(items)[pos..pos + n];
  }

  /** All wanted names are known exactly when all names are, the rest being in the cache. */
  lemma WantedKnown(names: seq<string>, cache: map<string, SymbolEntry>, flag: bool, table: map<string, SymbolEntry>)
    requires SubMap(cache, table)
    ensures AllIn(Wanted(names, cache, flag), table) <==> AllIn(names, table)
  {
    WantedHas(names, cache, flag);
    var wanted := Wanted(names, cache, flag);
    assert forall k | 0 <= k < |wanted| :: wanted[k] in names;
    if AllIn(wanted, table) {
      forall k | 0 <= k < |names| ensures names[k] in table {
        if names[k] in wanted {
          var j :| 0 <= j < |wanted| && wanted[j] == names[k];
        }
      }
    }
  }

  /** A call without the cache asks for every name; a caching one for those it does not have, in their order. */
  lemma {:induction false} WantedIs(names: seq<string>, cache: map<string, SymbolEntry>)
    ensures Wanted(names, cache, false) == names
    ensures (forall k | 0 <= k < |names| :: names[k] !in cache) ==> Wanted(names, cache, true) == names
    ensures (forall k | 0 <= k < |names| :: names[k] in cache) ==> Wanted(names, cache, true) == []
    ensures |Wanted(names, cache, true)| <= |names|
  {
    if names != [] {
      WantedIs(names[1..], cache);
      assert names == [names[0]] + names[1..];
    }
  }

  /** Two lists are asked for one behind the other. */
  lemma {:induction false} WantedConcat(a: seq<string>, b: seq<string>, cache: map<string, SymbolEntry>, flag: bool)
    ensures Wanted(a + b, cache, flag) == Wanted(a, cache, flag) + Wanted(b, cache, flag)
  {
    if a == [] {
      assert a + b == b;
    } else {
      assert (a + b)[1..] == a[1..] + b;
      WantedConcat(a[1..], b, cache, flag);
    }
  }

  /** The lookups are the wanted names up to the first the target does not know, that one included. */
  lemma {:induction false} AskedIs(wanted: seq<string>, table: map<string, SymbolEntry>)
    ensures Asked(wanted, table) <= wanted
    ensures AllIn(wanted, table) <==> (Asked(wanted, table) == wanted && (wanted == [] || wanted[|wanted| - 1] in table))
    ensures !AllIn(wanted, table) ==>
              var n := |Asked(wanted, table)|;
              n > 0 && wanted[n - 1] !in table && forall k | 0 <= k < n - 1 :: wanted[k] in table
  {
    if wanted != [] && wanted[0] in table {
      AskedIs(wanted[1..], table);
      assert wanted == [wanted[0]] + wanted[1..];
      assert AllIn(wanted, table) <==> AllIn(wanted[1..], table) by {
        assert forall k | 0 < k < |wanted| :: wanted[k] == wanted[1..][k - 1];
      }
    }
  }

  /** A caching call that finds all its names leaves each with its entry in the cache; every other call leaves the cache alone. */
  lemma CacheAfterMeans(table: map<string, SymbolEntry>, cache: map<string, SymbolEntry>, names: seq<string>, flag: bool)
    ensures var after := CacheAfter(table, cache, names, flag);
            if flag && AllIn(names, table) then
              && (forall k | 0 <= k < |names| :: names[k] in after && after[names[k]] == table[names[k]])
              && (forall n | n !in names :: (n in after <==> n in cache) && (n in cache ==> after[n] == cache[n]))
            else after == cache
  {
  }

  /** Replacing structured values by their bytes: a definition without an item, or bytes given for one, is refused. */
  lemma DefinitionRefused(defs: Defs, items: Items)
    requires defs != []
    ensures defs[0].0 !in Keys(items) ==> PreProcessed(defs, items) == Err(KeyError)
    ensures forall k | 0 <= k < |items| && items[k].0 == defs[0].0 && items[k].0 !in Keys(items[..k]) ::
              && (!items[k].1.Plain? ==> PreProcessed(defs, items) == Err(TypeError))
              && (items[k].1.Plain? && Encode(defs[0].1, items[k].1.v).Err? ==>
                    PreProcessed(defs, items) == Err(Encode(defs[0].1, items[k].1.v).error))
  {
    hide Encode;
    var at := ItemAt(items, defs[0].0);
    forall k | 0 <= k < |items| && items[k].0 == defs[0].0 && items[k].0 !in Keys(items[..k])
      ensures at == Some(k)
    {
      FirstItem(items, defs[0].0, k);
    }
    if at.Some? { assert Keys(items)[at.value] == defs[0].0; }
  }

  lemma {:induction false} FirstItem(items: Items, name: string, k: nat)
    requires k < |items| && items[k].0 == name && name !in Keys(items[..k])
    ensures ItemAt(items, name) == Some(k)
  {
    if k > 0 {
      var rest := items[1..];
      assert Keys(items[..k]) == [items[0].0] + Keys(rest[..k - 1]);
      FirstItem(rest, name, k - 1);
    }
  }

  class Connection {
    const codes: map<nat, string>
    const handler: AdvancedHandler
    /** The target's symbol table. */
    const table: map<string, SymbolEntry>
    var symbolInfoCache: map<string, SymbolEntry>
    /** The names `adsGetSymbolInfo` was called with. */
    var lookups: seq<string>

    /** The cache is a part of the target's symbol table. */
    ghost predicate Valid()
      reads this
    {
      SubMap(symbolInfoCache, table)
    }

    constructor (codes: map<nat, string>, handler: AdvancedHandler, table: map<string, SymbolEntry>)
      ensures Valid() && symbolInfoCache == map[] && lookups == []
      ensures this.codes == codes && this.handler == handler && this.table == table
    {
      this.codes, this.handler, this.table := codes, handler, table;
      symbolInfoCache, lookups := map[], [];
    }

    method GetSymbolInfo(name: string) returns (r: Result<SymbolEntry>)
      modifies this`lookups
      ensures lookups == old(lookups) + [name]
      ensures r == if name in table then Ok(table[name]) else Err(AdsError(SYMBOL_NOT_FOUND))
    {
      lookups := lookups + [name];
      r := if name in table then Ok(table[name]) else Err(AdsError(SYMBOL_NOT_FOUND));
    }

    /** `_query_plc_datatype_from_name`, up to the parsing of the type name. */
    method QueryPlcDatatypeFromName(name: string, cacheSymbolInfo: bool) returns (r: Result<string>)
      requires Valid()
      modifies this`symbolInfoCache, this`lookups
      ensures Valid()
      ensures r == if name in table then Ok(table[name].symbolType) else Err(AdsError(SYMBOL_NOT_FOUND))
      ensures lookups == old(lookups) + Asked(Wanted([name], old(symbolInfoCache), cacheSymbolInfo), table)
      ensures symbolInfoCache == CacheAfter(table, old(symbolInfoCache), [name], cacheSymbolInfo)
    {
      assert [name][1..] == [];
      if cacheSymbolInfo && name in symbolInfoCache {
        assert CacheAfter(table, symbolInfoCache, [name], true) == symbolInfoCache;
        return Ok(symbolInfoCache[name].symbolType);
      }
      var info := GetSymbolInfo(name);
      if info.Err? {
        return Err(info.error);
      }
      if cacheSymbolInfo {
        symbolInfoCache := symbolInfoCache[name := info.value];
      }
      r := Ok(info.value.symbolType);
    }

    /** Symbol entries for the names in a list, asked for one by one. */
    method AskFor(wanted: seq<string>) returns (r: Result<map<string, SymbolEntry>>)
      modifies this`lookups
      ensures lookups == old(lookups) + Asked(wanted, table)
      ensures r.Ok? <==> AllIn(wanted, table)
      ensures r.Err? ==> r.error == AdsError(SYMBOL_NOT_FOUND)
      ensures r.Ok? ==> SubMap(r.value, table) && forall n :: n in r.value <==> n in wanted
    {
      var infos: map<string, SymbolEntry> := map[];
      assert wanted[0..] == wanted;
      for k := 0 to |wanted|
        invariant lookups + Asked(wanted[k..], table) == old(lookups) + Asked(wanted, table)
        invariant SubMap(infos, table) && AllIn(wanted[..k], table) && forall n :: n in infos <==> n in wanted[..k]
      {
        assert wanted[k..][1..] == wanted[k + 1..];
        assert wanted[..k + 1] == wanted[..k] + [wanted[k]];
        var info := GetSymbolInfo(wanted[k]);
        if info.Err? {
          assert wanted[k] !in table;
          return Err(info.error);
        }
        infos := infos[wanted[k] := info.value];
      }
      assert wanted[..|wanted|] == wanted;
      r := Ok(infos);
    }

    /**
     The opening of both list calls. The cache only grows, by exactly the names asked for; a name in the
     cache is not looked up; a failed lookup leaves the cache as it was.
     */
    method GatherSymbols(names: seq<string>, cacheSymbolInfo: bool) returns (r: Result<map<string, SymbolEntry>>)
      requires Valid()
      modifies this`symbolInfoCache, this`lookups
      ensures Valid()
      ensures lookups == old(lookups) + Asked(Wanted(names, old(symbolInfoCache), cacheSymbolInfo), table)
      ensures r.Ok? <==> AllIn(names, table)
      ensures r.Err? ==> r.error == AdsError(SYMBOL_NOT_FOUND)
      ensures r.Ok? ==> AllIn(names, r.value) && SubMap(r.value, table)
      ensures symbolInfoCache == CacheAfter(table, old(symbolInfoCache), names, cacheSymbolInfo)
    {
      var newItems: seq<string> := [];
      for k := 0 to |names|
        modifies {}
        invariant newItems == Wanted(names[..k], symbolInfoCache, cacheSymbolInfo)
      {
        WantedSnoc(names, k, symbolInfoCache, cacheSymbolInfo);
        if !(cacheSymbolInfo && names[k] in symbolInfoCache) {
          newItems := newItems + [names[k]];
        }
      }
      assert names[..|names|] == names;
      WantedHas(names, symbolInfoCache, cacheSymbolInfo);
      WantedKnown(names, symbolInfoCache, cacheSymbolInfo, table);
      hide Wanted, Asked;
      var infos := AskFor(newItems);
      if infos.Err? {
        return infos;
      }
      if cacheSymbolInfo {
        symbolInfoCache := symbolInfoCache + infos.value;
        r := Ok(symbolInfoCache);
      } else {
        r := infos;
      }
    }

    /** One sum read and the structures in it. */
    method ReadSlice(names: seq<string>, symbols: map<string, SymbolEntry>, defs: Defs)
      returns (r: Result<map<string, SumValue>>)
      requires AllIn(names, symbols)
      ensures r == ReadOnce(codes, TestServer(handler.data), Columns(names, symbols, DefNames(defs)), defs)
    {
      hide SumRead, Structured;
      var read := AdsSumRead(handler, codes, names, symbols, DefNames(defs));
      if read.Err? {
        return read;
      }
      var result := read.value;
      assert defs[0..] == defs;
      for k := 0 to |defs|
        invariant PostProcessed(defs, read.value) == PostProcessed(defs[k..], result)
      {
        assert defs[k..][1..] == defs[k + 1..];
        var (name, def) := defs[k];
        if name in result {
          var v := DictFromValue(result[name], def);
          if v.Err? {
            return Err(v.error);
          }
          result := result[name := v.value];
        }
      }
      r := Ok(result);
    }

    /** `dict_from_bytes` on whatever the sum read put under the name. */
    method DictFromValue(v: SumValue, def: seq<Item>) returns (r: Result<SumValue>)
      ensures r == Structured(def, v)
    {
      if v.Raw? {
        var d := AdsStructures.DictFromBytes(v.b, def, 1);
        r := if d.Ok? then Ok(Plain(d.value)) else Err(d.error);
      } else {
        r := Structured(def, v);
      }
    }

    method ReadListByName(names: seq<string>, cacheSymbolInfo: bool, adsSubCommands: int, defs: Defs)
      returns (r: Result<map<string, SumValue>>)
      requires Valid()
      modifies this`symbolInfoCache, this`lookups
      ensures Valid()
      ensures r == ReadResult(codes, table, handler.data, names, adsSubCommands, defs)
      ensures lookups == old(lookups) + Asked(Wanted(names, old(symbolInfoCache), cacheSymbolInfo), table)
      ensures symbolInfoCache == CacheAfter(table, old(symbolInfoCache), names, cacheSymbolInfo)
    {
      var symbols := GatherSymbols(names, cacheSymbolInfo);
      if symbols.Err? {
        return Err(symbols.error);
      }
      assert Columns(names, symbols.value, DefNames(defs)) == Columns(names, table, DefNames(defs));
      r := ReadSlices(names, symbols.value, adsSubCommands, defs);
    }

    method ReadSlices(names: seq<string>, symbols: map<string, SymbolEntry>, adsSubCommands: int, defs: Defs)
      returns (r: Result<map<string, SumValue>>)
      requires AllIn(names, symbols)
      ensures r == ReadList(codes, TestServer(handler.data), Columns(names, symbols, DefNames(defs)), adsSubCommands, defs)
    {
      hide ReadOnce;
      if |names| <= adsSubCommands {
        r := ReadSlice(names, symbols, defs);
        return;
      }
      var slices := SliceGenerator(names, adsSubCommands);
      if slices.Err? {
        return Err(slices.error);
      }
      if adsSubCommands < 0 {
        return Ok(map[]);
      }
      r := ReadAll(names, slices.value, symbols, adsSubCommands, defs);
    }

    /** The loop over the slices. */
    method ReadAll(names: seq<string>, slices: seq<seq<string>>, symbols: map<string, SymbolEntry>, size: nat, defs: Defs)
      returns (r: Result<map<string, SumValue>>)
      requires AllIn(names, symbols) && size > 0 && slices == Slices(names, size)
      ensures r == ReadChunks(codes, TestServer(handler.data), Columns(names, symbols, DefNames(defs)), size, defs, map[])
    {
      hide Slices;
      hide ReadOnce;
      ghost var cols, target, pos := Columns(names, symbols, DefNames(defs)), TestServer(handler.data), 0;
      var returnData: map<string, SumValue> := map[];
      assert slices[0..] == slices && names[0..] == names && cols[0..] == cols;
      for j := 0 to |slices|
        invariant 0 <= pos <= |names| && slices[j..] == Slices(names[pos..], size)
        invariant ReadChunks(codes, target, cols, size, defs, map[]) ==
                  ReadChunks(codes, target, cols[pos..], size, defs, returnData)
      {
        ghost var n := if |names| - pos <= size then |names| - pos else size;
        SlicesHead(names, pos, size, slices, j);
        ColumnsOfSlice(names, symbols, DefNames(defs), pos, n);
        var part := ReadSlice(slices[j], symbols, defs);
        if part.Err? {
          return part;
        }
        returnData := returnData + part.value;
        pos := pos + n;
      }
      SlicesEnd(names[pos..], size);
      r := Ok(returnData);
    }

    /** Structured values turned into their bytes. */
    method EncodeItems(items: Items, defs: Defs) returns (r: Result<Items>)
      ensures r == PreProcessed(defs, items)
    {
      var ready := items;
      assert defs[0..] == defs;
      for k := 0 to |defs|
        invariant PreProcessed(defs, items) == PreProcessed(defs[k..], ready)
      {
        assert defs[k..][1..] == defs[k + 1..];
        var (name, def) := defs[k];
        var at := ItemAt(ready, name);
        if at.None? {
          return Err(KeyError);
        }
        if !ready[at.value].1.Plain? {
          return Err(TypeError);
        }
        var b := AdsStructures.BytesFromDict(ready[at.value].1.v, def);
        if b.Err? {
          return Err(b.error);
        }
        ready := ready[at.value := (name, Raw(b.value))];
      }
      r := Ok(ready);
    }

    method WriteListByName(items: Items, cacheSymbolInfo: bool, adsSubCommands: int, defs: Defs)
      returns (r: Result<map<string, string>>)
      requires Valid()
      modifies this`symbolInfoCache, this`lookups, handler
      ensures Valid()
      ensures (handler.data, r) == WriteResult(codes, table, old(handler.data), items, adsSubCommands, defs)
      ensures lookups == old(lookups) + Asked(Wanted(Keys(items), old(symbolInfoCache), cacheSymbolInfo), table)
      ensures symbolInfoCache == CacheAfter(table, old(symbolInfoCache), Keys(items), cacheSymbolInfo)
    {
      var symbols := GatherSymbols(Keys(items), cacheSymbolInfo);
      if symbols.Err? {
        return Err(symbols.error);
      }
      var ready := EncodeItems(items, defs);
      if ready.Err? {
        return Err(ready.error);
      }
      assert Columns(Keys(items), symbols.value, DefNames(defs)) == Columns(Keys(items), table, DefNames(defs));
      r := WriteSlices(ready.value, symbols.value, adsSubCommands, DefNames(defs));
    }

    method WriteSlices(items: Items, symbols: map<string, SymbolEntry>, adsSubCommands: int, structured: set<string>)
      returns (r: Result<map<string, string>>)
      requires AllIn(Keys(items), symbols)
      modifies handler
      ensures (handler.data, r) ==
              WriteList(codes, old(handler.data), Columns(Keys(items), symbols, structured), Values(items), adsSubCommands)
    {
      hide SumWrite;
      if |items| <= adsSubCommands {
        r := AdsSumWrite(handler, codes, items, symbols, structured);
        return;
      }
      var slices := SliceGenerator(items, adsSubCommands);
      if slices.Err? {
        return Err(slices.error);
      }
      if adsSubCommands < 0 {
        return Ok(map[]);
      }
      r := WriteAll(items, slices.value, symbols, adsSubCommands, structured);
    }

    method WriteAll(items: Items, slices: seq<Items>, symbols: map<string, SymbolEntry>, size: nat, structured: set<string>)
      returns (r: Result<map<string, string>>)
      requires AllIn(Keys(items), symbols) && size > 0 && slices == Slices(items, size)
      modifies handler
      ensures (handler.data, r) ==
              WriteChunks(codes, old(handler.data), Columns(Keys(items), symbols, structured), Values(items), size, map[])
    {
      hide SumWrite, Slices, Columns, Keys, Values;
      ghost var cols, vs, pos := Columns(Keys(items), symbols, structured), Values(items), 0;
      var returnData: map<string, string> := map[];
      ItemsOfSlice(items, symbols, structured, 0, 0);
      assert slices[0..] == slices && items[0..] == items && cols[0..] == cols && vs[0..] == vs;
      for j := 0 to |slices|
        invariant 0 <= pos <= |items| && slices[j..] == Slices(items[pos..], size)
        invariant WriteChunks(codes, old(handler.data), cols, vs, size, map[]) ==
                  WriteChunks(codes, handler.data, cols[pos..], vs[pos..], size, returnData)
      {
        ghost var n := if |items| - pos <= size then |items| - pos else size;
        SlicesHead(items, pos, size, slices, j);
        ItemsOfSlice(items, symbols, structured, pos, n);
        var part := AdsSumWrite(handler, codes, slices[j], symbols, structured);
        if part.Err? {
          return part;
        }
        returnData := returnData + part.value;
        pos := pos + n;
      }
      SlicesEnd(items[pos..], size);
      r := Ok(returnData);
    }
  }

  lemma SlicesHead<T>(s: seq<T>, pos: nat, k: nat, slices: seq<seq<T>>, j: nat)
    requires k > 0 && pos <= |s| && j < |slices| && slices[j..] == Slices(s[pos..], k)
    ensures var n := if |s| - pos <= k then |s| - pos else k;
            n > 0 && slices[j] == s[pos..pos + n] && slices[j + 1..] == Slices(s[pos + n..], k)
  {
    var n := if |s| - pos <= k then |s| - pos else k;
    assert s[pos..] != [];
    assert slices[j] == slices[j..][0] && slices[j + 1..] == slices[j..][1..];
    assert s[pos..][..n] == s[pos..pos + n] && s[pos..][n..] == s[pos + n..];
    assert |s[pos..]| <= k ==> s[pos..] == s[pos..pos + n];
  }

  lemma SlicesEnd<T>(s: seq<T>, k: nat)
    requires k > 0 && Slices(s, k) == []
    ensures s == []
  {
  }
}
